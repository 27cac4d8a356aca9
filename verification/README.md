# Personal agent: verified model of its stateful cores

This project models, in Dafny 4.11, the parts of the personal agent whose correctness depends on
more than one call: the crash-safe task supervisor, the streaming dictation protocol, the on-disk
phrase cache, the model memory arbiter, the Moonshine audio queue and the two streaming audio
transformers. `dafny verify dfyconfig.toml` checks everything.

Where the source updates fields in place, the model is a class whose methods are proved equal to a
transition function on values; what the source promises is then proved of every run of those
transitions. Where two threads or a crash interleave with the code, the model is a state machine
whose steps are the code's atomic actions.

| component | files |
|---|---|
| task graphs and `DurableSupervisor` | `TaskGraphs`, `Supervisor`, `SupervisorSafety`, `SupervisorRecovery`, `SupervisorProgress`, `SupervisorLifeCycle`, `DurableSupervisor` |
| dictation engine and in-app buffer | `Utf16`, `DictationEngine`, `DictationBuffer`, `DictationSync` |
| phrase cache | `PhraseCodec`, `PhraseIndex`, `PhraseStore`, `PhraseCache`, `PhraseText` |
| model arbiter | `ModelArbiter` |
| audio streaming | `MoonshineQueue`, `Resampler`, `VoiceActivity` |
| shared vocabulary | `Collections` |

## Main results

- **Supervisor.** One invariant (`SupervisorSafety.Safe`) survives every transition, crash and
  recovery included, and every method of the class keeps it. From it follow: dependencies of every
  running, waiting, failed or completed task are completed; completion and receipts are final; a
  consequential task is completed exactly when a verified receipt naming it sits under its key;
  `attempt` counts the grants ever made; the running lane is duplicate-free, exact and bounded;
  recovery is live failure of everything running; a scheduler that stalls stalls because of a named
  blocker; and a queued graph drains completely, accepting exactly one completion per task, in
  topological order. Between operations nothing moves: a task keeps its status and data over any run
  until an operation that moves it, cancellation is for ever, and what each operation makes possible
  next is settled by an if-and-only-if.
- **Dictation.** The UTF-16 diff is exact and never splits a surrogate pair. Stability counters equal
  the history of the transaction. Engine and document stay in step over every run of partials, finals
  and harmless commands, and which commands are harmless is settled by an if-and-only-if. Over every
  run of any commands and keyboard edits the document at least ends with exactly the current
  provisional text, from each final until an edit made while such text is shown. Each edit is
  described by what it does to the document, undo takes back exactly one, and committed, restored or
  typed text is out of reach of later revisions. Speech is rendered in the mode last commanded.
- **Phrase cache.** After a crash between any two file-system actions of a put, a get or an opening,
  any number of times, reopening gives an index that agrees with the files, fits the budget, and
  returns for every hit the phrase last stored under that key. Over all such runs the timestamp index
  is the recency list of a reference LRU, from which a crash only drops phrases: none during a get, at
  most the victims and the new phrase during a put.
- **Arbiter.** Residency never exceeds the ceiling under any interleaving with stale plans, planning
  denies exactly when pinned memory leaves no room, and evicts the shortest sufficient prefix. A model
  in use is never evicted, and leases count activations less releases over every run. For the six
  declared models the ceiling holds without any hypothesis.
- **Audio.** The queue's sample counter is exact in every interleaving of the two threads, a
  successful stop means everything accepted was fed once and in order, and the one way to get stuck is
  characterised; every recording of frames that fit the queue can be stopped, and success or failure is reported only when earned.
  Resampling and speech windows do not depend on how the input was cut, and a straight line is
  resampled to itself.

## Where a promise does not hold as stated

- `recover` looks a receipt up by key without comparing its task. Two tasks sharing a consequential
  one's key make it complete work nobody performed (`SupervisorRecovery.SharedKeyCompletesUnperformedWork`);
  that no task shares the key of a consequential one is therefore part of the invariant, and recovery
  equals live failure exactly when no running task's key leads to a verified receipt
  (`RecoveryAgreesIffNoReceipt`).
- `new` checks neither statuses nor attempts, and accepts graphs in a state no run could have reached
  (`SupervisorSafety.NewAcceptsUnreachableState`). Its result is safe exactly on the graphs described by
  `Startable` (`FreshSafeIffStartable`).
- A mode switch after a partial leaves the transaction's separator in the document while the engine
  forgets it (`DictationSync.ModeSwitchAfterPartialGoesOutOfStep`). A spoken line break always leaves
  the two sides out of step, because the engine never records its text, and so does an undo after a
  commit, because the engine keeps the utterance (`UndoAfterCommitGoesOutOfStep`); `RunStaysInStep` says
  nothing from there on, and `RunTracksTail` still does. The exact condition for each command is `ControlKeepsStepIff`.
- A keyboard edit while provisional text is shown makes the next revision lose the part the diff
  retains (`DictationSync.EditLosesRetainedPrefix`, exact conditions in `SyncKeepsTailIff` and
  `RevisionAfterEditIff`). The next final repairs the correspondence (`FinalRestoresTail`).
- The projection that a commit compares with the ceiling is exact if and only if adding the request
  does not saturate the 32-bit counter (`ModelArbiters.ProjectionIsExactIff`). With the declared models
  it never does (`LocalRunIsSafe`).
- The probability reported by a speech-detection call depends on how the stream was cut, although the
  window probabilities do not (`VoiceActivity.ReportDependsOnChunks`, exact condition in
  `ReportAgreesIff`).
- A `NaN` from the speech network is reported as probability 1, because comparisons with it are false
  (`VoiceActivity.ProbabilityClampsIff`).
- With the worker gone and the queue full, the stop job of a Moonshine stream can never be queued and
  nothing else can happen; in the source only the put timeout ends the call
  (`MoonshineQueue.StuckIffBlocked`, `SomeRunBlocks`).

## Model

| member | source | states |
|---|---|---|
| `TaskGraphs.TopologicalSort` | crates/agent/src/lib.rs:222-235 | a topological order of exactly the given tasks is found if and only if no path of edges returns to its start |
| `TaskGraphs.TopologicalMeansAcyclic` | crates/agent/src/lib.rs:212-237 | any dependencies-first order rules out every cycle, of any length |
| `TaskGraphs.NoSourceMeansCycle` | crates/agent/src/lib.rs:212-237 | a non-empty set of tasks in which every task waits for another of the set contains a cycle |
| `TaskGraphs.SourceExists` | crates/agent/src/lib.rs:212-237 | in an acyclic graph every non-empty set of tasks has one that waits for nothing in the set |
| `TaskGraphs.CheckOwnership` | crates/agent/src/lib.rs:213-221 | accepted if and only if every task belongs to the graph's goal; otherwise the error names the first foreign task in id order, its goal and the expected one |
| `TaskGraphs.CheckReferences` | crates/agent/src/lib.rs:226-234 | accepted if and only if both ends of every edge exist; otherwise the error names the first missing end of the first such edge |
| `TaskGraphs.Validate` | crates/agent/src/lib.rs:212-237 | succeeds exactly on graphs with one goal, existing references and no cycle; otherwise the error is the first of those three that fails, fully determined |
| `Supervisors.CountRunningIsCardinality` | crates/agent/src/lib.rs:387-393 | counting statuses along a duplicate-free listing is the number of running tasks |
| `Supervisors.FilteredIsExact` | crates/agent/src/lib.rs:395-415 | filtering lists exactly the ready tasks, and keeps ascending order |
| `SupervisorSafety.FreshSafeIffStartable` | crates/agent/src/lib.rs:285-312 | a supervisor made by `new` is safe if and only if, besides a valid graph and no key shared with a consequential task, nothing claims to run, attempts are within limits, started tasks have completed dependencies and no consequential task is already completed |
| `SupervisorSafety.NewAcceptsUnreachableState` | crates/agent/src/lib.rs:285-312 | a validated graph on which `new` yields an unsafe supervisor: its one task runs outside the lane, blocks the only slot, and is completed without ever having been granted an attempt |
| `SupervisorSafety.QueuedGraphIsStartable` | crates/agent/src/lib.rs:285-312 | a valid graph of untouched queued tasks with distinct keys is such a graph |
| `SupervisorSafety.StartIsTransition` | crates/agent/src/lib.rs:422-460 | a granted start adds one attempt to one task, changes no other, and keeps the running lane exact and within the parallelism bound |
| `SupervisorSafety.CompleteIsTransition` | crates/agent/src/lib.rs:468-516 | an accepted completion finishes one running task and adds at most its own receipt, leaving all earlier receipts |
| `SupervisorSafety.LeavingIsTransition` | crates/agent/src/lib.rs:523-713 | failure, approval wait, pause and cancel take a task off the lane without starting, completing or unfreezing anything |
| `SupervisorSafety.ReturningIsTransition` | crates/agent/src/lib.rs:594-609 | resuming after approval, which never looks at dependencies, still only runs a task whose dependencies are completed |
| `SupervisorSafety.StayingIsTransition` | crates/agent/src/lib.rs:546-693 | binding a checkpoint, resuming and retrying leave lane, attempts and receipts alone |
| `SupervisorSafety.RecoveryIsTransition` | crates/agent/src/lib.rs:320-363 | a crash followed by recovery from the persisted snapshot obeys the same frame as a live transition |
| `SupervisorSafety.PausingIsTransition` | crates/agent/src/lib.rs:716-726 | pausing everything empties the lane and touches no completed task |
| `SupervisorSafety.CancellingIsTransition` | crates/agent/src/lib.rs:738-745 | cancelling everything empties the lane and touches no completed task |
| `SupervisorSafety.PreemptingIsTransition` | crates/agent/src/lib.rs:748-754 | preempting for the user empties the lane and touches no completed task |
| `SupervisorSafety.ResumingIsTransition` | crates/agent/src/lib.rs:729-735 | resuming everything starts nothing and completes nothing |
| `SupervisorSafety.RunningHasNoReceipt` | crates/agent/src/lib.rs:468-516 | in a safe state no receipt sits under the key of a task still running |
| `SupervisorSafety.RecoverTasksIsSimultaneous` | crates/agent/src/lib.rs:332-355 | walking the running order one task at a time equals revising all of them at once |
| `SupervisorSafety.EveryTransitionIsFramed` | crates/agent/src/lib.rs:320-762 | every operation, successful or refused, changes at most what its frame allows: one grant or one completion, never a completed task, never an existing receipt |
| `SupervisorSafety.TransitionKeepsSafe` | crates/agent/src/lib.rs:320-762 | every operation in every safe state leads to a safe state |
| `SupervisorSafety.RunIsSafe` | crates/agent/src/lib.rs:285-762 | every run of any operations, with any number of crashes, stays safe: slots exact and bounded, dependencies completed, attempts bounded, receipts sound |
| `SupervisorSafety.CompletedAndReceiptsAreFinal` | crates/agent/src/lib.rs:320-762 | between any two points of any run, completed tasks and written receipts are identical |
| `SupervisorSafety.CompletedIffReceipted` | crates/agent/src/lib.rs:332-355 | at every point of every run a consequential task is completed if and only if a verified receipt naming it sits under its key |
| `SupervisorSafety.AttemptsAndCompletionsAreExact` | crates/agent/src/lib.rs:422-516 | over any run a task's attempt grows by exactly the grants it received and stays within its limit, and its completion is accepted at most once, exactly if it ends completed |
| `SupervisorRecovery.FailInOrderIsSimultaneous` | crates/agent/src/lib.rs:523-540 | reporting provider failure task by task equals failing all of them at once |
| `SupervisorRecovery.RecoveryIsCleanAndIdempotent` | crates/agent/src/lib.rs:320-363 | recovery leaves nothing running, keeps attempts and receipts, and recovering again changes nothing |
| `SupervisorRecovery.RecoveryAgreesIffNoReceipt` | crates/agent/src/lib.rs:332-355 | recovery equals live failure of the whole lane if and only if no running task's key leads to a verified receipt |
| `SupervisorRecovery.RecoveryRefinesFailure` | crates/agent/src/lib.rs:320-540 | on every snapshot reachable in any run, recovery gives the state that folding provider failure over the lane gives |
| `SupervisorRecovery.SharedKeyCompletesUnperformedWork` | crates/agent/src/lib.rs:343-353 | a run with two tasks under one key in which recovery completes one that no completion was ever reported for |
| `SupervisorProgress.SlotCountsAgree` | crates/agent/src/lib.rs:387-394 | the free slots computed from statuses equal those computed from the running lane |
| `SupervisorProgress.StallIffEveryQueuedTaskIsBlocked` | crates/agent/src/lib.rs:386-415 | with a slot free, nothing is ready if and only if each queued task depends, through any chain, on an unfinished task that is not queued |
| `SupervisorProgress.QueuedWorkIsReady` | crates/agent/src/lib.rs:386-415 | if all unfinished tasks are queued and there is one, something is ready |
| `SupervisorProgress.ReadyTasksAreABatch` | crates/agent/src/lib.rs:386-404 | one answer lists distinct ready tasks that all fit in the free slots together |
| `SupervisorProgress.ReadyBatchStarts` | crates/agent/src/lib.rs:386-460 | starting a whole ready answer in order, each start is granted, or refused only for used-up attempts or a missing key; never for readiness, slots, dependencies or existence |
| `SupervisorProgress.OpsFollowRounds` | crates/agent/src/lib.rs:386-516 | the flat operation list of the rounds leads to the same state as the rounds, and the completions it gets accepted are those of the tasks started, in the same order |
| `SupervisorProgress.DrainFinishesEverything` | crates/agent/src/lib.rs:386-516 | whatever results and fingerprints the workers report, the operations of the rounds finish every task; the run accepts exactly one completion of each unfinished task and no other, in a topological order |
| `SupervisorProgress.FreshGraphDrains` | crates/agent/src/lib.rs:212-516 | a validated queued graph with attempts left and distinct keys ends with every task completed, after exactly as many accepted completions as tasks, one each, dependencies first |
| `SupervisorProgress.ReadyFillsSlots` | crates/agent/src/lib.rs:386-404 | the answer holds as many ready tasks as slots are free, all of them if they fit, in ascending order, and a ready task left out has a larger id than every one listed |
| `SupervisorLifeCycle.StaysUntilMoved` | crates/agent/src/lib.rs:422-762 | over any run, crashes included, a task keeps its status and all its data, checkpoints apart, until an operation that moves it from that status; completed and cancelled tasks are never moved |
| `SupervisorLifeCycle.CancelledIsFinal` | crates/agent/src/lib.rs:655-745 | no run touches a cancelled task |
| `SupervisorLifeCycle.CancelIsForEver` | crates/agent/src/lib.rs:655-745 | cancelling, alone or with everything, is accepted for whatever is not completed or cancelled, and the task is then cancelled at the end of every run |
| `SupervisorLifeCycle.StartAnswers` | crates/agent/src/lib.rs:422-460 | each of the seven answers of a start, by an if-and-only-if |
| `SupervisorLifeCycle.FailureRequeuesIff` | crates/agent/src/lib.rs:523-540 | after a provider failure the next start is granted exactly if an attempt is left and work with lasting effects has a key; exactly otherwise an approval resumes it |
| `SupervisorLifeCycle.RecoveryRequeuesIff` | crates/agent/src/lib.rs:332-355 | the same after crash and recovery, for every task that was running |
| `SupervisorLifeCycle.ReceiptCompletesOnRecovery` | crates/agent/src/lib.rs:332-355 | from any recoverable snapshot, reachable or not, a running task is completed exactly if its key leads to a verified receipt, and otherwise queued exactly if it may be tried again, else waiting |
| `SupervisorLifeCycle.RecoverableIff` | crates/agent/src/lib.rs:320-378 | recovery succeeds exactly for schema 1, one to eight workers, a depth of at least one and a duplicate-free order of running tasks, and keeps clock, edges and receipts |
| `SupervisorLifeCycle.CompletionIsOnRecord` | crates/agent/src/lib.rs:468-516 | a completion is accepted exactly for verified running work with, if consequential, key and fingerprint; result and receipt are then on record at every later point of every run |
| `SupervisorLifeCycle.ReceiptsAreWrittenOnce` | crates/agent/src/lib.rs:487-509 | in any state no completion alters a receipt; a key on record for another task or effect is refused without change, one on record for the same effect completes the task |
| `SupervisorLifeCycle.ApprovalRoundTrip` | crates/agent/src/lib.rs:568-609 | waiting for approval and resuming restores the supervisor, with the task last in the lane |
| `SupervisorLifeCycle.PauseThenResume` | crates/agent/src/lib.rs:615-649 | pausing is accepted exactly for what has not ended, and resuming queues the same task with attempts and checkpoint intact |
| `SupervisorLifeCycle.PauseAllThenResumeAll` | crates/agent/src/lib.rs:716-735 | pausing and resuming everything queues exactly the tasks that had not ended |
| `SupervisorLifeCycle.PreemptThenResumeAll` | crates/agent/src/lib.rs:729-754 | preempting pauses exactly the running tasks: resuming everything queues them and the ones paused before |
| `SupervisorLifeCycle.FailThenRetry` | crates/agent/src/lib.rs:674-713 | a failed task keeps its result; it can be retried exactly if an attempt is left, and then started exactly if a slot is free and consequential work has a key |
| `SupervisorLifeCycle.RetryAnswers` | crates/agent/src/lib.rs:674-693 | each answer of a retry, by an if-and-only-if; exhausted attempts are reported whatever the status |
| `SupervisorLifeCycle.CheckpointKept` | crates/agent/src/lib.rs:546-562 | every transition keeps the checkpoint of every task, except binding one to an active or suspended task and an accepted retry, which forgets it |
| `SupervisorLifeCycle.ClockIsSumOfAdvances` | crates/agent/src/lib.rs:757-762 | over any run the clock is the sum of the advances, up to the 64-bit maximum |
| `DurableSupervisors.FilterReady` | crates/agent/src/lib.rs:395-403 | the filter loop computes the ready list whose exactness is proved |
| `DurableSupervisors.ReviseEach` | crates/agent/src/lib.rs:716-745 | the loop over all tasks revises each exactly once and adds or drops none |
| `DurableSupervisors.DurableSupervisor.New` | crates/agent/src/lib.rs:285-312 | succeeds exactly for a valid graph and bounds, with an empty lane and no receipts, safe exactly on startable graphs; otherwise reports the first failing check |
| `DurableSupervisors.DurableSupervisor.RecoverFrom` | crates/agent/src/lib.rs:320-363 | succeeds exactly for a valid graph and a recoverable snapshot, with the recovered state, about which `RecoverableIff`, `ReceiptCompletesOnRecovery` and `RecoveryRequeuesIff` are proved; otherwise reports schema, graph, lane or bounds error, whichever comes first |
| `DurableSupervisors.DurableSupervisor.RunningCount` | crates/agent/src/lib.rs:387-393 | the counting loop returns the number of running tasks |
| `DurableSupervisors.DurableSupervisor.Ready` | crates/agent/src/lib.rs:386-404 | returns the ready list, which by `ReadyFillsSlots` is the smallest ready ids, as many as slots are free |
| `DurableSupervisors.DurableSupervisor.Start` | crates/agent/src/lib.rs:422-460 | the in-place start is the start transition, refusals and waits included, and a safe supervisor stays safe |
| `DurableSupervisors.DurableSupervisor.Complete` | crates/agent/src/lib.rs:468-516 | the in-place completion is the completion transition, receipt and refusals included, and a safe supervisor stays safe |
| `DurableSupervisors.DurableSupervisor.ProviderFailed` | crates/agent/src/lib.rs:523-540 | the in-place update is the provider-failure transition, which requeues exactly as `FailureRequeuesIff` says, and a safe supervisor stays safe |
| `DurableSupervisors.DurableSupervisor.BindCheckpoint` | crates/agent/src/lib.rs:546-562 | the in-place update is the checkpoint transition, and a safe supervisor stays safe |
| `DurableSupervisors.DurableSupervisor.AwaitApproval` | crates/agent/src/lib.rs:568-588 | the in-place update is the approval-wait transition, and a safe supervisor stays safe |
| `DurableSupervisors.DurableSupervisor.ResumeAfterApproval` | crates/agent/src/lib.rs:594-609 | the in-place update is the approval-resume transition, with its own slot test, and a safe supervisor stays safe |
| `DurableSupervisors.DurableSupervisor.Pause` | crates/agent/src/lib.rs:615-631 | the in-place update is the pause transition, and a safe supervisor stays safe |
| `DurableSupervisors.DurableSupervisor.Resume` | crates/agent/src/lib.rs:637-649 | the in-place update is the resume transition, and a safe supervisor stays safe |
| `DurableSupervisors.DurableSupervisor.Cancel` | crates/agent/src/lib.rs:655-668 | the in-place update is the cancel transition, and a safe supervisor stays safe |
| `DurableSupervisors.DurableSupervisor.Retry` | crates/agent/src/lib.rs:674-693 | the in-place update is the retry transition, and a safe supervisor stays safe |
| `DurableSupervisors.DurableSupervisor.Fail` | crates/agent/src/lib.rs:699-713 | the in-place update is the fail transition, and a safe supervisor stays safe |
| `DurableSupervisors.DurableSupervisor.PauseAll` | crates/agent/src/lib.rs:716-726 | the loop over all tasks is the pause-all transition, and a safe supervisor stays safe |
| `DurableSupervisors.DurableSupervisor.ResumeAll` | crates/agent/src/lib.rs:729-735 | the loop over all tasks is the resume-all transition, and a safe supervisor stays safe |
| `DurableSupervisors.DurableSupervisor.CancelAll` | crates/agent/src/lib.rs:738-745 | the loop over all tasks is the cancel-all transition, and a safe supervisor stays safe |
| `DurableSupervisors.DurableSupervisor.PreemptForUser` | crates/agent/src/lib.rs:748-754 | the loop over the lane is the preemption transition, and a safe supervisor stays safe |
| `DurableSupervisors.DurableSupervisor.AdvanceVirtualTime` | crates/agent/src/lib.rs:757-762 | only the virtual clock changes, and a safe supervisor stays safe |
| `Utf16.EncodeConcat` | crates/audio/src/dictation.rs:657-683 | encoding to UTF-16 distributes over concatenation of scalar strings |
| `Utf16.ScalarCutSplitsNoPair` | crates/audio/src/dictation.rs:657-683 | a cut between two characters is never between the two halves of a surrogate pair |
| `Utf16.CommonPrefixIsLongest` | crates/audio/src/dictation.rs:663-667 | the shared prefix is shared, and no longer one exists |
| `Utf16.DiffIsExact` | crates/audio/src/dictation.rs:657-683 | replaying the diff on the encoding of the old text gives the encoding of the new one; it cuts at a character boundary, deletes everything behind it and retains the longest common prefix |
| `Utf16.DecodeEncode` | crates/audio/src/dictation.rs:676-682 | decoding the UTF-16 units of a string gives the string back |
| `DictationBuffers.LastIndexOf` | apps/desktop/src/dictation.ts:433-446 | the position found is an occurrence and no later one exists; none found means none exists |
| `DictationBuffers.LastIndexOfSuffix` | apps/desktop/src/dictation.ts:433-446 | in a text ending with the phrase, the last occurrence is that ending, whatever precedes it |
| `DictationBuffers.ReplacesExactlyOne` | apps/desktop/src/dictation.ts:433-446 | replacing one occurrence replaces exactly the first or last there is, and leaves a text without any untouched |
| `DictationBuffers.SplitIsExact` | apps/desktop/src/dictation.ts:440-440 | the pieces joined again with the phrase are the text and none contains the phrase, so replacing all misses none and changes nothing else |
| `DictationBuffers.InsertBeforeOnlyAdds` | apps/desktop/src/dictation.ts:376-388 | inserting before an anchor keeps all text and adds the new text and one space directly before the chosen occurrence |
| `DictationBuffers.InsertAfterOnlyAdds` | apps/desktop/src/dictation.ts:376-388 | inserting after an anchor keeps all text and adds one space and the new text directly behind the chosen occurrence |
| `DictationBuffers.OutdentUndoesIndent` | apps/desktop/src/dictation.ts:405-421 | indenting the last line and outdenting it by as many levels gives the text back |
| `DictationBuffers.UndoRestores` | apps/desktop/src/dictation.ts:428-430 | undo takes back exactly one edit of any kind and leaves the earlier history |
| `DictationBuffers.UndoRevertsCommit` | apps/desktop/src/dictation.ts:344-365 | undo after a commit returns to the text the transaction started from |
| `DictationBuffers.ApplyAllConcat` | apps/desktop/src/dictation.ts:310-313 | applying two batches in turn is applying their concatenation |
| `DictationBuffers.InAppDictationBuffer.ApplyOperation` | apps/desktop/src/dictation.ts:323-426 | every branch, in place, yields the specified text, transaction map and undo stack, about which the edit, undo and tail laws are proved |
| `DictationBuffers.InAppDictationBuffer.Apply` | apps/desktop/src/dictation.ts:310-313 | the loop applies all operations in order and returns the resulting text |
| `DictationBuffers.ReplaceLiteralReplacesOne` | apps/desktop/src/dictation.ts:366-375 | replacing the first or last occurrence puts the replacement exactly there, and changes nothing if there is none |
| `DictationBuffers.ReplaceLiteralReplacesAll` | apps/desktop/src/dictation.ts:366-375 | replacing all occurrences replaces the first there is and all in the text behind it |
| `DictationBuffers.NothingToReplace` | apps/desktop/src/dictation.ts:433-446 | text without the words searched for stays as it is, whichever occurrence was meant |
| `DictationBuffers.FormatRewritesLast` | apps/desktop/src/dictation.ts:393-404 | formatting rewrites the last place where the utterance stands and nothing else |
| `DictationBuffers.IndentMovesLine` | apps/desktop/src/dictation.ts:405-414 | indenting puts four spaces a level before the last line |
| `DictationBuffers.OutdentMovesLine` | apps/desktop/src/dictation.ts:405-422 | outdenting removes at most four leading white space units a level, and nothing else |
| `DictationBuffers.OthersRememberNothing` | apps/desktop/src/dictation.ts:323-430 | operations other than edits, commits and undo leave the undo stack alone, and of them only a provisional revision changes anything |
| `DictationBuffers.SealedTextIsKept` | apps/desktop/src/dictation.ts:325-365 | after a commit or an undo, a revision under the same transaction only appends: it cannot reach committed or restored text |
| `DictationBuffers.UndoLeavesTyping` | apps/desktop/src/dictation.ts:303-308 | undo never takes back a keyboard edit |
| `DictationEngines.RunsExtendHistory` | crates/audio/src/dictation.rs:562-579 | a counter equals the saturated length of the current streak of equal words at its position, and reaches two exactly if the last two updates agree there |
| `DictationEngines.StabilityIsHistoryExact` | crates/audio/src/dictation.rs:505-551 | a token is stable if and only if the event is final or the previous update had the same word there; tokens are the words in order, and the stable prefix never exceeds the rendered length |
| `DictationEngines.RunsCountHistory` | crates/audio/src/dictation.rs:562-579 | after any sequence of partials each counter is the smaller of 255 and the number of most recent consecutive updates agreeing at its position |
| `DictationEngines.ConsecutiveUtterancesSeam` | crates/audio/src/dictation.rs:635-654 | two utterances in a row are joined by exactly one space, or none exactly where the characters that meet call for none, whatever was said before |
| `DictationEngines.LayoutSuppressesOnce` | crates/audio/src/dictation.rs:603-639 | after a line break or indent command the next utterance is committed without a space, and the suppression is used up |
| `DictationEngines.DictationEngine.UpdateStability` | crates/audio/src/dictation.rs:562-579 | the loop leaves the counters that `RunsExtendHistory` is about |
| `DictationEngines.DictationEngine.ApplyControls` | crates/audio/src/dictation.rs:581-625 | the loop over a command's operations yields the specified engine state and operations |
| `DictationEngines.DictationEngine.StartNextTransaction` | crates/audio/src/dictation.rs:627-633 | a new transaction begins with no rendered text, tokens, counters or prefix |
| `DictationEngines.DictationEngine.IngestEvent` | crates/audio/src/dictation.rs:484-560 | a malformed event is refused and changes nothing; any other yields the specified update and state |
| `DictationEngines.StablePrefixEndsAtWord` | crates/audio/src/dictation.rs:522-528 | for words one space apart, the stable prefix ends exactly before the first unstable word, and at the end if all are stable |
| `DictationEngines.ModeStep` | crates/audio/src/dictation.rs:603-606 | the mode changes exactly by a mode command, at once, and the update reports it |
| `DictationEngines.OthersSuppressNothing` | crates/audio/src/dictation.rs:603-614 | commands other than insertions and indents leave a pending separator suppression as it was |
| `DictationEngines.UpdateReports` | crates/audio/src/dictation.rs:484-559 | an update carries the transaction it belongs to, whether it ends it, and the text shown, rendered in the mode then set; a command without text or operation ends in an undo |
| `DictationSync.FreshSystemInStep` | crates/audio/src/dictation.rs:452-459 | a new engine is in step with any initial document |
| `DictationSync.TailRevises` | apps/desktop/src/dictation.ts:325-342 | replaying a tail revision turns the document's provisional end from the old rendering into the new and touches nothing before it |
| `DictationSync.PlainShape` | crates/audio/src/dictation.rs:484-560 | an utterance without a command emits one tail revision, and a commit exactly when a final has text; the engine records what it committed |
| `DictationSync.PlainKeepsStep` | crates/audio/src/dictation.rs:484-560 | every partial and every plain final keeps engine and document in step |
| `DictationSync.CommitSettles` | apps/desktop/src/dictation.ts:344-350 | committing turns provisional text into committed text on both sides |
| `DictationSync.ControlShape` | crates/audio/src/dictation.rs:581-633 | a spoken command first restores exactly the transaction prefix, then does its own operation in a fresh transaction |
| `DictationSync.ScratchValue` | apps/desktop/src/dictation.ts:351-359 | scratching removes as much as the last utterance, and exactly it when no prefix is left over |
| `DictationSync.ControlKeepsStepIff` | crates/audio/src/dictation.rs:581-633 | a mode switch, scratch, undo or text insertion keeps both sides in step if and only if a condition on the state before it holds: no leftover prefix for a switch or scratch, an undo stack that would restore the settled text for an undo, and never for a line break |
| `DictationSync.ModeSwitchLeavesPrefix` | crates/audio/src/dictation.rs:501-504 | after a mode switch the document is the committed text plus exactly the transaction prefix |
| `DictationSync.RunStaysInStep` | crates/audio/src/dictation.rs:484-633 | over every run of partials, finals and harmless commands the document is initial text, committed utterances and current rendering, in that order |
| `DictationSync.FinalRestoresTail` | crates/audio/src/dictation.rs:484-633 | every final, speech or command, begins a transaction whose provisional text is again exactly the end of the document, even if it was not before |
| `DictationSync.RunIsCoherent` | crates/audio/src/dictation.rs:484-633 | over every run of any recognition events, any spoken commands and any keyboard edits, the buffer knows no transaction to come and a prefix stands only before text |
| `DictationSync.RunTracksTail` | crates/audio/src/dictation.rs:484-633 | over every such run the document ends with exactly the current provisional text from each accepted final on, until a keyboard edit changes it while such text is shown |
| `DictationSync.SyncKeepsTailIff` | apps/desktop/src/dictation.ts:303-308 | a keyboard edit keeps that correspondence if and only if it changes nothing or no provisional text is shown |
| `DictationSync.RevisionAfterEditIff` | apps/desktop/src/dictation.ts:325-342 | after a changing edit the next revision appends only the inserted part of the diff, which is the whole new text if and only if old and new share no prefix |
| `DictationSync.EditLosesRetainedPrefix` | apps/desktop/src/dictation.ts:303-342 | with "ab" shown, typing an X and a revision to "abc" leaves "abXc" |
| `DictationSync.ModeSwitchAfterPartialGoesOutOfStep` | crates/audio/src/dictation.rs:501-504 | a three-event run after which engine and document disagree |
| `DictationSync.UndoReturnsTo` | crates/audio/src/dictation.rs:717-722 | an undo command takes the document to the top of the undo stack and leaves the committed history, so the sides stay in step if and only if that was the settled text |
| `DictationSync.UndoAfterCommitGoesOutOfStep` | crates/audio/src/dictation.rs:581-633 | after any committed utterance an undo command takes exactly it out of the document while the engine keeps it, and the sides are out of step |
| `DictationSync.InsertedTextGoesLast` | crates/audio/src/dictation.rs:581-624 | a spoken insertion appears at the end of the document, behind committed text and separator |
| `DictationSync.FormatCommandFormatsLast` | crates/audio/src/dictation.rs:597-599 | a format command rewrites the utterance committed last and nothing before it |
| `DictationSync.ModeIsLastCommanded` | crates/audio/src/dictation.rs:581-606 | after any events the mode is the one last commanded |
| `DictationSync.UtteranceUsesCommandedMode` | crates/audio/src/dictation.rs:495-503 | after any events the next utterance is committed as rendered in the mode last commanded |
| `PhraseCodec.FromLeToLe` | crates/audio/src/cache.rs:392-395 | a number survives little-endian writing and reading whenever it fits the width |
| `PhraseCodec.ToLeFromLe` | crates/audio/src/cache.rs:406-409 | bytes survive little-endian reading and writing |
| `PhraseCodec.UnpackPayload` | crates/audio/src/cache.rs:386-426 | signed 16-bit samples survive packing and unpacking |
| `PhraseCodec.PayloadUnpack` | crates/audio/src/cache.rs:421-426 | an even number of payload bytes survives unpacking and packing |
| `PhraseCodec.HeaderFields` | crates/audio/src/cache.rs:390-411 | each header field is found at its offset and the payload starts at byte 56 |
| `PhraseCodec.Encode` | crates/audio/src/cache.rs:370-399 | filling the buffer field by field gives the specified entry |
| `PhraseCodec.DecodeEncode` | crates/audio/src/cache.rs:370-432 | encoding succeeds exactly for valid phrases, and decoding gives the phrase back |
| `PhraseCodec.EncodeDecode` | crates/audio/src/cache.rs:401-432 | any bytes that decode hold a valid phrase and re-encode to themselves except that bytes 14 and 15 become zero |
| `PhraseCodec.FramedFieldIsPrefixFree` | crates/audio/src/cache.rs:48-64 | a length-framed field can be read off the front in only one way |
| `PhraseCodec.PreimageIsInjective` | crates/audio/src/cache.rs:48-64 | different key fields never give the same digest input |
| `PhraseCodec.EntryLayout` | crates/audio/src/cache.rs:386-397 | an entry is 56 header bytes, beginning with the magic, and two bytes a sample, low byte first |
| `PhraseIndexes.LeastRecentlyUsed` | crates/audio/src/cache.rs:112-118 | the victim is older than every other entry, ties going to the smaller digest |
| `PhraseIndexes.LruIsLast` | crates/audio/src/cache.rs:112-118 | the victim is the tail of the recency list, and dropping both keeps the refinement |
| `PhraseIndexes.EvictRefines` | crates/audio/src/cache.rs:290-298 | evicting by timestamps is trimming the recency list from its tail |
| `PhraseIndexes.TrimIsLongestFit` | crates/audio/src/cache.rs:290-298 | what eviction keeps is the longest front part of the recency list within the budget |
| `PhraseIndexes.FrontSurvives` | crates/audio/src/cache.rs:237-268 | an entry that fits the budget alone survives the eviction it causes |
| `PhraseIndexes.EvictFits` | crates/audio/src/cache.rs:290-298 | accounted bytes are within the capacity after eviction, from any index |
| `PhraseIndexes.StoreRefines` | crates/audio/src/cache.rs:237-268 | storing moves the phrase to the front and trims; the phrase is kept with its size and the total fits |
| `PhraseIndexes.HitRefines` | crates/audio/src/cache.rs:102-108 | a hit moves the phrase to the front and changes no size |
| `PhraseIndexes.ForgetRefines` | crates/audio/src/cache.rs:207-228 | forgetting a phrase drops just it from the list |
| `PhraseIndexes.KeepRefines` | crates/audio/src/cache.rs:309-316 | losing any phrases from the index is losing them from the recency list, the rest staying in order |
| `PhraseIndexes.RunRefinesRecencyList` | crates/audio/src/cache.rs:95-268 | over every sequence of stores, hits and misses the timestamp index stays the recency list of a reference LRU |
| `PhraseIndexes.RecencyListIsUnique` | crates/audio/src/cache.rs:82-118 | an index refines only one recency list |
| `PhraseIndexes.EvictsOldestFirst` | crates/audio/src/cache.rs:290-298 | whatever is evicted was used before whatever stays, or at the same time and has the smaller digest |
| `PhraseStores.WriteAtomicReplaces` | crates/audio/src/cache.rs:434-456 | an atomic write puts the bytes under the target and disturbs no other file but its temporary |
| `PhraseStores.EvictionIsConsistent` | crates/audio/src/cache.rs:290-298 | eviction keeps index and files in agreement, whatever it removes |
| `PhraseStores.EvictionTouches` | crates/audio/src/cache.rs:290-298 | eviction deletes only files of entries it drops from the index |
| `PhraseStores.RebuildIsExact` | crates/audio/src/cache.rs:336-362 | a rebuilt index lists exactly the listed files that exist, with their sizes |
| `PhraseStores.LoadIsConsistent` | crates/audio/src/cache.rs:302-334 | loading agrees with the files afterwards and invents or alters no file |
| `PhraseStores.ReopenIsConsistent` | crates/audio/src/cache.rs:144-166 | opening any directory, whatever state it was left in, gives an index whose keys are exactly the entry files, with matching sizes, within capacity, and persisted |
| `PhraseStores.RebuildRefines` | crates/audio/src/cache.rs:336-362 | the index rebuilt from a directory is the recency list of its files in the order listed |
| `PhraseTexts.LawfulCodecExists` | crates/audio/src/cache.rs:302-307 | the round trip assumed of the index text is one that some encoding has, for every hash |
| `PhraseCaches.PutPrefixGenuine` | crates/audio/src/cache.rs:237-268 | after any number of a put's file-system actions every entry file holds a complete encoding of the phrase last stored there |
| `PhraseCaches.PutPrefixReadable` | crates/audio/src/cache.rs:237-268 | after any number of a put's actions the index file is readable, and is the old index until the last action |
| `PhraseCaches.GetPrefixReadable` | crates/audio/src/cache.rs:207-228 | the same for the actions of a get |
| `PhraseCaches.HitReturnsLastStored` | crates/audio/src/cache.rs:207-228 | in a sound state a lookup returns the phrase last stored under the digest, and a miss exactly if it is not indexed |
| `PhraseCaches.InterruptionsKeep` | crates/audio/src/cache.rs:144-166 | however often opening is cut short after any of its actions, entry files stay whole and a readable index stays readable and at most forgets phrases |
| `PhraseCaches.OpeningIsSound` | crates/audio/src/cache.rs:144-166 | opening a directory of whole entries makes the cache sound, with the index read or rebuilt |
| `PhraseCaches.FirstOpeningIsSound` | crates/audio/src/cache.rs:144-166 | the first opening of a directory without entries, even after openings cut short, starts a sound cache |
| `PhraseCaches.NextIsSound` | crates/audio/src/cache.rs:144-298 | every put and get, completed or cut off by a crash after any action, any number of openings cut off likewise and a reopening, keeps the cache sound |
| `PhraseCaches.RunIsSound` | crates/audio/src/cache.rs:144-298 | over every run with any crashes the index agrees with the files and the budget, and lookups return what was last stored |
| `PhraseCaches.IndexAfterIsStep` | crates/audio/src/cache.rs:207-268 | what put and get do to the index is one access of the recency model |
| `PhraseCaches.CrashForgetsOnly` | crates/audio/src/cache.rs:144-298 | after a crash the reopened index is the one before or after the operation with some phrases forgotten, uses and clock unchanged |
| `PhraseCaches.RunRefinesRecency` | crates/audio/src/cache.rs:95-298 | over every run of puts and gets with crashes anywhere the index is the recency list of a reference LRU, from which a crash only drops phrases |
| `PhraseCaches.CrashCostsOnlyVictims` | crates/audio/src/cache.rs:237-298 | a crash during a put, and during any number of openings after it, costs at most the phrase being stored and the phrases it evicts; every other phrase survives unchanged |
| `PhraseCaches.CrashDuringGetLosesNothing` | crates/audio/src/cache.rs:207-228 | a crash during a get, and during any number of openings after it, loses no phrase and no file |
| `PhraseCaches.OldestEntry` | crates/audio/src/cache.rs:112-118 | one pass over the entries finds the least recently used |
| `PhraseCaches.AccountedBytes` | crates/audio/src/cache.rs:96-100 | the saturating loop computes the smaller of the true total and the 64-bit maximum |
| `PhraseCaches.EvictLoop` | crates/audio/src/cache.rs:290-298 | the eviction loop reaches the specified entries and files |
| `PhraseCaches.PhraseCache.EvictToCapacity` | crates/audio/src/cache.rs:290-298 | in place, entries, files and performed actions are those of eviction |
| `PhraseCaches.PhraseCache.WriteFile` | crates/audio/src/cache.rs:434-456 | performs exactly the three actions of an atomic write |
| `PhraseCaches.PhraseCache.Put` | crates/audio/src/cache.rs:237-268 | refuses exactly invalid or oversized phrases without touching anything, and otherwise performs the specified actions in order |
| `PhraseCaches.PhraseCache.Get` | crates/audio/src/cache.rs:207-228 | returns the verified entry, updates recency, or forgets an unreadable one, performing the specified actions |
| `PhraseCaches.PhraseCache.OpenAt` | crates/audio/src/cache.rs:144-166 | refuses exactly a zero budget and otherwise yields the reopened index and files |
| `PhraseCaches.StorableIff` | crates/audio/src/cache.rs:237-253 | a put is accepted exactly for valid PCM whose header and samples fit the whole budget |
| `PhraseCaches.OpeningRefines` | crates/audio/src/cache.rs:144-168 | opening a directory without a readable index keeps as many of the files listed last as fit |
| `PhraseCaches.DamagedEntryIsForgotten` | crates/audio/src/cache.rs:207-228 | a get that meets a damaged file is a miss, removes that file and its record, spares all others, and leaves index and files in agreement |
| `ModelArbiters.SortedListIsUnique` | crates/audio/src/arbiter.rs:260-260 | priority order with its tie-break admits only one listing of a set of models |
| `ModelArbiters.SortCandidates` | crates/audio/src/arbiter.rs:252-260 | lists exactly the evictable models in priority order |
| `ModelArbiters.ResidentSplits` | crates/audio/src/arbiter.rs:206-212 | resident memory is pinned memory plus that of the evictable models |
| `ModelArbiters.ChooseUnloads` | crates/audio/src/arbiter.rs:262-269 | the greedy loop stops at the first prefix that fits: every shorter one leaves too much, and failure means all were taken |
| `ModelArbiters.UnavoidableIsPinned` | crates/audio/src/arbiter.rs:251-276 | unless the counter saturates, what a denial reports is the memory in active use plus the request |
| `ModelArbiters.PlanIsCompleteAndCommits` | crates/audio/src/arbiter.rs:232-314 | where the counter does not saturate, a request is denied if and only if it is an unloaded GPU model whose size plus pinned memory exceeds the ceiling; otherwise committing the plan at once succeeds with residency equal to the projection and within the ceiling |
| `ModelArbiters.ProjectionIsExactIff` | crates/audio/src/arbiter.rs:291-305 | the projection compared with the ceiling is the memory resident after the commit if and only if adding the request does not saturate the 32-bit counter |
| `ModelArbiters.CommitIsExact` | crates/audio/src/arbiter.rs:291-314 | a commit loads the requested model, unloads exactly the listed ones, touches no lease, and ends at the projected memory, even for a stale plan |
| `ModelArbiters.CommitIsSafe` | crates/audio/src/arbiter.rs:291-314 | committing any earlier plan in any later state never unloads a model in use, never exceeds the ceiling, and changes nothing if refused |
| `ModelArbiters.StepIsSafe` | crates/audio/src/arbiter.rs:232-356 | every operation keeps memory within the ceiling and active models loaded |
| `ModelArbiters.RunIsSafe` | crates/audio/src/arbiter.rs:232-356 | so does every interleaving of planning, committing of any earlier plan, activating, releasing, unloading and worker resets |
| `ModelArbiters.NewIsSafe` | crates/audio/src/arbiter.rs:180-196 | a new arbiter is safe for any ceiling |
| `ModelArbiters.LocalRunIsSafe` | crates/audio/src/arbiter.rs:44-53 | for the six declared models every interleaving from a new arbiter is safe under every ceiling, and no commit ever saturates the counter |
| `ModelArbiters.LocalPlansAreComplete` | crates/audio/src/arbiter.rs:232-283 | in every such interleaving each plan asked for is denied exactly if the memory in active use leaves no room, and otherwise can be committed at once, ending at its projection within the ceiling |
| `ModelArbiters.ModelArbiter.ResidentVram` | crates/audio/src/arbiter.rs:206-212 | the loop sums the declared memory of the loaded models |
| `ModelArbiters.ModelArbiter.PlanAdmission` | crates/audio/src/arbiter.rs:232-283 | in every state the answer is the one `PlanIsCompleteAndCommits` speaks about: already loaded, CPU, denied, or the shortest sufficient eviction prefix, saturation included |
| `ModelArbiters.ModelArbiter.CommitAdmission` | crates/audio/src/arbiter.rs:291-314 | the in-place commit is the commit transition, refusals included |
| `ModelArbiters.ModelArbiter.ActivateModel` | crates/audio/src/arbiter.rs:321-328 | succeeds exactly if the model is loaded, and then leaves it in use by the activation about which `ActivatedIsNotEvicted` and `LeasesAreOutstanding` are proved; otherwise reports the denial and changes nothing |
| `ModelArbiters.ModelArbiter.ReleaseModel` | crates/audio/src/arbiter.rs:331-334 | gives back at most one lease |
| `ModelArbiters.ModelArbiter.MarkModelUnloaded` | crates/audio/src/arbiter.rs:337-341 | the model is gone with all its leases |
| `ModelArbiters.ModelArbiter.ResetWorkerGpuModels` | crates/audio/src/arbiter.rs:348-356 | every GPU model is gone with its leases and every CPU model is untouched |
| `ModelArbiters.ActivatedIsNotEvicted` | crates/audio/src/arbiter.rs:291-328 | activating a loaded model takes a lease, so that every plan that would unload it is refused without change |
| `ModelArbiters.HeldModelIsNeverEvicted` | crates/audio/src/arbiter.rs:291-356 | over every interleaving, from its activation until a release, an unload or the end of its worker, a model stays loaded and in use, and every commit that would evict it changes nothing |
| `ModelArbiters.LeasesAreOutstanding` | crates/audio/src/arbiter.rs:321-356 | over every interleaving the lease count is the accepted activations less the releases since the model was last unloaded |
| `ModelArbiters.LoadedStep` | crates/audio/src/arbiter.rs:291-356 | an accepted commit loads its request and unloads its victims, an unload and a dead worker take theirs, and no other step changes what is loaded |
| `ModelArbiters.ResetFreesGpu` | crates/audio/src/arbiter.rs:348-356 | when the worker exits no GPU memory is resident, GPU leases are gone, and CPU models are as before |
| `ModelArbiters.DenialExplains` | crates/audio/src/arbiter.rs:366-374 | a refused commit reports the memory that would be resident with the request beside everything loaded, and the ceiling |
| `ModelArbiters.EvictsLeastImportant` | crates/audio/src/arbiter.rs:252-269 | every model a plan evicts comes before every candidate it spares, by priority and then by model |
| `ModelArbiters.LocalEvictionOrder` | crates/audio/src/arbiter.rs:44-53 | the declared GPU models are evicted in the order vision, recognition, synthesis |
| `MoonshineQueue.ProtocolKeepsCount` | scripts/voice-runtime.py:455-529 | no step of the protocol thread loses or double-counts a sample |
| `MoonshineQueue.WorkerKeepsCount` | scripts/voice-runtime.py:389-422 | no step of the worker loses or double-counts a sample, also when decoding fails |
| `MoonshineQueue.WorkerKeepsOrder` | scripts/voice-runtime.py:389-407 | frames leave the queue for the recognizer in the order they were accepted |
| `MoonshineQueue.WorkerKeepsHandshake` | scripts/voice-runtime.py:408-422 | the worker answers the final job once, and a good answer to a stop finds the queue empty and everything fed |
| `MoonshineQueue.StepKeepsInv` | scripts/voice-runtime.py:360-529 | every atomic step of either thread keeps counting, order and handshake together |
| `MoonshineQueue.RunKeepsInv` | scripts/voice-runtime.py:360-529 | so does every interleaving, at every moment |
| `MoonshineQueue.CounterIsExact` | scripts/voice-runtime.py:464-478 | at every moment the counter is exactly the samples reserved, queued and being decoded, and at most 80000 |
| `MoonshineQueue.ClampNeverFires` | scripts/voice-runtime.py:402-506 | no subtraction from the counter is ever cut off at zero |
| `MoonshineQueue.PartialAudioIsMonotone` | scripts/voice-runtime.py:376-401 | the reported amount of recognized audio never decreases and never exceeds the audio accepted |
| `MoonshineQueue.FedIsPrefixOfAccepted` | scripts/voice-runtime.py:390-401 | the recognizer has always been fed a prefix of the accepted frames, once each |
| `MoonshineQueue.SuccessfulStopIsComplete` | scripts/voice-runtime.py:508-521 | a stop returns successfully only after every accepted frame was fed and processed, with nothing left to reset |
| `MoonshineQueue.StuckIffBlocked` | scripts/voice-runtime.py:480-521 | in every interleaving before the stream is finished, no step of either thread is possible if and only if the stop job waits for room in a full queue whose worker is gone; cancelling never gets stuck |
| `MoonshineQueue.SomeRunBlocks` | scripts/voice-runtime.py:455-521 | a run that reaches this: the queue fills with short frames while the first is decoded, its decoding fails, the worker exits, and the stop job can never be queued |
| `MoonshineQueue.FrameIsAcceptedIff` | scripts/voice-runtime.py:455-478 | with a live worker and a place in the queue, a frame is accepted exactly if with it at most five seconds are on their way; it then goes last, and a refusal changes nothing |
| `MoonshineQueue.QueueIsBounded` | scripts/voice-runtime.py:430-470 | in every interleaving at most 256 jobs are queued |
| `MoonshineQueue.DeadWorkerAcceptsNothing` | scripts/voice-runtime.py:455-463 | in every interleaving, once the worker has exited no call that begins later gets a frame accepted |
| `MoonshineQueue.CaptureReportsAllFed` | scripts/voice-runtime.py:360-379 | in every interleaving a captured event reports exactly the audio fed so far |
| `MoonshineQueue.AnswerIsEarned` | scripts/voice-runtime.py:391-422 | in every interleaving a stop is reported successful only if the recognizer's stop succeeded, a cancellation only if the worker reached it, and either failed only if the recognizer failed |
| `MoonshineQueue.EveryRecordingCanStop` | scripts/voice-runtime.py:381-529 | for any recording of frames that fit the queue some run accepts them all, stops successfully and reports all of the audio |
| `Resamplers.CountIsExact` | apps/desktop/src/audio-worklet.ts:56-71 | the closed-form count covers exactly the output samples `k` with `k * ratio + 1` below the samples received |
| `Resamplers.PositionIsMultiple` | apps/desktop/src/audio-worklet.ts:63-63 | repeated advancing reaches exactly the `k`-th multiple of the ratio |
| `Resamplers.OutputGrows` | apps/desktop/src/audio-worklet.ts:56-71 | more input only extends the output; no emitted sample would have been different |
| `Resamplers.OutputIsBounded` | apps/desktop/src/audio-worklet.ts:48-63 | the output of clipped input stays within -1 and 1 |
| `Resamplers.FramesAreSlices` | apps/desktop/src/audio-worklet.ts:65-70 | the `j`-th posted frame is the `j`-th block of 320 output samples |
| `Resamplers.NextTap` | apps/desktop/src/audio-worklet.ts:57-61 | interpolating in the shifted buffer gives the next output sample of the whole stream |
| `Resamplers.MixDown` | apps/desktop/src/audio-worklet.ts:49-52 | the channel loop averages all channels, counting missing samples as silence, then amplifies and clips |
| `Resamplers.VoiceCaptureProcessor.Absorb` | apps/desktop/src/audio-worklet.ts:48-54 | the block's mono samples are appended within the buffer and nothing else changes |
| `Resamplers.VoiceCaptureProcessor.Emit` | apps/desktop/src/audio-worklet.ts:61-70 | one sample is added to the output, and full frames are posted at 320 samples |
| `Resamplers.VoiceCaptureProcessor.SampleHere` | apps/desktop/src/audio-worklet.ts:57-61 | interpolating at the current position, with both indices inside the buffer, gives the next output sample of the whole stream, which by `LineIsPreserved` weighs both neighbours rightly |
| `Resamplers.VoiceCaptureProcessor.Advance` | apps/desktop/src/audio-worklet.ts:57-70 | one turn of the loop emits the next output sample of the whole stream and moves on by the ratio |
| `Resamplers.VoiceCaptureProcessor.Resample` | apps/desktop/src/audio-worklet.ts:56-71 | the loop ends with exactly the output the whole stream determines |
| `Resamplers.VoiceCaptureProcessor.Compact` | apps/desktop/src/audio-worklet.ts:73-81 | at most one source sample is carried over, in its place relative to the position |
| `Resamplers.VoiceCaptureProcessor.Process` | apps/desktop/src/audio-worklet.ts:43-83 | for blocks that fit the buffer, any of at most 4095 samples, posted frames and pending frame are together a function of the concatenated input alone |
| `Resamplers.ClipIsNearest` | apps/desktop/src/audio-worklet.ts:52-52 | clipping gives the level in range that is nearest |
| `Resamplers.MissingIsSilence` | apps/desktop/src/audio-worklet.ts:50-50 | where a channel has ended it mixes like silence |
| `Resamplers.EqualChannelsMix` | apps/desktop/src/audio-worklet.ts:49-52 | channels that agree mix to what they agree on, amplified and clipped, however many there are |
| `Resamplers.SoundPassesThrough` | apps/desktop/src/audio-worklet.ts:48-54 | unamplified sound in range that is the same on all channels passes through unchanged |
| `Resamplers.LineIsPreserved` | apps/desktop/src/audio-worklet.ts:57-63 | a straight line is resampled to the same line, at every ratio and place |
| `Resamplers.WholeRatioPicks` | apps/desktop/src/audio-worklet.ts:57-63 | at a whole-number ratio r every r-th source sample comes out as it is |
| `VoiceActivity.CleaningAgain` | scripts/voice-runtime.py:921-923 | cleaning samples kept from an earlier call a second time changes nothing |
| `VoiceActivity.StateIsStable` | scripts/voice-runtime.py:933-943 | later audio changes no recurrent state or context already reached |
| `VoiceActivity.ProbabilitiesAreStable` | scripts/voice-runtime.py:929-946 | later audio changes no window probability already computed |
| `VoiceActivity.ProbabilityClampsIff` | scripts/voice-runtime.py:944-946 | the clamp by comparisons is the nearest probability if and only if the network returned a number; NaN has none and becomes 1 |
| `VoiceActivity.WindowsFollowStream` | scripts/voice-runtime.py:929-946 | the window loop started at any window of a stream goes through exactly that stream's states, contexts and probabilities |
| `VoiceActivity.CallTracks` | scripts/voice-runtime.py:913-952 | one call leaves what the whole stream so far leaves, with less than a window pending, and returns the probabilities of the windows it completes |
| `VoiceActivity.ChunkingIsInvisible` | scripts/voice-runtime.py:913-952 | however the stream is cut, the calls together leave the pending samples, state and context of the whole stream and produce exactly its window probabilities |
| `VoiceActivity.SplitsAgree` | scripts/voice-runtime.py:913-952 | two ways of cutting one stream end in the same pending samples, state, context and probabilities |
| `VoiceActivity.ReportIsOfLastBatch` | scripts/voice-runtime.py:947-952 | after any chunks the report is the peak of the windows completed by the last chunk that completed any |
| `VoiceActivity.ReportAgreesIff` | scripts/voice-runtime.py:947-952 | any chunks of a stream end with the report of one call on all of it if and only if a window of that last batch attains the peak of all windows |
| `VoiceActivity.ReportDependsOnChunks` | scripts/voice-runtime.py:947-952 | a network and 1024 samples that report 1 in one call and end with 0 in two calls of 512 |
| `VoiceActivity.RunWindows` | scripts/voice-runtime.py:928-946 | the loop computes the state, context and probabilities the stream laws are about |
| `VoiceActivity.Maximum` | scripts/voice-runtime.py:951-951 | the loop returns the largest probability |
| `VoiceActivity.SpeechDetector.Reset` | scripts/voice-runtime.py:852-866 | a reset is a new stream |
| `VoiceActivity.SpeechDetector.SpeechProbability` | scripts/voice-runtime.py:913-952 | refuses exactly other sample rates without changing anything; otherwise reports the peak of the windows this chunk completes, or the previous report, and their number |
| `VoiceActivity.CleanIsClamp` | scripts/voice-runtime.py:921-923 | cleaning is the one clamp to [-1, 1], infinities included, and silence for what is no number |
| `VoiceActivity.InputsSlide` | scripts/voice-runtime.py:929-943 | the inputs of the network are 576 samples wide and move on by 512 along the stream, led by 64 samples of silence |

## Left out

- `validate_delegation` and parent chains: would add easy members; the chain walk is bounded only by data the validation does not check.
- `Goal`, `Budgets`, `plan_edit`, `apply_verified`, `CommandRouter` and the latency metrics: settled by reading one function each.
- `render_spoken`, `parse_control`, `tokenize`, white-space trimming and Markdown formatting: parameters of the dictation model, so its laws hold for any of them.
- The in-step correspondence for replace, relative insert, format and indent commands: the engine never records their text, so no correspondence of this form is promised; their edits and `RunTracksTail` are.
- `cancelProvisional` and the remaining view code of the desktop application.
- Commands with several operations or about transactions: every command the grammar produces holds exactly one operation, and none of those.
- Keyboard edits in `RunStaysInStep`: its correspondence speaks of an initial text nobody else edits; `RunTracksTail` includes them.
- SHA-256 and JSON: the hash is any function to 32 bytes, the index text any encoding that reads back what was written, of which `PhraseTexts.LawfulCodecExists` gives one.
- The size of files: the index text has no bound, and an entry file too large for memory is one that cannot be read.
- Hexadecimal file-name syntax, file modes, foreign files and sub-directories: digests are ordered identifiers, and the directory holds entries, the index and temporaries.
- Failure branches of file-system calls, left-over temporary files, lock poisoning and concurrent callers of one cache.
- `PhraseIndexes.RunRefinesRecencyList` and `PhraseCaches.RunRefinesRecency`: assume that the 64-bit use clock does not saturate within the run.
- `DictationSync.RunStaysInStep` and `DictationSync.RunTracksTail`: assume that transaction numbers do not reach the 64-bit maximum within the run.
- `ModelArbiters.HeldModelIsNeverEvicted` and `ModelArbiters.LeasesAreOutstanding`: speak of runs in which no commit saturates the counter.
- `ModelArbiters.RunIsSafe`: speaks of runs in which no commit saturates the counter; for the declared models `LocalRunIsSafe` needs no such hypothesis.
- `TaskGraphs.TopologicalSort`: stands for the graph library's sort, whose code is not part of this model; it repeatedly takes a task with no remaining dependency.
- Older snapshots: a crash recovers the latest snapshot. The recovery lemmas hold for any safe snapshot, but work done after an older one was written is not tracked.
- Time, UUID generation and receipts' timestamps: parameters, or identifiers compared only for equality and order.
- Thread timeouts of the Moonshine finish path, recognized text and the stream's own events beyond the audio amount they report.
- `MoonshineQueue.StuckIffBlocked`: says that some step is possible, not that the scheduler takes it.
- Rounding: audio is modelled over the reals, so 32-bit float precision is not captured, nor the drift of a position advanced by an inexact ratio.
- `Resamplers.VoiceCaptureProcessor.Process`: leaves out blocks that overflow the buffer, 4096 samples and more; the platform delivers blocks of 128.
- Loading and checking the speech network's file: the network is any function of window and state.
