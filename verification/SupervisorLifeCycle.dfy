/** The life of a task over whole runs: what can take it out of a status, and what each
    operation leaves it able to do next. */
module SupervisorLifeCycle {
  import opened Collections
  import opened TaskGraphs
  import opened Supervisors
  import opened SupervisorSafety

  // ---------------------------------------------------------------------
  // What moves a task

  /** The operations that can take a task out of a status. */
  predicate Moves(op: Operation, id: Id, status: WorkStatus) {
    match status
    case Queued => op == Start(id) || op == Pause(id) || op == Cancel(id) || op.PauseAll? || op.CancelAll?
    case Planning => op == Pause(id) || op == Cancel(id) || op.PauseAll? || op.CancelAll?
    case Running =>
      || (op.Complete? && op.id == id) || op == ProviderFailed(id) || (op.AwaitApproval? && op.id == id)
      || op == Pause(id) || op == Cancel(id) || (op.Fail? && op.id == id)
      || op.PauseAll? || op.CancelAll? || op.PreemptForUser? || op.CrashAndRecover?
    case Waiting =>
      || op == ResumeAfterApproval(id) || op == Pause(id) || op == Cancel(id) || op == Retry(id)
      || (op.Fail? && op.id == id) || op.PauseAll? || op.CancelAll?
    case Paused => op == Resume(id) || op == Cancel(id) || op.ResumeAll? || op.CancelAll?
    case Failed => op == Retry(id) || op == Cancel(id) || op.CancelAll?
    case Completed => false
    case Cancelled => false
  }

  /** Binding a checkpoint is the one change that moves nothing. */
  predicate Binds(op: Operation, id: Id, status: WorkStatus) {
    op.BindCheckpoint? && op.id == id && (status.Running? || status.Waiting?)
  }

  function Bound(op: Operation, id: Id, t: Task): Task {
    if Binds(op, id, t.status) then t.(checkpointId := Some(op.checkpoint)) else t
  }

  lemma OthersUntouched(s: Supervisor, op: Operation, id: Id)
    requires Safe(s) && id in s.Tasks() && NamesTask(op) && op.id != id
    ensures id in Apply(s, op).0.Tasks() && Apply(s, op).0.Tasks()[id] == s.Tasks()[id]
  {
  }

  lemma OwnUnmoved(s: Supervisor, op: Operation, id: Id)
    requires Safe(s) && id in s.Tasks() && NamesTask(op) && op.id == id && !Moves(op, id, s.Tasks()[id].status)
    ensures id in Apply(s, op).0.Tasks() && Apply(s, op).0.Tasks()[id] == Bound(op, id, s.Tasks()[id])
  {
  }

  lemma CrashUnmoved(s: Supervisor, op: Operation, id: Id)
    requires Safe(s) && id in s.Tasks() && op.CrashAndRecover? && s.Tasks()[id].status != Running
    ensures id in Apply(s, op).0.Tasks() && Apply(s, op).0.Tasks()[id] == s.Tasks()[id]
  {
    RecoverTasksIsSimultaneous(s.Tasks(), s.Receipts(), s.Order());
    assert id !in s.Order();
  }

  /** One operation that does not move a task leaves all of it alone, but for a checkpoint it binds. */
  lemma UnmovedStays(s: Supervisor, op: Operation, id: Id)
    requires Safe(s) && id in s.Tasks() && !Moves(op, id, s.Tasks()[id].status)
    ensures id in Apply(s, op).0.Tasks() && Apply(s, op).0.Tasks()[id] == Bound(op, id, s.Tasks()[id])
  {
    if NamesTask(op) {
      if op.id == id {
        OwnUnmoved(s, op, id);
      } else {
        OthersUntouched(s, op, id);
      }
    } else if op.CrashAndRecover? {
      CrashUnmoved(s, op, id);
    }
  }

  function LastBound(ops: seq<Operation>, id: Id, t: Task): Task
    decreases |ops|
  {
    if ops == [] then t else Bound(ops[|ops| - 1], id, LastBound(ops[..|ops| - 1], id, t))
  }

  lemma {:induction false} BindingKeepsStatus(ops: seq<Operation>, id: Id, t: Task)
    ensures LastBound(ops, id, t) == t.(checkpointId := LastBound(ops, id, t).checkpointId)
    ensures !t.status.Running? && !t.status.Waiting? ==> LastBound(ops, id, t) == t
    decreases |ops|
  {
    if ops != [] {
      BindingKeepsStatus(ops[..|ops| - 1], id, t);
    }
  }

  /** Whatever else happens, crashes included, a task stays in its status until an operation
      that moves it from there: a queued task until it is started, a paused one until it is
      resumed, a failed one until it is retried, each possibly cancelled instead, and a
      completed or cancelled one for ever. Only checkpoints are bound in the meantime. */
  lemma {:induction false} StaysUntilMoved(s: Supervisor, ops: seq<Operation>, id: Id)
    requires Safe(s) && id in s.Tasks()
    requires forall op :: op in ops ==> !Moves(op, id, s.Tasks()[id].status)
    ensures
      var n := Run(s, ops);
      && id in n.Tasks() && n.Tasks()[id] == LastBound(ops, id, s.Tasks()[id])
      && n.Tasks()[id].status == s.Tasks()[id].status
      && (!n.Tasks()[id].status.Running? && !n.Tasks()[id].status.Waiting? ==> n.Tasks()[id] == s.Tasks()[id])
    decreases |ops|
  {
    BindingKeepsStatus(ops, id, s.Tasks()[id]);
    if ops != [] {
      var before := ops[..|ops| - 1];
      StaysUntilMoved(s, before, id);
      RunIsSafe(s, before);
      assert ops[|ops| - 1] in ops;
      UnmovedStays(Run(s, before), ops[|ops| - 1], id);
    }
  }

  /** In particular a cancelled task is never touched again. */
  lemma CancelledIsFinal(s: Supervisor, ops: seq<Operation>, id: Id)
    requires Safe(s) && id in s.Tasks() && s.Tasks()[id].status == Cancelled
    ensures id in Run(s, ops).Tasks() && Run(s, ops).Tasks()[id] == s.Tasks()[id]
  {
    StaysUntilMoved(s, ops, id);
  }

  // ---------------------------------------------------------------------
  // What an operation makes possible

  /** A new attempt may be granted: one is left, and work with lasting effects has a key. */
  predicate Retryable(t: Task) {
    t.attempt < t.maxAttempts && (t.risk == "consequential" || t.risk == "irreversible" ==> t.idempotencyKey.Some?)
  }

  predicate SlotFree(s: Supervisor) { |s.Order()| < s.maximumParallelism }

  /** Every answer `start` gives, by what is the case. */
  lemma StartAnswers(s: Supervisor, id: Id)
    requires Safe(s)
    ensures
      var r := Apply(s, Start(id)).1;
      && (r == Refused(MissingTask(id)) <==> id !in s.Tasks())
      && (id in s.Tasks() ==>
            var t := s.Tasks()[id];
            && (r == Decided(AlreadyCompleted(id)) <==> t.status == Completed)
            && (r == Decided(WaitForDependencies(id)) <==>
                  t.status != Completed && !DependenciesCompleted(s.snapshot.graph, id))
            && (r == Refused(AttemptsExhausted(id)) <==> IsReady(s, id) && t.attempt >= t.maxAttempts)
            && (r == Refused(MissingIdempotencyKey(id)) <==>
                  IsReady(s, id) && t.attempt < t.maxAttempts && !Retryable(t))
            && (r.Decided? && r.decision.Started? <==> IsReady(s, id) && Retryable(t) && SlotFree(s))
            && (r.Decided? && r.decision.Started? ==> r.decision.task == id && r.decision.attempt == t.attempt + 1)
            && (r == Refused(TaskNotReady(id)) <==>
                  if t.status == Queued then IsReady(s, id) && Retryable(t) && !SlotFree(s)
                  else t.status != Completed && DependenciesCompleted(s.snapshot.graph, id)))
    ensures Apply(s, Start(id)).0 != s ==> StartedBy(s, Start(id)) == Some(id)
  {
  }

  lemma GrantedIff(s: Supervisor, id: Id)
    requires Safe(s) && id in s.Tasks()
    ensures StartedBy(s, Start(id)) == Some(id) <==> IsReady(s, id) && Retryable(s.Tasks()[id]) && SlotFree(s)
  {
    StartAnswers(s, id);
  }

  lemma FreedSlot(s: Supervisor, id: Id, n: Supervisor, u: Task)
    requires Safe(s) && id in s.Order() && n == s.Leave(id, u)
    ensures SlotFree(n)
  {
    WithoutIsShorter(s.Order(), id);
  }

  lemma {:induction false} WithoutIsShorter(order: seq<Id>, id: Id)
    ensures |Without(order, id)| <= |order| && (id in order ==> |Without(order, id)| < |order|)
  {
    if order != [] {
      WithoutIsShorter(order[1..], id);
    }
  }

  /** After a provider failure the task can be started again exactly if a new attempt may be
      granted, and otherwise waits for an approval. */
  lemma FailureRequeuesIff(s: Supervisor, id: Id, n: Supervisor)
    requires Safe(s) && id in s.Tasks() && s.Tasks()[id].status == Running && n == Apply(s, ProviderFailed(id)).0
    ensures StartedBy(n, Start(id)) == Some(id) <==> Retryable(s.Tasks()[id])
    ensures Apply(n, ResumeAfterApproval(id)).1 == Done <==> !Retryable(s.Tasks()[id])
  {
    TransitionKeepsSafe(s, ProviderFailed(id));
    FreedSlot(s, id, n, n.Tasks()[id]);
    DependenciesStay(s, ProviderFailed(id), id, n);
    GrantedIff(n, id);
  }

  /** So it is after a crash and recovery, for every task that was running. */
  lemma RecoveryRequeuesIff(s: Supervisor, id: Id, parallelism: nat, depth: nat, n: Supervisor)
    requires Safe(s) && id in s.Tasks() && s.Tasks()[id].status == Running && ValidBounds(parallelism, depth)
    requires n == Apply(s, CrashAndRecover(parallelism, depth)).0
    ensures StartedBy(n, Start(id)) == Some(id) <==> Retryable(s.Tasks()[id])
    ensures Apply(n, ResumeAfterApproval(id)).1 == Done <==> !Retryable(s.Tasks()[id])
  {
    TransitionKeepsSafe(s, CrashAndRecover(parallelism, depth));
    RecoveredTask(s, id, parallelism, depth, n);
    DependenciesStay(s, CrashAndRecover(parallelism, depth), id, n);
    GrantedIff(n, id);
  }

  lemma RecoveredTask(s: Supervisor, id: Id, parallelism: nat, depth: nat, n: Supervisor)
    requires Safe(s) && id in s.Tasks() && s.Tasks()[id].status == Running && ValidBounds(parallelism, depth)
    requires n == Apply(s, CrashAndRecover(parallelism, depth)).0
    ensures n.Order() == [] && n.maximumParallelism == parallelism
    ensures id in n.Tasks() && n.Tasks()[id] == s.Tasks()[id].(status := AfterFailure(s.Tasks()[id]))
  {
    RecoverTasksIsSimultaneous(s.Tasks(), s.Receipts(), s.Order());
    RunningHasNoReceipt(s, id);
  }

  lemma DependenciesStay(s: Supervisor, op: Operation, id: Id, n: Supervisor)
    requires Safe(s) && n == Apply(s, op).0 && DependenciesCompleted(s.snapshot.graph, id)
    ensures DependenciesCompleted(n.snapshot.graph, id)
  {
    EveryTransitionIsFramed(s, op);
    FrameKeepsDependencies(s, StartedBy(s, op), CompletedBy(s, op), n, id);
  }

  /** From any recoverable snapshot, even one no run produced, a running task whose key leads to a
      verified receipt is taken as done instead of being run again, and any other is queued again
      exactly if a new attempt may be granted. */
  lemma ReceiptCompletesOnRecovery(snapshot: Snapshot, parallelism: nat, depth: nat, id: Id, n: Supervisor)
    requires Recover(snapshot, parallelism, depth) == Ok(n) && id in snapshot.runningOrder
    ensures id in snapshot.graph.tasks && id in n.Tasks() && n.Receipts() == snapshot.receipts
    ensures
      var t := snapshot.graph.tasks[id];
      var recorded := exists key :: key in snapshot.receipts && t.idempotencyKey == Some(key) && snapshot.receipts[key].verified;
      n.Tasks()[id] == if recorded then t.(status := Completed, progress := 100)
                       else t.(status := if Retryable(t) then Queued else Waiting)
  {
    RecoverableIff(snapshot, parallelism, depth);
    RecoverTasksIsSimultaneous(snapshot.graph.tasks, snapshot.receipts, snapshot.runningOrder);
  }

  /** In any state, safe or not, a completion never alters or removes a receipt. A key that is on
      record for another task or another effect is refused without any change; one on record
      for the same effect of the same task completes it. */
  lemma ReceiptsAreWrittenOnce(s: Supervisor, op: Operation, key: string)
    requires op.Complete? && key in s.Receipts()
    ensures
      var (n, r) := Apply(s, op);
      && key in n.Receipts() && n.Receipts()[key] == s.Receipts()[key]
      && (op.id in s.Tasks() && IsConsequential(s.Tasks()[op.id]) && s.Tasks()[op.id].idempotencyKey == Some(key)
          && (s.Receipts()[key].taskId != op.id || op.fingerprint != Some(s.Receipts()[key].effectFingerprint)) ==>
            n == s && r.Refused?)
      && (op.id in s.Tasks() && s.Tasks()[op.id].idempotencyKey == Some(key) && s.Tasks()[op.id].status == Running
          && op.verified && s.Receipts()[key].taskId == op.id
          && op.fingerprint == Some(s.Receipts()[key].effectFingerprint) ==>
            r == Done && op.id in n.Tasks() && n.Tasks()[op.id].status == Completed)
  {
  }

  /** Recovery is refused exactly for another schema, bounds out of range, or a running order
      that is not a duplicate-free list of running tasks; what recovers keeps clock, edges and receipts. */
  lemma RecoverableIff(snapshot: Snapshot, parallelism: nat, depth: nat)
    ensures Recover(snapshot, parallelism, depth).Ok? <==>
      && snapshot.schemaVersion == 1 && 1 <= parallelism <= 8 && depth >= 1 && NoDuplicates(snapshot.runningOrder)
      && forall id :: id in snapshot.runningOrder ==>
           id in snapshot.graph.tasks && snapshot.graph.tasks[id].status == Running
    ensures Recover(snapshot, parallelism, depth).Ok? ==>
      var n := Recover(snapshot, parallelism, depth).value;
      && n.maximumParallelism == parallelism && n.maximumDelegationDepth == depth && n.Order() == []
      && n.snapshot.elapsedVirtualSeconds == snapshot.elapsedVirtualSeconds
      && n.snapshot.graph.edges == snapshot.graph.edges && n.Receipts() == snapshot.receipts
  {
    OrderRecoverableIff(snapshot.graph.tasks, snapshot.receipts, snapshot.runningOrder);
  }

  lemma {:induction false} OrderRecoverableIff(
      tasks: map<Id, Task>, receipts: map<string, EffectReceipt>, order: seq<Id>)
    ensures RecoverTasks(tasks, receipts, order).Ok? <==>
      NoDuplicates(order) && forall id :: id in order ==> id in tasks && tasks[id].status == Running
    decreases |order|
  {
    if order != [] && order[0] in tasks && tasks[order[0]].status == Running {
      var next := tasks[order[0] := AfterCrash(tasks[order[0]], receipts)];
      OrderRecoverableIff(next, receipts, order[1..]);
      HeadTail(order);
    } else if order != [] {
      assert order[0] in order;
    }
  }

  lemma HeadTail(order: seq<Id>)
    requires order != []
    ensures NoDuplicates(order) <==> order[0] !in order[1..] && NoDuplicates(order[1..])
    ensures forall id :: id in order <==> id == order[0] || id in order[1..]
  {
    assert order == [order[0]] + order[1..];
    if order[0] in order[1..] {
      var i :| 0 <= i < |order[1..]| && order[1..][i] == order[0];
      assert order[i + 1] == order[0];
    }
    if NoDuplicates(order) {
      forall i, j | 0 <= i < j < |order[1..]| ensures order[1..][i] != order[1..][j] {
        assert order[i + 1] != order[j + 1];
      }
    }
  }

  /** A pause is accepted for anything not yet ended, and a resume makes the same task, with its
      attempts and checkpoint, queued again. */
  lemma PauseThenResume(s: Supervisor, id: Id, n: Supervisor)
    requires Safe(s) && id in s.Tasks() && n == Apply(s, Pause(id)).0
    ensures Apply(s, Pause(id)).1 == Done <==> !Terminal(s.Tasks()[id].status)
    ensures !Terminal(s.Tasks()[id].status) ==>
      && Apply(n, Resume(id)).1 == Done && id in Apply(n, Resume(id)).0.Tasks()
      && Apply(n, Resume(id)).0.Tasks()[id] == s.Tasks()[id].(status := Queued)
  {
  }

  /** Pausing and resuming everything queues every task that had not ended and changes no other. */
  lemma PauseAllThenResumeAll(s: Supervisor, id: Id)
    requires id in s.Tasks()
    ensures
      var n := Apply(Apply(s, PauseAll).0, ResumeAll).0;
      && id in n.Tasks()
      && n.Tasks()[id] == if Terminal(s.Tasks()[id].status) then s.Tasks()[id] else s.Tasks()[id].(status := Queued)
  {
  }

  /** Preempting pauses exactly the running tasks: resuming everything queues them again. */
  lemma PreemptThenResumeAll(s: Supervisor, id: Id)
    requires Safe(s) && id in s.Tasks()
    ensures
      var n := Apply(Apply(s, PreemptForUser).0, ResumeAll).0;
      && id in n.Tasks()
      && n.Tasks()[id] == if s.Tasks()[id].status == Running || s.Tasks()[id].status == Paused
                          then s.Tasks()[id].(status := Queued) else s.Tasks()[id]
  {
    assert id in s.Order() <==> s.Tasks()[id].status == Running;
  }

  /** Cancelling is accepted for anything not completed or cancelled, alone or with everything,
      and is then the end of the task in every run. */
  lemma CancelIsForEver(s: Supervisor, id: Id, op: Operation, ops: seq<Operation>)
    requires Safe(s) && id in s.Tasks() && (op == Cancel(id) || op == CancelAll)
    ensures op == Cancel(id) ==>
      (Apply(s, op).1 == Done <==> s.Tasks()[id].status != Completed && s.Tasks()[id].status != Cancelled)
    ensures s.Tasks()[id].status != Completed ==>
      && id in Run(Apply(s, op).0, ops).Tasks()
      && Run(Apply(s, op).0, ops).Tasks()[id] == s.Tasks()[id].(status := Cancelled)
  {
    TransitionKeepsSafe(s, op);
    if s.Tasks()[id].status != Completed {
      CancelledIsFinal(Apply(s, op).0, ops, id);
    }
  }

  /** Suspending for approval and resuming gives the running task back, in the last place of the lane. */
  lemma ApprovalRoundTrip(s: Supervisor, id: Id, reason: string, n: Supervisor)
    requires Safe(s) && id in s.Tasks() && s.Tasks()[id].status == Running && n == Apply(s, AwaitApproval(id, reason)).0
    ensures Apply(s, AwaitApproval(id, reason)).1 == Decided(WaitForApproval(id, reason))
    ensures Apply(n, ResumeAfterApproval(id)).1 == Done
    ensures Apply(n, ResumeAfterApproval(id)).0 == s.WithTasks(s.Tasks(), Without(s.Order(), id) + [id])
  {
    FreedSlot(s, id, n, n.Tasks()[id]);
    var back := Apply(n, ResumeAfterApproval(id)).0;
    assert back.Tasks() == s.Tasks();
  }

  /** A failed task keeps its result, and retrying is accepted exactly if an attempt is left; it
      then starts exactly if a slot is free and consequential work has a key. */
  lemma FailThenRetry(s: Supervisor, id: Id, result: string, n: Supervisor, m: Supervisor)
    requires Safe(s) && id in s.Tasks() && (s.Tasks()[id].status == Running || s.Tasks()[id].status == Waiting)
    requires n == Apply(s, Fail(id, result)).0 && m == Apply(n, Retry(id)).0
    ensures Apply(s, Fail(id, result)).1 == Done && id in n.Tasks() && n.Tasks()[id].output == Some(result)
    ensures Apply(n, Retry(id)).1 == Done <==> s.Tasks()[id].attempt < s.Tasks()[id].maxAttempts
    ensures s.Tasks()[id].attempt < s.Tasks()[id].maxAttempts ==>
      (StartedBy(m, Start(id)) == Some(id) <==> Retryable(s.Tasks()[id]) && SlotFree(n))
  {
    TransitionKeepsSafe(s, Fail(id, result));
    DependenciesStay(s, Fail(id, result), id, n);
    if s.Tasks()[id].attempt < s.Tasks()[id].maxAttempts {
      RetryThenStart(n, id, m);
    }
  }

  /** Every answer `retry` gives: exhausted attempts are reported whatever the status. */
  lemma RetryAnswers(s: Supervisor, id: Id)
    requires id in s.Tasks()
    ensures
      var t, r := s.Tasks()[id], Apply(s, Retry(id)).1;
      && (r == Refused(AttemptsExhausted(id)) <==> t.attempt >= t.maxAttempts)
      && (r == Done <==> t.attempt < t.maxAttempts && (t.status == Failed || t.status == Waiting))
      && (r == Done || r == Refused(AttemptsExhausted(id)) || r == Refused(TaskNotReady(id)))
  {
  }

  lemma RetryThenStart(s: Supervisor, id: Id, n: Supervisor)
    requires Safe(s) && id in s.Tasks() && (s.Tasks()[id].status == Failed || s.Tasks()[id].status == Waiting)
    requires s.Tasks()[id].attempt < s.Tasks()[id].maxAttempts && n == Apply(s, Retry(id)).0
    ensures StartedBy(n, Start(id)) == Some(id) <==> Retryable(s.Tasks()[id]) && SlotFree(s)
  {
    TransitionKeepsSafe(s, Retry(id));
    DependenciesStay(s, Retry(id), id, n);
    GrantedIff(n, id);
  }

  /** Only a retry forgets a checkpoint; pausing, failing and crashing keep it. */
  lemma CheckpointKept(s: Supervisor, op: Operation, id: Id)
    requires Safe(s) && id in s.Tasks()
    ensures
      var n := Apply(s, op).0;
      && id in n.Tasks()
      && n.Tasks()[id].checkpointId ==
           if Binds(op, id, s.Tasks()[id].status) then Some(op.checkpoint)
           else if op == Retry(id) && Apply(s, op).1 == Done then None
           else s.Tasks()[id].checkpointId
  {
    if !NamesTask(op) {
      BulkKeepsCheckpoint(s, op, id);
    } else if op.id == id {
      OwnCheckpoint(s, op, id);
    } else {
      OthersUntouched(s, op, id);
    }
  }

  lemma BulkKeepsCheckpoint(s: Supervisor, op: Operation, id: Id)
    requires Safe(s) && id in s.Tasks() && !NamesTask(op)
    ensures id in Apply(s, op).0.Tasks() && Apply(s, op).0.Tasks()[id].checkpointId == s.Tasks()[id].checkpointId
  {
    if op.CrashAndRecover? {
      RecoverTasksIsSimultaneous(s.Tasks(), s.Receipts(), s.Order());
    }
  }

  lemma OwnCheckpoint(s: Supervisor, op: Operation, id: Id)
    requires Safe(s) && id in s.Tasks() && NamesTask(op) && op.id == id
    ensures
      var (n, r) := ApplyTo(s, op, s.Tasks()[id]);
      && id in n.Tasks()
      && n.Tasks()[id].checkpointId ==
           if Binds(op, id, s.Tasks()[id].status) then Some(op.checkpoint)
           else if op == Retry(id) && r == Done then None
           else s.Tasks()[id].checkpointId
  {
  }

  // ---------------------------------------------------------------------
  // Completion

  /** A completion is accepted exactly for running work that is verified and, if consequential,
      comes with a key and a fingerprint. What it reported is on record at every later
      point of every run: the result, and for consequential work a receipt with the
      fingerprint and the time. */
  lemma CompletionIsOnRecord(s: Supervisor, op: Operation, ops: seq<Operation>)
    requires Safe(s) && op.Complete? && op.id in s.Tasks()
    ensures
      var t := s.Tasks()[op.id];
      CompletedBy(s, op) == Some(op.id) <==>
        t.status == Running && op.verified && (IsConsequential(t) ==> t.idempotencyKey.Some? && op.fingerprint.Some?)
    ensures CompletedBy(s, op) == Some(op.id) ==>
      var t, n := s.Tasks()[op.id], Run(Apply(s, op).0, ops);
      && op.id in n.Tasks()
      && n.Tasks()[op.id] == t.(status := Completed, progress := 100, output := Some(op.result))
      && (IsConsequential(t) ==>
            && t.idempotencyKey.Some? && op.fingerprint.Some? && t.idempotencyKey.value in n.Receipts()
            && n.Receipts()[t.idempotencyKey.value]
               == EffectReceipt(t.idempotencyKey.value, op.id, op.fingerprint.value, true, op.now))
  {
    if s.Tasks()[op.id].status == Running {
      RunningHasNoReceipt(s, op.id);
    }
    if CompletedBy(s, op) == Some(op.id) {
      TransitionKeepsSafe(s, op);
      CompletedAndReceiptsAreFinal(Apply(s, op).0, ops, 0);
      assert ops[..0] == [];
    }
  }

  // ---------------------------------------------------------------------
  // The virtual clock

  function Advances(ops: seq<Operation>): nat {
    if ops == [] then 0
    else Advances(ops[..|ops| - 1]) + (if ops[|ops| - 1].AdvanceVirtualTime? then ops[|ops| - 1].seconds else 0)
  }

  /** The clock is the sum of all advances, up to the 64-bit maximum, across crashes and whatever else happens. */
  lemma {:induction false} ClockIsSumOfAdvances(s: Supervisor, ops: seq<Operation>)
    requires s.snapshot.elapsedVirtualSeconds <= U64_MAX
    ensures Run(s, ops).snapshot.elapsedVirtualSeconds == Min(s.snapshot.elapsedVirtualSeconds + Advances(ops), U64_MAX)
    decreases |ops|
  {
    if ops != [] {
      ClockIsSumOfAdvances(s, ops[..|ops| - 1]);
      ClockStep(Run(s, ops[..|ops| - 1]), ops[|ops| - 1]);
    }
  }

  lemma ClockStep(s: Supervisor, op: Operation)
    ensures Apply(s, op).0.snapshot.elapsedVirtualSeconds ==
      if op.AdvanceVirtualTime? then Min(s.snapshot.elapsedVirtualSeconds + op.seconds, U64_MAX)
      else s.snapshot.elapsedVirtualSeconds
  {
  }
}
