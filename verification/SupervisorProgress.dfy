/** The scheduler never stalls without a reason, and draining a graph finishes it. */
module SupervisorProgress {
  import opened Collections
  import opened TaskGraphs
  import opened Supervisors
  import opened SupervisorSafety

  // ---------------------------------------------------------------------
  // Ready tasks

  /** `ready_tasks` counts statuses, `start` counts the running order: they agree. */
  lemma SlotCountsAgree(s: Supervisor)
    requires SlotsAgree(s)
    ensures |RunningTasks(s.Tasks())| == |s.Order()|
    ensures AvailableSlots(s) == s.maximumParallelism - |s.Order()|
  {
    NoDuplicatesCardinality(s.Order());
    assert Elements(s.Order()) == RunningTasks(s.Tasks());
  }

  lemma ReadyEmptyIffNoneReady(s: Supervisor)
    requires AvailableSlots(s) > 0
    ensures ReadyTasks(s) == [] <==> forall id :: !IsReady(s, id)
  {
    var all := Filtered(s, Ascending(s.Tasks().Keys));
    FilteredIsExact(s, Ascending(s.Tasks().Keys));
    EmptyIffNoMember(all);
    assert forall id :: id in all <==> IsReady(s, id);
    assert |ReadyTasks(s)| == Min(|all|, AvailableSlots(s));
  }

  function ReadyIds(s: Supervisor): set<Id> { set id | id in s.Tasks() && IsReady(s, id) }

  /** An answer uses the free slots: it lists as many ready tasks as fit, all of them if they do,
      in ascending order, and a ready task left out comes after every one listed. */
  lemma ReadyFillsSlots(s: Supervisor)
    requires SlotsAgree(s)
    ensures
      var ready := ReadyTasks(s);
      && |ready| == Min(|ReadyIds(s)|, s.maximumParallelism - |s.Order()|)
      && StrictlyAscending(ready)
      && forall id, i :: id in ReadyIds(s) && id !in ready && 0 <= i < |ready| ==> ready[i] < id
  {
    SlotCountsAgree(s);
    var all := Filtered(s, Ascending(s.Tasks().Keys));
    AllReadyListed(s, all);
    FrontIsSmallest(all, |ReadyTasks(s)|);
  }

  lemma AllReadyListed(s: Supervisor, all: seq<Id>)
    requires all == Filtered(s, Ascending(s.Tasks().Keys))
    ensures StrictlyAscending(all) && |all| == |ReadyIds(s)| && forall id :: id in ReadyIds(s) <==> id in all
  {
    ListedAreReady(s, Ascending(s.Tasks().Keys), all);
    DistinctCount(all, ReadyIds(s));
  }

  lemma ListedAreReady(s: Supervisor, ids: seq<Id>, all: seq<Id>)
    requires ids == Ascending(s.Tasks().Keys) && all == Filtered(s, ids)
    ensures StrictlyAscending(all) && forall id :: id in all <==> id in ReadyIds(s)
  {
    FilteredIsExact(s, ids);
    AscendingIsSorted(s.Tasks().Keys);
    forall id ensures id in all <==> id in ReadyIds(s) {
      assert id in ids <==> id in s.Tasks().Keys;
    }
  }

  lemma DistinctCount(all: seq<Id>, ids: set<Id>)
    requires StrictlyAscending(all) && forall id :: id in all <==> id in ids
    ensures |all| == |ids|
  {
    NoDuplicatesCardinality(all);
    assert Elements(all) == ids;
  }

  lemma FrontIsSmallest(all: seq<Id>, n: nat)
    requires StrictlyAscending(all) && n <= |all|
    ensures StrictlyAscending(all[..n])
    ensures forall id, i :: id in all && id !in all[..n] && 0 <= i < n ==> all[..n][i] < id
  {
    assert forall k :: 0 <= k < n ==> all[k] in all[..n];
    forall id, i | id in all && id !in all[..n] && 0 <= i < n ensures all[..n][i] < id {
      var j :| 0 <= j < |all| && all[j] == id;
    }
  }

  /** An unfinished task that is not itself waiting for the scheduler. */
  ghost predicate Blocker(s: Supervisor, b: Id) {
    b in s.Tasks() && s.Tasks()[b].status != Queued && s.Tasks()[b].status != Completed
  }

  /** Some task that `id` depends on, directly or not, is a blocker. */
  ghost predicate Blocked(s: Supervisor, id: Id) {
    exists b :: Blocker(s, b) && DependsOn(s.snapshot.graph.edges, b, id)
  }

  lemma BlockedIsNotReady(s: Supervisor, id: Id)
    requires Safe(s) && Blocked(s, id)
    ensures !IsReady(s, id)
  {
    var b :| Blocker(s, b) && DependsOn(s.snapshot.graph.edges, b, id);
    AncestorsOfReadyAreCompleted(s, b, id);
  }

  /** Dependency safety reaches through whole chains. */
  lemma AncestorsOfReadyAreCompleted(s: Supervisor, b: Id, id: Id)
    requires Safe(s) && DependsOn(s.snapshot.graph.edges, b, id) && b in s.Tasks()
    ensures DependenciesCompleted(s.snapshot.graph, id) ==> s.Tasks()[b].status == Completed
  {
    if DependenciesCompleted(s.snapshot.graph, id) {
      var p :| ConnectedBy(s.snapshot.graph.edges, b, id, p);
      ChainCompleted(s, p, |p| - 1);
    }
  }

  lemma {:induction false} ChainCompleted(s: Supervisor, p: seq<Id>, k: nat)
    requires Safe(s) && Path(s.snapshot.graph.edges, p) && 0 < k < |p|
    requires DependenciesCompleted(s.snapshot.graph, p[k])
    ensures p[0] in s.Tasks() && s.Tasks()[p[0]].status == Completed
    decreases k
  {
    var e := (p[k - 1], p[k]);
    assert e in s.snapshot.graph.edges;
    if k > 1 {
      assert NeedsDependencies(s.Tasks()[p[k - 1]].status);
      ChainCompleted(s, p, k - 1);
    }
  }

  /** With a free slot, the scheduler has nothing to start exactly when every queued
      task sits behind one that is running, waiting, paused, failed, cancelled or planning. */
  lemma StallIffEveryQueuedTaskIsBlocked(s: Supervisor)
    requires Safe(s) && |s.Order()| < s.maximumParallelism
    ensures ReadyTasks(s) == [] <==>
            forall id :: id in s.Tasks() && s.Tasks()[id].status == Queued ==> Blocked(s, id)
  {
    SlotCountsAgree(s);
    ReadyEmptyIffNoneReady(s);
    var edges := s.snapshot.graph.edges;
    var free := set id | id in s.Tasks() && s.Tasks()[id].status == Queued && !Blocked(s, id);
    if free != {} {
      var id := SourceExists(edges, free);
      forall e | e in edges && e.1 == id ensures e.0 in s.Tasks() && s.Tasks()[e.0].status == Completed {
        EdgeDepends(edges, e.0, id);
        assert !Blocker(s, e.0);
        if Blocked(s, e.0) {
          var b :| Blocker(s, b) && DependsOn(edges, b, e.0);
          DependsThenEdge(edges, b, e.0, id);
        }
      }
      assert IsReady(s, id);
      assert !Blocked(s, id);
    } else {
      forall id ensures !IsReady(s, id) {
        if IsReady(s, id) {
          assert id !in free;
          BlockedIsNotReady(s, id);
        }
      }
      forall id | id in s.Tasks() && s.Tasks()[id].status == Queued ensures Blocked(s, id) {
        assert id !in free;
      }
    }
  }

  function Unfinished(s: Supervisor): set<Id> { set id | id in s.Tasks() && s.Tasks()[id].status != Completed }

  predicate Finished(s: Supervisor) { forall id :: id in s.Tasks() ==> s.Tasks()[id].status == Completed }

  /** If everything unfinished is queued, something can be started. */
  lemma QueuedWorkIsReady(s: Supervisor)
    requires Safe(s) && Unfinished(s) != {}
    requires forall id :: id in Unfinished(s) ==> s.Tasks()[id].status == Queued
    ensures ReadyTasks(s) != []
  {
    SlotCountsAgree(s);
    assert forall id :: id in RunningTasks(s.Tasks()) ==> id in Unfinished(s);
    assert RunningTasks(s.Tasks()) == {};
    StallIffEveryQueuedTaskIsBlocked(s);
    var id :| id in Unfinished(s);
    assert forall b :: Blocker(s, b) ==> b in Unfinished(s);
    assert !Blocked(s, id);
  }

  // ---------------------------------------------------------------------
  // Starting one batch of ready tasks

  function StartOps(ids: seq<Id>): seq<Operation> { seq(|ids|, i requires 0 <= i < |ids| => Start(ids[i])) }

  /** What `start` still checks about a ready task. */
  predicate Grantable(t: Task) { t.attempt < t.maxAttempts && (IsConsequential(t) ==> t.idempotencyKey.Some?) }

  function Granted(t: Task): Task {
    if Grantable(t) then t.(attempt := t.attempt + 1, status := Running) else t
  }

  function StartOutcome(id: Id, t: Task): Outcome {
    if t.attempt >= t.maxAttempts then Refused(AttemptsExhausted(id))
    else if IsConsequential(t) && t.idempotencyKey.None? then Refused(MissingIdempotencyKey(id))
    else Decided(Started(id, t.attempt + 1))
  }

  /** A list of distinct ready tasks that fits into the free slots. */
  ghost predicate Batch(s: Supervisor, ids: seq<Id>) {
    && NoDuplicates(ids)
    && (forall id :: id in ids ==> IsReady(s, id))
    && |s.Order()| + |ids| <= s.maximumParallelism
  }

  lemma ReadyTasksAreABatch(s: Supervisor)
    requires SlotsAgree(s)
    ensures Batch(s, ReadyTasks(s))
  {
    SlotCountsAgree(s);
    var all := Filtered(s, Ascending(s.Tasks().Keys));
    FilteredIsExact(s, Ascending(s.Tasks().Keys));
    AscendingIsSorted(s.Tasks().Keys);
    forall id | id in ReadyTasks(s) ensures IsReady(s, id) {
      assert id in all;
    }
  }

  /** The state after starting the tasks `ids` of a batch one after the other. */
  ghost predicate BatchStarted(s: Supervisor, ids: seq<Id>, m: Supervisor) {
    && m == s.WithTasks(m.Tasks(), m.Order())
    && m.Tasks().Keys == s.Tasks().Keys
    && (forall id :: id in s.Tasks() ==> m.Tasks()[id] == if id in ids then Granted(s.Tasks()[id]) else s.Tasks()[id])
    && |m.Order()| <= |s.Order()| + |ids|
  }

  lemma BatchKeepsDependencies(s: Supervisor, ids: seq<Id>, m: Supervisor, id: Id)
    requires BatchStarted(s, ids, m) && DependenciesCompleted(s.snapshot.graph, id)
    requires forall x :: x in ids ==> IsReady(s, x)
    ensures DependenciesCompleted(m.snapshot.graph, id)
  {
    assert m.snapshot.graph.edges == s.snapshot.graph.edges;
  }

  lemma StartOne(s: Supervisor, done: seq<Id>, m: Supervisor, id: Id)
    requires BatchStarted(s, done, m) && id !in done && IsReady(s, id)
    requires forall x :: x in done ==> IsReady(s, x)
    requires |s.Order()| + |done| < s.maximumParallelism
    ensures StartTask(m, id).1 == StartOutcome(id, s.Tasks()[id])
    ensures BatchStarted(s, done + [id], StartTask(m, id).0)
  {
    BatchKeepsDependencies(s, done, m, id);
    assert m.Tasks()[id] == s.Tasks()[id];
  }

  lemma {:induction false} StartBatch(s: Supervisor, ids: seq<Id>, n: nat)
    requires Batch(s, ids) && n <= |ids|
    ensures BatchStarted(s, ids[..n], Run(s, StartOps(ids)[..n]))
    decreases n
  {
    if n == 0 {
      assert StartOps(ids)[..0] == [] && ids[..0] == [];
    } else {
      StartBatch(s, ids, n - 1);
      RunSnoc(s, StartOps(ids), n);
      StartNext(s, ids, n - 1, Run(s, StartOps(ids)[..n - 1]));
    }
  }

  lemma StartNext(s: Supervisor, ids: seq<Id>, n: nat, m: Supervisor)
    requires Batch(s, ids) && n < |ids| && BatchStarted(s, ids[..n], m)
    ensures ids[n] in s.Tasks() && Apply(m, Start(ids[n])).1 == StartOutcome(ids[n], s.Tasks()[ids[n]])
    ensures BatchStarted(s, ids[..n + 1], Apply(m, Start(ids[n])).0)
  {
    assert IsReady(s, ids[n]) && ids[n] !in ids[..n];
    StartOne(s, ids[..n], m, ids[n]);
    assert ids[..n + 1] == ids[..n] + [ids[n]];
  }

  /** Scheduler agreement: starting every task of one `ready_tasks` result, in order, never
      reports TaskNotReady, WaitForDependencies or MissingTask; each start is granted unless
      it has used up its attempts or lacks an idempotency key it needs. */
  lemma ReadyBatchStarts(s: Supervisor, i: nat)
    requires Safe(s) && i < |ReadyTasks(s)|
    ensures
      var ids := ReadyTasks(s);
      && ids[i] in s.Tasks()
      && Apply(Run(s, StartOps(ids)[..i]), Start(ids[i])).1 == StartOutcome(ids[i], s.Tasks()[ids[i]])
  {
    ReadyTasksAreABatch(s);
    StartBatch(s, ReadyTasks(s), i);
    StartNext(s, ReadyTasks(s), i, Run(s, StartOps(ReadyTasks(s))[..i]));
  }

  // ---------------------------------------------------------------------
  // Draining a graph in rounds

  // What a worker reports when its task is done.
  datatype Reply = Reply(result: string, fingerprint: string, now: nat)

  type Work = Id -> Reply

  function CompleteOps(ids: seq<Id>, work: Work): seq<Operation> {
    seq(|ids|, i requires 0 <= i < |ids| =>
      Complete(ids[i], work(ids[i]).result, true, Some(work(ids[i]).fingerprint), work(ids[i]).now))
  }

  /** One round: start everything ready, then complete all of it with verification. */
  function Round(s: Supervisor, work: Work): Supervisor {
    Run(Run(s, StartOps(ReadyTasks(s))), CompleteOps(ReadyTasks(s), work))
  }

  function Rounds(s: Supervisor, work: Work, n: nat): Supervisor {
    if n == 0 then s else Round(Rounds(s, work, n - 1), work)
  }

  /** The tasks started by the first `n` rounds, in order. */
  function StartLog(s: Supervisor, work: Work, n: nat): seq<Id> {
    if n == 0 then [] else StartLog(s, work, n - 1) + ReadyTasks(Rounds(s, work, n - 1))
  }

  /** The operations of the first `n` rounds. */
  function DrainOps(s: Supervisor, work: Work, n: nat): seq<Operation> {
    if n == 0 then []
    else
      var ids := ReadyTasks(Rounds(s, work, n - 1));
      DrainOps(s, work, n - 1) + (StartOps(ids) + CompleteOps(ids, work))
  }

  /** The tasks whose completion a run accepts, in that order. */
  function Accepted(s: Supervisor, ops: seq<Operation>): seq<Id>
    decreases |ops|
  {
    if ops == [] then []
    else
      var before := ops[..|ops| - 1];
      var completed := CompletedBy(Run(s, before), ops[|ops| - 1]);
      Accepted(s, before) + (if completed.Some? then [completed.value] else [])
  }

  lemma {:induction false} RunConcat(s: Supervisor, a: seq<Operation>, b: seq<Operation>)
    ensures Run(s, a + b) == Run(Run(s, a), b)
    decreases |b|
  {
    if b == [] {
      assert a + b == a;
    } else {
      RunConcat(s, a, b[..|b| - 1]);
      assert (a + b)[..|a + b| - 1] == a + b[..|b| - 1];
    }
  }

  lemma {:induction false} AcceptedConcat(s: Supervisor, a: seq<Operation>, b: seq<Operation>)
    ensures Accepted(s, a + b) == Accepted(s, a) + Accepted(Run(s, a), b)
    decreases |b|
  {
    if b == [] {
      assert a + b == a;
    } else {
      var front := b[..|b| - 1];
      AcceptedConcat(s, a, front);
      RunConcat(s, a, front);
      assert (a + b)[..|a + b| - 1] == a + front;
      var completed := CompletedBy(Run(Run(s, a), front), b[|b| - 1]);
      ConcatAssociates(Accepted(s, a), Accepted(Run(s, a), front), if completed.Some? then [completed.value] else []);
    }
  }

  lemma AcceptedSnoc(s: Supervisor, ops: seq<Operation>, n: nat)
    requires 0 < n <= |ops|
    ensures
      var completed := CompletedBy(Run(s, ops[..n - 1]), ops[n - 1]);
      Accepted(s, ops[..n]) == Accepted(s, ops[..n - 1]) + (if completed.Some? then [completed.value] else [])
  {
    assert ops[..n][..n - 1] == ops[..n - 1];
  }

  lemma {:induction false} StartsCompleteNothing(s: Supervisor, ids: seq<Id>, n: nat)
    requires n <= |ids|
    ensures Accepted(s, StartOps(ids)[..n]) == []
  {
    if n > 0 {
      StartsCompleteNothing(s, ids, n - 1);
      AcceptedSnoc(s, StartOps(ids), n);
    }
  }

  /** Everything unfinished is queued, has an attempt left and, if consequential, a key. */
  ghost predicate Drainable(s: Supervisor) {
    && Safe(s)
    && forall id :: id in s.Tasks() ==>
         s.Tasks()[id].status == Completed || (s.Tasks()[id].status == Queued && Grantable(s.Tasks()[id]))
  }

  /** After completing `done`, the rest of the batch `ids` is still running. */
  ghost predicate BatchCompleting(s: Supervisor, ids: seq<Id>, done: seq<Id>, m: Supervisor) {
    && m.Tasks().Keys == s.Tasks().Keys && m.snapshot.graph.edges == s.snapshot.graph.edges
    && (forall id :: id in ids || id in done ==> id in s.Tasks())
    && (forall id :: id in done ==> m.Tasks()[id].status == Completed)
    && (forall id :: id in ids && id !in done ==>
          m.Tasks()[id].status == Running && (IsConsequential(m.Tasks()[id]) ==> m.Tasks()[id].idempotencyKey.Some?))
    && (forall id :: id in s.Tasks() && id !in ids ==> m.Tasks()[id] == s.Tasks()[id])
  }

  lemma CompletionAccepted(m: Supervisor, op: Operation)
    requires Safe(m) && op.Complete? && op.verified && op.fingerprint.Some?
    requires op.id in m.Tasks() && m.Tasks()[op.id].status == Running
    requires IsConsequential(m.Tasks()[op.id]) ==> m.Tasks()[op.id].idempotencyKey.Some?
    ensures Apply(m, op).1 == Done
    ensures
      var n := Apply(m, op).0;
      && n.snapshot.graph == m.snapshot.graph.(tasks := n.Tasks())
      && op.id in n.Tasks() && n.Tasks() == m.Tasks()[op.id := n.Tasks()[op.id]]
      && n.Tasks()[op.id].status == Completed
  {
    RunningHasNoReceipt(m, op.id);
    assert Apply(m, op) == CompleteTask(m, op.id, op.result, op.verified, op.fingerprint, op.now);
  }

  lemma CompleteNext(s: Supervisor, ids: seq<Id>, i: nat, m: Supervisor, op: Operation, n: Supervisor)
    requires Safe(m) && NoDuplicates(ids) && i < |ids| && BatchCompleting(s, ids, ids[..i], m)
    requires op.Complete? && op.verified && op.fingerprint.Some? && op.id == ids[i] && n == Apply(m, op).0
    ensures BatchCompleting(s, ids, ids[..i + 1], n) && CompletedBy(m, op) == Some(ids[i])
  {
    assert ids[i] in ids && ids[i] !in ids[..i];
    CompletionAccepted(m, op);
    assert ids[..i + 1] == ids[..i] + [ids[i]];
  }

  /** After `n` of the operations exactly the first `n` tasks are completed, and their completions were accepted. */
  ghost predicate CompletedSoFar(s: Supervisor, m: Supervisor, ids: seq<Id>, ops: seq<Operation>, n: nat)
    requires n <= |ids| == |ops|
  {
    BatchCompleting(s, ids, ids[..n], Run(m, ops[..n])) && Accepted(m, ops[..n]) == ids[..n]
  }

  lemma CompleteBatch(s: Supervisor, m: Supervisor, ids: seq<Id>, work: Work)
    requires NoDuplicates(ids) && Safe(m) && BatchCompleting(s, ids, [], m)
    ensures BatchCompleting(s, ids, ids, Run(m, CompleteOps(ids, work))) && Accepted(m, CompleteOps(ids, work)) == ids
  {
    var ops := CompleteOps(ids, work);
    assert ops[..0] == [] && ids[..0] == [] && ops[..|ids|] == ops && ids[..|ids|] == ids;
    for n := 0 to |ids|
      invariant CompletedSoFar(s, m, ids, ops, n)
    {
      CompleteOneMore(s, m, ids, ops, n);
    }
  }

  lemma CompleteOneMore(s: Supervisor, m: Supervisor, ids: seq<Id>, ops: seq<Operation>, n: nat)
    requires NoDuplicates(ids) && Safe(m) && n < |ids| == |ops| && CompletedSoFar(s, m, ids, ops, n)
    requires ops[n].Complete? && ops[n].verified && ops[n].fingerprint.Some? && ops[n].id == ids[n]
    ensures CompletedSoFar(s, m, ids, ops, n + 1)
  {
    RunIsSafe(m, ops[..n]);
    RunSnoc(m, ops, n + 1);
    AcceptedSnoc(m, ops, n + 1);
    CompleteStep(s, ids, n, Run(m, ops[..n]), ops[n], Run(m, ops[..n + 1]), Accepted(m, ops[..n]), Accepted(m, ops[..n + 1]));
  }

  lemma CompleteStep(s: Supervisor, ids: seq<Id>, i: nat, m: Supervisor, op: Operation, n: Supervisor,
                     log: seq<Id>, nextLog: seq<Id>)
    requires Safe(m) && NoDuplicates(ids) && i < |ids| && BatchCompleting(s, ids, ids[..i], m) && log == ids[..i]
    requires op.Complete? && op.verified && op.fingerprint.Some? && op.id == ids[i] && n == Apply(m, op).0
    requires nextLog == log + (if CompletedBy(m, op).Some? then [CompletedBy(m, op).value] else [])
    ensures BatchCompleting(s, ids, ids[..i + 1], n) && nextLog == ids[..i + 1]
  {
    CompleteNext(s, ids, i, m, op, n);
  }

  lemma StartedBatchIsRunning(s: Supervisor, ids: seq<Id>, m: Supervisor)
    requires Drainable(s) && Batch(s, ids) && BatchStarted(s, ids, m)
    ensures BatchCompleting(s, ids, [], m)
  {
    forall id | id in ids ensures m.Tasks()[id] == Granted(s.Tasks()[id]) && Grantable(s.Tasks()[id]) {
      assert IsReady(s, id);
    }
  }

  lemma BatchRuns(s: Supervisor, ids: seq<Id>, m: Supervisor)
    requires Drainable(s) && Batch(s, ids) && m == Run(s, StartOps(ids))
    ensures Safe(m) && BatchCompleting(s, ids, [], m)
  {
    StartBatch(s, ids, |ids|);
    assert ids[..|ids|] == ids && StartOps(ids)[..|ids|] == StartOps(ids);
    RunIsSafe(s, StartOps(ids));
    StartedBatchIsRunning(s, ids, m);
  }

  lemma BatchRound(s: Supervisor, ids: seq<Id>, work: Work)
    requires Drainable(s) && Batch(s, ids)
    ensures
      var n := Run(Run(s, StartOps(ids)), CompleteOps(ids, work));
      Safe(n) && BatchCompleting(s, ids, ids, n)
    ensures Accepted(Run(s, StartOps(ids)), CompleteOps(ids, work)) == ids
  {
    var m := Run(s, StartOps(ids));
    BatchRuns(s, ids, m);
    CompleteBatch(s, m, ids, work);
    RunIsSafe(m, CompleteOps(ids, work));
  }

  lemma BatchAccepted(s: Supervisor, ids: seq<Id>, work: Work)
    requires Accepted(Run(s, StartOps(ids)), CompleteOps(ids, work)) == ids
    ensures Accepted(s, StartOps(ids) + CompleteOps(ids, work)) == ids
  {
    StartsCompleteNothing(s, ids, |ids|);
    assert StartOps(ids)[..|ids|] == StartOps(ids);
    AcceptedConcat(s, StartOps(ids), CompleteOps(ids, work));
  }

  /** `m` is reached from `s` by rounds that completed exactly the tasks of `log`, in that order. */
  ghost predicate Drained(s: Supervisor, m: Supervisor, log: seq<Id>) {
    && Drainable(m) && m.Tasks().Keys == s.Tasks().Keys && m.snapshot.graph.edges == s.snapshot.graph.edges
    && Topological(log, s.snapshot.graph.edges)
    && (forall id :: id in log ==> id in Unfinished(s) && id !in Unfinished(m))
    && (forall id :: id in Unfinished(m) ==> id in Unfinished(s))
    && (forall id :: id in Unfinished(s) && id !in Unfinished(m) ==> id in log)
  }

  /** Appending a batch to the log keeps dependencies first: a ready task's dependencies
      are completed, and a completed task's dependencies were completed before it. */
  lemma LogStaysTopological(s: Supervisor, m: Supervisor, log: seq<Id>, ids: seq<Id>)
    requires Drained(s, m, log) && Batch(m, ids)
    ensures Topological(log + ids, s.snapshot.graph.edges)
  {
    var all := log + ids;
    forall id | id in ids ensures id in Unfinished(m) && id !in log {
      assert IsReady(m, id);
    }
    assert forall i :: 0 <= i < |log| ==> log[i] in log;
    assert forall i :: 0 <= i < |ids| ==> ids[i] in ids;
    forall i, j | 0 <= i < |all| && 0 <= j < |all| && (all[i], all[j]) in s.snapshot.graph.edges
      ensures i < j
    {
      var e := (all[i], all[j]);
      assert e in m.snapshot.graph.edges;
      if j < |log| {
        assert log[j] in log;
        assert DependenciesCompleted(m.snapshot.graph, all[j]);
      } else {
        assert ids[j - |log|] in ids;
        assert IsReady(m, all[j]);
      }
      assert all[i] !in Unfinished(m);
    }
  }

  lemma RoundExtends(s: Supervisor, m: Supervisor, log: seq<Id>, ids: seq<Id>, n: Supervisor)
    requires Drained(s, m, log) && Batch(m, ids) && Safe(n) && BatchCompleting(m, ids, ids, n)
    ensures Drained(s, n, log + ids)
  {
    LogStaysTopological(s, m, log, ids);
    RoundFinishes(m, ids, n);
  }

  lemma RoundFinishes(m: Supervisor, ids: seq<Id>, n: Supervisor)
    requires Drainable(m) && Batch(m, ids) && Safe(n) && BatchCompleting(m, ids, ids, n)
    ensures Drainable(n) && forall id :: id in ids ==> id in Unfinished(m)
    ensures forall id :: id in Unfinished(n) <==> id in Unfinished(m) && id !in ids
  {
    forall id | id in ids ensures id in Unfinished(m) && n.Tasks()[id].status == Completed {
      assert IsReady(m, id);
    }
    forall id | id in n.Tasks() && id !in ids ensures n.Tasks()[id] == m.Tasks()[id] {
    }
  }

  lemma RoundStep(s: Supervisor, work: Work, n: nat, m: Supervisor, log: seq<Id>, next: Supervisor, nextLog: seq<Id>)
    requires Drained(s, m, log) && next == Round(m, work) && nextLog == log + ReadyTasks(m)
    requires Finished(m) || |log| >= n
    ensures Drained(s, next, nextLog)
    ensures Finished(next) || |nextLog| >= n + 1
  {
    var ids := ReadyTasks(m);
    ReadyTasksAreABatch(m);
    BatchRound(m, ids, work);
    RoundExtends(s, m, log, ids, next);
    if !Finished(m) {
      UnfinishedWorkIsReady(m);
    }
  }

  lemma UnfinishedWorkIsReady(m: Supervisor)
    requires Drainable(m) && !Finished(m)
    ensures ReadyTasks(m) != []
  {
    var id :| id in m.Tasks() && m.Tasks()[id].status != Completed;
    assert id in Unfinished(m);
    QueuedWorkIsReady(m);
  }

  lemma NothingDrainedYet(s: Supervisor, work: Work, n: nat)
    requires Drainable(s) && n == 0
    ensures DrainedAfter(s, work, n)
  {
    assert Rounds(s, work, n) == s && StartLog(s, work, n) == [];
  }

  lemma RoundsUnfold(s: Supervisor, work: Work, n: nat)
    requires n > 0
    ensures Rounds(s, work, n) == Round(Rounds(s, work, n - 1), work)
    ensures StartLog(s, work, n) == StartLog(s, work, n - 1) + ReadyTasks(Rounds(s, work, n - 1))
  {
  }

  ghost predicate DrainedAfter(s: Supervisor, work: Work, n: nat) {
    && Drained(s, Rounds(s, work, n), StartLog(s, work, n))
    && (Finished(Rounds(s, work, n)) || |StartLog(s, work, n)| >= n)
  }

  lemma NextRoundDrains(s: Supervisor, work: Work, n: nat)
    requires n > 0 && DrainedAfter(s, work, n - 1)
    ensures DrainedAfter(s, work, n)
  {
    RoundsUnfold(s, work, n);
    RoundStep(s, work, n - 1, Rounds(s, work, n - 1), StartLog(s, work, n - 1), Rounds(s, work, n), StartLog(s, work, n));
  }

  lemma RoundsDrain(s: Supervisor, work: Work, n: nat)
    requires Drainable(s)
    ensures DrainedAfter(s, work, n)
  {
    NothingDrainedYet(s, work, 0);
    for i := 0 to n
      invariant DrainedAfter(s, work, i)
    {
      NextRoundDrains(s, work, i + 1);
    }
  }

  /** The operations of the rounds lead where the rounds lead, and the completions they get
      accepted are those of the tasks started, in the same order. */
  lemma OpsFollowRounds(s: Supervisor, work: Work, n: nat)
    requires Drainable(s)
    ensures Run(s, DrainOps(s, work, n)) == Rounds(s, work, n)
    ensures Accepted(s, DrainOps(s, work, n)) == StartLog(s, work, n)
  {
    for i := 0 to n
      invariant OpsFollow(s, work, i)
    {
      RoundsDrain(s, work, i);
      OpsFollowNext(s, work, i);
    }
  }

  ghost predicate OpsFollow(s: Supervisor, work: Work, n: nat) {
    && Run(s, DrainOps(s, work, n)) == Rounds(s, work, n)
    && Accepted(s, DrainOps(s, work, n)) == StartLog(s, work, n)
  }

  lemma OpsFollowNext(s: Supervisor, work: Work, n: nat)
    requires OpsFollow(s, work, n) && Drainable(Rounds(s, work, n))
    ensures OpsFollow(s, work, n + 1)
  {
    RoundsUnfold(s, work, n + 1);
    RoundOps(s, work, DrainOps(s, work, n), Rounds(s, work, n));
  }

  lemma RoundOps(s: Supervisor, work: Work, ops: seq<Operation>, m: Supervisor)
    requires m == Run(s, ops) && Drainable(m)
    ensures
      var ids := ReadyTasks(m);
      var more := StartOps(ids) + CompleteOps(ids, work);
      Run(s, ops + more) == Round(m, work) && Accepted(s, ops + more) == Accepted(s, ops) + ids
  {
    var ids := ReadyTasks(m);
    ReadyTasksAreABatch(m);
    BatchRound(m, ids, work);
    BatchAccepted(m, ids, work);
    RunConcat(m, StartOps(ids), CompleteOps(ids, work));
    RunConcat(s, ops, StartOps(ids) + CompleteOps(ids, work));
    AcceptedConcat(s, ops, StartOps(ids) + CompleteOps(ids, work));
  }

  /** Drain: whatever the workers report, as many rounds as there are unfinished tasks finish
      everything; the run accepts exactly one completion of each unfinished task, in a
      topological order of the edges, and no other. */
  lemma DrainFinishesEverything(s: Supervisor, work: Work)
    requires Drainable(s)
    ensures
      var ops := DrainOps(s, work, |Unfinished(s)|);
      && Run(s, ops).Tasks().Keys == s.Tasks().Keys && Finished(Run(s, ops))
      && (forall id :: id in Unfinished(s) ==> Completions(s, ops, id) == 1)
      && |Accepted(s, ops)| == |Unfinished(s)| && Elements(Accepted(s, ops)) == Unfinished(s)
      && Topological(Accepted(s, ops), s.snapshot.graph.edges)
  {
    var n := |Unfinished(s)|;
    var ops := DrainOps(s, work, n);
    RoundsDrain(s, work, n);
    OpsFollowRounds(s, work, n);
    LogAccountsForAll(s, Rounds(s, work, n), StartLog(s, work, n));
    forall id | id in Unfinished(s) ensures Completions(s, ops, id) == 1 {
      AttemptsAndCompletionsAreExact(s, ops, id);
    }
  }

  lemma LogAccountsForAll(s: Supervisor, m: Supervisor, log: seq<Id>)
    requires Drained(s, m, log) && (Finished(m) || |log| >= |Unfinished(s)|)
    ensures Finished(m) && Elements(log) == Unfinished(s) && |log| == |Unfinished(s)|
  {
    var left := Unfinished(m);
    NoDuplicatesCardinality(log);
    assert Unfinished(s) == left + Elements(log) && left !! Elements(log);
    assert |Unfinished(s)| == |left| + |log|;
    assert Finished(m) ==> left == {};
    assert left == {};
    forall id | id in m.Tasks() ensures m.Tasks()[id].status == Completed {
      assert id !in left;
    }
  }

  /** A fresh graph of queued tasks with attempts and keys is drainable: it finishes in exactly
      as many completions as it has tasks, one each, dependencies first. */
  lemma FreshGraphDrains(g: TaskGraph, parallelism: nat, depth: nat, work: Work)
    requires ValidBounds(parallelism, depth) && ValidGraph(g) && DistinctKeys(g.tasks)
    requires forall id :: id in g.tasks ==>
      g.tasks[id].status == Queued && g.tasks[id].attempt == 0 && Grantable(g.tasks[id])
    ensures
      var s := Fresh(g, parallelism, depth);
      var ops := DrainOps(s, work, |g.tasks|);
      && Finished(Run(s, ops)) && Run(s, ops).Tasks().Keys == g.tasks.Keys
      && (forall id :: id in g.tasks ==> Completions(s, ops, id) == 1)
      && |Accepted(s, ops)| == |g.tasks| && Elements(Accepted(s, ops)) == g.tasks.Keys
      && Topological(Accepted(s, ops), g.edges)
  {
    var s := Fresh(g, parallelism, depth);
    FreshSafeIffStartable(g, parallelism, depth);
    assert Unfinished(s) == g.tasks.Keys;
    DrainFinishesEverything(s, work);
  }
}
