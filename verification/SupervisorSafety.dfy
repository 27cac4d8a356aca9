/** What every run of the supervisor keeps, crashes and recoveries included. */
module SupervisorSafety {
  import opened Collections
  import opened TaskGraphs
  import opened Supervisors

  // ---------------------------------------------------------------------
  // The inductive invariant

  /** The two records of "running" agree and respect the worker limit. */
  ghost predicate SlotsAgree(s: Supervisor) {
    && NoDuplicates(s.Order())
    && (forall id :: id in s.Order() <==> id in s.Tasks() && s.Tasks()[id].status == Running)
    && |s.Order()| <= s.maximumParallelism
  }

  predicate NeedsDependencies(status: WorkStatus) {
    status.Running? || status.Waiting? || status.Failed? || status.Completed?
  }

  ghost predicate DependencySafe(s: Supervisor) {
    forall id :: id in s.Tasks() && NeedsDependencies(s.Tasks()[id].status) ==>
      DependenciesCompleted(s.snapshot.graph, id)
  }

  ghost predicate AttemptsBounded(s: Supervisor) {
    forall id :: id in s.Tasks() ==> s.Tasks()[id].attempt <= s.Tasks()[id].maxAttempts
  }

  ghost predicate ShareKey(tasks: map<Id, Task>, a: Id, b: Id) {
    a in tasks && b in tasks && tasks[a].idempotencyKey.Some? && tasks[a].idempotencyKey == tasks[b].idempotencyKey
  }

  /** No task shares the key of a consequential one; only consequential tasks write receipts. */
  ghost predicate DistinctKeys(tasks: map<Id, Task>) {
    forall a, b {:trigger ShareKey(tasks, a, b)} :: ShareKey(tasks, a, b) && IsConsequential(tasks[a]) ==> a == b
  }

  /** A verified receipt, filed under its own key, for a completed consequential task owning that key. */
  ghost predicate SoundReceipt(tasks: map<Id, Task>, key: string, r: EffectReceipt) {
    && r.verified && r.idempotencyKey == key
    && r.taskId in tasks && tasks[r.taskId].idempotencyKey == Some(key)
    && IsConsequential(tasks[r.taskId]) && tasks[r.taskId].status == Completed
  }

  /** Its key leads to a verified receipt that names it. */
  ghost predicate Receipted(id: Id, t: Task, receipts: map<string, EffectReceipt>) {
    HasVerifiedReceipt(t, receipts) && receipts[t.idempotencyKey.value].taskId == id
  }

  ghost predicate ReceiptsSound(s: Supervisor) {
    && (forall key :: key in s.Receipts() ==> SoundReceipt(s.Tasks(), key, s.Receipts()[key]))
    && (forall id :: id in s.Tasks() && IsConsequential(s.Tasks()[id]) && s.Tasks()[id].status == Completed ==>
          Receipted(id, s.Tasks()[id], s.Receipts()))
  }

  ghost predicate Safe(s: Supervisor) {
    && s.snapshot.schemaVersion == 1 && ValidBounds(s.maximumParallelism, s.maximumDelegationDepth)
    && ValidGraph(s.snapshot.graph) && DistinctKeys(s.Tasks())
    && SlotsAgree(s) && DependencySafe(s) && AttemptsBounded(s) && ReceiptsSound(s)
  }

  /** What a caller of `new` can check about a graph: its tasks form a state the scheduler could have reached. */
  ghost predicate Startable(g: TaskGraph) {
    && ValidGraph(g) && DistinctKeys(g.tasks)
    && forall id :: id in g.tasks ==>
         && g.tasks[id].status != Running && g.tasks[id].attempt <= g.tasks[id].maxAttempts
         && (NeedsDependencies(g.tasks[id].status) ==> DependenciesCompleted(g, id))
         && !(g.tasks[id].status == Completed && IsConsequential(g.tasks[id]))
  }

  /** `new` does not look at statuses or attempts; it yields a safe state exactly on startable graphs. */
  lemma FreshSafeIffStartable(g: TaskGraph, parallelism: nat, depth: nat)
    requires ValidBounds(parallelism, depth)
    ensures Safe(Fresh(g, parallelism, depth)) <==> Startable(g)
  {
    var s := Fresh(g, parallelism, depth);
    assert s.Tasks() == g.tasks && s.Order() == [] && s.Receipts() == map[];
    if Safe(s) {
      forall id | id in g.tasks ensures g.tasks[id].status != Running {
        assert id !in s.Order();
      }
    }
  }

  // A task that claims to be running although nothing was ever started.
  const StaleTask := Task(1, 0, None, {}, "routine", Isolated, 1, 0, None, None, Running, 0, None)

  const StaleGraph := TaskGraph(0, 1, map[1 := StaleTask], [])

  /** `new` accepts a valid graph whose state no run could have reached: its one task counts as
      running outside the lane, so it takes the only slot away, and its completion is accepted
      although it was never granted an attempt. */
  lemma NewAcceptsUnreachableState()
    ensures ValidGraph(StaleGraph)
    ensures
      var s := Fresh(StaleGraph, 1, 1);
      && !Safe(s) && s.Order() == [] && AvailableSlots(s) == 0
      && Apply(s, Complete(1, "ok", true, None, 0)).1 == Done
      && 1 in Apply(s, Complete(1, "ok", true, None, 0)).0.Tasks()
      && Apply(s, Complete(1, "ok", true, None, 0)).0.Tasks()[1] == StaleTask.(status := Completed, output := Some("ok"), progress := 100)
  {
    TopologicalMeansAcyclic([], StaleGraph.edges);
    var s := Fresh(StaleGraph, 1, 1);
    assert 1 in s.Tasks() && s.Tasks()[1].status == Running && 1 !in s.Order();
    assert RunningTasks(s.Tasks()) == {1};
  }

  /** The intended start: a valid graph of queued, unattempted tasks. */
  lemma QueuedGraphIsStartable(g: TaskGraph)
    requires ValidGraph(g) && DistinctKeys(g.tasks)
    requires forall id :: id in g.tasks ==> g.tasks[id].status == Queued && g.tasks[id].attempt == 0
    ensures Startable(g)
  {
  }

  // ---------------------------------------------------------------------
  // What one transition may do

  /** Which task a transition grants a worker slot with a new attempt, if any. */
  function StartedBy(s: Supervisor, op: Operation): Option<Id> {
    var outcome := Apply(s, op).1;
    if outcome.Decided? && outcome.decision.Started? then Some(outcome.decision.task) else None
  }

  /** Which task's verified completion a transition accepts, if any. */
  function CompletedBy(s: Supervisor, op: Operation): Option<Id> {
    if op.Complete? && Apply(s, op).1.Done? then Some(op.id) else None
  }

  ghost predicate SamePlan(t: Task, u: Task) {
    u == t.(attempt := u.attempt, checkpointId := u.checkpointId, status := u.status,
            progress := u.progress, output := u.output)
  }

  ghost predicate TaskStep(s: Supervisor, started: Option<Id>, completed: Option<Id>, id: Id, n: Supervisor)
    requires id in s.Tasks() && id in n.Tasks()
  {
    var t, u := s.Tasks()[id], n.Tasks()[id];
    && SamePlan(t, u)
    && (t.status == Completed ==> u == t && completed != Some(id))
    && (NeedsDependencies(u.status) ==> DependenciesCompleted(s.snapshot.graph, id))
    && u.attempt == t.attempt + (if started == Some(id) then 1 else 0) <= u.maxAttempts
    && (t.status != Completed ==> (u.status == Completed <==> completed == Some(id)))
    && (t.status != Completed && u.status == Completed && IsConsequential(u) ==> Receipted(id, u, n.Receipts()))
  }

  /** What any transition may do: the plan is fixed, completed tasks and written
      receipts are frozen, every other change is a `TaskStep`. */
  ghost predicate Frame(s: Supervisor, started: Option<Id>, completed: Option<Id>, n: Supervisor) {
    && n.snapshot.schemaVersion == 1 && ValidBounds(n.maximumParallelism, n.maximumDelegationDepth)
    && n.snapshot.graph == s.snapshot.graph.(tasks := n.Tasks())
    && n.Tasks().Keys == s.Tasks().Keys
    && (forall id :: id in s.Tasks() ==> TaskStep(s, started, completed, id, n))
    && (forall key :: key in s.Receipts() ==> key in n.Receipts() && n.Receipts()[key] == s.Receipts()[key])
    && (forall key :: key in n.Receipts() && key !in s.Receipts() ==> SoundReceipt(n.Tasks(), key, n.Receipts()[key]))
  }

  ghost predicate Transition(s: Supervisor, op: Operation) {
    Frame(s, StartedBy(s, op), CompletedBy(s, op), Apply(s, op).0) && SlotsAgree(Apply(s, op).0)
  }

  lemma FrameGivesTransition(s: Supervisor, op: Operation, started: Option<Id>, completed: Option<Id>, n: Supervisor)
    requires Frame(s, started, completed, n) && SlotsAgree(n)
    requires Apply(s, op).0 == n && StartedBy(s, op) == started && CompletedBy(s, op) == completed
    ensures Transition(s, op)
  {
  }

  /** Rewriting one unfinished task stays inside the frame. */
  lemma RewriteFrame(s: Supervisor, started: Option<Id>, id: Id, u: Task, order: seq<Id>)
    requires Safe(s) && id in s.Tasks() && s.Tasks()[id].status != Completed
    requires u.status != Completed && SamePlan(s.Tasks()[id], u)
    requires started.None? || started == Some(id)
    requires u.attempt == s.Tasks()[id].attempt + (if started.Some? then 1 else 0) <= u.maxAttempts
    requires NeedsDependencies(u.status) ==> DependenciesCompleted(s.snapshot.graph, id)
    ensures Frame(s, started, None, s.WithTasks(s.Tasks()[id := u], order))
  {
    var n := s.WithTasks(s.Tasks()[id := u], order);
    forall other | other in s.Tasks() ensures TaskStep(s, started, None, other, n) {
    }
  }

  lemma LeaveKeepsSlots(s: Supervisor, id: Id, u: Task)
    requires SlotsAgree(s) && id in s.Tasks() && u.status != Running
    ensures SlotsAgree(s.Leave(id, u))
  {
    WithoutKeepsOrder(s.Order(), id);
  }

  lemma EnterKeepsSlots(s: Supervisor, id: Id, u: Task)
    requires SlotsAgree(s) && id in s.Tasks() && s.Tasks()[id].status != Running && u.status == Running
    requires |s.Order()| < s.maximumParallelism
    ensures SlotsAgree(s.Enter(id, u))
  {
    var n := s.Enter(id, u);
    assert n.Order() == s.Order() + [id];
    assert id !in s.Order();
  }

  lemma WriteKeepsSlots(s: Supervisor, id: Id, u: Task)
    requires SlotsAgree(s) && id in s.Tasks() && (s.Tasks()[id].status == Running <==> u.status == Running)
    ensures SlotsAgree(s.Write(id, u))
  {
  }

  lemma StartIsTransition(s: Supervisor, id: Id)
    requires Safe(s) && id in s.Tasks() && StartTask(s, id).1.Decided? && StartTask(s, id).1.decision.Started?
    ensures Transition(s, Start(id))
  {
    var t := s.Tasks()[id];
    var u := t.(attempt := t.attempt + 1, status := Running);
    RewriteFrame(s, Some(id), id, u, s.Order() + [id]);
    EnterKeepsSlots(s, id, u);
    FrameGivesTransition(s, Start(id), Some(id), None, s.Enter(id, u));
  }

  /** With distinct keys the receipt branch of recovery is never taken on a safe state. */
  lemma RunningHasNoReceipt(s: Supervisor, id: Id)
    requires Safe(s) && id in s.Tasks() && s.Tasks()[id].status == Running
    ensures s.Tasks()[id].idempotencyKey.Some? ==> s.Tasks()[id].idempotencyKey.value !in s.Receipts()
  {
    if s.Tasks()[id].idempotencyKey.Some? {
      var key := s.Tasks()[id].idempotencyKey.value;
      assert key in s.Receipts() ==>
          SoundReceipt(s.Tasks(), key, s.Receipts()[key]) && ShareKey(s.Tasks(), s.Receipts()[key].taskId, id);
    }
  }

  /** Completing a running task, with the receipt filed for it if it is consequential. */
  lemma CompleteFrame(s: Supervisor, id: Id, u: Task, receipts: map<string, EffectReceipt>)
    requires Safe(s) && id in s.Tasks() && s.Tasks()[id].status == Running
    requires u == s.Tasks()[id].(output := u.output, progress := u.progress, status := Completed)
    requires if !IsConsequential(u) then receipts == s.Receipts()
      else
        && u.idempotencyKey.Some? && u.idempotencyKey.value !in s.Receipts()
        && u.idempotencyKey.value in receipts
        && receipts - {u.idempotencyKey.value} == s.Receipts()
        && receipts[u.idempotencyKey.value].verified
        && receipts[u.idempotencyKey.value].taskId == id
        && receipts[u.idempotencyKey.value].idempotencyKey == u.idempotencyKey.value
    ensures
      var left := s.Leave(id, u);
      Frame(s, None, Some(id), left.(snapshot := left.snapshot.(receipts := receipts)))
  {
    var left := s.Leave(id, u);
    var n := left.(snapshot := left.snapshot.(receipts := receipts));
    forall other | other in s.Tasks() ensures TaskStep(s, None, Some(id), other, n) {
    }
  }

  lemma CompleteIsTransition(s: Supervisor, op: Operation)
    requires Safe(s) && op.Complete? && op.id in s.Tasks() && Apply(s, op).1.Done?
    ensures Transition(s, op)
  {
    var n := Apply(s, op).0;
    RunningHasNoReceipt(s, op.id);
    CompleteFrame(s, op.id, n.Tasks()[op.id], n.Receipts());
    LeaveKeepsSlots(s, op.id, n.Tasks()[op.id]);
    FrameGivesTransition(s, op, None, Some(op.id), n);
  }

  /** Recovery, written as one simultaneous rewrite of the running lane. */
  function RecoveredTasks(tasks: map<Id, Task>, receipts: map<string, EffectReceipt>, order: seq<Id>): map<Id, Task> {
    map id | id in tasks :: if id in order then AfterCrash(tasks[id], receipts) else tasks[id]
  }

  lemma {:induction false} RecoverTasksIsSimultaneous(
    tasks: map<Id, Task>, receipts: map<string, EffectReceipt>, order: seq<Id>)
    requires NoDuplicates(order)
    requires forall id :: id in order ==> id in tasks && tasks[id].status == Running
    ensures RecoverTasks(tasks, receipts, order) == Ok(RecoveredTasks(tasks, receipts, order))
    decreases |order|
  {
    if order == [] {
      assert RecoveredTasks(tasks, receipts, order) == tasks;
    } else {
      var next := tasks[order[0] := AfterCrash(tasks[order[0]], receipts)];
      assert order[0] !in order[1..];
      RecoverTasksIsSimultaneous(next, receipts, order[1..]);
      assert RecoveredTasks(next, receipts, order[1..]) == RecoveredTasks(tasks, receipts, order);
    }
  }

  /** A rewrite of all tasks at once that completes nothing and gives no task a
      status that needs its dependencies unless it had one already. */
  lemma BulkFrame(s: Supervisor, n: Supervisor, tasks: map<Id, Task>, order: seq<Id>)
    requires Safe(s) && tasks.Keys == s.Tasks().Keys
    requires n.snapshot == s.WithTasks(tasks, order).snapshot
    requires ValidBounds(n.maximumParallelism, n.maximumDelegationDepth)
    requires forall id :: id in tasks ==>
      || tasks[id] == s.Tasks()[id]
      || (&& s.Tasks()[id].status != Completed && tasks[id].status != Completed
          && (NeedsDependencies(tasks[id].status) ==> NeedsDependencies(s.Tasks()[id].status))
          && tasks[id] == s.Tasks()[id].(status := tasks[id].status))
    ensures Frame(s, None, None, n)
  {
    forall id | id in s.Tasks() ensures TaskStep(s, None, None, id, n) {
    }
  }

  lemma RecoveryFrame(s: Supervisor, n: Supervisor)
    requires Safe(s) && ValidBounds(n.maximumParallelism, n.maximumDelegationDepth)
    requires n.snapshot == s.WithTasks(RecoveredTasks(s.Tasks(), s.Receipts(), s.Order()), []).snapshot
    ensures Frame(s, None, None, n) && SlotsAgree(n)
  {
    forall id | id in s.Order() ensures !HasVerifiedReceipt(s.Tasks()[id], s.Receipts()) {
      RunningHasNoReceipt(s, id);
    }
    BulkFrame(s, n, RecoveredTasks(s.Tasks(), s.Receipts(), s.Order()), []);
  }

  lemma RecoveryIsTransition(s: Supervisor, parallelism: nat, depth: nat)
    requires Safe(s)
    ensures Transition(s, CrashAndRecover(parallelism, depth))
  {
    var op := CrashAndRecover(parallelism, depth);
    RecoverTasksIsSimultaneous(s.Tasks(), s.Receipts(), s.Order());
    if ValidBounds(parallelism, depth) {
      RecoveryFrame(s, Apply(s, op).0);
      FrameGivesTransition(s, op, None, None, Apply(s, op).0);
    } else {
      StutterIsTransition(s, op);
    }
  }

  /** Bulk rewrites that empty the running lane. */
  lemma ParkingFrame(s: Supervisor, tasks: map<Id, Task>)
    requires Safe(s) && tasks.Keys == s.Tasks().Keys
    requires forall id :: id in tasks ==>
      || (tasks[id] == s.Tasks()[id] && tasks[id].status != Running)
      || (&& s.Tasks()[id].status != Completed && (tasks[id].status.Paused? || tasks[id].status.Cancelled?)
          && tasks[id] == s.Tasks()[id].(status := tasks[id].status))
    ensures Frame(s, None, None, s.WithTasks(tasks, [])) && SlotsAgree(s.WithTasks(tasks, []))
  {
    BulkFrame(s, s.WithTasks(tasks, []), tasks, []);
  }

  lemma PausingIsTransition(s: Supervisor)
    requires Safe(s)
    ensures Transition(s, PauseAll)
  {
    var tasks := PausedTasks(s.Tasks());
    ParkingFrame(s, tasks);
    FrameGivesTransition(s, PauseAll, None, None, s.WithTasks(tasks, []));
  }

  lemma CancellingIsTransition(s: Supervisor)
    requires Safe(s)
    ensures Transition(s, CancelAll)
  {
    var tasks := CancelledTasks(s.Tasks());
    ParkingFrame(s, tasks);
    FrameGivesTransition(s, CancelAll, None, None, s.WithTasks(tasks, []));
  }

  lemma PreemptingIsTransition(s: Supervisor)
    requires Safe(s)
    ensures Transition(s, PreemptForUser)
  {
    var tasks := PreemptedTasks(s.Tasks(), s.Order());
    ParkingFrame(s, tasks);
    FrameGivesTransition(s, PreemptForUser, None, None, s.WithTasks(tasks, []));
  }

  lemma ResumingIsTransition(s: Supervisor)
    requires Safe(s)
    ensures Transition(s, ResumeAll)
  {
    var tasks := ResumedTasks(s.Tasks());
    var n := s.WithTasks(tasks, s.Order());
    BulkFrame(s, n, tasks, s.Order());
    FrameGivesTransition(s, ResumeAll, None, None, n);
  }

  lemma ClockIsTransition(s: Supervisor, op: Operation)
    requires Safe(s) && op.AdvanceVirtualTime?
    ensures Transition(s, op)
  {
    var n := Apply(s, op).0;
    forall id | id in s.Tasks() ensures TaskStep(s, None, None, id, n) {
    }
  }

  lemma StutterIsTransition(s: Supervisor, op: Operation)
    requires Safe(s) && Apply(s, op).0 == s
    requires Apply(s, op).1.Refused? || (Apply(s, op).1.Decided? && !Apply(s, op).1.decision.Started?)
    ensures Transition(s, op)
  {
    forall id | id in s.Tasks() ensures TaskStep(s, None, None, id, s) {
    }
  }

  /** Transitions that take one task out of the running lane. */
  lemma LeavingIsTransition(s: Supervisor, op: Operation)
    requires Safe(s)
    requires op.ProviderFailed? || op.AwaitApproval? || op.Pause? || op.Cancel? || op.Fail?
    requires op.id in s.Tasks() && !Apply(s, op).1.Refused?
    ensures Transition(s, op)
  {
    var u := Apply(s, op).0.Tasks()[op.id];
    RewriteFrame(s, None, op.id, u, Without(s.Order(), op.id));
    LeaveKeepsSlots(s, op.id, u);
    FrameGivesTransition(s, op, None, None, s.Leave(op.id, u));
  }

  /** Transitions that rewrite one task and leave the running lane alone. */
  lemma StayingIsTransition(s: Supervisor, op: Operation)
    requires Safe(s) && (op.BindCheckpoint? || op.Resume? || op.Retry?)
    requires op.id in s.Tasks() && !Apply(s, op).1.Refused?
    ensures Transition(s, op)
  {
    var u := Apply(s, op).0.Tasks()[op.id];
    RewriteFrame(s, None, op.id, u, s.Order());
    WriteKeepsSlots(s, op.id, u);
    FrameGivesTransition(s, op, None, None, s.Write(op.id, u));
  }

  /** Returning from approval never looks at dependencies: the invariant has kept them completed. */
  lemma ReturningIsTransition(s: Supervisor, op: Operation)
    requires Safe(s) && op.ResumeAfterApproval?
    requires op.id in s.Tasks() && !Apply(s, op).1.Refused?
    ensures Transition(s, op)
  {
    var u := s.Tasks()[op.id].(status := Running);
    RewriteFrame(s, None, op.id, u, s.Order() + [op.id]);
    EnterKeepsSlots(s, op.id, u);
    FrameGivesTransition(s, op, None, None, s.Enter(op.id, u));
  }

  lemma NamedIsTransition(s: Supervisor, op: Operation)
    requires Safe(s) && NamesTask(op) && !Apply(s, op).1.Refused?
    ensures Transition(s, op)
  {
    if op.Start? {
      if Apply(s, op).1.decision.Started? { StartIsTransition(s, op.id); } else { StutterIsTransition(s, op); }
    } else if op.Complete? {
      CompleteIsTransition(s, op);
    } else if op.BindCheckpoint? || op.Resume? || op.Retry? {
      StayingIsTransition(s, op);
    } else if op.ResumeAfterApproval? {
      ReturningIsTransition(s, op);
    } else {
      LeavingIsTransition(s, op);
    }
  }

  /** Every transition of a safe supervisor stays inside the frame. */
  lemma EveryTransitionIsFramed(s: Supervisor, op: Operation)
    requires Safe(s)
    ensures Transition(s, op)
  {
    if op.CrashAndRecover? {
      RecoveryIsTransition(s, op.parallelism, op.depth);
    } else if op.PauseAll? {
      PausingIsTransition(s);
    } else if op.CancelAll? {
      CancellingIsTransition(s);
    } else if op.PreemptForUser? {
      PreemptingIsTransition(s);
    } else if op.ResumeAll? {
      ResumingIsTransition(s);
    } else if op.AdvanceVirtualTime? {
      ClockIsTransition(s, op);
    } else if Apply(s, op).1.Refused? {
      StutterIsTransition(s, op);
    } else {
      NamedIsTransition(s, op);
    }
  }

  lemma FrameKeepsDependencies(s: Supervisor, started: Option<Id>, completed: Option<Id>, n: Supervisor, id: Id)
    requires Safe(s) && Frame(s, started, completed, n) && DependenciesCompleted(s.snapshot.graph, id)
    ensures DependenciesCompleted(n.snapshot.graph, id)
  {
    forall e | e in n.snapshot.graph.edges && e.1 == id
      ensures e.0 in n.Tasks() && n.Tasks()[e.0].status == Completed
    {
      assert e in s.snapshot.graph.edges;
      assert TaskStep(s, started, completed, e.0, n);
    }
  }

  lemma FrameKeepsReceipts(s: Supervisor, started: Option<Id>, completed: Option<Id>, n: Supervisor)
    requires Safe(s) && Frame(s, started, completed, n)
    ensures ReceiptsSound(n)
  {
    forall key | key in n.Receipts() ensures SoundReceipt(n.Tasks(), key, n.Receipts()[key]) {
      if key in s.Receipts() {
        var id := s.Receipts()[key].taskId;
        assert SoundReceipt(s.Tasks(), key, s.Receipts()[key]);
        assert TaskStep(s, started, completed, id, n);
      }
    }
    forall id | id in n.Tasks() && IsConsequential(n.Tasks()[id]) && n.Tasks()[id].status == Completed
      ensures Receipted(id, n.Tasks()[id], n.Receipts())
    {
      assert TaskStep(s, started, completed, id, n);
      if s.Tasks()[id].status == Completed {
        assert Receipted(id, s.Tasks()[id], s.Receipts());
      }
    }
  }

  lemma FrameKeepsSafe(s: Supervisor, started: Option<Id>, completed: Option<Id>, n: Supervisor)
    requires Safe(s) && Frame(s, started, completed, n) && SlotsAgree(n)
    ensures Safe(n)
  {
    FrameKeepsReceipts(s, started, completed, n);
    forall id | id in n.Tasks()
      ensures SamePlan(s.Tasks()[id], n.Tasks()[id]) && n.Tasks()[id].attempt <= n.Tasks()[id].maxAttempts
      ensures NeedsDependencies(n.Tasks()[id].status) ==> DependenciesCompleted(n.snapshot.graph, id)
    {
      assert TaskStep(s, started, completed, id, n);
      if NeedsDependencies(n.Tasks()[id].status) {
        FrameKeepsDependencies(s, started, completed, n, id);
      }
    }
    assert forall a, b :: ShareKey(n.Tasks(), a, b) ==> ShareKey(s.Tasks(), a, b);
    assert forall a :: a in n.Tasks() ==> IsConsequential(n.Tasks()[a]) == IsConsequential(s.Tasks()[a]);
  }

  /** Every transition of a safe supervisor leads to a safe supervisor. */
  lemma TransitionKeepsSafe(s: Supervisor, op: Operation)
    requires Safe(s)
    ensures Safe(Apply(s, op).0)
  {
    EveryTransitionIsFramed(s, op);
    FrameKeepsSafe(s, StartedBy(s, op), CompletedBy(s, op), Apply(s, op).0);
  }

  // ---------------------------------------------------------------------
  // Whole runs

  /** Dependency safety, slot agreement, bounded attempts and sound receipts hold
      after every run, whatever the interleaving of transitions and crashes. */
  lemma {:induction false} RunIsSafe(s: Supervisor, ops: seq<Operation>)
    requires Safe(s)
    ensures Safe(Run(s, ops))
    decreases |ops|
  {
    if ops != [] {
      RunIsSafe(s, ops[..|ops| - 1]);
      TransitionKeepsSafe(Run(s, ops[..|ops| - 1]), ops[|ops| - 1]);
    }
  }

  /** Once completed, a task's record never changes again; once written, a receipt never changes again. */
  lemma {:induction false} CompletedAndReceiptsAreFinal(s: Supervisor, ops: seq<Operation>, n: nat)
    requires Safe(s) && n <= |ops|
    ensures
      var earlier, later := Run(s, ops[..n]), Run(s, ops);
      && earlier.Tasks().Keys == later.Tasks().Keys
      && (forall id :: id in earlier.Tasks() && earlier.Tasks()[id].status == Completed ==>
            later.Tasks()[id] == earlier.Tasks()[id])
      && (forall key :: key in earlier.Receipts() ==>
            key in later.Receipts() && later.Receipts()[key] == earlier.Receipts()[key])
    decreases |ops|
  {
    if n == |ops| {
      assert ops[..n] == ops;
    } else {
      var before := ops[..|ops| - 1];
      CompletedAndReceiptsAreFinal(s, before, n);
      assert before[..n] == ops[..n];
      RunIsSafe(s, before);
      var mid, op := Run(s, before), ops[|ops| - 1];
      EveryTransitionIsFramed(mid, op);
      var later := Apply(mid, op).0;
      forall id | id in mid.Tasks() && mid.Tasks()[id].status == Completed ensures later.Tasks()[id] == mid.Tasks()[id] {
        assert TaskStep(mid, StartedBy(mid, op), CompletedBy(mid, op), id, later);
      }
    }
  }

  /** At most one effect: after every run from a safe start, a consequential task is
      completed exactly when a verified receipt naming it sits under its key. */
  lemma CompletedIffReceipted(s: Supervisor, ops: seq<Operation>, id: Id)
    requires Safe(s) && id in Run(s, ops).Tasks() && IsConsequential(Run(s, ops).Tasks()[id])
    ensures
      var n := Run(s, ops);
      n.Tasks()[id].status == Completed <==> Receipted(id, n.Tasks()[id], n.Receipts())
  {
    RunIsSafe(s, ops);
    var n := Run(s, ops);
    if Receipted(id, n.Tasks()[id], n.Receipts()) {
      var key := n.Tasks()[id].idempotencyKey.value;
      assert SoundReceipt(n.Tasks(), key, n.Receipts()[key]);
    }
  }

  function Starts(s: Supervisor, ops: seq<Operation>, id: Id): nat
    decreases |ops|
  {
    if ops == [] then 0
    else
      var before := ops[..|ops| - 1];
      Starts(s, before, id) + (if StartedBy(Run(s, before), ops[|ops| - 1]) == Some(id) then 1 else 0)
  }

  function Completions(s: Supervisor, ops: seq<Operation>, id: Id): nat
    decreases |ops|
  {
    if ops == [] then 0
    else
      var before := ops[..|ops| - 1];
      Completions(s, before, id) + (if CompletedBy(Run(s, before), ops[|ops| - 1]) == Some(id) then 1 else 0)
  }

  /** `attempt` counts exactly the Start decisions ever issued and never passes
      `maxAttempts`; a task accepts one completion in its life, and is completed
      exactly if it did. Neither pausing, retrying nor recovery touches the count. */
  lemma {:induction false} AttemptsAndCompletionsAreExact(s: Supervisor, ops: seq<Operation>, id: Id)
    requires Safe(s) && id in s.Tasks() && s.Tasks()[id].status != Completed
    ensures
      var n := Run(s, ops);
      && id in n.Tasks()
      && n.Tasks()[id].attempt == s.Tasks()[id].attempt + Starts(s, ops, id) <= n.Tasks()[id].maxAttempts
      && n.Tasks()[id].maxAttempts == s.Tasks()[id].maxAttempts
      && Completions(s, ops, id) == (if n.Tasks()[id].status == Completed then 1 else 0)
    decreases |ops|
  {
    if ops != [] {
      var before, op := ops[..|ops| - 1], ops[|ops| - 1];
      AttemptsAndCompletionsAreExact(s, before, id);
      RunIsSafe(s, before);
      var mid := Run(s, before);
      EveryTransitionIsFramed(mid, op);
      var n := Apply(mid, op).0;
      assert TaskStep(mid, StartedBy(mid, op), CompletedBy(mid, op), id, n);
    }
  }
}
