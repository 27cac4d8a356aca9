/** The supervisor as the object the program works with: its fields are updated in
    place, and each method is proved to perform the transition `Apply` describes, and so
    to keep a safe supervisor safe. */
module DurableSupervisors {
  import opened Collections
  import opened TaskGraphs
  import opened Supervisors
  import opened SupervisorSafety

  /** Visit every task in id order; `revise` says what becomes of each. */
  method ReviseEach(tasks: map<Id, Task>, revise: Task -> Task) returns (revised: map<Id, Task>)
    ensures revised.Keys == tasks.Keys
    ensures forall id :: id in tasks ==> revised[id] == revise(tasks[id])
  {
    revised := tasks;
    var remaining := tasks.Keys;
    while remaining != {}
      invariant revised.Keys == tasks.Keys && remaining <= tasks.Keys
      invariant forall id :: id in tasks ==> revised[id] == if id in remaining then tasks[id] else revise(tasks[id])
      decreases remaining
    {
      var id := Least(remaining);
      revised := revised[id := revise(revised[id])];
      remaining := remaining - {id};
    }
  }

  /** The ready tasks among `ids`, in order. */
  method FilterReady(ghost s: Supervisor, graph: TaskGraph, ids: seq<Id>) returns (ready: seq<Id>)
    requires graph == s.snapshot.graph && forall id :: id in ids ==> id in graph.tasks
    ensures ready == Filtered(s, ids)
  {
    ready := [];
    for i := 0 to |ids|
      invariant Filtered(s, ids) == ready + Filtered(s, ids[i..])
    {
      assert ids[i..][0] == ids[i] && ids[i..][1..] == ids[i + 1..];
      if graph.tasks[ids[i]].status == Queued && DependenciesCompleted(graph, ids[i]) {
        ready := ready + [ids[i]];
      }
    }
  }

  lemma KeepsSafe(s: Supervisor, op: Operation)
    ensures Safe(s) ==> Safe(Apply(s, op).0)
  {
    if Safe(s) {
      TransitionKeepsSafe(s, op);
    }
  }

  class DurableSupervisor {
    const goalId: Id
    const revision: nat
    const edges: seq<(Id, Id)>
    const maximumParallelism: nat
    const maximumDelegationDepth: nat
    var schemaVersion: nat
    var tasks: map<Id, Task>
    var receipts: map<string, EffectReceipt>
    var runningOrder: seq<Id>
    var elapsedVirtualSeconds: nat

    function Graph(): TaskGraph
      reads this
    {
      TaskGraph(goalId, revision, tasks, edges)
    }

    function Value(): Supervisor
      reads this
    {
      Supervisor(Snapshot(schemaVersion, Graph(), receipts, runningOrder, elapsedVirtualSeconds),
                 maximumParallelism, maximumDelegationDepth)
    }

    constructor (snapshot: Snapshot, parallelism: nat, depth: nat)
      ensures Value() == Supervisor(snapshot, parallelism, depth)
    {
      goalId, revision, edges := snapshot.graph.goalId, snapshot.graph.revision, snapshot.graph.edges;
      maximumParallelism, maximumDelegationDepth := parallelism, depth;
      schemaVersion, tasks, receipts := snapshot.schemaVersion, snapshot.graph.tasks, snapshot.receipts;
      runningOrder, elapsedVirtualSeconds := snapshot.runningOrder, snapshot.elapsedVirtualSeconds;
    }

    /** Start supervising: refused exactly for invalid graphs and bounds. */
    static method New(graph: TaskGraph, parallelism: nat, depth: nat) returns (r: Result<DurableSupervisor, PlanError>)
      ensures r.Ok? <==> ValidGraph(graph) && ValidBounds(parallelism, depth)
      ensures r.Ok? ==> fresh(r.value) && r.value.Value() == Fresh(graph, parallelism, depth)
      ensures r.Ok? ==> (Safe(r.value.Value()) <==> Startable(graph))
      ensures r.Err? ==> if !ValidGraph(graph) then Explains(graph, r.error) else r.error == BoundsError(parallelism)
    {
      var valid := Validate(graph);
      if valid.Err? { return Err(valid.error); }
      if !(1 <= parallelism <= 8) {
        return Err(InvalidSnapshot("parallelism must be between one and eight"));
      }
      if depth == 0 {
        return Err(InvalidSnapshot("delegation depth must be at least one"));
      }
      var supervisor := new DurableSupervisor(Snapshot(1, graph, map[], [], 0), parallelism, depth);
      FreshSafeIffStartable(graph, parallelism, depth);
      return Ok(supervisor);
    }

    /** Recover a persisted snapshot: refused exactly for invalid graphs and where `Recover` refuses. */
    static method RecoverFrom(snapshot: Snapshot, parallelism: nat, depth: nat)
      returns (r: Result<DurableSupervisor, PlanError>)
      ensures r.Ok? <==> ValidGraph(snapshot.graph) && Recover(snapshot, parallelism, depth).Ok?
      ensures r.Ok? ==> fresh(r.value) && r.value.Value() == Recover(snapshot, parallelism, depth).value
      ensures r.Err? ==> if snapshot.schemaVersion == 1 && !ValidGraph(snapshot.graph) then Explains(snapshot.graph, r.error)
                         else Recover(snapshot, parallelism, depth) == Err(r.error)
    {
      if snapshot.schemaVersion != 1 {
        return Err(InvalidSnapshot("unsupported schema version"));
      }
      var valid := Validate(snapshot.graph);
      if valid.Err? { return Err(valid.error); }
      var recovered := snapshot.graph.tasks;
      var order := snapshot.runningOrder;
      for i := 0 to |order|
        invariant RecoverTasks(snapshot.graph.tasks, snapshot.receipts, order) ==
                  RecoverTasks(recovered, snapshot.receipts, order[i..])
      {
        assert order[i..][0] == order[i] && order[i..][1..] == order[i + 1..];
        if order[i] !in recovered {
          return Err(MissingTask(order[i]));
        }
        var task := recovered[order[i]];
        if task.status != Running {
          return Err(InvalidSnapshot("running order references non-running task"));
        }
        if HasVerifiedReceipt(task, snapshot.receipts) {
          task := task.(status := Completed, progress := 100);
        } else if RetrySafe(task) && task.attempt < task.maxAttempts {
          task := task.(status := Queued);
        } else {
          task := task.(status := Waiting);
        }
        recovered := recovered[order[i] := task];
      }
      if !(1 <= parallelism <= 8) {
        return Err(InvalidSnapshot("parallelism must be between one and eight"));
      }
      if depth == 0 {
        return Err(InvalidSnapshot("delegation depth must be at least one"));
      }
      var restored := snapshot.(graph := snapshot.graph.(tasks := recovered), runningOrder := []);
      var supervisor := new DurableSupervisor(restored, parallelism, depth);
      return Ok(supervisor);
    }

    method RunningCount() returns (running: nat)
      ensures running == |RunningTasks(tasks)|
    {
      var ids := Ascending(tasks.Keys);
      running := 0;
      for i := 0 to |ids|
        invariant CountRunning(tasks, ids) == running + CountRunning(tasks, ids[i..])
      {
        assert ids[i..][0] == ids[i] && ids[i..][1..] == ids[i + 1..];
        if tasks[ids[i]].status == Running {
          running := running + 1;
        }
      }
      AscendingIsSorted(tasks.Keys);
      CountRunningIsCardinality(tasks, ids);
      assert RunningTasks(tasks) == RunningAmong(tasks, ids);
    }

    method Ready() returns (ready: seq<Id>)
      ensures ready == ReadyTasks(Value())
    {
      var running := RunningCount();
      var available := if running <= maximumParallelism then maximumParallelism - running else 0;
      var all := FilterReady(Value(), Graph(), Ascending(tasks.Keys));
      return all[..Min(|all|, available)];
    }

    method Start(id: Id) returns (r: Outcome)
      modifies this
      ensures (Value(), r) == Apply(old(Value()), Operation.Start(id))
      ensures old(Safe(Value())) ==> Safe(Value())
    {
      KeepsSafe(Value(), Operation.Start(id));
      if id !in tasks { return Refused(MissingTask(id)); }
      var task := tasks[id];
      if task.status == Completed { return Decided(AlreadyCompleted(id)); }
      if !DependenciesCompleted(Graph(), id) { return Decided(WaitForDependencies(id)); }
      if task.status != Queued { return Refused(TaskNotReady(id)); }
      if task.attempt >= task.maxAttempts { return Refused(AttemptsExhausted(id)); }
      if IsConsequential(task) && task.idempotencyKey.None? { return Refused(MissingIdempotencyKey(id)); }
      if |runningOrder| >= maximumParallelism { return Refused(TaskNotReady(id)); }
      tasks := tasks[id := task.(attempt := task.attempt + 1, status := Running)];
      runningOrder := runningOrder + [id];
      return Decided(Started(id, task.attempt + 1));
    }

    method Complete(id: Id, result: string, verified: bool, fingerprint: Option<string>, now: nat) returns (r: Outcome)
      modifies this
      ensures (Value(), r) == Apply(old(Value()), Operation.Complete(id, result, verified, fingerprint, now))
      ensures old(Safe(Value())) ==> Safe(Value())
    {
      KeepsSafe(Value(), Operation.Complete(id, result, verified, fingerprint, now));
      if id !in tasks { return Refused(MissingTask(id)); }
      var task := tasks[id];
      if task.status != Running || !verified { return Refused(TaskNotReady(id)); }
      if IsConsequential(task) {
        if task.idempotencyKey.None? { return Refused(MissingIdempotencyKey(id)); }
        if fingerprint.None? { return Refused(InvalidSnapshot("consequential completion needs a fingerprint")); }
        var key := task.idempotencyKey.value;
        if key in receipts {
          if receipts[key].effectFingerprint != fingerprint.value || receipts[key].taskId != id {
            return Refused(InvalidSnapshot("idempotency key was reused for a different effect"));
          }
        } else {
          receipts := receipts[key := EffectReceipt(key, id, fingerprint.value, true, now)];
        }
      }
      tasks := tasks[id := task.(output := Some(result), progress := 100, status := Completed)];
      runningOrder := Without(runningOrder, id);
      return Done;
    }

    method ProviderFailed(id: Id) returns (r: Outcome)
      modifies this
      ensures (Value(), r) == Apply(old(Value()), Operation.ProviderFailed(id))
      ensures old(Safe(Value())) ==> Safe(Value())
    {
      KeepsSafe(Value(), Operation.ProviderFailed(id));
      if id !in tasks { return Refused(MissingTask(id)); }
      var task := tasks[id];
      if task.status != Running { return Refused(TaskNotReady(id)); }
      var retry := RetrySafe(task) && task.attempt < task.maxAttempts;
      tasks := tasks[id := task.(status := if retry then Queued else Waiting)];
      runningOrder := Without(runningOrder, id);
      return Done;
    }

    method BindCheckpoint(id: Id, checkpoint: string) returns (r: Outcome)
      modifies this
      ensures (Value(), r) == Apply(old(Value()), Operation.BindCheckpoint(id, checkpoint))
      ensures old(Safe(Value())) ==> Safe(Value())
    {
      KeepsSafe(Value(), Operation.BindCheckpoint(id, checkpoint));
      if id !in tasks { return Refused(MissingTask(id)); }
      var task := tasks[id];
      if !task.status.Running? && !task.status.Waiting? { return Refused(TaskNotReady(id)); }
      tasks := tasks[id := task.(checkpointId := Some(checkpoint))];
      return Done;
    }

    method AwaitApproval(id: Id, reason: string) returns (r: Outcome)
      modifies this
      ensures (Value(), r) == Apply(old(Value()), Operation.AwaitApproval(id, reason))
      ensures old(Safe(Value())) ==> Safe(Value())
    {
      KeepsSafe(Value(), Operation.AwaitApproval(id, reason));
      if id !in tasks { return Refused(MissingTask(id)); }
      if tasks[id].status != Running { return Refused(TaskNotReady(id)); }
      tasks := tasks[id := tasks[id].(status := Waiting)];
      runningOrder := Without(runningOrder, id);
      return Decided(WaitForApproval(id, reason));
    }

    method ResumeAfterApproval(id: Id) returns (r: Outcome)
      modifies this
      ensures (Value(), r) == Apply(old(Value()), Operation.ResumeAfterApproval(id))
      ensures old(Safe(Value())) ==> Safe(Value())
    {
      KeepsSafe(Value(), Operation.ResumeAfterApproval(id));
      if id !in tasks { return Refused(MissingTask(id)); }
      if tasks[id].status != Waiting || |runningOrder| >= maximumParallelism { return Refused(TaskNotReady(id)); }
      tasks := tasks[id := tasks[id].(status := Running)];
      runningOrder := runningOrder + [id];
      return Done;
    }

    method Pause(id: Id) returns (r: Outcome)
      modifies this
      ensures (Value(), r) == Apply(old(Value()), Operation.Pause(id))
      ensures old(Safe(Value())) ==> Safe(Value())
    {
      KeepsSafe(Value(), Operation.Pause(id));
      if id !in tasks { return Refused(MissingTask(id)); }
      if Terminal(tasks[id].status) { return Refused(TaskNotReady(id)); }
      tasks := tasks[id := tasks[id].(status := Paused)];
      runningOrder := Without(runningOrder, id);
      return Done;
    }

    method Resume(id: Id) returns (r: Outcome)
      modifies this
      ensures (Value(), r) == Apply(old(Value()), Operation.Resume(id))
      ensures old(Safe(Value())) ==> Safe(Value())
    {
      KeepsSafe(Value(), Operation.Resume(id));
      if id !in tasks { return Refused(MissingTask(id)); }
      if tasks[id].status != Paused { return Refused(TaskNotReady(id)); }
      tasks := tasks[id := tasks[id].(status := Queued)];
      return Done;
    }

    method Cancel(id: Id) returns (r: Outcome)
      modifies this
      ensures (Value(), r) == Apply(old(Value()), Operation.Cancel(id))
      ensures old(Safe(Value())) ==> Safe(Value())
    {
      KeepsSafe(Value(), Operation.Cancel(id));
      if id !in tasks { return Refused(MissingTask(id)); }
      if tasks[id].status.Completed? || tasks[id].status.Cancelled? { return Refused(TaskNotReady(id)); }
      tasks := tasks[id := tasks[id].(status := Cancelled)];
      runningOrder := Without(runningOrder, id);
      return Done;
    }

    method Retry(id: Id) returns (r: Outcome)
      modifies this
      ensures (Value(), r) == Apply(old(Value()), Operation.Retry(id))
      ensures old(Safe(Value())) ==> Safe(Value())
    {
      KeepsSafe(Value(), Operation.Retry(id));
      if id !in tasks { return Refused(MissingTask(id)); }
      var task := tasks[id];
      if (!task.status.Failed? && !task.status.Waiting?) || task.attempt >= task.maxAttempts {
        return Refused(if task.attempt >= task.maxAttempts then AttemptsExhausted(id) else TaskNotReady(id));
      }
      tasks := tasks[id := task.(status := Queued, checkpointId := None)];
      return Done;
    }

    method Fail(id: Id, result: string) returns (r: Outcome)
      modifies this
      ensures (Value(), r) == Apply(old(Value()), Operation.Fail(id, result))
      ensures old(Safe(Value())) ==> Safe(Value())
    {
      KeepsSafe(Value(), Operation.Fail(id, result));
      if id !in tasks { return Refused(MissingTask(id)); }
      var task := tasks[id];
      if !task.status.Running? && !task.status.Waiting? { return Refused(TaskNotReady(id)); }
      tasks := tasks[id := task.(status := Failed, output := Some(result))];
      runningOrder := Without(runningOrder, id);
      return Done;
    }

    method PauseAll()
      modifies this
      ensures Value() == Apply(old(Value()), Operation.PauseAll).0
      ensures old(Safe(Value())) ==> Safe(Value())
    {
      KeepsSafe(Value(), Operation.PauseAll);
      tasks := ReviseEach(tasks, Paused');
      assert tasks == PausedTasks(old(tasks));
      runningOrder := [];
    }

    method ResumeAll()
      modifies this
      ensures Value() == Apply(old(Value()), Operation.ResumeAll).0
      ensures old(Safe(Value())) ==> Safe(Value())
    {
      KeepsSafe(Value(), Operation.ResumeAll);
      tasks := ReviseEach(tasks, Resumed);
      assert tasks == ResumedTasks(old(tasks));
    }

    method CancelAll()
      modifies this
      ensures Value() == Apply(old(Value()), Operation.CancelAll).0
      ensures old(Safe(Value())) ==> Safe(Value())
    {
      KeepsSafe(Value(), Operation.CancelAll);
      tasks := ReviseEach(tasks, Cancelled');
      assert tasks == CancelledTasks(old(tasks));
      runningOrder := [];
    }

    method PreemptForUser()
      modifies this
      ensures Value() == Apply(old(Value()), Operation.PreemptForUser).0
      ensures old(Safe(Value())) ==> Safe(Value())
    {
      KeepsSafe(Value(), Operation.PreemptForUser);
      for i := 0 to |runningOrder|
        invariant runningOrder == old(runningOrder) && unchanged(`schemaVersion, `receipts, `elapsedVirtualSeconds)
        invariant tasks == PreemptedTasks(old(tasks), runningOrder[..i])
      {
        var id := runningOrder[i];
        assert runningOrder[..i + 1] == runningOrder[..i] + [id];
        if id in tasks {
          tasks := tasks[id := tasks[id].(status := Paused)];
        }
      }
      assert runningOrder[..|runningOrder|] == runningOrder;
      runningOrder := [];
    }

    method AdvanceVirtualTime(seconds: nat)
      modifies this`elapsedVirtualSeconds
      ensures Value() == Apply(old(Value()), Operation.AdvanceVirtualTime(seconds)).0
      ensures old(Safe(Value())) ==> Safe(Value())
    {
      KeepsSafe(Value(), Operation.AdvanceVirtualTime(seconds));
      var total := elapsedVirtualSeconds + seconds;
      elapsedVirtualSeconds := if total <= U64_MAX then total else U64_MAX;
    }
  }
}
