/** The crash-safe task supervisor (crates/agent/src/lib.rs, `DurableSupervisor`).

    `Apply` gives the effect of every transition on a supervisor value; the class
    `DurableSupervisor` is the in-place form, proved against it. */
module Supervisors {
  import opened Collections
  import opened TaskGraphs

  const U64_MAX: nat := 0xFFFF_FFFF_FFFF_FFFF

  datatype EffectReceipt = EffectReceipt(
    idempotencyKey: string,
    taskId: Id,
    effectFingerprint: string,
    verified: bool,
    completedAt: nat)

  datatype Snapshot = Snapshot(
    schemaVersion: nat,
    graph: TaskGraph,
    receipts: map<string, EffectReceipt>,
    runningOrder: seq<Id>,
    elapsedVirtualSeconds: nat)

  datatype Supervisor = Supervisor(snapshot: Snapshot, maximumParallelism: nat, maximumDelegationDepth: nat) {
    function Tasks(): map<Id, Task> { snapshot.graph.tasks }
    function Order(): seq<Id> { snapshot.runningOrder }
    function Receipts(): map<string, EffectReceipt> { snapshot.receipts }

    function WithTasks(tasks: map<Id, Task>, order: seq<Id>): Supervisor {
      this.(snapshot := snapshot.(graph := snapshot.graph.(tasks := tasks), runningOrder := order))
    }

    /** Rewrite one task in place. */
    function Write(id: Id, task: Task): Supervisor { WithTasks(Tasks()[id := task], Order()) }

    /** Rewrite one task and take it out of the running lane. */
    function Leave(id: Id, task: Task): Supervisor { WithTasks(Tasks()[id := task], Without(Order(), id)) }

    /** Rewrite one task and put it at the end of the running lane. */
    function Enter(id: Id, task: Task): Supervisor { WithTasks(Tasks()[id := task], Order() + [id]) }
  }

  datatype ScheduleDecision =
    | Started(task: Id, attempt: u16)
    | WaitForDependencies(task: Id)
    | WaitForApproval(task: Id, reason: string)
    | AlreadyCompleted(task: Id)

  // The `Ok(())`, `Ok(decision)` and `Err(error)` results of the transitions.
  datatype Outcome = Done | Decided(decision: ScheduleDecision) | Refused(error: PlanError)

  datatype Operation =
    | Start(id: Id)
    | Complete(id: Id, result: string, verified: bool, fingerprint: Option<string>, now: nat)
    | ProviderFailed(id: Id)
    | BindCheckpoint(id: Id, checkpoint: string)
    | AwaitApproval(id: Id, reason: string)
    | ResumeAfterApproval(id: Id)
    | Pause(id: Id)
    | Resume(id: Id)
    | Cancel(id: Id)
    | Retry(id: Id)
    | Fail(id: Id, result: string)
    | PauseAll
    | ResumeAll
    | CancelAll
    | PreemptForUser
    | AdvanceVirtualTime(seconds: nat)
    | CrashAndRecover(parallelism: nat, depth: nat)

  predicate NamesTask(op: Operation) {
    && !op.PauseAll? && !op.ResumeAll? && !op.CancelAll? && !op.PreemptForUser?
    && !op.AdvanceVirtualTime? && !op.CrashAndRecover?
  }

  // ---------------------------------------------------------------------
  // Pure helpers

  predicate IsConsequential(t: Task) { t.risk == "consequential" || t.risk == "irreversible" }

  predicate RetrySafe(t: Task) { !IsConsequential(t) || t.idempotencyKey.Some? }

  predicate DependenciesCompleted(g: TaskGraph, id: Id) {
    forall e :: e in g.edges && e.1 == id ==> e.0 in g.tasks && g.tasks[e.0].status == Completed
  }

  predicate ValidBounds(parallelism: nat, depth: nat) { 1 <= parallelism <= 8 && depth != 0 }

  /** Where provider failure sends a running task. */
  function AfterFailure(t: Task): WorkStatus {
    if RetrySafe(t) && t.attempt < t.maxAttempts then Queued else Waiting
  }

  /** Does its own key lead to a verified receipt? The recovery path asks
      nothing else: not which task wrote the receipt. */
  predicate HasVerifiedReceipt(t: Task, receipts: map<string, EffectReceipt>) {
    t.idempotencyKey.Some? && t.idempotencyKey.value in receipts && receipts[t.idempotencyKey.value].verified
  }

  function AfterCrash(t: Task, receipts: map<string, EffectReceipt>): Task {
    if HasVerifiedReceipt(t, receipts) then t.(status := Completed, progress := 100)
    else t.(status := AfterFailure(t))
  }

  predicate Terminal(status: WorkStatus) { status.Completed? || status.Failed? || status.Cancelled? }

  function Paused'(t: Task): Task { if Terminal(t.status) then t else t.(status := Paused) }

  function Resumed(t: Task): Task { if t.status.Paused? then t.(status := Queued) else t }

  function Cancelled'(t: Task): Task {
    if t.status.Completed? || t.status.Cancelled? then t else t.(status := Cancelled)
  }

  // ---------------------------------------------------------------------
  // Ready tasks

  function RunningTasks(tasks: map<Id, Task>): set<Id> { set id | id in tasks && tasks[id].status == Running }

  /** How many of the listed tasks are running. */
  function CountRunning(tasks: map<Id, Task>, ids: seq<Id>): nat {
    if ids == [] then 0
    else (if ids[0] in tasks && tasks[ids[0]].status == Running then 1 else 0) + CountRunning(tasks, ids[1..])
  }

  function RunningAmong(tasks: map<Id, Task>, ids: seq<Id>): set<Id> {
    set id | id in ids && id in tasks && tasks[id].status == Running
  }

  lemma {:induction false} CountRunningIsCardinality(tasks: map<Id, Task>, ids: seq<Id>)
    requires NoDuplicates(ids)
    ensures CountRunning(tasks, ids) == |RunningAmong(tasks, ids)|
  {
    if ids == [] {
      assert RunningAmong(tasks, ids) == {};
    } else {
      var id, rest := ids[0], RunningAmong(tasks, ids[1..]);
      CountRunningIsCardinality(tasks, ids[1..]);
      assert id !in ids[1..];
      if id in tasks && tasks[id].status == Running {
        assert RunningAmong(tasks, ids) == rest + {id};
      } else {
        assert RunningAmong(tasks, ids) == rest;
      }
    }
  }

  function AvailableSlots(s: Supervisor): nat {
    var running := |RunningTasks(s.Tasks())|;
    if running <= s.maximumParallelism then s.maximumParallelism - running else 0
  }

  predicate IsReady(s: Supervisor, id: Id) {
    id in s.Tasks() && s.Tasks()[id].status == Queued && DependenciesCompleted(s.snapshot.graph, id)
  }

  function Filtered(s: Supervisor, ids: seq<Id>): seq<Id> {
    if ids == [] then []
    else if IsReady(s, ids[0]) then [ids[0]] + Filtered(s, ids[1..])
    else Filtered(s, ids[1..])
  }

  lemma {:induction false} FilteredIsExact(s: Supervisor, ids: seq<Id>)
    ensures forall id :: id in Filtered(s, ids) <==> id in ids && IsReady(s, id)
    ensures StrictlyAscending(ids) ==> StrictlyAscending(Filtered(s, ids))
  {
    if ids != [] {
      FilteredIsExact(s, ids[1..]);
      var rest := Filtered(s, ids[1..]);
      assert forall i :: 0 <= i < |rest| ==> rest[i] in rest;
    }
  }

  /** Ready tasks in id order, limited by the free worker slots. */
  function ReadyTasks(s: Supervisor): seq<Id> {
    var ready := Filtered(s, Ascending(s.Tasks().Keys));
    ready[..Min(|ready|, AvailableSlots(s))]
  }

  // ---------------------------------------------------------------------
  // Transitions as functions on supervisor values

  function NotReady(s: Supervisor, id: Id): (Supervisor, Outcome) { (s, Refused(TaskNotReady(id))) }

  function StartTask(s: Supervisor, id: Id): (Supervisor, Outcome)
    requires id in s.Tasks()
  {
    var t := s.Tasks()[id];
    if t.status == Completed then (s, Decided(AlreadyCompleted(id)))
    else if !DependenciesCompleted(s.snapshot.graph, id) then (s, Decided(WaitForDependencies(id)))
    else if t.status != Queued then NotReady(s, id)
    else if t.attempt >= t.maxAttempts then (s, Refused(AttemptsExhausted(id)))
    else if IsConsequential(t) && t.idempotencyKey.None? then (s, Refused(MissingIdempotencyKey(id)))
    else if |s.Order()| >= s.maximumParallelism then NotReady(s, id)
    else (s.Enter(id, t.(attempt := t.attempt + 1, status := Running)), Decided(Started(id, t.attempt + 1)))
  }

  function CompleteTask(s: Supervisor, id: Id, result: string, verified: bool, fingerprint: Option<string>, now: nat)
    : (Supervisor, Outcome)
    requires id in s.Tasks()
  {
    var t := s.Tasks()[id];
    var closed := s.Leave(id, t.(output := Some(result), progress := 100, status := Completed));
    if t.status != Running || !verified then NotReady(s, id)
    else if !IsConsequential(t) then (closed, Done)
    else if t.idempotencyKey.None? then (s, Refused(MissingIdempotencyKey(id)))
    else if fingerprint.None? then (s, Refused(InvalidSnapshot("consequential completion needs a fingerprint")))
    else
      var key := t.idempotencyKey.value;
      if key in s.Receipts() then
        var existing := s.Receipts()[key];
        if existing.effectFingerprint != fingerprint.value || existing.taskId != id then
          (s, Refused(InvalidSnapshot("idempotency key was reused for a different effect")))
        else (closed, Done)
      else
        var receipt := EffectReceipt(key, id, fingerprint.value, true, now);
        (closed.(snapshot := closed.snapshot.(receipts := s.Receipts()[key := receipt])), Done)
  }

  /** Recovery of the tasks listed in a persisted running order, one after the other. */
  function RecoverTasks(tasks: map<Id, Task>, receipts: map<string, EffectReceipt>, order: seq<Id>)
    : (r: Result<map<Id, Task>, PlanError>)
    decreases |order|
  {
    if order == [] then Ok(tasks)
    else if order[0] !in tasks then Err(MissingTask(order[0]))
    else if tasks[order[0]].status != Running then
      Err(InvalidSnapshot("running order references non-running task"))
    else RecoverTasks(tasks[order[0] := AfterCrash(tasks[order[0]], receipts)], receipts, order[1..])
  }

  /** Which bound is reported, if one is violated. */
  function BoundsError(parallelism: nat): PlanError {
    if !(1 <= parallelism <= 8) then InvalidSnapshot("parallelism must be between one and eight")
    else InvalidSnapshot("delegation depth must be at least one")
  }

  /** `DurableSupervisor::recover` on a snapshot whose graph is valid. */
  function Recover(snapshot: Snapshot, parallelism: nat, depth: nat): Result<Supervisor, PlanError> {
    if snapshot.schemaVersion != 1 then Err(InvalidSnapshot("unsupported schema version"))
    else
      var tasks := RecoverTasks(snapshot.graph.tasks, snapshot.receipts, snapshot.runningOrder);
      if tasks.Err? then Err(tasks.error)
      else if !ValidBounds(parallelism, depth) then Err(BoundsError(parallelism))
      else Ok(Supervisor(
                snapshot.(graph := snapshot.graph.(tasks := tasks.value), runningOrder := []), parallelism, depth))
  }

  function PausedTasks(tasks: map<Id, Task>): map<Id, Task> { map id | id in tasks :: Paused'(tasks[id]) }

  function ResumedTasks(tasks: map<Id, Task>): map<Id, Task> { map id | id in tasks :: Resumed(tasks[id]) }

  function CancelledTasks(tasks: map<Id, Task>): map<Id, Task> { map id | id in tasks :: Cancelled'(tasks[id]) }

  function PreemptedTasks(tasks: map<Id, Task>, order: seq<Id>): map<Id, Task> {
    map id | id in tasks :: if id in order then tasks[id].(status := Paused) else tasks[id]
  }

  /** One transition: the state it leaves and what it reports. A refused recovery
      leaves the persisted state as it was. */
  function Apply(s: Supervisor, op: Operation): (Supervisor, Outcome) {
    match op
    case PauseAll =>
      (s.WithTasks(PausedTasks(s.Tasks()), []), Done)
    case ResumeAll =>
      (s.WithTasks(ResumedTasks(s.Tasks()), s.Order()), Done)
    case CancelAll =>
      (s.WithTasks(CancelledTasks(s.Tasks()), []), Done)
    case PreemptForUser =>
      (s.WithTasks(PreemptedTasks(s.Tasks(), s.Order()), []), Done)
    case AdvanceVirtualTime(seconds) =>
      (s.(snapshot := s.snapshot.(elapsedVirtualSeconds :=
            Min(s.snapshot.elapsedVirtualSeconds + seconds, U64_MAX))), Done)
    case CrashAndRecover(parallelism, depth) =>
      var recovered := Recover(s.snapshot, parallelism, depth);
      if recovered.Ok? then (recovered.value, Done) else (s, Refused(recovered.error))
    case _ =>
      if op.id !in s.Tasks() then (s, Refused(MissingTask(op.id))) else ApplyTo(s, op, s.Tasks()[op.id])
  }

  /** The transitions that name one task. */
  function ApplyTo(s: Supervisor, op: Operation, t: Task): (Supervisor, Outcome)
    requires NamesTask(op)
    requires op.id in s.Tasks() && t == s.Tasks()[op.id]
  {
    match op
    case Start(id) => StartTask(s, id)
    case Complete(id, result, verified, fingerprint, now) => CompleteTask(s, id, result, verified, fingerprint, now)
    case ProviderFailed(id) =>
      if t.status != Running then NotReady(s, id) else (s.Leave(id, t.(status := AfterFailure(t))), Done)
    case BindCheckpoint(id, checkpoint) =>
      if !t.status.Running? && !t.status.Waiting? then NotReady(s, id)
      else (s.Write(id, t.(checkpointId := Some(checkpoint))), Done)
    case AwaitApproval(id, reason) =>
      if t.status != Running then NotReady(s, id)
      else (s.Leave(id, t.(status := Waiting)), Decided(WaitForApproval(id, reason)))
    case ResumeAfterApproval(id) =>
      if t.status != Waiting || |s.Order()| >= s.maximumParallelism then NotReady(s, id)
      else (s.Enter(id, t.(status := Running)), Done)
    case Pause(id) =>
      if Terminal(t.status) then NotReady(s, id) else (s.Leave(id, t.(status := Paused)), Done)
    case Resume(id) =>
      if t.status != Paused then NotReady(s, id) else (s.Write(id, t.(status := Queued)), Done)
    case Cancel(id) =>
      if t.status.Completed? || t.status.Cancelled? then NotReady(s, id)
      else (s.Leave(id, t.(status := Cancelled)), Done)
    case Retry(id) =>
      if t.attempt >= t.maxAttempts then (s, Refused(AttemptsExhausted(id)))
      else if !t.status.Failed? && !t.status.Waiting? then NotReady(s, id)
      else (s.Write(id, t.(status := Queued, checkpointId := None)), Done)
    case Fail(id, result) =>
      if !t.status.Running? && !t.status.Waiting? then NotReady(s, id)
      else (s.Leave(id, t.(status := Failed, output := Some(result))), Done)
  }

  /** Every transition of a run, in order. */
  function Run(s: Supervisor, ops: seq<Operation>): Supervisor
    decreases |ops|
  {
    if ops == [] then s else Apply(Run(s, ops[..|ops| - 1]), ops[|ops| - 1]).0
  }

  lemma RunSnoc(s: Supervisor, ops: seq<Operation>, n: nat)
    requires 0 < n <= |ops|
    ensures Run(s, ops[..n]) == Apply(Run(s, ops[..n - 1]), ops[n - 1]).0
  {
    assert ops[..n][..n - 1] == ops[..n - 1];
  }

  /** `DurableSupervisor::new` on a valid graph and valid bounds. */
  function Fresh(graph: TaskGraph, parallelism: nat, depth: nat): Supervisor {
    Supervisor(Snapshot(1, graph, map[], [], 0), parallelism, depth)
  }
}
