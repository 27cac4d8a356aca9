/** Tasks, the dependency graph of a goal, and its validation
    (crates/agent/src/lib.rs, `TaskGraph::validate`). */
module TaskGraphs {
  import opened Collections

  // UUIDs are used only through equality and their total order.
  type Id = nat

  type u16 = x: int | 0 <= x < 0x1_0000

  datatype WorkStatus = Queued | Planning | Running | Waiting | Paused | Completed | Failed | Cancelled

  datatype ExecutionZone = Isolated | Workspace | Desktop

  datatype Task = Task(
    id: Id,
    goalId: Id,
    parentTaskId: Option<Id>,
    toolScopes: set<string>,
    risk: string,
    executionZone: ExecutionZone,
    maxAttempts: u16,
    attempt: u16,
    idempotencyKey: Option<string>,
    checkpointId: Option<string>,
    status: WorkStatus,
    progress: nat,
    output: Option<string>)

  // An edge is (dependency, dependent).
  datatype TaskGraph = TaskGraph(goalId: Id, revision: nat, tasks: map<Id, Task>, edges: seq<(Id, Id)>)

  datatype PlanError =
    | MissingTask(task: Id)
    | Cycle
    | WrongGoal(task: Id, actual: Id, expected: Id)
    | TaskNotReady(task: Id)
    | AttemptsExhausted(task: Id)
    | MissingIdempotencyKey(task: Id)
    | AuthorityWidening(task: Id, detail: string)
    | InvalidSnapshot(reason: string)

  ghost predicate OneGoal(g: TaskGraph) {
    forall id :: id in g.tasks ==> g.tasks[id].goalId == g.goalId
  }

  ghost predicate ReferencesExist(g: TaskGraph) {
    forall e :: e in g.edges ==> e.0 in g.tasks && e.1 in g.tasks
  }

  // ---------------------------------------------------------------------
  // Paths and cycles

  /** A non-empty path that follows edges forwards. */
  ghost predicate Path(edges: seq<(Id, Id)>, p: seq<Id>) {
    |p| > 0 && forall i :: 0 < i < |p| ==> (p[i - 1], p[i]) in edges
  }

  ghost predicate ConnectedBy(edges: seq<(Id, Id)>, from: Id, to: Id, p: seq<Id>) {
    Path(edges, p) && |p| > 1 && p[0] == from && p[|p| - 1] == to
  }

  /** `to` depends, through one or more edges, on `from`. */
  ghost predicate DependsOn(edges: seq<(Id, Id)>, from: Id, to: Id) {
    exists p :: ConnectedBy(edges, from, to, p)
  }

  ghost predicate Acyclic(edges: seq<(Id, Id)>) {
    forall id :: !DependsOn(edges, id, id)
  }

  ghost predicate ValidGraph(g: TaskGraph) {
    OneGoal(g) && ReferencesExist(g) && Acyclic(g.edges)
  }

  lemma EdgeDepends(edges: seq<(Id, Id)>, from: Id, to: Id)
    requires (from, to) in edges
    ensures DependsOn(edges, from, to)
  {
    assert ConnectedBy(edges, from, to, [from, to]);
  }

  lemma DependsThenEdge(edges: seq<(Id, Id)>, from: Id, mid: Id, to: Id)
    requires DependsOn(edges, from, mid) && (mid, to) in edges
    ensures DependsOn(edges, from, to)
  {
    var p :| ConnectedBy(edges, from, mid, p);
    assert ConnectedBy(edges, from, to, p + [to]);
  }

  ghost predicate HasPredecessor(edges: seq<(Id, Id)>, pool: set<Id>, x: Id) {
    exists y :: y in pool && (y, x) in edges
  }

  ghost predicate NoSource(edges: seq<(Id, Id)>, pool: set<Id>) {
    forall x {:trigger HasPredecessor(edges, pool, x)} :: x in pool ==> HasPredecessor(edges, pool, x)
  }

  /** Walk `n` edges backwards inside a set in which everybody has a predecessor. */
  lemma {:induction false} WalkBack(edges: seq<(Id, Id)>, pool: set<Id>, start: Id, n: nat) returns (p: seq<Id>)
    requires start in pool
    requires NoSource(edges, pool)
    ensures |p| == n + 1 && Path(edges, p)
    ensures forall x :: x in p ==> x in pool
  {
    if n == 0 {
      p := [start];
    } else {
      var q := WalkBack(edges, pool, start, n - 1);
      assert HasPredecessor(edges, pool, q[0]);
      var y :| y in pool && (y, q[0]) in edges;
      p := [y] + q;
    }
  }

  /** A set of tasks in which everybody has a predecessor contains a cycle. */
  lemma NoSourceMeansCycle(edges: seq<(Id, Id)>, pool: set<Id>)
    requires pool != {}
    requires NoSource(edges, pool)
    ensures !Acyclic(edges)
  {
    var start :| start in pool;
    var p := WalkBack(edges, pool, start, |pool|);
    var i, j := Pigeonhole(p, pool);
    assert ConnectedBy(edges, p[i], p[j], p[i..j + 1]);
    assert DependsOn(edges, p[i], p[j]);
  }

  lemma SourceExists(edges: seq<(Id, Id)>, pool: set<Id>) returns (source: Id)
    requires Acyclic(edges) && pool != {}
    ensures source in pool && forall e :: e in edges && e.1 == source ==> e.0 !in pool
  {
    if NoSource(edges, pool) {
      NoSourceMeansCycle(edges, pool);
      assert false;
    }
    source :| source in pool && !HasPredecessor(edges, pool, source);
    forall e | e in edges && e.1 == source ensures e.0 !in pool {
      assert (e.0, source) == e;
    }
  }

  // ---------------------------------------------------------------------
  // Topological orders

  /** `order` lists every task once, dependencies before dependents. */
  ghost predicate Topological(order: seq<Id>, edges: seq<(Id, Id)>) {
    && NoDuplicates(order)
    && forall i, j :: 0 <= i < |order| && 0 <= j < |order| && (order[i], order[j]) in edges ==> i < j
  }

  lemma {:induction false} PathClimbs(order: seq<Id>, edges: seq<(Id, Id)>, p: seq<Id>) returns (i: nat, j: nat)
    requires Topological(order, edges) && Path(edges, p)
    requires forall e :: e in edges ==> e.0 in order && e.1 in order
    requires p[0] in order
    ensures i < |order| && j < |order| && order[i] == p[0] && order[j] == p[|p| - 1]
    ensures i <= j && (|p| > 1 ==> i < j)
  {
    if |p| == 1 {
      i :| 0 <= i < |order| && order[i] == p[0];
      j := i;
    } else {
      var last := |p| - 1;
      i, j := PathClimbs(order, edges, p[..last]);
      assert (p[last - 1], p[last]) in edges;
      var k :| 0 <= k < |order| && order[k] == p[last];
      assert (order[j], order[k]) in edges;
      j := k;
    }
  }

  lemma TopologicalMeansAcyclic(order: seq<Id>, edges: seq<(Id, Id)>)
    requires Topological(order, edges)
    requires forall e :: e in edges ==> e.0 in order && e.1 in order
    ensures Acyclic(edges)
  {
    forall id ensures !DependsOn(edges, id, id) {
      if DependsOn(edges, id, id) {
        var p :| ConnectedBy(edges, id, id, p);
        assert (p[0], p[1]) in edges;
        var i, j := PathClimbs(order, edges, p);
        assert false;
      }
    }
  }

  // ---------------------------------------------------------------------
  // TaskGraph::validate

  /** Stands in for petgraph's `toposort`: repeatedly remove a task none of
      whose dependencies remain. Fails exactly on graphs with a cycle. */
  method TopologicalSort(tasks: set<Id>, edges: seq<(Id, Id)>) returns (r: Option<seq<Id>>)
    requires forall e :: e in edges ==> e.0 in tasks && e.1 in tasks
    ensures r.Some? <==> Acyclic(edges)
    ensures r.Some? ==> Topological(r.value, edges) && Elements(r.value) == tasks
  {
    var order: seq<Id> := [];
    var remaining := tasks;
    while remaining != {}
      invariant remaining !! Elements(order) && remaining + Elements(order) == tasks
      invariant Topological(order, edges)
      invariant forall e :: e in edges && e.1 in order ==> e.0 in order
      decreases remaining
    {
      var sources := set x | x in remaining && forall e :: e in edges && e.1 == x ==> e.0 !in remaining;
      if sources == {} {
        forall x | x in remaining ensures HasPredecessor(edges, remaining, x) {
          assert x !in sources;
          var e :| e in edges && e.1 == x && e.0 in remaining;
          assert (e.0, x) in edges;
        }
        NoSourceMeansCycle(edges, remaining);
        return None;
      }
      var next := Least(sources);
      assert next !in order;
      forall e | e in edges && e.1 == next ensures e.0 in order {
        assert e.0 in tasks;
      }
      assert forall e :: e in edges && e.0 == next ==> e.1 !in order;
      assert Elements(order + [next]) == Elements(order) + {next};
      order := order + [next];
      remaining := remaining - {next};
    }
    TopologicalMeansAcyclic(order, edges);
    r := Some(order);
  }

  /** `e` reports the first task, in id order, that belongs to another goal. */
  ghost predicate ReportsForeign(g: TaskGraph, e: PlanError) {
    exists id :: id in g.tasks && g.tasks[id].goalId != g.goalId
      && e == WrongGoal(g.tasks[id].id, g.tasks[id].goalId, g.goalId)
      && forall other :: other in g.tasks && other < id ==> g.tasks[other].goalId == g.goalId
  }

  predicate EdgeExists(g: TaskGraph, k: nat)
    requires k < |g.edges|
  {
    g.edges[k].0 in g.tasks && g.edges[k].1 in g.tasks
  }

  /** `e` reports the first missing end of the first edge that has one. */
  ghost predicate ReportsMissing(g: TaskGraph, e: PlanError) {
    exists k: nat :: k < |g.edges| && !EdgeExists(g, k) && (forall j: nat :: j < k ==> EdgeExists(g, j))
      && e == MissingTask(if g.edges[k].0 !in g.tasks then g.edges[k].0 else g.edges[k].1)
  }

  /** What validation reports: a foreign task before a missing one, a missing one before a cycle. */
  ghost predicate Explains(g: TaskGraph, e: PlanError) {
    if !OneGoal(g) then ReportsForeign(g, e) else if !ReferencesExist(g) then ReportsMissing(g, e) else e == Cycle
  }

  predicate Belongs(g: TaskGraph, id: Id) { id in g.tasks && g.tasks[id].goalId == g.goalId }

  /** The first id in order whose task does not belong is the one to report. */
  lemma ForeignFound(g: TaskGraph, ids: seq<Id>, i: nat)
    requires ids == Ascending(g.tasks.Keys) && i < |ids| && !Belongs(g, ids[i])
    requires forall k :: 0 <= k < i ==> Belongs(g, ids[k])
    ensures ReportsForeign(g, WrongGoal(g.tasks[ids[i]].id, g.tasks[ids[i]].goalId, g.goalId))
  {
    AscendingIsSorted(g.tasks.Keys);
    assert ids[i] in ids;
    forall other | other in g.tasks && other < ids[i] ensures Belongs(g, other) {
      assert other in ids;
    }
  }

  method CheckOwnership(g: TaskGraph) returns (r: Result<(), PlanError>)
    ensures r.Ok? <==> OneGoal(g)
    ensures r.Err? ==> ReportsForeign(g, r.error)
  {
    var ids := Ascending(g.tasks.Keys);
    for i := 0 to |ids|
      invariant forall k :: 0 <= k < i ==> Belongs(g, ids[k])
    {
      var task := g.tasks[ids[i]];
      if task.goalId != g.goalId {
        ForeignFound(g, ids, i);
        return Err(WrongGoal(task.id, task.goalId, g.goalId));
      }
    }
    forall id | id in g.tasks ensures Belongs(g, id) {
      assert id in ids;
    }
    return Ok(());
  }

  method CheckReferences(g: TaskGraph) returns (r: Result<(), PlanError>)
    ensures r.Ok? <==> ReferencesExist(g)
    ensures r.Err? ==> ReportsMissing(g, r.error)
  {
    for i := 0 to |g.edges|
      invariant forall k: nat :: k < i ==> EdgeExists(g, k)
    {
      var (dependency, dependent) := g.edges[i];
      assert g.edges[i] in g.edges;
      assert EdgeExists(g, i) <==> dependency in g.tasks && dependent in g.tasks;
      if dependency !in g.tasks {
        return Err(MissingTask(dependency));
      }
      if dependent !in g.tasks {
        return Err(MissingTask(dependent));
      }
    }
    forall e | e in g.edges ensures e.0 in g.tasks && e.1 in g.tasks {
      var k :| 0 <= k < |g.edges| && g.edges[k] == e;
      assert EdgeExists(g, k);
    }
    return Ok(());
  }

  /** Ownership is checked first, then the references of each edge in turn,
      then acyclicity. */
  method Validate(g: TaskGraph) returns (r: Result<(), PlanError>)
    ensures r.Ok? <==> ValidGraph(g)
    ensures r.Err? ==> Explains(g, r.error)
  {
    r := CheckOwnership(g);
    if r.Err? { return; }
    r := CheckReferences(g);
    if r.Err? { return; }
    var sorted := TopologicalSort(g.tasks.Keys, g.edges);
    if sorted.None? {
      return Err(Cycle);
    }
    return Ok(());
  }
}
