/** Admission control for models sharing a GPU-memory budget
    (crates/audio/src/arbiter.rs, `ModelArbiter`), for any finite set of declared models. */
module ModelArbiters {
  import opened Collections

  const U32_MAX: nat := 0xFFFF_FFFF

  type Model = nat

  datatype Declaration = Declaration(vramMib: nat, priority: nat, usesGpu: bool)

  type Declarations = map<Model, Declaration>

  datatype ModelState = ModelState(loaded: bool, activeLeases: nat)

  datatype Plan = Plan(requested: Model, unload: seq<Model>, projected: nat, alreadyLoaded: bool)

  datatype Denied = Denied(requested: Model, required: nat, ceiling: nat)

  datatype Arbiter = Arbiter(ceiling: nat, states: map<Model, ModelState>) {
    function State(m: Model): ModelState { if m in states then states[m] else ModelState(false, 0) }

    predicate Loaded(m: Model) { State(m).loaded }

    predicate Active(m: Model) { State(m).activeLeases > 0 }

    function With(m: Model, s: ModelState): Arbiter { this.(states := states[m := s]) }
  }

  function SaturatingAdd(a: nat, b: nat): nat { Min(a + b, U32_MAX) }

  function SaturatingSub(a: nat, b: nat): nat { Max(a - b, 0) }

  /** CPU models declare no GPU memory. */
  ghost predicate CpuIsFree(decl: Declarations) {
    forall m :: m in decl && !decl[m].usesGpu ==> decl[m].vramMib == 0
  }

  function Cost(decl: Declarations): nat -> nat { m => if m in decl then decl[m].vramMib else 0 }

  function LoadedModels(a: Arbiter): set<Model> { set m | m in a.states && a.states[m].loaded }

  function Resident(decl: Declarations, a: Arbiter): nat { SumOver(LoadedModels(a), Cost(decl)) }

  /** Loading `m` takes the counter past nothing: the guard of the saturating addition. */
  predicate Unsaturated(decl: Declarations, a: Arbiter, m: Model) {
    a.Loaded(m) || Resident(decl, a) + Cost(decl)(m) <= U32_MAX
  }

  /** Memory needed with `m` added and nothing unloaded, as the counter shows it. */
  function Needed(decl: Declarations, a: Arbiter, m: Model): nat { SaturatingAdd(Resident(decl, a), Cost(decl)(m)) }

  // ---------------------------------------------------------------------
  // Candidates for eviction, least important first

  predicate Evictable(decl: Declarations, a: Arbiter, requested: Model, m: Model) {
    m in a.states && m in decl && m != requested && decl[m].usesGpu && a.states[m].loaded && a.states[m].activeLeases == 0
  }

  function Candidates(decl: Declarations, a: Arbiter, requested: Model): set<Model> {
    set m | m in a.states && Evictable(decl, a, requested, m)
  }

  predicate Precedes(decl: Declarations, x: Model, y: Model) {
    && x in decl && y in decl
    && (decl[x].priority < decl[y].priority || (decl[x].priority == decl[y].priority && x < y))
  }

  ghost predicate InPriorityOrder(decl: Declarations, s: seq<Model>) {
    forall i, j :: 0 <= i < j < |s| ==> Precedes(decl, s[i], s[j])
  }

  /** `sort_by_key` on the candidates: there is exactly one such order. */
  ghost predicate IsSortedListOf(decl: Declarations, s: seq<Model>, models: set<Model>) {
    InPriorityOrder(decl, s) && Elements(s) == models
  }

  lemma {:induction false} SortedListIsUnique(decl: Declarations, s: seq<Model>, t: seq<Model>)
    requires InPriorityOrder(decl, s) && InPriorityOrder(decl, t) && Elements(s) == Elements(t)
    ensures s == t
    decreases |s|
  {
    if s == [] {
      assert forall x :: x in t <==> x in Elements(t);
      EmptyIffNoMember(t);
    } else {
      assert s[0] in Elements(t);
      assert t != [] && t[0] in Elements(s);
      HeadIsFirst(decl, s, t);
      assert s[0] == t[0];
      TailElements(decl, s);
      TailElements(decl, t);
      SortedListIsUnique(decl, s[1..], t[1..]);
      assert s == [s[0]] + s[1..] && t == [t[0]] + t[1..];
    }
  }

  lemma HeadIsFirst(decl: Declarations, s: seq<Model>, t: seq<Model>)
    requires InPriorityOrder(decl, s) && InPriorityOrder(decl, t) && s != [] && t != []
    requires s[0] in t && t[0] in s
    ensures s[0] == t[0]
  {
    var i :| 0 <= i < |t| && t[i] == s[0];
    var j :| 0 <= j < |s| && s[j] == t[0];
    assert i > 0 ==> Precedes(decl, t[0], t[i]);
    assert j > 0 ==> Precedes(decl, s[0], s[j]);
  }

  lemma TailElements(decl: Declarations, s: seq<Model>)
    requires InPriorityOrder(decl, s) && s != []
    ensures Elements(s[1..]) == Elements(s) - {s[0]}
  {
    assert s == [s[0]] + s[1..];
    assert forall i :: 0 <= i < |s[1..]| ==> s[1..][i] == s[i + 1] && Precedes(decl, s[0], s[i + 1]);
  }

  lemma OrderHasNoDuplicates(decl: Declarations, s: seq<Model>)
    requires InPriorityOrder(decl, s)
    ensures NoDuplicates(s)
  {
    forall i, j | 0 <= i < j < |s| ensures s[i] != s[j] {
      assert Precedes(decl, s[i], s[j]);
    }
  }

  /** Insertion into an ordered list. */
  method Insert(decl: Declarations, s: seq<Model>, m: Model) returns (r: seq<Model>)
    requires InPriorityOrder(decl, s) && m in decl && m !in s && forall x :: x in s ==> x in decl
    ensures IsSortedListOf(decl, r, Elements(s) + {m})
  {
    var i := 0;
    while i < |s| && Precedes(decl, s[i], m)
      invariant 0 <= i <= |s|
      invariant forall k :: 0 <= k < i ==> Precedes(decl, s[k], m)
    {
      i := i + 1;
    }
    r := s[..i] + [m] + s[i..];
    InsertedIsOrdered(decl, s, m, i, r);
    assert s == s[..i] + s[i..];
  }

  lemma InsertedIsOrdered(decl: Declarations, s: seq<Model>, m: Model, i: nat, r: seq<Model>)
    requires InPriorityOrder(decl, s) && m in decl && m !in s && forall x :: x in s ==> x in decl
    requires i <= |s| && r == s[..i] + [m] + s[i..]
    requires forall k :: 0 <= k < i ==> Precedes(decl, s[k], m)
    requires i < |s| ==> !Precedes(decl, s[i], m)
    ensures InPriorityOrder(decl, r)
  {
    assert i < |s| ==> s[i] in s && Precedes(decl, m, s[i]);
    assert forall k :: i < k < |s| ==> Precedes(decl, s[i], s[k]);
    assert forall k :: i <= k < |s| ==> Precedes(decl, m, s[k]);
  }

  method SortCandidates(decl: Declarations, models: set<Model>) returns (r: seq<Model>)
    requires models <= decl.Keys
    ensures IsSortedListOf(decl, r, models)
  {
    r := [];
    var remaining := models;
    while remaining != {}
      invariant remaining <= models && IsSortedListOf(decl, r, models - remaining)
      decreases remaining
    {
      var m := Least(remaining);
      assert forall x :: x in r ==> x in Elements(r);
      assert m !in Elements(r);
      r := Insert(decl, r, m);
      assert models - (remaining - {m}) == (models - remaining) + {m};
      remaining := remaining - {m};
    }
    assert models - {} == models;
  }

  // ---------------------------------------------------------------------
  // Planning

  function UnloadCost(decl: Declarations, models: seq<Model>): nat { SumAlong(models, Cost(decl)) }

  /** GPU memory that no eviction for `requested` can free: what is loaded and in use. */
  function Pinned(decl: Declarations, a: Arbiter): nat { SumOver(PinnedModels(a), Cost(decl)) }

  function PinnedModels(a: Arbiter): set<Model> {
    set m | m in a.states && a.states[m].loaded && a.states[m].activeLeases > 0
  }

  /** What remains needed for `m` when every candidate is unloaded. */
  function Unavoidable(decl: Declarations, a: Arbiter, m: Model): nat {
    SaturatingSub(Needed(decl, a, m), SumOver(Candidates(decl, a, m), Cost(decl)))
  }

  /** `unload` is the shortest prefix of the evictable models in priority order that makes room. */
  ghost predicate ShortestPrefix(decl: Declarations, a: Arbiter, requested: Model, sorted: seq<Model>, unload: seq<Model>) {
    var needed := Needed(decl, a, requested);
    && IsSortedListOf(decl, sorted, Candidates(decl, a, requested))
    && unload <= sorted
    && SaturatingSub(needed, UnloadCost(decl, unload)) <= a.ceiling
    && forall k :: 0 <= k < |unload| ==> SaturatingSub(needed, UnloadCost(decl, sorted[..k])) > a.ceiling
  }

  /** What `plan_admission` answers. */
  ghost predicate Answers(decl: Declarations, a: Arbiter, requested: Model, r: Result<Plan, Denied>)
    requires requested in decl
  {
    if a.Loaded(requested) then r == Ok(Plan(requested, [], Resident(decl, a), true))
    else if !decl[requested].usesGpu then r == Ok(Plan(requested, [], Resident(decl, a), false))
    else if Unavoidable(decl, a, requested) > a.ceiling then
      r == Err(Denied(requested, Unavoidable(decl, a, requested), a.ceiling))
    else
      && r.Ok? && r.value.requested == requested && !r.value.alreadyLoaded
      && (exists sorted: seq<Model> :: ShortestPrefix(decl, a, requested, sorted, r.value.unload))
      && r.value.projected == SaturatingSub(Needed(decl, a, requested), UnloadCost(decl, r.value.unload))
  }

  ghost predicate Registered(decl: Declarations, a: Arbiter) { a.states.Keys <= decl.Keys }

  /** Loaded memory is pinned memory plus what could be evicted. */
  lemma ResidentSplits(decl: Declarations, a: Arbiter, requested: Model)
    requires CpuIsFree(decl) && Registered(decl, a) && !a.Loaded(requested)
    ensures Resident(decl, a) == Pinned(decl, a) + SumOver(Candidates(decl, a, requested), Cost(decl))
  {
    var f := Cost(decl);
    var pinned := PinnedModels(a);
    var idle := Candidates(decl, a, requested);
    var free := LoadedModels(a) - pinned - idle;
    SumOverUnion(pinned, idle, f);
    SumOverUnion(pinned + idle, free, f);
    assert pinned + idle + free == LoadedModels(a);
    IdleRestIsFree(decl, a, requested, free);
    ZeroCost(free, f);
  }

  /** What is loaded, not in use and no candidate runs on the CPU. */
  lemma IdleRestIsFree(decl: Declarations, a: Arbiter, requested: Model, free: set<Model>)
    requires CpuIsFree(decl) && Registered(decl, a) && !a.Loaded(requested)
    requires free == LoadedModels(a) - PinnedModels(a) - Candidates(decl, a, requested)
    ensures forall m :: m in free ==> Cost(decl)(m) == 0
  {
    forall m | m in free ensures Cost(decl)(m) == 0 {
      assert m in a.states && m != requested && !Evictable(decl, a, requested, m);
    }
  }

  /** Unless the counter saturates, the unavoidable memory is what is in use plus the request. */
  lemma UnavoidableIsPinned(decl: Declarations, a: Arbiter, requested: Model)
    requires CpuIsFree(decl) && Registered(decl, a) && !a.Loaded(requested) && Unsaturated(decl, a, requested)
    ensures Unavoidable(decl, a, requested) == Pinned(decl, a) + Cost(decl)(requested)
  {
    ResidentSplits(decl, a, requested);
  }

  lemma {:induction false} ZeroCost(s: set<nat>, f: nat -> nat)
    requires forall m :: m in s ==> f(m) == 0
    ensures SumOver(s, f) == 0
  {
    if s != {} {
      ZeroCost(s - {Least(s)}, f);
    }
  }

  lemma UnloadAllCost(decl: Declarations, sorted: seq<Model>, models: set<Model>)
    requires IsSortedListOf(decl, sorted, models)
    ensures UnloadCost(decl, sorted) == SumOver(models, Cost(decl))
  {
    OrderHasNoDuplicates(decl, sorted);
    SumAlongIsSumOver(sorted, Cost(decl));
  }

  lemma UnloadCostSnoc(decl: Declarations, sorted: seq<Model>, k: nat)
    requires k < |sorted| && sorted[k] in decl
    ensures UnloadCost(decl, sorted[..k + 1]) == UnloadCost(decl, sorted[..k]) + decl[sorted[k]].vramMib
  {
    assert sorted[..k + 1] == sorted[..k] + [sorted[k]];
    SumAlongConcat(sorted[..k], [sorted[k]], Cost(decl));
    assert [sorted[k]][1..] == [];
  }

  lemma UnloadCostMonotone(decl: Declarations, sorted: seq<Model>, k: nat)
    requires k <= |sorted|
    ensures UnloadCost(decl, sorted[..k]) <= UnloadCost(decl, sorted)
  {
    assert sorted == sorted[..k] + sorted[k..];
    SumAlongConcat(sorted[..k], sorted[k..], Cost(decl));
  }

  /** The greedy loop of `plan_admission` over the sorted candidates. */
  method ChooseUnloads(decl: Declarations, ceiling: nat, needed: nat, sorted: seq<Model>)
    returns (unload: seq<Model>, projected: nat)
    requires forall m :: m in sorted ==> m in decl
    ensures unload <= sorted && projected == SaturatingSub(needed, UnloadCost(decl, unload))
    ensures forall k :: 0 <= k < |unload| ==> SaturatingSub(needed, UnloadCost(decl, sorted[..k])) > ceiling
    ensures projected > ceiling ==> unload == sorted
  {
    unload, projected := [], needed;
    for i := 0 to |sorted|
      invariant unload == sorted[..i] && projected == SaturatingSub(needed, UnloadCost(decl, sorted[..i]))
      invariant forall k :: 0 <= k < i ==> SaturatingSub(needed, UnloadCost(decl, sorted[..k])) > ceiling
    {
      if projected <= ceiling { break; }
      UnloadCostSnoc(decl, sorted, i);
      projected := SaturatingSub(projected, decl[sorted[i]].vramMib);
      unload := unload + [sorted[i]];
    }
  }

  // ---------------------------------------------------------------------
  // Committing

  function SubtractEach(decl: Declarations, projected: nat, unload: seq<Model>): nat {
    if unload == [] then projected
    else SubtractEach(decl, SaturatingSub(projected, Cost(decl)(unload[0])), unload[1..])
  }

  function UnloadEach(a: Arbiter, unload: seq<Model>): Arbiter
    decreases |unload|
  {
    if unload == [] then a
    else UnloadEach(a.With(unload[0], a.State(unload[0]).(loaded := false)), unload[1..])
  }

  function Deny(decl: Declarations, a: Arbiter, requested: Model): Denied {
    Denied(requested, Needed(decl, a, requested), a.ceiling)
  }

  predicate UnloadsIdle(a: Arbiter, unload: seq<Model>) {
    forall m :: m in unload ==> a.Loaded(m) && !a.Active(m)
  }

  function Projection(decl: Declarations, a: Arbiter, p: Plan): nat {
    SubtractEach(decl, if a.Loaded(p.requested) then Resident(decl, a) else Needed(decl, a, p.requested), p.unload)
  }

  /** `commit_admission`. */
  function Commit(decl: Declarations, a: Arbiter, p: Plan): (Arbiter, Result<(), Denied>) {
    if !UnloadsIdle(a, p.unload) || Projection(decl, a, p) > a.ceiling then (a, Err(Deny(decl, a, p.requested)))
    else (Committed(a, p), Ok(()))
  }

  /** A plan as `plan_admission` makes them, whatever has happened since. */
  ghost predicate WellFormed(decl: Declarations, p: Plan) {
    && p.requested in decl && p.requested !in p.unload && NoDuplicates(p.unload)
    && forall m :: m in p.unload ==> m in decl && decl[m].usesGpu
  }

  lemma AnswersAreWellFormed(decl: Declarations, a: Arbiter, requested: Model, r: Result<Plan, Denied>)
    requires requested in decl && Answers(decl, a, requested, r) && r.Ok?
    ensures WellFormed(decl, r.value) && r.value.requested == requested
  {
    if !a.Loaded(requested) && decl[requested].usesGpu {
      var sorted: seq<Model> :| ShortestPrefix(decl, a, requested, sorted, r.value.unload);
      OrderHasNoDuplicates(decl, sorted);
      var unload := r.value.unload;
      forall m | m in unload ensures m in Candidates(decl, a, requested) {
        assert m in Elements(sorted);
      }
    }
  }

  /** Saturating subtractions one by one are one saturating subtraction of the sum. */
  lemma {:induction false} SubtractEachIsExact(decl: Declarations, projected: nat, unload: seq<Model>)
    ensures SubtractEach(decl, projected, unload) == SaturatingSub(projected, UnloadCost(decl, unload))
    decreases |unload|
  {
    if unload != [] {
      SubtractEachIsExact(decl, SaturatingSub(projected, Cost(decl)(unload[0])), unload[1..]);
    }
  }

  lemma {:induction false} UnloadEachIsExact(a: Arbiter, unload: seq<Model>)
    requires forall m :: m in unload ==> m in a.states
    ensures
      var n := UnloadEach(a, unload);
      && n.ceiling == a.ceiling && n.states.Keys == a.states.Keys
      && forall m :: m in a.states ==>
           n.states[m] == if m in unload then a.states[m].(loaded := false) else a.states[m]
    decreases |unload|
  {
    if unload != [] {
      UnloadEachIsExact(a.With(unload[0], a.State(unload[0]).(loaded := false)), unload[1..]);
      assert unload == [unload[0]] + unload[1..];
    }
  }

  /** The registry after the unloads and the load of a plan. */
  function Committed(a: Arbiter, p: Plan): Arbiter {
    var freed := UnloadEach(a, p.unload);
    freed.With(p.requested, freed.State(p.requested).(loaded := true))
  }

  /** What a successful commit of any well-formed plan, however stale, does: exactly the listed
      models go, exactly the requested one comes, leases are untouched, and the memory
      then resident is the projection that was compared with the ceiling. */
  lemma CommitIsExact(decl: Declarations, a: Arbiter, p: Plan)
    requires Registered(decl, a) && WellFormed(decl, p) && UnloadsIdle(a, p.unload)
    requires Unsaturated(decl, a, p.requested)
    ensures
      var n := Committed(a, p);
      && LoadedModels(n) == LoadedModels(a) - Elements(p.unload) + {p.requested}
      && (forall m :: n.State(m).activeLeases == a.State(m).activeLeases)
      && n.ceiling == a.ceiling && Registered(decl, n)
      && Resident(decl, n) == Projection(decl, a, p)
  {
    LoadedAfterCommit(decl, a, p);
    ResidentAfterCommit(decl, a, p);
    SubtractEachIsExact(decl, if a.Loaded(p.requested) then Resident(decl, a) else Needed(decl, a, p.requested), p.unload);
  }

  /** The projection of a commit is the memory then resident exactly if adding the request
      does not saturate the 32-bit counter. */
  lemma ProjectionIsExactIff(decl: Declarations, a: Arbiter, p: Plan)
    requires Registered(decl, a) && WellFormed(decl, p) && UnloadsIdle(a, p.unload) && Resident(decl, a) <= U32_MAX
    ensures Resident(decl, Committed(a, p)) == Projection(decl, a, p) <==> Unsaturated(decl, a, p.requested)
  {
    ResidentAfterCommit(decl, a, p);
    SubtractEachIsExact(decl, if a.Loaded(p.requested) then Resident(decl, a) else Needed(decl, a, p.requested), p.unload);
  }

  lemma ResidentAfterCommit(decl: Declarations, a: Arbiter, p: Plan)
    requires Registered(decl, a) && WellFormed(decl, p) && UnloadsIdle(a, p.unload)
    ensures UnloadCost(decl, p.unload) <= Resident(decl, a)
    ensures Resident(decl, Committed(a, p)) == Resident(decl, a) - UnloadCost(decl, p.unload)
            + (if a.Loaded(p.requested) then 0 else Cost(decl)(p.requested))
  {
    LoadedAfterCommit(decl, a, p);
    forall m | m in p.unload ensures m in LoadedModels(a) {
    }
    SumAfterSwap(decl, LoadedModels(a), p);
  }

  lemma LoadedAfterCommit(decl: Declarations, a: Arbiter, p: Plan)
    requires Registered(decl, a) && WellFormed(decl, p) && UnloadsIdle(a, p.unload)
    ensures
      var n := Committed(a, p);
      && LoadedModels(n) == LoadedModels(a) - Elements(p.unload) + {p.requested}
      && (forall m :: n.State(m).activeLeases == a.State(m).activeLeases)
      && n.ceiling == a.ceiling && Registered(decl, n)
  {
    UnloadEachIsExact(a, p.unload);
  }

  lemma SumAfterSwap(decl: Declarations, loaded: set<Model>, p: Plan)
    requires WellFormed(decl, p) && Elements(p.unload) <= loaded
    ensures UnloadCost(decl, p.unload) <= SumOver(loaded, Cost(decl))
    ensures SumOver(loaded - Elements(p.unload) + {p.requested}, Cost(decl))
            == SumOver(loaded, Cost(decl)) - UnloadCost(decl, p.unload)
               + (if p.requested in loaded then 0 else Cost(decl)(p.requested))
  {
    var f, gone := Cost(decl), Elements(p.unload);
    SumAlongIsSumOver(p.unload, f);
    SumOverUnion(gone, loaded - gone, f);
    assert gone + (loaded - gone) == loaded;
    if p.requested in loaded {
      assert loaded - gone + {p.requested} == loaded - gone;
    } else {
      SumOverAdd(loaded - gone, p.requested, f);
    }
  }

  /** Planning is complete and tight: an unloaded GPU model is denied exactly if the memory
      in active use plus its own exceeds the ceiling; otherwise committing the plan at once
      succeeds, and leaves exactly the projected memory resident. */
  lemma PlanIsCompleteAndCommits(decl: Declarations, a: Arbiter, requested: Model, r: Result<Plan, Denied>)
    requires CpuIsFree(decl) && Registered(decl, a) && requested in decl && Resident(decl, a) <= a.ceiling
    requires Unsaturated(decl, a, requested) && Answers(decl, a, requested, r)
    ensures r.Err? <==> !a.Loaded(requested) && decl[requested].usesGpu
                        && Pinned(decl, a) + decl[requested].vramMib > a.ceiling
    ensures r.Ok? ==>
      && Commit(decl, a, r.value).1.Ok?
      && Resident(decl, Commit(decl, a, r.value).0) == r.value.projected <= a.ceiling
      && Commit(decl, a, r.value).0.Loaded(requested)
  {
    if !a.Loaded(requested) {
      UnavoidableIsPinned(decl, a, requested);
    }
    if r.Ok? {
      AnswersAreWellFormed(decl, a, requested, r);
      PlanProjects(decl, a, requested, r.value);
      CommitIsExact(decl, a, r.value);
    }
  }

  /** Right after planning, the planned evictions are idle and the projection is the planned one. */
  lemma PlanProjects(decl: Declarations, a: Arbiter, requested: Model, p: Plan)
    requires CpuIsFree(decl) && Registered(decl, a) && requested in decl && Resident(decl, a) <= a.ceiling
    requires Unsaturated(decl, a, requested) && Answers(decl, a, requested, Ok(p))
    ensures p.requested == requested && UnloadsIdle(a, p.unload)
    ensures Projection(decl, a, p) == p.projected <= a.ceiling
  {
    if !a.Loaded(requested) && decl[requested].usesGpu {
      var sorted: seq<Model> :| ShortestPrefix(decl, a, requested, sorted, p.unload);
      forall m | m in p.unload ensures a.Loaded(m) && !a.Active(m) {
        assert m in Elements(sorted);
      }
      SubtractEachIsExact(decl, Needed(decl, a, requested), p.unload);
    }
  }

  // ---------------------------------------------------------------------
  // Interleavings

  datatype Machine = Machine(arbiter: Arbiter, plans: set<Plan>)

  datatype Step =
    | MakePlan(requested: Model, answer: Result<Plan, Denied>)
    | CommitPlan(plan: Plan)
    | Activate(model: Model)
    | Release(model: Model)
    | MarkUnloaded(model: Model)
    | ResetWorker

  function Unloaded(a: Arbiter, m: Model): Arbiter { a.With(m, ModelState(false, 0)) }

  function ResetAll(decl: Declarations, a: Arbiter): Arbiter {
    a.(states := map m | m in a.states.Keys + decl.Keys ::
                   if m in decl && decl[m].usesGpu then ModelState(false, 0) else a.State(m))
  }

  /** The steps that are possible: plans are answered truly, and only plans made earlier are committed. */
  ghost predicate Possible(decl: Declarations, s: Machine, step: Step) {
    match step
    case MakePlan(requested, answer) => requested in decl && Answers(decl, s.arbiter, requested, answer)
    case CommitPlan(plan) => plan in s.plans
    case Activate(m) => m in decl
    case Release(m) => m in decl
    case MarkUnloaded(m) => m in decl
    case ResetWorker => true
  }

  function Do(decl: Declarations, s: Machine, step: Step): Machine {
    var a := s.arbiter;
    match step
    case MakePlan(_, answer) => if answer.Ok? then s.(plans := s.plans + {answer.value}) else s
    case CommitPlan(plan) => s.(arbiter := Commit(decl, a, plan).0)
    case Activate(m) =>
      if a.Loaded(m)
      then s.(arbiter := a.With(m, a.State(m).(activeLeases := SaturatingAdd(a.State(m).activeLeases, 1)))) else s
    case Release(m) =>
      s.(arbiter := a.With(m, a.State(m).(activeLeases := SaturatingSub(a.State(m).activeLeases, 1))))
    case MarkUnloaded(m) => s.(arbiter := Unloaded(a, m))
    case ResetWorker => s.(arbiter := ResetAll(decl, a))
  }

  ghost predicate Safe(decl: Declarations, s: Machine) {
    && Registered(decl, s.arbiter)
    && Resident(decl, s.arbiter) <= s.arbiter.ceiling
    && (forall m :: s.arbiter.Active(m) ==> s.arbiter.Loaded(m))
    && (forall p :: p in s.plans ==> WellFormed(decl, p))
  }

  /** A commit never evicts a model in use, and a refused commit changes nothing. */
  lemma CommitIsSafe(decl: Declarations, s: Machine, p: Plan)
    requires Safe(decl, s) && WellFormed(decl, p) && Unsaturated(decl, s.arbiter, p.requested)
    ensures
      var (n, r) := Commit(decl, s.arbiter, p);
      && (r.Err? ==> n == s.arbiter)
      && (forall m :: s.arbiter.Active(m) ==> n.Active(m) && n.Loaded(m))
      && Safe(decl, s.(arbiter := n))
  {
    var a := s.arbiter;
    var (n, r) := Commit(decl, a, p);
    if r.Ok? {
      CommitIsExact(decl, a, p);
      forall m | a.Active(m) ensures n.Active(m) && n.Loaded(m) {
        assert m in LoadedModels(a) && m !in p.unload;
        assert m in LoadedModels(n);
      }
      forall m | n.Active(m) ensures n.Loaded(m) {
        assert a.Active(m);
      }
    }
  }

  lemma ShrinkIsSafe(decl: Declarations, s: Machine, n: Arbiter)
    requires Safe(decl, s) && n.ceiling == s.arbiter.ceiling && Registered(decl, n)
    requires LoadedModels(n) <= LoadedModels(s.arbiter) && forall m :: n.Active(m) ==> n.Loaded(m)
    ensures Safe(decl, s.(arbiter := n))
  {
    SumOverSubset(LoadedModels(n), LoadedModels(s.arbiter), Cost(decl));
  }

  predicate StepUnsaturated(decl: Declarations, a: Arbiter, step: Step) {
    step.CommitPlan? ==> Unsaturated(decl, a, step.plan.requested)
  }

  lemma StepIsSafe(decl: Declarations, s: Machine, step: Step)
    requires Safe(decl, s) && Possible(decl, s, step) && StepUnsaturated(decl, s.arbiter, step)
    ensures Safe(decl, Do(decl, s, step)) && Do(decl, s, step).arbiter.ceiling == s.arbiter.ceiling
  {
    var n := Do(decl, s, step).arbiter;
    match step
    case MakePlan(requested, answer) =>
      if answer.Ok? { AnswersAreWellFormed(decl, s.arbiter, requested, answer); }
    case CommitPlan(plan) =>
      CommitIsSafe(decl, s, plan);
      if Commit(decl, s.arbiter, plan).1.Ok? { CommitIsExact(decl, s.arbiter, plan); }
    case _ =>
      forall m | m in LoadedModels(n) ensures m in LoadedModels(s.arbiter) {
      }
      forall m | n.Active(m) ensures n.Loaded(m) {
        assert s.arbiter.Active(m) || s.arbiter.Loaded(m);
      }
      ShrinkIsSafe(decl, s, n);
  }

  ghost predicate IsRun(decl: Declarations, states: seq<Machine>, steps: seq<Step>) {
    && |states| == |steps| + 1
    && forall i :: 0 <= i < |steps| ==>
         Possible(decl, states[i], steps[i]) && states[i + 1] == Do(decl, states[i], steps[i])
  }

  /** Safety over every interleaving of planning, committing plans made in any earlier state,
      activating, releasing, unloading and worker resets, in which no commit saturates the
      counter: resident memory never exceeds the ceiling and every active model is loaded. */
  lemma RunIsSafe(decl: Declarations, states: seq<Machine>, steps: seq<Step>)
    requires IsRun(decl, states, steps) && Safe(decl, states[0])
    requires forall i :: 0 <= i < |steps| ==> StepUnsaturated(decl, states[i].arbiter, steps[i])
    ensures forall i :: 0 <= i < |states| ==> Safe(decl, states[i])
  {
    for i := 0 to |steps|
      invariant forall k :: 0 <= k <= i ==> Safe(decl, states[k])
    {
      StepIsSafe(decl, states[i], steps[i]);
    }
  }

  function NewArbiter(decl: Declarations, ceiling: nat): Arbiter {
    Arbiter(ceiling, map m | m in decl :: ModelState(false, 0))
  }

  /** A new arbiter, with every model known and none loaded, is safe for every ceiling. */
  lemma NewIsSafe(decl: Declarations, ceiling: nat)
    ensures Safe(decl, Machine(NewArbiter(decl, ceiling), {}))
  {
    assert LoadedModels(NewArbiter(decl, ceiling)) == {};
  }

  /** When all declared memory together fits the counter, no commit in any state can saturate it. */
  lemma FittingTotalIsUnsaturated(decl: Declarations, a: Arbiter, m: Model)
    requires Registered(decl, a) && m in decl && SumOver(decl.Keys, Cost(decl)) <= U32_MAX
    ensures Unsaturated(decl, a, m)
  {
    if !a.Loaded(m) {
      SumOverAdd(LoadedModels(a), m, Cost(decl));
      SumOverSubset(LoadedModels(a) + {m}, decl.Keys, Cost(decl));
    }
  }

  // ---------------------------------------------------------------------
  // Leases

  /** The steps that can take a lease of `m` away. */
  predicate Drops(decl: Declarations, step: Step, m: Model) {
    step == Release(m) || step == MarkUnloaded(m) || (step.ResetWorker? && m in decl && decl[m].usesGpu)
  }

  /** Activating a loaded model takes a lease: no commit that would unload it is accepted then. */
  lemma ActivatedIsNotEvicted(decl: Declarations, s: Machine, m: Model, p: Plan)
    requires s.arbiter.Loaded(m) && m in p.unload
    ensures
      var n := Do(decl, s, Activate(m)).arbiter;
      n.Active(m) && Commit(decl, n, p) == (n, Err(Deny(decl, n, p.requested)))
  {
    assert Do(decl, s, Activate(m)).arbiter.Active(m);
  }

  lemma StepKeepsLease(decl: Declarations, s: Machine, step: Step, m: Model)
    requires Safe(decl, s) && Possible(decl, s, step) && StepUnsaturated(decl, s.arbiter, step)
    requires s.arbiter.Active(m) && !Drops(decl, step, m)
    ensures Do(decl, s, step).arbiter.Active(m)
    ensures step.CommitPlan? && m in step.plan.unload ==> Do(decl, s, step) == s && Commit(decl, s.arbiter, step.plan).1.Err?
  {
    if step.CommitPlan? {
      CommitIsSafe(decl, s, step.plan);
    }
  }

  /** Over every interleaving, a model in use stays loaded and in use until a lease of it is given
      back, it is unloaded or its worker dies; until then every commit that would evict it
      is refused and changes nothing. */
  lemma HeldModelIsNeverEvicted(decl: Declarations, states: seq<Machine>, steps: seq<Step>, m: Model, i: nat, j: nat)
    requires IsRun(decl, states, steps) && Safe(decl, states[0]) && i < j <= |steps|
    requires forall k :: 0 <= k < |steps| ==> StepUnsaturated(decl, states[k].arbiter, steps[k])
    requires steps[i] == Activate(m) && states[i].arbiter.Loaded(m)
    requires forall k :: i < k < j ==> !Drops(decl, steps[k], m)
    ensures states[j].arbiter.Active(m) && states[j].arbiter.Loaded(m)
    ensures forall k :: i < k < j && steps[k].CommitPlan? && m in steps[k].plan.unload ==> states[k + 1] == states[k]
  {
    RunIsSafe(decl, states, steps);
    HeldStaysActive(decl, states, steps, m, i, j);
    forall k | i < k < j && steps[k].CommitPlan? && m in steps[k].plan.unload ensures states[k + 1] == states[k] {
      HeldStaysActive(decl, states, steps, m, i, k);
      StepKeepsLease(decl, states[k], steps[k], m);
    }
  }

  lemma HeldStaysActive(decl: Declarations, states: seq<Machine>, steps: seq<Step>, m: Model, i: nat, j: nat)
    requires IsRun(decl, states, steps) && i < j <= |steps| && steps[i] == Activate(m) && states[i].arbiter.Loaded(m)
    requires forall k :: 0 <= k < |states| ==> Safe(decl, states[k])
    requires forall k :: 0 <= k < |steps| ==> StepUnsaturated(decl, states[k].arbiter, steps[k])
    requires forall k :: i < k < j ==> !Drops(decl, steps[k], m)
    ensures states[j].arbiter.Active(m)
  {
    for k := i + 1 to j
      invariant states[k].arbiter.Active(m)
    {
      StepKeepsLease(decl, states[k], steps[k], m);
    }
  }

  /** Which models are loaded after a step: an accepted commit swaps its models, an unload and a
      dead worker take theirs, and nothing else loads or unloads anything. */
  lemma LoadedStep(decl: Declarations, s: Machine, step: Step)
    requires Safe(decl, s) && Possible(decl, s, step) && StepUnsaturated(decl, s.arbiter, step)
    ensures
      var before, after := LoadedModels(s.arbiter), LoadedModels(Do(decl, s, step).arbiter);
      after == if step.CommitPlan? && Commit(decl, s.arbiter, step.plan).1.Ok?
               then before - Elements(step.plan.unload) + {step.plan.requested}
               else if step.MarkUnloaded? then before - {step.model}
               else if step.ResetWorker? then before - GpuModels(decl)
               else before
  {
    if step.CommitPlan? && Commit(decl, s.arbiter, step.plan).1.Ok? {
      CommitIsExact(decl, s.arbiter, step.plan);
    }
  }

  function GpuModels(decl: Declarations): set<Model> { set m | m in decl && decl[m].usesGpu }

  /** Leases of `m` outstanding after the first `n` steps, from the steps alone and what was loaded. */
  function Outstanding(decl: Declarations, states: seq<Machine>, steps: seq<Step>, m: Model, n: nat): int
    requires n <= |steps| < |states|
  {
    if n == 0 then 0
    else
      var before, step := Outstanding(decl, states, steps, m, n - 1), steps[n - 1];
      if step == Activate(m) && states[n - 1].arbiter.Loaded(m) then Min(before + 1, U32_MAX)
      else if step == Release(m) then Max(before - 1, 0)
      else if Drops(decl, step, m) then 0
      else before
  }

  /** The lease count of every model is the activations accepted less the releases, since it was
      last unloaded. */
  lemma {:induction false} LeasesAreOutstanding(
      decl: Declarations, states: seq<Machine>, steps: seq<Step>, m: Model, n: nat)
    requires IsRun(decl, states, steps) && n <= |steps| && Safe(decl, states[0])
    requires states[0].arbiter.State(m).activeLeases == 0
    requires forall k :: 0 <= k < |steps| ==> StepUnsaturated(decl, states[k].arbiter, steps[k])
    ensures states[n].arbiter.State(m).activeLeases == Outstanding(decl, states, steps, m, n)
  {
    if n > 0 {
      LeasesAreOutstanding(decl, states, steps, m, n - 1);
      RunIsSafe(decl, states, steps);
      LeaseStep(decl, states[n - 1], steps[n - 1], m);
    }
  }

  lemma LeaseStep(decl: Declarations, s: Machine, step: Step, m: Model)
    requires Safe(decl, s) && Possible(decl, s, step) && StepUnsaturated(decl, s.arbiter, step)
    ensures
      var before, after := s.arbiter.State(m).activeLeases, Do(decl, s, step).arbiter.State(m).activeLeases;
      after == if step == Activate(m) && s.arbiter.Loaded(m) then Min(before + 1, U32_MAX)
               else if step == Release(m) then Max(before - 1, 0)
               else if Drops(decl, step, m) then 0
               else before
  {
    if step.CommitPlan? && Commit(decl, s.arbiter, step.plan).1.Ok? {
      CommitIsExact(decl, s.arbiter, step.plan);
    }
  }

  /** When the worker dies no GPU memory is resident, and CPU models go on as they were. */
  lemma ResetFreesGpu(decl: Declarations, s: Machine, m: Model)
    requires CpuIsFree(decl) && Registered(decl, s.arbiter)
    ensures
      var n := Do(decl, s, ResetWorker).arbiter;
      && Resident(decl, n) == 0
      && (m in decl && !decl[m].usesGpu ==> n.State(m) == s.arbiter.State(m))
      && (m in decl && decl[m].usesGpu ==> !n.Loaded(m) && !n.Active(m))
  {
    var n := Do(decl, s, ResetWorker).arbiter;
    ZeroCost(LoadedModels(n), Cost(decl));
  }

  /** A refused commit reports the memory that would be resident with the request loaded beside
      everything now loaded, and the ceiling it was compared with. */
  lemma DenialExplains(decl: Declarations, a: Arbiter, p: Plan)
    requires Registered(decl, a) && WellFormed(decl, p) && !a.Loaded(p.requested) && Unsaturated(decl, a, p.requested)
    ensures
      var r := Commit(decl, a, p).1;
      r.Err? ==> && r.error.requested == p.requested && r.error.ceiling == a.ceiling
                 && r.error.required == Resident(decl, Committed(a, p.(unload := [])))
  {
    ResidentAfterCommit(decl, a, p.(unload := []));
  }

  /** Every model a plan evicts is less important than every candidate it spares. */
  lemma EvictsLeastImportant(decl: Declarations, a: Arbiter, requested: Model, p: Plan, gone: Model, spared: Model)
    requires requested in decl && Answers(decl, a, requested, Ok(p)) && gone in p.unload
    requires spared in Candidates(decl, a, requested) && spared !in p.unload
    ensures gone in decl && spared in decl
    ensures decl[gone].priority < decl[spared].priority
         || (decl[gone].priority == decl[spared].priority && gone < spared)
  {
    var sorted: seq<Model> :| ShortestPrefix(decl, a, requested, sorted, p.unload);
    assert spared in Elements(sorted);
    var i :| 0 <= i < |p.unload| && p.unload[i] == gone;
    var j :| 0 <= j < |sorted| && sorted[j] == spared;
    assert sorted[i] == gone;
    assert forall k :: 0 <= k < |p.unload| ==> sorted[k] == p.unload[k] && p.unload[k] in p.unload;
    assert i < j;
    assert Precedes(decl, sorted[i], sorted[j]);
  }

  // ---------------------------------------------------------------------
  // The six models of the program

  const Qwen3Tts: Model := 0
  const FasterWhisper: Model := 1
  const VisionGrounding: Model := 2
  const Moonshine: Model := 3
  const Kokoro: Model := 4
  const Ocrs: Model := 5

  // Priorities: vision 0, speech recognition 1, speech synthesis 2, CPU fallbacks 3.
  const LocalModels: Declarations := map[
    Qwen3Tts := Declaration(1_400, 2, true),
    FasterWhisper := Declaration(1_500, 1, true),
    VisionGrounding := Declaration(1_200, 0, true),
    Moonshine := Declaration(0, 3, false),
    Kokoro := Declaration(0, 3, false),
    Ocrs := Declaration(0, 3, false)]

  lemma SixModels(f: nat -> nat)
    requires f(3) == 0 && f(4) == 0 && f(5) == 0
    ensures SumOver({0, 1, 2, 3, 4, 5}, f) == f(0) + f(1) + f(2)
  {
    var cpu: set<nat> := {3, 4, 5};
    ZeroCost(cpu, f);
    SumOverAdd(cpu, 2, f);
    SumOverAdd(cpu + {2}, 1, f);
    SumOverAdd(cpu + {2} + {1}, 0, f);
    assert cpu + {2} + {1} + {0} == {0, 1, 2, 3, 4, 5};
  }

  /** Idle GPU models go in the order vision, speech recognition, speech synthesis. */
  lemma LocalEvictionOrder(s: seq<Model>)
    requires IsSortedListOf(LocalModels, s, {Qwen3Tts, FasterWhisper, VisionGrounding})
    ensures s == [VisionGrounding, FasterWhisper, Qwen3Tts]
  {
    SortedListIsUnique(LocalModels, s, [VisionGrounding, FasterWhisper, Qwen3Tts]);
  }

  lemma LocalModelsTotal()
    ensures CpuIsFree(LocalModels) && SumOver(LocalModels.Keys, Cost(LocalModels)) == 4_100
  {
    SixModels(Cost(LocalModels));
    assert LocalModels.Keys == {0, 1, 2, 3, 4, 5};
  }

  /** For the program's six models, 4100 MiB together, every interleaving from a new arbiter is
      safe under every ceiling, and no commit saturates the counter. */
  lemma LocalRunIsSafe(ceiling: nat, states: seq<Machine>, steps: seq<Step>)
    requires IsRun(LocalModels, states, steps) && states[0] == Machine(NewArbiter(LocalModels, ceiling), {})
    ensures forall i :: 0 <= i < |states| ==> Safe(LocalModels, states[i])
    ensures forall i :: 0 <= i < |steps| ==> StepUnsaturated(LocalModels, states[i].arbiter, steps[i])
  {
    LocalModelsTotal();
    FittingRunIsSafe(LocalModels, ceiling, states, steps);
  }

  /** In every such interleaving each plan asked for is denied exactly if the memory in active use
      leaves no room for the model, and a plan obtained can be committed at once. */
  lemma LocalPlansAreComplete(ceiling: nat, states: seq<Machine>, steps: seq<Step>, i: nat)
    requires IsRun(LocalModels, states, steps) && states[0] == Machine(NewArbiter(LocalModels, ceiling), {})
    requires i < |steps| && steps[i].MakePlan?
    ensures PlanIsRight(LocalModels, states[i].arbiter, steps[i].requested, steps[i].answer)
  {
    LocalModelsTotal();
    FittingRunIsSafe(LocalModels, ceiling, states, steps);
    FittingPlanIsRight(LocalModels, states[i], steps[i]);
  }

  /** Denied exactly if there is no room; otherwise committable at once, ending at the projection. */
  ghost predicate PlanIsRight(decl: Declarations, a: Arbiter, requested: Model, r: Result<Plan, Denied>) {
    && requested in decl
    && (r.Err? <==> !a.Loaded(requested) && decl[requested].usesGpu
                    && Pinned(decl, a) + decl[requested].vramMib > a.ceiling)
    && (r.Ok? ==>
          && Commit(decl, a, r.value).1.Ok? && Commit(decl, a, r.value).0.Loaded(requested)
          && Resident(decl, Commit(decl, a, r.value).0) == r.value.projected <= a.ceiling)
  }

  lemma FittingPlanIsRight(decl: Declarations, s: Machine, step: Step)
    requires CpuIsFree(decl) && SumOver(decl.Keys, Cost(decl)) <= U32_MAX
    requires Safe(decl, s) && Possible(decl, s, step) && step.MakePlan?
    ensures PlanIsRight(decl, s.arbiter, step.requested, step.answer)
  {
    FittingTotalIsUnsaturated(decl, s.arbiter, step.requested);
    PlanIsCompleteAndCommits(decl, s.arbiter, step.requested, step.answer);
  }

  lemma FittingRunIsSafe(decl: Declarations, ceiling: nat, states: seq<Machine>, steps: seq<Step>)
    requires SumOver(decl.Keys, Cost(decl)) <= U32_MAX
    requires IsRun(decl, states, steps) && states[0] == Machine(NewArbiter(decl, ceiling), {})
    ensures forall i :: 0 <= i < |states| ==> Safe(decl, states[i])
    ensures forall i :: 0 <= i < |steps| ==> StepUnsaturated(decl, states[i].arbiter, steps[i])
  {
    forall i | 0 <= i < |states| ensures Safe(decl, states[i]) {
      FittingStateIsSafe(decl, ceiling, states, steps, i);
    }
    forall i | 0 <= i < |steps| ensures StepUnsaturated(decl, states[i].arbiter, steps[i]) {
      FittingStepIsSafe(decl, states[i], steps[i], states[i + 1]);
    }
  }

  lemma FittingStateIsSafe(decl: Declarations, ceiling: nat, states: seq<Machine>, steps: seq<Step>, i: nat)
    requires SumOver(decl.Keys, Cost(decl)) <= U32_MAX && i < |states|
    requires IsRun(decl, states, steps) && states[0] == Machine(NewArbiter(decl, ceiling), {})
    ensures Safe(decl, states[i])
  {
    NewIsSafe(decl, ceiling);
    for k := 0 to i
      invariant Safe(decl, states[k])
    {
      FittingStepIsSafe(decl, states[k], steps[k], states[k + 1]);
    }
  }

  lemma FittingStepIsSafe(decl: Declarations, s: Machine, step: Step, n: Machine)
    requires SumOver(decl.Keys, Cost(decl)) <= U32_MAX
    requires Safe(decl, s) && Possible(decl, s, step) && n == Do(decl, s, step)
    ensures StepUnsaturated(decl, s.arbiter, step) && Safe(decl, n)
  {
    if step.CommitPlan? {
      FittingTotalIsUnsaturated(decl, s.arbiter, step.plan.requested);
    }
    StepIsSafe(decl, s, step);
  }

  // ---------------------------------------------------------------------
  // The arbiter as an object

  method AllIdle(a: Arbiter, unload: seq<Model>) returns (idle: bool)
    ensures idle == UnloadsIdle(a, unload)
  {
    for i := 0 to |unload|
      invariant forall k :: 0 <= k < i ==> a.Loaded(unload[k]) && !a.Active(unload[k])
    {
      if !a.Loaded(unload[i]) || a.Active(unload[i]) {
        assert unload[i] in unload;
        return false;
      }
    }
    return true;
  }

  method ProjectUnloads(decl: Declarations, needed: nat, unload: seq<Model>) returns (projected: nat)
    ensures projected == SubtractEach(decl, needed, unload)
  {
    projected := needed;
    for i := 0 to |unload|
      invariant SubtractEach(decl, needed, unload) == SubtractEach(decl, projected, unload[i..])
    {
      assert unload[i..][0] == unload[i] && unload[i..][1..] == unload[i + 1..];
      projected := SaturatingSub(projected, Cost(decl)(unload[i]));
    }
  }

  class ModelArbiter {
    const decl: Declarations
    const ceiling: nat
    var states: map<Model, ModelState>

    function Value(): Arbiter
      reads this
    {
      Arbiter(ceiling, states)
    }

    constructor (declarations: Declarations, limit: nat)
      ensures decl == declarations && ceiling == limit
      ensures Value() == NewArbiter(declarations, limit)
    {
      decl, ceiling := declarations, limit;
      states := map m | m in declarations :: ModelState(false, 0);
    }

    method ResidentVram() returns (total: nat)
      ensures total == Resident(decl, Value())
    {
      total := 0;
      var remaining := LoadedModels(Value());
      while remaining != {}
        invariant Resident(decl, Value()) == total + SumOver(remaining, Cost(decl))
        decreases remaining
      {
        var m := Least(remaining);
        SumOverRemove(remaining, m, Cost(decl));
        total := total + Cost(decl)(m);
        remaining := remaining - {m};
      }
    }

    /** Compute evictions for a model load without changing the registry. */
    method PlanAdmission(requested: Model) returns (r: Result<Plan, Denied>)
      requires requested in decl
      ensures Answers(decl, Value(), requested, r)
    {
      var current := ResidentVram();
      if Value().Loaded(requested) { return Ok(Plan(requested, [], current, true)); }
      if !decl[requested].usesGpu { return Ok(Plan(requested, [], current, false)); }
      var needed := SaturatingAdd(current, decl[requested].vramMib);
      var models := Candidates(decl, Value(), requested);
      var sorted := SortCandidates(decl, models);
      UnloadAllCost(decl, sorted, models);
      assert forall m :: m in sorted ==> m in Elements(sorted);
      var unload, projected := ChooseUnloads(decl, ceiling, needed, sorted);
      if projected > ceiling { return Err(Denied(requested, projected, ceiling)); }
      assert unload == sorted[..|unload|];
      UnloadCostMonotone(decl, sorted, |unload|);
      assert ShortestPrefix(decl, Value(), requested, sorted, unload);
      return Ok(Plan(requested, unload, projected, false));
    }

    /** Commit a plan after every requested unload has succeeded. */
    method CommitAdmission(p: Plan) returns (r: Result<(), Denied>)
      modifies this
      ensures (Value(), r) == Commit(decl, old(Value()), p)
    {
      var current := ResidentVram();
      var idle := AllIdle(Value(), p.unload);
      if !idle {
        return Err(Denied(p.requested, SaturatingAdd(current, Cost(decl)(p.requested)), ceiling));
      }
      var needed: nat := if Value().Loaded(p.requested) then current else SaturatingAdd(current, Cost(decl)(p.requested));
      var projected := ProjectUnloads(decl, needed, p.unload);
      if projected > ceiling {
        return Err(Denied(p.requested, SaturatingAdd(current, Cost(decl)(p.requested)), ceiling));
      }
      for i := 0 to |p.unload|
        invariant UnloadEach(old(Value()), p.unload) == UnloadEach(Value(), p.unload[i..])
      {
        assert p.unload[i..][0] == p.unload[i] && p.unload[i..][1..] == p.unload[i + 1..];
        states := states[p.unload[i] := Value().State(p.unload[i]).(loaded := false)];
      }
      states := states[p.requested := Value().State(p.requested).(loaded := true)];
      return Ok(());
    }

    method ActivateModel(m: Model) returns (r: Result<(), Denied>)
      modifies this
      ensures Value() == Do(decl, Machine(old(Value()), {}), Activate(m)).arbiter
      ensures r == if old(Value()).Loaded(m) then Ok(()) else Err(Deny(decl, old(Value()), m))
      ensures r.Ok? ==> Value().Active(m)
    {
      if !Value().Loaded(m) {
        var current := ResidentVram();
        return Err(Denied(m, SaturatingAdd(current, Cost(decl)(m)), ceiling));
      }
      var s := Value().State(m);
      states := states[m := s.(activeLeases := SaturatingAdd(s.activeLeases, 1))];
      return Ok(());
    }

    method ReleaseModel(m: Model)
      modifies this
      ensures Value() == Do(decl, Machine(old(Value()), {}), Release(m)).arbiter
    {
      var s := Value().State(m);
      states := states[m := s.(activeLeases := SaturatingSub(s.activeLeases, 1))];
    }

    method MarkModelUnloaded(m: Model)
      modifies this
      ensures Value() == Unloaded(old(Value()), m)
    {
      states := states[m := ModelState(false, 0)];
    }

    /** The worker died: every GPU model is gone, CPU models are unaffected. */
    method ResetWorkerGpuModels()
      requires Registered(decl, Value()) && decl.Keys <= states.Keys
      modifies this
      ensures Value() == ResetAll(decl, old(Value()))
    {
      var remaining := set m | m in decl && decl[m].usesGpu;
      while remaining != {}
        invariant states.Keys == old(states).Keys && remaining <= decl.Keys
        invariant forall m :: m in remaining ==> decl[m].usesGpu
        invariant forall m :: m in states ==>
          states[m] == if m in decl && decl[m].usesGpu && m !in remaining then ModelState(false, 0) else old(states)[m]
        decreases remaining
      {
        var m := Least(remaining);
        MarkModelUnloaded(m);
        remaining := remaining - {m};
      }
      assert states == ResetAll(decl, old(Value())).states;
    }
  }
}
