/** Recovery after a crash agrees with live provider failure. */
module SupervisorRecovery {
  import opened Collections
  import opened TaskGraphs
  import opened Supervisors
  import opened SupervisorSafety

  /** Report provider failure for each task of a running order in turn. */
  function FailInOrder(s: Supervisor, order: seq<Id>): Supervisor
    decreases |order|
  {
    if order == [] then s else FailInOrder(Apply(s, ProviderFailed(order[0])).0, order[1..])
  }

  function FailedTasks(tasks: map<Id, Task>, order: seq<Id>): map<Id, Task> {
    map id | id in tasks :: if id in order then tasks[id].(status := AfterFailure(tasks[id])) else tasks[id]
  }

  lemma {:induction false} FailInOrderIsSimultaneous(s: Supervisor, order: seq<Id>)
    requires NoDuplicates(order)
    requires forall id :: id in order ==> id in s.Tasks() && s.Tasks()[id].status == Running
    ensures FailInOrder(s, order).Tasks() == FailedTasks(s.Tasks(), order)
    ensures forall id :: id in FailInOrder(s, order).Order() <==> id in s.Order() && id !in order
    ensures FailInOrder(s, order) == s.WithTasks(FailInOrder(s, order).Tasks(), FailInOrder(s, order).Order())
    decreases |order|
  {
    if order == [] {
      assert FailedTasks(s.Tasks(), order) == s.Tasks();
    } else {
      var n := Apply(s, ProviderFailed(order[0])).0;
      assert n == s.Leave(order[0], s.Tasks()[order[0]].(status := AfterFailure(s.Tasks()[order[0]])));
      assert order[0] !in order[1..];
      FailInOrderIsSimultaneous(n, order[1..]);
      assert FailedTasks(n.Tasks(), order[1..]) == FailedTasks(s.Tasks(), order);
    }
  }

  ghost predicate OrderMatchesStatus(s: Supervisor) {
    && NoDuplicates(s.Order())
    && forall id :: id in s.Order() <==> id in s.Tasks() && s.Tasks()[id].status == Running
  }

  /** Recovering a snapshot whose running order is consistent succeeds, empties the
      running lane, preserves attempts and receipts, and is idempotent. */
  lemma RecoveryIsCleanAndIdempotent(s: Supervisor, parallelism: nat, depth: nat)
    requires s.snapshot.schemaVersion == 1 && ValidBounds(parallelism, depth) && OrderMatchesStatus(s)
    ensures Recover(s.snapshot, parallelism, depth).Ok?
    ensures
      var r := Recover(s.snapshot, parallelism, depth).value;
      && r.Order() == [] && RunningTasks(r.Tasks()) == {} && r.Receipts() == s.Receipts()
      && r.Tasks() == RecoveredTasks(s.Tasks(), s.Receipts(), s.Order())
      && (forall id :: id in s.Tasks() ==> id in r.Tasks() && r.Tasks()[id].attempt == s.Tasks()[id].attempt)
      && Recover(r.snapshot, parallelism, depth) == Ok(r)
  {
    RecoverTasksIsSimultaneous(s.Tasks(), s.Receipts(), s.Order());
  }

  lemma FailInOrderEmptiesLane(s: Supervisor)
    requires OrderMatchesStatus(s)
    ensures FailInOrder(s, s.Order()) == s.WithTasks(FailedTasks(s.Tasks(), s.Order()), [])
  {
    FailInOrderIsSimultaneous(s, s.Order());
    var f := FailInOrder(s, s.Order());
    EmptyIffNoMember(f.Order());
  }

  /** Recovery agrees with reporting provider failure for every running task exactly
      when no running task's key leads to a verified receipt. */
  lemma RecoveryAgreesIffNoReceipt(s: Supervisor, parallelism: nat, depth: nat)
    requires s.snapshot.schemaVersion == 1 && ValidBounds(parallelism, depth) && OrderMatchesStatus(s)
    ensures Recover(s.snapshot, parallelism, depth).Ok?
    ensures Recover(s.snapshot, parallelism, depth).value.snapshot == FailInOrder(s, s.Order()).snapshot <==>
            forall id :: id in s.Order() ==> !HasVerifiedReceipt(s.Tasks()[id], s.Receipts())
  {
    RecoveryIsCleanAndIdempotent(s, parallelism, depth);
    FailInOrderEmptiesLane(s);
    RewritesAgreeIff(s.Tasks(), s.Receipts(), s.Order());
  }

  lemma RewritesAgreeIff(tasks: map<Id, Task>, receipts: map<string, EffectReceipt>, order: seq<Id>)
    requires forall id :: id in order ==> id in tasks
    ensures RecoveredTasks(tasks, receipts, order) == FailedTasks(tasks, order)
            <==> forall id :: id in order ==> !HasVerifiedReceipt(tasks[id], receipts)
  {
    var recovered, failed := RecoveredTasks(tasks, receipts, order), FailedTasks(tasks, order);
    if id :| id in order && HasVerifiedReceipt(tasks[id], receipts) {
      assert recovered[id].status != failed[id].status;
    } else {
      assert recovered == failed;
    }
  }

  /** On every reachable snapshot recovery is live failure of everything running. */
  lemma RecoveryRefinesFailure(s: Supervisor, ops: seq<Operation>, parallelism: nat, depth: nat)
    requires Safe(s) && ValidBounds(parallelism, depth)
    ensures
      var n := Run(s, ops);
      && Recover(n.snapshot, parallelism, depth).Ok?
      && Recover(n.snapshot, parallelism, depth).value.snapshot == FailInOrder(n, n.Order()).snapshot
  {
    RunIsSafe(s, ops);
    var n := Run(s, ops);
    forall id | id in n.Order() ensures !HasVerifiedReceipt(n.Tasks()[id], n.Receipts()) {
      RunningHasNoReceipt(n, id);
    }
    RecoveryAgreesIffNoReceipt(n, parallelism, depth);
  }

  // ---------------------------------------------------------------------
  // Why distinct keys are needed: recovery does not compare the receipt's task

  function Publishing(id: Id): Task {
    Task(id, 0, None, {}, "consequential", Isolated, 1, 0, Some("publish"), None, Queued, 0, None)
  }

  const SharedKeyGraph := TaskGraph(0, 1, map[1 := Publishing(1), 2 := Publishing(2)], [])

  const SharedKeyRun := [Start(1), Complete(1, "ok", true, Some("sha256"), 7), Start(2), CrashAndRecover(1, 1)]

  /** The crash point: task 1 completed and receipted, task 2 running under the same key. */
  ghost predicate SharedKeyCrash(s: Supervisor) {
    && s.snapshot.schemaVersion == 1 && s.Order() == [2]
    && 2 in s.Tasks() && s.Tasks()[2].status == Running && s.Tasks()[2].idempotencyKey == Some("publish")
    && s.Receipts() == map["publish" := EffectReceipt("publish", 1, "sha256", true, 7)]
  }

  lemma SharedKeyReachesCrash(s1: Supervisor, s2: Supervisor, s3: Supervisor)
    requires s1 == Apply(Fresh(SharedKeyGraph, 1, 1), SharedKeyRun[0]).0
    requires s2 == Apply(s1, SharedKeyRun[1]).0
    requires s3 == Apply(s2, SharedKeyRun[2]).0
    ensures SharedKeyCrash(s3)
  {
    assert s1 == Fresh(SharedKeyGraph, 1, 1).Enter(1, Publishing(1).(attempt := 1, status := Running));
    assert s1.Order() == [1];
    assert s2.Order() == [] && s2.Tasks()[2] == Publishing(2);
    assert s3 == s2.Enter(2, Publishing(2).(attempt := 1, status := Running));
  }

  lemma SharedKeyRecovers(s: Supervisor)
    requires SharedKeyCrash(s)
    ensures
      var n := Apply(s, CrashAndRecover(1, 1)).0;
      && 2 in n.Tasks() && n.Tasks()[2].status == Completed && !Receipted(2, n.Tasks()[2], n.Receipts())
  {
    RecoverTasksIsSimultaneous(s.Tasks(), s.Receipts(), s.Order());
  }

  /** Two consequential tasks share a key: the first completes, the second is running
      at the crash. Recovery then marks the second completed although the run accepted
      no completion of it and the only receipt names the first. */
  lemma SharedKeyCompletesUnperformedWork()
    ensures
      var n := Run(Fresh(SharedKeyGraph, 1, 1), SharedKeyRun);
      && 2 in n.Tasks() && n.Tasks()[2].status == Completed && !Receipted(2, n.Tasks()[2], n.Receipts())
    ensures forall i :: 0 <= i < |SharedKeyRun| && SharedKeyRun[i].Complete? ==> SharedKeyRun[i].id != 2
  {
    var s, ops := Fresh(SharedKeyGraph, 1, 1), SharedKeyRun;
    var s1, s2, s3 := RunFour(s, ops);
    SharedKeyReachesCrash(s1, s2, s3);
    SharedKeyRecovers(s3);
  }

  lemma RunFour(s: Supervisor, ops: seq<Operation>) returns (s1: Supervisor, s2: Supervisor, s3: Supervisor)
    requires |ops| == 4
    ensures s1 == Apply(s, ops[0]).0 && s2 == Apply(s1, ops[1]).0 && s3 == Apply(s2, ops[2]).0
    ensures Run(s, ops) == Apply(s3, ops[3]).0
  {
    assert ops[..0] == [] && ops[..4] == ops;
    RunSnoc(s, ops, 1);
    RunSnoc(s, ops, 2);
    RunSnoc(s, ops, 3);
    RunSnoc(s, ops, 4);
    s1, s2, s3 := Run(s, ops[..1]), Run(s, ops[..2]), Run(s, ops[..3]);
  }
}
