/** The timestamp index of the phrase cache and the recency list it implements
    (crates/audio/src/cache.rs, `PhraseIndex` and `evict_to_capacity`). */
module PhraseIndexes {
  import opened Collections

  const U64_MAX: nat := 0xFFFF_FFFF_FFFF_FFFF

  // A digest is 64 hexadecimal digits; only equality and the total order matter here.
  type Digest = nat

  datatype Record = Record(bytes: nat, usedAt: nat)

  datatype Index = Index(entries: map<Digest, Record>, nextUse: nat)

  function SaturatingAdd(a: nat, b: nat): nat { Min(a + b, U64_MAX) }

  function BytesOf(entries: map<Digest, Record>): nat -> nat {
    d => if d in entries then entries[d].bytes else 0
  }

  function SumBytes(entries: map<Digest, Record>): nat { SumOver(entries.Keys, BytesOf(entries)) }

  /** `total_bytes`: a saturating sum. */
  function TotalBytes(entries: map<Digest, Record>): nat { Min(SumBytes(entries), U64_MAX) }

  /** Older use first, smaller digest first among equals. */
  predicate OlderThan(entries: map<Digest, Record>, a: Digest, b: Digest) {
    && a in entries && b in entries
    && (entries[a].usedAt < entries[b].usedAt || (entries[a].usedAt == entries[b].usedAt && a < b))
  }

  predicate IsLru(entries: map<Digest, Record>, d: Digest) {
    d in entries && forall x :: x in entries && x != d ==> OlderThan(entries, d, x)
  }

  lemma {:induction false} LruExists(entries: map<Digest, Record>)
    requires entries != map[]
    ensures exists d :: IsLru(entries, d)
    decreases |entries|
  {
    var y :| y in entries;
    var rest := entries - {y};
    if rest == map[] {
      assert forall x :: x in entries ==> x == y || x in rest;
      assert IsLru(entries, y);
    } else {
      assert rest.Keys == entries.Keys - {y};
      LruExists(rest);
      var m :| IsLru(rest, m);
      assert forall x :: x in entries ==> x == y || x in rest;
      assert IsLru(entries, if OlderThan(entries, y, m) then y else m);
    }
  }

  function LeastRecentlyUsed(entries: map<Digest, Record>): (d: Digest)
    requires entries != map[]
    ensures IsLru(entries, d)
  {
    LruExists(entries);
    var d :| IsLru(entries, d);
    d
  }

  /** What `evict_to_capacity` leaves. */
  function Evict(entries: map<Digest, Record>, capacity: nat): map<Digest, Record>
    decreases |entries|
  {
    if TotalBytes(entries) <= capacity || entries == map[] then entries
    else
      var rest := entries - {LeastRecentlyUsed(entries)};
      assert rest.Keys == entries.Keys - {LeastRecentlyUsed(entries)};
      Evict(rest, capacity)
  }

  /** What is evicted was used before what stays, or as long ago and has the smaller digest. */
  lemma {:induction false} EvictsOldestFirst(entries: map<Digest, Record>, capacity: nat, gone: Digest, kept: Digest)
    requires gone in entries && gone !in Evict(entries, capacity) && kept in Evict(entries, capacity)
    ensures kept in entries
    ensures entries[gone].usedAt < entries[kept].usedAt || (entries[gone].usedAt == entries[kept].usedAt && gone < kept)
    decreases |entries|
  {
    var lru := LeastRecentlyUsed(entries);
    var rest := entries - {lru};
    assert rest.Keys == entries.Keys - {lru};
    EvictKeepsClock(rest, capacity);
    if gone != lru {
      EvictsOldestFirst(rest, capacity, gone, kept);
    }
  }

  function Touch(index: Index, d: Digest): Index {
    var now := SaturatingAdd(index.nextUse, 1);
    Index(if d in index.entries then index.entries[d := index.entries[d].(usedAt := now)] else index.entries, now)
  }

  function Put(index: Index, d: Digest, bytes: nat, capacity: nat): Index {
    var now := SaturatingAdd(index.nextUse, 1);
    Index(Evict(index.entries[d := Record(bytes, now)], capacity), now)
  }

  function Forget(index: Index, d: Digest): Index { index.(entries := index.entries - {d}) }

  // ---------------------------------------------------------------------
  // The reference: a list of phrases, most recently used first

  datatype Item = Item(digest: Digest, bytes: nat)

  function SumItems(list: seq<Item>): nat { if list == [] then 0 else list[0].bytes + SumItems(list[1..]) }

  function Drop(list: seq<Item>, d: Digest): seq<Item> {
    if list == [] then [] else if list[0].digest == d then Drop(list[1..], d) else [list[0]] + Drop(list[1..], d)
  }

  function Find(list: seq<Item>, d: Digest): Option<Item> {
    if list == [] then None else if list[0].digest == d then Some(list[0]) else Find(list[1..], d)
  }

  /** Shorten from the tail, only while over budget. */
  function Trim(list: seq<Item>, capacity: nat): seq<Item>
    decreases |list|
  {
    if Min(SumItems(list), U64_MAX) <= capacity || list == [] then list else Trim(list[..|list| - 1], capacity)
  }

  function ListPut(list: seq<Item>, d: Digest, bytes: nat, capacity: nat): seq<Item> {
    Trim([Item(d, bytes)] + Drop(list, d), capacity)
  }

  /** Most recently used first. */
  ghost predicate InOrder(entries: map<Digest, Record>, list: seq<Item>) {
    forall i, j :: 0 <= i < j < |list| ==> OlderThan(entries, list[j].digest, list[i].digest)
  }

  /** `list` names exactly the indexed phrases, with their sizes, in order of last use. */
  ghost predicate Refines(entries: map<Digest, Record>, list: seq<Item>) {
    && (forall x :: x in list ==> x.digest in entries && entries[x.digest].bytes == x.bytes)
    && (forall d :: d in entries ==> Item(d, entries[d].bytes) in list)
    && InOrder(entries, list)
  }

  /** No recorded use lies in the future. */
  ghost predicate ClockAhead(index: Index) {
    forall d :: d in index.entries ==> index.entries[d].usedAt <= index.nextUse
  }

  lemma {:induction false} DropIsExact(list: seq<Item>, d: Digest)
    ensures forall x :: x in Drop(list, d) <==> x in list && x.digest != d
    ensures (forall x :: x in list ==> x.digest != d) ==> Drop(list, d) == list
  {
    if list != [] {
      DropIsExact(list[1..], d);
      assert list == [list[0]] + list[1..];
    }
  }

  lemma {:induction false} DropKeepsOrder(entries: map<Digest, Record>, list: seq<Item>, d: Digest)
    requires InOrder(entries, list)
    ensures InOrder(entries, Drop(list, d))
  {
    if list != [] {
      DropKeepsOrder(entries, list[1..], d);
      DropIsExact(list[1..], d);
      var rest := Drop(list[1..], d);
      forall i | 0 <= i < |rest| ensures OlderThan(entries, rest[i].digest, list[0].digest) {
        assert rest[i] in rest;
        assert rest[i] in list[1..];
      }
    }
  }

  /** The sizes along the list are the sizes in the index. */
  lemma {:induction false} RefinesSum(entries: map<Digest, Record>, list: seq<Item>)
    requires Refines(entries, list)
    ensures SumItems(list) == SumBytes(entries)
    decreases |list|
  {
    if list == [] {
      assert entries.Keys == {};
    } else {
      var item, tail := list[0], list[1..];
      var rest := entries - {item.digest};
      assert Refines(rest, tail) by { RefinesTail(entries, list); }
      RefinesSum(rest, tail);
      assert rest.Keys == entries.Keys - {item.digest};
      SumOverRemove(entries.Keys, item.digest, BytesOf(entries));
      SumOverCongruence(rest.Keys, BytesOf(entries), BytesOf(rest));
    }
  }

  lemma RefinesTail(entries: map<Digest, Record>, list: seq<Item>)
    requires Refines(entries, list) && list != []
    ensures list[0].digest in entries && Refines(entries - {list[0].digest}, list[1..])
  {
    var first, tail := list[0], list[1..];
    forall x | x in tail ensures x.digest in entries - {first.digest} {
      var i :| 0 <= i < |tail| && tail[i] == x;
      assert OlderThan(entries, list[i + 1].digest, list[0].digest);
    }
  }

  /** The least recently used phrase is the last of the list, and evicting it shortens the list by one. */
  lemma LruIsLast(entries: map<Digest, Record>, list: seq<Item>)
    requires Refines(entries, list) && entries != map[]
    ensures list != [] && LeastRecentlyUsed(entries) == list[|list| - 1].digest
    ensures Refines(entries - {LeastRecentlyUsed(entries)}, list[..|list| - 1])
  {
    var d := LeastRecentlyUsed(entries);
    assert Item(d, entries[d].bytes) in list;
    var last := |list| - 1;
    assert list[last] in list;
    assert forall k :: 0 <= k < last ==> OlderThan(entries, list[last].digest, list[k].digest);
    WithoutLast(entries, list);
  }

  lemma WithoutLast(entries: map<Digest, Record>, list: seq<Item>)
    requires Refines(entries, list) && list != []
    ensures Refines(entries - {list[|list| - 1].digest}, list[..|list| - 1])
  {
    var last := |list| - 1;
    var d, front := list[last].digest, list[..last];
    forall x | x in front ensures x.digest in entries - {d} && x in list {
      var k :| 0 <= k < |front| && front[k] == x;
      assert OlderThan(entries, list[last].digest, list[k].digest);
    }
  }

  lemma {:induction false} EvictRefines(entries: map<Digest, Record>, list: seq<Item>, capacity: nat)
    requires Refines(entries, list)
    ensures Refines(Evict(entries, capacity), Trim(list, capacity))
    decreases |list|
  {
    RefinesSum(entries, list);
    if Min(SumItems(list), U64_MAX) > capacity && entries != map[] {
      LruIsLast(entries, list);
      EvictRefines(entries - {LeastRecentlyUsed(entries)}, list[..|list| - 1], capacity);
    }
  }

  /** Writing a phrase with the newest timestamp puts it at the front. */
  lemma FrontRefines(entries: map<Digest, Record>, list: seq<Item>, d: Digest, record: Record)
    requires Refines(entries, list)
    requires forall x :: x in entries ==> entries[x].usedAt < record.usedAt
    ensures Refines(entries[d := record], [Item(d, record.bytes)] + Drop(list, d))
  {
    var rest := Drop(list, d);
    DropIsExact(list, d);
    DropKeepsOrder(entries, list, d);
    FrontHolds(entries, list, d, record, rest);
    FrontKeepsOrder(entries, rest, d, record, entries[d := record], [Item(d, record.bytes)] + rest);
  }

  lemma FrontHolds(entries: map<Digest, Record>, list: seq<Item>, d: Digest, record: Record, rest: seq<Item>)
    requires Refines(entries, list) && forall x :: x in rest <==> x in list && x.digest != d
    ensures
      var next, all := entries[d := record], [Item(d, record.bytes)] + rest;
      && (forall x :: x in all ==> x.digest in next && next[x.digest].bytes == x.bytes)
      && (forall x :: x in next ==> Item(x, next[x].bytes) in all)
      && (forall x :: x in rest ==> x.digest in entries && x.digest != d)
  {
  }

  lemma FrontKeepsOrder(entries: map<Digest, Record>, rest: seq<Item>, d: Digest, record: Record,
                        next: map<Digest, Record>, all: seq<Item>)
    requires InOrder(entries, rest) && forall x :: x in rest ==> x.digest in entries && x.digest != d
    requires forall x :: x in entries ==> entries[x].usedAt < record.usedAt
    requires next == entries[d := record] && all == [Item(d, record.bytes)] + rest
    ensures InOrder(next, all)
  {
    forall i, j | 0 <= i < j < |all| ensures OlderThan(next, all[j].digest, all[i].digest) {
      assert all[j] == rest[j - 1] && rest[j - 1] in rest;
      if i > 0 {
        assert all[i] == rest[i - 1] && rest[i - 1] in rest;
        assert OlderThan(entries, rest[j - 1].digest, rest[i - 1].digest);
      }
    }
  }

  lemma ForgetRefines(entries: map<Digest, Record>, list: seq<Item>, d: Digest)
    requires Refines(entries, list)
    ensures Refines(entries - {d}, Drop(list, d))
  {
    DropIsExact(list, d);
    DropKeepsOrder(entries, list, d);
    OrderWithin(entries, entries - {d}, Drop(list, d));
  }

  /** A list of remaining phrases in order of last use stays in order when the others are gone. */
  lemma OrderWithin(entries: map<Digest, Record>, rest: map<Digest, Record>, list: seq<Item>)
    requires InOrder(entries, list) && forall x :: x in list ==> x.digest in rest
    requires forall d :: d in rest ==> d in entries && rest[d] == entries[d]
    ensures InOrder(rest, list)
  {
    forall i, j | 0 <= i < j < |list| ensures OlderThan(rest, list[j].digest, list[i].digest) {
      assert list[i] in list && list[j] in list;
      assert OlderThan(entries, list[j].digest, list[i].digest);
    }
  }

  /** The phrases of a list that are still there, in the same order. */
  function Keep(list: seq<Item>, kept: set<Digest>): seq<Item> {
    if list == [] then []
    else if list[0].digest in kept then [list[0]] + Keep(list[1..], kept) else Keep(list[1..], kept)
  }

  lemma {:induction false} KeepIsExact(entries: map<Digest, Record>, list: seq<Item>, kept: set<Digest>)
    ensures forall x :: x in Keep(list, kept) <==> x in list && x.digest in kept
    ensures InOrder(entries, list) ==> InOrder(entries, Keep(list, kept))
  {
    if list != [] {
      var rest := Keep(list[1..], kept);
      KeepIsExact(entries, list[1..], kept);
      assert list == [list[0]] + list[1..];
      if InOrder(entries, list) {
        forall i | 0 <= i < |rest| ensures OlderThan(entries, rest[i].digest, list[0].digest) {
          assert rest[i] in rest;
          var k :| 0 <= k < |list[1..]| && list[1..][k] == rest[i];
          assert list[k + 1] == rest[i];
        }
        HeadKeepsOrder(entries, list[0], rest);
      }
    }
  }

  lemma HeadKeepsOrder(entries: map<Digest, Record>, x: Item, rest: seq<Item>)
    requires InOrder(entries, rest) && forall i :: 0 <= i < |rest| ==> OlderThan(entries, rest[i].digest, x.digest)
    ensures InOrder(entries, [x] + rest)
  {
  }

  /** Losing phrases from the index is losing them from the recency list, the rest staying in order. */
  lemma KeepRefines(entries: map<Digest, Record>, list: seq<Item>, rest: map<Digest, Record>)
    requires Refines(entries, list) && forall d :: d in rest ==> d in entries && rest[d] == entries[d]
    ensures Refines(rest, Keep(list, rest.Keys))
  {
    KeepIsExact(entries, list, rest.Keys);
    OrderWithin(entries, rest, Keep(list, rest.Keys));
  }

  // ---------------------------------------------------------------------
  // Trimming

  /** `Trim` keeps the longest prefix that fits, so nothing is dropped without need. */
  lemma {:induction false} TrimIsLongestFit(list: seq<Item>, capacity: nat)
    ensures
      var kept := Trim(list, capacity);
      && kept <= list && Min(SumItems(kept), U64_MAX) <= capacity
      && forall k :: |kept| < k <= |list| ==> Min(SumItems(list[..k]), U64_MAX) > capacity
    decreases |list|
  {
    assert list[..|list|] == list;
    if Min(SumItems(list), U64_MAX) > capacity && list != [] {
      var front := list[..|list| - 1];
      TrimIsLongestFit(front, capacity);
      forall k | |Trim(front, capacity)| < k <= |list| ensures Min(SumItems(list[..k]), U64_MAX) > capacity {
        if k < |list| {
          assert front[..k] == list[..k];
        }
      }
    }
  }

  /** The phrase just stored is never the one evicted, if it fits the budget by itself. */
  lemma FrontSurvives(list: seq<Item>, capacity: nat)
    requires list != [] && list[0].bytes <= capacity
    ensures Trim(list, capacity) != [] && Trim(list, capacity)[0] == list[0]
  {
    TrimIsLongestFit(list, capacity);
    var kept := Trim(list, capacity);
    assert list[..1] == [list[0]];
    assert SumItems(list[..1]) == list[0].bytes + SumItems(list[..1][1..]);
  }

  // ---------------------------------------------------------------------
  // Whole runs

  datatype Access = Store(digest: Digest, bytes: nat) | Hit(digest: Digest) | Discard(digest: Digest)

  function Step(index: Index, a: Access, capacity: nat): Index {
    match a
    case Store(d, bytes) => if bytes > capacity then index else Put(index, d, bytes, capacity)
    case Hit(d) => if d in index.entries then Touch(index, d) else index
    case Discard(d) => Forget(index, d)
  }

  function ListStep(list: seq<Item>, a: Access, capacity: nat): seq<Item> {
    match a
    case Store(d, bytes) => if bytes > capacity then list else ListPut(list, d, bytes, capacity)
    case Hit(d) =>
      var found := Find(list, d);
      if found.Some? then [found.value] + Drop(list, d) else list
    case Discard(d) => Drop(list, d)
  }

  function Steps(index: Index, accesses: seq<Access>, capacity: nat): Index
    decreases |accesses|
  {
    if accesses == [] then index
    else Step(Steps(index, accesses[..|accesses| - 1], capacity), accesses[|accesses| - 1], capacity)
  }

  function ListSteps(list: seq<Item>, accesses: seq<Access>, capacity: nat): seq<Item>
    decreases |accesses|
  {
    if accesses == [] then list
    else ListStep(ListSteps(list, accesses[..|accesses| - 1], capacity), accesses[|accesses| - 1], capacity)
  }

  lemma {:induction false} FindIsExact(list: seq<Item>, d: Digest)
    ensures match Find(list, d)
            case Some(x) => x in list && x.digest == d
            case None => forall x :: x in list ==> x.digest != d
  {
    if list != [] {
      FindIsExact(list[1..], d);
      assert list == [list[0]] + list[1..];
    }
  }

  lemma EvictKeepsClock(entries: map<Digest, Record>, capacity: nat)
    ensures forall d :: d in Evict(entries, capacity) ==> d in entries && Evict(entries, capacity)[d] == entries[d]
    decreases |entries|
  {
    if TotalBytes(entries) > capacity && entries != map[] {
      var rest := entries - {LeastRecentlyUsed(entries)};
      assert rest.Keys == entries.Keys - {LeastRecentlyUsed(entries)};
      EvictKeepsClock(rest, capacity);
    }
  }

  lemma {:induction false} EvictFits(entries: map<Digest, Record>, capacity: nat)
    ensures TotalBytes(Evict(entries, capacity)) <= capacity
    decreases |entries|
  {
    if TotalBytes(entries) > capacity && entries != map[] {
      var rest := entries - {LeastRecentlyUsed(entries)};
      assert rest.Keys == entries.Keys - {LeastRecentlyUsed(entries)};
      EvictFits(rest, capacity);
    } else {
      assert entries == map[] ==> entries.Keys == {};
    }
  }

  lemma StoreRefines(index: Index, list: seq<Item>, d: Digest, bytes: nat, capacity: nat)
    requires Refines(index.entries, list) && ClockAhead(index) && index.nextUse < U64_MAX && bytes <= capacity
    ensures
      var n := Put(index, d, bytes, capacity);
      && Refines(n.entries, ListPut(list, d, bytes, capacity)) && ClockAhead(n)
      && d in n.entries && n.entries[d].bytes == bytes && TotalBytes(n.entries) <= capacity
  {
    var record := Record(bytes, index.nextUse + 1);
    var front := [Item(d, bytes)] + Drop(list, d);
    FrontRefines(index.entries, list, d, record);
    EvictRefines(index.entries[d := record], front, capacity);
    EvictKeepsClock(index.entries[d := record], capacity);
    FrontSurvives(front, capacity);
    var kept := Trim(front, capacity);
    assert kept[0] in kept;
    TrimIsLongestFit(front, capacity);
    RefinesSum(Put(index, d, bytes, capacity).entries, kept);
  }

  lemma HitRefines(index: Index, list: seq<Item>, d: Digest)
    requires Refines(index.entries, list) && ClockAhead(index) && index.nextUse < U64_MAX && d in index.entries
    ensures
      var n := Touch(index, d);
      && Refines(n.entries, [Item(d, index.entries[d].bytes)] + Drop(list, d)) && ClockAhead(n)
      && SumBytes(n.entries) == SumBytes(index.entries)
  {
    FrontRefines(index.entries, list, d, index.entries[d].(usedAt := index.nextUse + 1));
    var n := Touch(index, d);
    assert n.entries.Keys == index.entries.Keys;
    SumOverCongruence(n.entries.Keys, BytesOf(n.entries), BytesOf(index.entries));
  }

  /** One access on the index is one access on the recency list. */
  lemma StepRefines(index: Index, list: seq<Item>, a: Access, capacity: nat)
    requires Refines(index.entries, list) && ClockAhead(index) && index.nextUse < U64_MAX
    ensures Refines(Step(index, a, capacity).entries, ListStep(list, a, capacity))
    ensures ClockAhead(Step(index, a, capacity)) && Step(index, a, capacity).nextUse <= index.nextUse + 1
    ensures a.Store? && a.bytes <= capacity ==>
      && a.digest in Step(index, a, capacity).entries
      && Step(index, a, capacity).entries[a.digest].bytes == a.bytes
      && TotalBytes(Step(index, a, capacity).entries) <= capacity
  {
    match a
    case Store(d, bytes) =>
      if bytes <= capacity { StoreRefines(index, list, d, bytes, capacity); }
    case Hit(d) =>
      FindIsExact(list, d);
      if d in index.entries {
        assert Item(d, index.entries[d].bytes) in list;
        HitRefines(index, list, d);
      }
    case Discard(d) =>
      ForgetRefines(index.entries, list, d);
  }

  /** LRU refinement over every run: the timestamp index behaves as a list that moves used
      phrases to the front and drops from the tail only while over budget. */
  lemma {:induction false} RunRefinesRecencyList(index: Index, list: seq<Item>, accesses: seq<Access>, capacity: nat)
    requires Refines(index.entries, list) && ClockAhead(index) && index.nextUse + |accesses| <= U64_MAX
    ensures
      var n := Steps(index, accesses, capacity);
      && Refines(n.entries, ListSteps(list, accesses, capacity))
      && ClockAhead(n) && n.nextUse <= index.nextUse + |accesses|
    decreases |accesses|
  {
    if accesses != [] {
      var before := accesses[..|accesses| - 1];
      RunRefinesRecencyList(index, list, before, capacity);
      StepRefines(Steps(index, before, capacity), ListSteps(list, before, capacity), accesses[|accesses| - 1], capacity);
    }
  }

  /** The list an index stands for is unique, so the refinement determines every eviction. */
  lemma {:induction false} RecencyListIsUnique(entries: map<Digest, Record>, a: seq<Item>, b: seq<Item>)
    requires Refines(entries, a) && Refines(entries, b)
    ensures a == b
    decreases |a|
  {
    if entries == map[] {
      NothingRefines(entries, a);
      NothingRefines(entries, b);
    } else {
      LastItem(entries, a);
      LastItem(entries, b);
      RecencyListIsUnique(entries - {LeastRecentlyUsed(entries)}, a[..|a| - 1], b[..|b| - 1]);
      SnocEqual(a, b);
    }
  }

  lemma NothingRefines(entries: map<Digest, Record>, list: seq<Item>)
    requires Refines(entries, list) && entries == map[]
    ensures list == []
  {
    EmptyIffNoMember(list);
  }

  lemma SnocEqual(a: seq<Item>, b: seq<Item>)
    requires a != [] && b != [] && a[..|a| - 1] == b[..|b| - 1] && a[|a| - 1] == b[|b| - 1]
    ensures a == b
  {
    assert a == a[..|a| - 1] + [a[|a| - 1]] && b == b[..|b| - 1] + [b[|b| - 1]];
  }

  lemma LastItem(entries: map<Digest, Record>, list: seq<Item>)
    requires Refines(entries, list) && entries != map[]
    ensures
      var lru := LeastRecentlyUsed(entries);
      && list != [] && list[|list| - 1] == Item(lru, entries[lru].bytes)
      && Refines(entries - {lru}, list[..|list| - 1])
  {
    LruIsLast(entries, list);
    assert list[|list| - 1] in list;
  }
}
