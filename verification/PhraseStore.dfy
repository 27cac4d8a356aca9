/** The phrase cache on disk: operations as sequences of file-system actions, any of
    which may be the last before a crash (crates/audio/src/cache.rs, `PhraseCache`). */
module PhraseStores {
  import opened Collections
  import opened PhraseCodec
  import opened PhraseIndexes

  // The files of the cache directory. Entry files are the ones named by a digest.
  datatype FileName = EntryFile(digest: Digest) | IndexFile | TempFile(serial: nat) | OtherFile(name: string)

  type Disk = map<FileName, Bytes>

  // The JSON form of the index is a parameter of the model; `Lawful` is its round trip.
  datatype Codec = Codec(sha: Sha256, renderIndex: Index -> Bytes, parseIndex: Bytes -> Option<Index>)

  ghost predicate Lawful(c: Codec) { forall i :: c.parseIndex(c.renderIndex(i)) == Some(i) }

  // ---------------------------------------------------------------------
  // File-system actions

  datatype FsAction = Create(name: FileName) | Write(name: FileName, bytes: Bytes)
                    | Rename(name: FileName, to: FileName) | Remove(name: FileName)

  function Perform(disk: Disk, a: FsAction): Disk {
    match a
    case Create(name) => disk[name := []]
    case Write(name, bytes) => disk[name := bytes]
    case Rename(name, to) => if name in disk then (disk - {name})[to := disk[name]] else disk
    case Remove(name) => disk - {name}
  }

  function Replay(disk: Disk, actions: seq<FsAction>): Disk
    decreases |actions|
  {
    if actions == [] then disk else Replay(Perform(disk, actions[0]), actions[1..])
  }

  lemma {:induction false} ReplayConcat(disk: Disk, a: seq<FsAction>, b: seq<FsAction>)
    ensures Replay(disk, a + b) == Replay(Replay(disk, a), b)
    decreases |a|
  {
    if a == [] {
      assert a + b == b;
    } else {
      assert (a + b)[1..] == a[1..] + b;
      ReplayConcat(Perform(disk, a[0]), a[1..], b);
    }
  }

  predicate Touches(a: FsAction, f: FileName) { a.name == f || (a.Rename? && a.to == f) }

  ghost predicate SameFile(disk: Disk, disk': Disk, f: FileName) {
    (f in disk <==> f in disk') && (f in disk ==> disk[f] == disk'[f])
  }

  lemma {:induction false} ReplayFrame(disk: Disk, actions: seq<FsAction>, f: FileName)
    requires forall a :: a in actions ==> !Touches(a, f)
    ensures SameFile(disk, Replay(disk, actions), f)
    decreases |actions|
  {
    if actions != [] {
      var next := Perform(disk, actions[0]);
      assert !Touches(actions[0], f);
      assert SameFile(disk, next, f);
      ReplayFrame(next, actions[1..], f);
    }
  }

  /** `write_private_atomic`: fill a temporary file, then rename it over the target. */
  function WriteAtomic(temp: nat, target: FileName, bytes: Bytes): seq<FsAction> {
    [Create(TempFile(temp)), Write(TempFile(temp), bytes), Rename(TempFile(temp), target)]
  }

  lemma WriteAtomicReplaces(disk: Disk, temp: nat, target: FileName, bytes: Bytes)
    requires target != TempFile(temp)
    ensures
      var n := Replay(disk, WriteAtomic(temp, target, bytes));
      target in n && n[target] == bytes && forall f :: f != target && f != TempFile(temp) ==> SameFile(disk, n, f)
  {
    var a := WriteAtomic(temp, target, bytes);
    var d1 := Perform(disk, a[0]);
    var d2 := Perform(d1, a[1]);
    assert Replay(disk, a) == Replay(d1, a[1..]) && Replay(d1, a[1..]) == Replay(d2, a[1..][1..]);
    assert Replay(d2, a[1..][1..]) == Perform(d2, a[2]);
  }

  /** The entry files of two directories agree. */
  ghost predicate SameEntries(disk: Disk, disk': Disk) {
    && (forall d :: EntryFile(d) in disk <==> EntryFile(d) in disk')
    && (forall d :: EntryFile(d) in disk ==> disk[EntryFile(d)] == disk'[EntryFile(d)])
  }

  lemma EntryWritten(disk: Disk, temp: nat, d: Digest, bytes: Bytes)
    ensures SameEntries(disk[EntryFile(d) := bytes], Replay(disk, WriteAtomic(temp, EntryFile(d), bytes)))
  {
    WriteAtomicReplaces(disk, temp, EntryFile(d), bytes);
    var n := Replay(disk, WriteAtomic(temp, EntryFile(d), bytes));
    assert forall x :: x != d ==> SameFile(disk, n, EntryFile(x));
  }

  lemma IndexWritten(disk: Disk, temp: nat, bytes: Bytes)
    ensures SameEntries(disk, Replay(disk, WriteAtomic(temp, IndexFile, bytes)))
  {
    WriteAtomicReplaces(disk, temp, IndexFile, bytes);
    var n := Replay(disk, WriteAtomic(temp, IndexFile, bytes));
    assert forall x :: SameFile(disk, n, EntryFile(x));
  }

  // ---------------------------------------------------------------------
  // Index and files

  /** The index names exactly the entry files on disk, with their sizes. */
  ghost predicate Consistent(entries: map<Digest, Record>, disk: Disk) {
    && (forall d :: d in entries <==> EntryFile(d) in disk)
    && forall d :: d in entries ==> entries[d].bytes == |disk[EntryFile(d)]|
  }

  lemma ConsistentForSame(entries: map<Digest, Record>, disk: Disk, disk': Disk)
    requires Consistent(entries, disk) && SameEntries(disk, disk')
    ensures Consistent(entries, disk')
  {
  }

  function EvictActions(entries: map<Digest, Record>, capacity: nat): seq<FsAction>
    decreases |entries|
  {
    if TotalBytes(entries) <= capacity || entries == map[] then []
    else
      var lru := LeastRecentlyUsed(entries);
      assert (entries - {lru}).Keys == entries.Keys - {lru};
      [Remove(EntryFile(lru))] + EvictActions(entries - {lru}, capacity)
  }

  /** Eviction removes the files of the phrases it forgets, and touches nothing else. */
  lemma {:induction false} EvictionIsConsistent(entries: map<Digest, Record>, disk: Disk, capacity: nat)
    requires Consistent(entries, disk)
    ensures Consistent(Evict(entries, capacity), Replay(disk, EvictActions(entries, capacity)))
    decreases |entries|
  {
    if TotalBytes(entries) > capacity && entries != map[] {
      var lru := LeastRecentlyUsed(entries);
      ConsistentWithout(entries, disk, lru);
      EvictTurn(entries, capacity, disk, lru, entries - {lru});
      EvictionIsConsistent(entries - {lru}, disk - {EntryFile(lru)}, capacity);
    }
  }

  lemma ReplayFirst(disk: Disk, a: FsAction, rest: seq<FsAction>)
    ensures Replay(disk, [a] + rest) == Replay(Perform(disk, a), rest)
  {
    assert ([a] + rest)[1..] == rest;
  }

  /** One turn of eviction: the oldest phrase and its file go first. */
  lemma EvictTurn(entries: map<Digest, Record>, capacity: nat, disk: Disk, d: Digest, rest: map<Digest, Record>)
    requires entries != map[] && TotalBytes(entries) > capacity
    requires d == LeastRecentlyUsed(entries) && rest == entries - {d}
    ensures |rest| < |entries| && Evict(entries, capacity) == Evict(rest, capacity)
    ensures Replay(disk, EvictActions(entries, capacity)) == Replay(disk - {EntryFile(d)}, EvictActions(rest, capacity))
  {
    EvictUnfolds(entries, capacity);
    EvictActionsUnfold(entries, capacity);
    ReplayFirst(disk, Remove(EntryFile(d)), EvictActions(rest, capacity));
  }

  lemma EvictUnfolds(entries: map<Digest, Record>, capacity: nat)
    requires entries != map[] && TotalBytes(entries) > capacity
    ensures |entries - {LeastRecentlyUsed(entries)}| < |entries|
    ensures Evict(entries, capacity) == Evict(entries - {LeastRecentlyUsed(entries)}, capacity)
  {
    var rest := entries - {LeastRecentlyUsed(entries)};
    assert rest.Keys == entries.Keys - {LeastRecentlyUsed(entries)};
  }

  lemma EvictActionsUnfold(entries: map<Digest, Record>, capacity: nat)
    requires entries != map[] && TotalBytes(entries) > capacity
    ensures
      var d := LeastRecentlyUsed(entries);
      EvictActions(entries, capacity) == [Remove(EntryFile(d))] + EvictActions(entries - {d}, capacity)
  {
  }

  lemma ConsistentWithout(entries: map<Digest, Record>, disk: Disk, d: Digest)
    requires Consistent(entries, disk)
    ensures Consistent(entries - {d}, disk - {EntryFile(d)})
  {
  }

  /** Every eviction action removes the entry file of a phrase that does not survive. */
  lemma {:induction false} EvictionTouches(entries: map<Digest, Record>, capacity: nat, a: FsAction)
    requires a in EvictActions(entries, capacity)
    ensures a.Remove? && a.name.EntryFile? && a.name.digest in entries && a.name.digest !in Evict(entries, capacity)
    decreases |entries|
  {
    var lru := LeastRecentlyUsed(entries);
    var rest := entries - {lru};
    assert rest.Keys == entries.Keys - {lru};
    EvictKeepsClock(rest, capacity);
    if a != Remove(EntryFile(lru)) {
      assert a in EvictActions(rest, capacity);
      EvictionTouches(rest, capacity, a);
    }
  }

  // ---------------------------------------------------------------------
  // Opening a directory

  function EntryDigests(disk: Disk): set<Digest> { set f | f in disk && f.EntryFile? :: f.digest }

  /** `retain_present`: forget phrases whose file is missing or has another size. */
  function RetainPresent(disk: Disk, index: Index): Index {
    index.(entries := map d | d in index.entries && EntryFile(d) in disk
                              && |disk[EntryFile(d)]| == index.entries[d].bytes :: index.entries[d])
  }

  /** `remove_unaccounted_entries`. */
  function Removals(ds: seq<Digest>): seq<FsAction> { seq(|ds|, i requires 0 <= i < |ds| => Remove(EntryFile(ds[i]))) }

  function Sweep(disk: Disk, index: Index): seq<FsAction> {
    Removals(Ascending(EntryDigests(disk) - index.entries.Keys))
  }

  /** `rebuild_index`, in the order the directory lists its files. */
  function Rebuild(disk: Disk, listing: seq<Digest>): Index {
    if listing == [] then Index(map[], 0)
    else
      var before := Rebuild(disk, listing[..|listing| - 1]);
      var d := listing[|listing| - 1];
      if EntryFile(d) !in disk then before
      else
        var now := SaturatingAdd(before.nextUse, 1);
        Index(before.entries[d := Record(|disk[EntryFile(d)]|, now)], now)
  }

  datatype Opened = Opened(index: Index, actions: seq<FsAction>)

  /** `load_index`: read the index file, or rebuild the index if it is missing or unreadable. */
  function Load(c: Codec, disk: Disk, listing: seq<Digest>): Opened {
    var parsed := if IndexFile in disk then c.parseIndex(disk[IndexFile]) else None;
    if parsed.Some? then
      var kept := RetainPresent(disk, parsed.value);
      Opened(kept, Sweep(disk, kept))
    else Opened(Rebuild(disk, listing), [])
  }

  function Open(c: Codec, disk: Disk, listing: seq<Digest>, capacity: nat, temp: nat): Opened {
    var loaded := Load(c, disk, listing);
    var index := loaded.index.(entries := Evict(loaded.index.entries, capacity));
    Opened(index,
           loaded.actions + EvictActions(loaded.index.entries, capacity)
           + WriteAtomic(temp, IndexFile, c.renderIndex(index)))
  }

  /** The directory after opening it. */
  function Reopened(c: Codec, disk: Disk, listing: seq<Digest>, capacity: nat, temp: nat): Disk {
    Replay(disk, Open(c, disk, listing, capacity, temp).actions)
  }

  // An opening that the process does not survive: it dies after `after` of its actions.
  datatype Opening = Opening(after: nat, listing: seq<Digest>, temp: nat)

  function CutOpening(c: Codec, disk: Disk, o: Opening, capacity: nat): Disk {
    var actions := Open(c, disk, o.listing, capacity, o.temp).actions;
    Replay(disk, actions[..Min(o.after, |actions|)])
  }

  /** The directory after openings that were all cut short. */
  function Interrupted(c: Codec, disk: Disk, cuts: seq<Opening>, capacity: nat): Disk {
    if cuts == [] then disk
    else CutOpening(c, Interrupted(c, disk, cuts[..|cuts| - 1], capacity), cuts[|cuts| - 1], capacity)
  }

  lemma {:induction false} RemovalsRemove(disk: Disk, ds: seq<Digest>)
    ensures
      var n := Replay(disk, Removals(ds));
      && (forall f :: f in n <==> f in disk && !(f.EntryFile? && f.digest in ds))
      && (forall f :: f in n ==> n[f] == disk[f])
    decreases |ds|
  {
    if ds != [] {
      RemovalsRemove(disk - {EntryFile(ds[0])}, ds[1..]);
      assert Removals(ds)[1..] == Removals(ds[1..]);
      assert ds == [ds[0]] + ds[1..];
    }
  }

  lemma {:induction false} RebuildIsExact(disk: Disk, listing: seq<Digest>)
    ensures
      var r := Rebuild(disk, listing);
      && (forall d :: d in r.entries <==> d in listing && EntryFile(d) in disk)
      && (forall d :: d in r.entries ==> r.entries[d].bytes == |disk[EntryFile(d)]|)
    decreases |listing|
  {
    if listing != [] {
      RebuildIsExact(disk, listing[..|listing| - 1]);
      assert listing == listing[..|listing| - 1] + [listing[|listing| - 1]];
    }
  }

  /** The recency list of a rebuilt index: what the directory lists later counts as used later. */
  function Listed(disk: Disk, listing: seq<Digest>): seq<Item> {
    if listing == [] then []
    else
      var before, d := Listed(disk, listing[..|listing| - 1]), listing[|listing| - 1];
      if EntryFile(d) in disk then [Item(d, |disk[EntryFile(d)]|)] + before else before
  }

  lemma {:induction false} ListedAreListed(disk: Disk, listing: seq<Digest>, x: Item)
    requires x in Listed(disk, listing)
    ensures x.digest in listing
    decreases |listing|
  {
    if x in Listed(disk, listing[..|listing| - 1]) {
      ListedAreListed(disk, listing[..|listing| - 1], x);
    }
  }

  /** Rebuilding gives every file of a listing its own time of use, in the order listed. */
  lemma {:induction false} RebuildRefines(disk: Disk, listing: seq<Digest>)
    requires NoDuplicates(listing) && |listing| <= U64_MAX
    ensures
      var r := Rebuild(disk, listing);
      Refines(r.entries, Listed(disk, listing)) && ClockAhead(r) && r.nextUse <= |listing|
    decreases |listing|
  {
    if listing != [] {
      var front, d := listing[..|listing| - 1], listing[|listing| - 1];
      RebuildRefines(disk, front);
      var before, list := Rebuild(disk, front), Listed(disk, front);
      LastListed(disk, listing, front, d, before, list);
      if EntryFile(d) in disk {
        LastIsNew(listing);
        NotListed(disk, front, d);
        LaterRefines(before, list, d, |disk[EntryFile(d)]|);
      }
    }
  }

  lemma LastListed(
      disk: Disk, listing: seq<Digest>, front: seq<Digest>, d: Digest, before: Index, list: seq<Item>)
    requires listing != [] && front == listing[..|listing| - 1] && d == listing[|listing| - 1]
    requires before == Rebuild(disk, front) && list == Listed(disk, front) && before.nextUse < U64_MAX
    ensures EntryFile(d) !in disk ==> Rebuild(disk, listing) == before && Listed(disk, listing) == list
    ensures EntryFile(d) in disk ==>
      var bytes := |disk[EntryFile(d)]|;
      && Rebuild(disk, listing) == Index(before.entries[d := Record(bytes, before.nextUse + 1)], before.nextUse + 1)
      && Listed(disk, listing) == [Item(d, bytes)] + list
  {
  }

  lemma LastIsNew(listing: seq<Digest>)
    requires NoDuplicates(listing) && listing != []
    ensures NoDuplicates(listing[..|listing| - 1]) && listing[|listing| - 1] !in listing[..|listing| - 1]
  {
  }

  lemma NotListed(disk: Disk, listing: seq<Digest>, d: Digest)
    requires d !in listing
    ensures forall x :: x in Listed(disk, listing) ==> x.digest != d
  {
    forall x | x in Listed(disk, listing) ensures x.digest != d {
      ListedAreListed(disk, listing, x);
    }
  }

  lemma LaterRefines(before: Index, list: seq<Item>, d: Digest, bytes: nat)
    requires Refines(before.entries, list) && ClockAhead(before) && forall x :: x in list ==> x.digest != d
    ensures
      var next := Index(before.entries[d := Record(bytes, before.nextUse + 1)], before.nextUse + 1);
      Refines(next.entries, [Item(d, bytes)] + list) && ClockAhead(next)
  {
    DropIsExact(list, d);
    FrontRefines(before.entries, list, d, Record(bytes, before.nextUse + 1));
  }

  ghost predicate Lists(listing: seq<Digest>, disk: Disk) {
    forall d :: d in listing <==> EntryFile(d) in disk
  }

  /** The directory listing matters only where the index file cannot be read. */
  ghost predicate Readable(c: Codec, disk: Disk) { IndexFile in disk && c.parseIndex(disk[IndexFile]).Some? }

  lemma LoadIsConsistent(c: Codec, disk: Disk, listing: seq<Digest>)
    requires Lists(listing, disk) || Readable(c, disk)
    ensures
      var l := Load(c, disk, listing);
      && Consistent(l.index.entries, Replay(disk, l.actions))
      && forall f :: f in Replay(disk, l.actions) ==> f in disk && Replay(disk, l.actions)[f] == disk[f]
  {
    var parsed := if IndexFile in disk then c.parseIndex(disk[IndexFile]) else None;
    if parsed.Some? {
      var kept := RetainPresent(disk, parsed.value);
      RemovalsRemove(disk, Ascending(EntryDigests(disk) - kept.entries.Keys));
      var n := Replay(disk, Sweep(disk, kept));
      forall d ensures d in kept.entries <==> EntryFile(d) in n {
        assert EntryFile(d) in disk ==> d in EntryDigests(disk);
      }
    } else {
      RebuildIsExact(disk, listing);
    }
  }

  /** Crash consistency: whatever state the directory was left in, opening it yields an index
      whose phrases are exactly the entry files then on disk, with matching sizes and within
      the budget, and leaves that index persisted. No file content is altered on the way. */
  lemma ReopenIsConsistent(c: Codec, disk: Disk, listing: seq<Digest>, capacity: nat, temp: nat)
    requires Lawful(c) && (Lists(listing, disk) || Readable(c, disk))
    ensures
      var index, n := Open(c, disk, listing, capacity, temp).index, Reopened(c, disk, listing, capacity, temp);
      && Consistent(index.entries, n) && TotalBytes(index.entries) <= capacity
      && IndexFile in n && c.parseIndex(n[IndexFile]) == Some(index)
      && (forall d :: EntryFile(d) in n ==> EntryFile(d) in disk && n[EntryFile(d)] == disk[EntryFile(d)])
  {
    LoadIsConsistent(c, disk, listing);
    var l := Load(c, disk, listing);
    var d1 := Replay(disk, l.actions);
    var evict := EvictActions(l.index.entries, capacity);
    EvictionIsConsistent(l.index.entries, d1, capacity);
    EvictFits(l.index.entries, capacity);
    var d2 := Replay(d1, evict);
    var index := l.index.(entries := Evict(l.index.entries, capacity));
    var persist := WriteAtomic(temp, IndexFile, c.renderIndex(index));
    ReplayConcat(disk, l.actions, evict);
    ReplayConcat(disk, l.actions + evict, persist);
    WriteAtomicReplaces(d2, temp, IndexFile, c.renderIndex(index));
    var n := Replay(d2, persist);
    forall d ensures SameFile(d2, n, EntryFile(d)) {
    }
    forall d | EntryFile(d) in d2 ensures SameFile(d1, d2, EntryFile(d)) {
      EvictionKeepsSurvivor(l.index.entries, d1, capacity, d);
    }
  }

  lemma EvictionKeepsSurvivor(entries: map<Digest, Record>, disk: Disk, capacity: nat, d: Digest)
    requires Consistent(entries, disk) && EntryFile(d) in Replay(disk, EvictActions(entries, capacity))
    ensures SameFile(disk, Replay(disk, EvictActions(entries, capacity)), EntryFile(d))
  {
    EvictionIsConsistent(entries, disk, capacity);
    forall a | a in EvictActions(entries, capacity) ensures !Touches(a, EntryFile(d)) {
      EvictionTouches(entries, capacity, a);
    }
    ReplayFrame(disk, EvictActions(entries, capacity), EntryFile(d));
  }
}
