/** Storing and reading phrases, with a crash possible after every file-system action
    (crates/audio/src/cache.rs, `PhraseCache::{with_capacity_bytes,get,put}`). */
module PhraseCaches {
  import opened Collections
  import opened PhraseCodec
  import opened PhraseIndexes
  import opened PhraseStores

  // ---------------------------------------------------------------------
  // Operations as action sequences

  /** A phrase `put` accepts: valid PCM whose entry fits the whole budget. */
  predicate Storable(c: Codec, p: CachedPhrase, capacity: nat) {
    EncodeEntry(c.sha, p).Some? && |EncodeEntry(c.sha, p).value| <= capacity
  }

  function Entry(c: Codec, p: CachedPhrase): Slice
    requires EncodeEntry(c.sha, p).Some?
  {
    EncodeEntry(c.sha, p).value
  }

  /** The index while the entry is accounted for but nothing is evicted yet. */
  function Accounted(index: Index, d: Digest, bytes: nat): map<Digest, Record> {
    index.entries[d := Record(bytes, SaturatingAdd(index.nextUse, 1))]
  }

  function PutActions(c: Codec, index: Index, d: Digest, p: CachedPhrase, capacity: nat, temp: nat, temp': nat)
    : seq<FsAction>
    requires Storable(c, p, capacity)
  {
    var entry := Entry(c, p);
    WriteAtomic(temp, EntryFile(d), entry)
    + (EvictActions(Accounted(index, d, |entry|), capacity)
       + WriteAtomic(temp', IndexFile, c.renderIndex(Put(index, d, |entry|, capacity))))
  }

  /** A phrase can be stored exactly if it is valid and its header and samples fit the budget. */
  lemma StorableIff(c: Codec, p: CachedPhrase, capacity: nat)
    ensures Storable(c, p, capacity) <==> ValidPhrase(p) && 56 + 2 * |p.samples| <= capacity
  {
    if ValidPhrase(p) {
      var payload := Payload(p.samples);
      HeaderFields(p.sampleRateHz, p.channels, [0, 0], |p.samples|, c.sha(payload), payload);
    }
  }

  /** Reading a file that does not fit into memory fails. */
  function DecodeFile(c: Codec, file: Bytes): Option<CachedPhrase> {
    if |file| <= SLICE_MAX then DecodeEntry(c.sha, file) else None
  }

  /** What `get` finds in the entry file of an indexed phrase. */
  function ReadEntry(c: Codec, index: Index, disk: Disk, d: Digest): Option<CachedPhrase> {
    if d in index.entries && EntryFile(d) in disk then DecodeFile(c, disk[EntryFile(d)]) else None
  }

  function GetIndex(c: Codec, index: Index, disk: Disk, d: Digest): Index {
    if ReadEntry(c, index, disk, d).Some? then Touch(index, d) else Forget(index, d)
  }

  function GetActions(c: Codec, index: Index, disk: Disk, d: Digest, temp: nat): seq<FsAction> {
    if d !in index.entries then []
    else (if ReadEntry(c, index, disk, d).Some? then [] else [Remove(EntryFile(d))])
         + WriteAtomic(temp, IndexFile, c.renderIndex(GetIndex(c, index, disk, d)))
  }

  // ---------------------------------------------------------------------
  // Runs

  // The process dies after `after` actions, then during each of `cuts`, and then the
  // directory is opened again.
  datatype Crash = Crash(after: nat, cuts: seq<Opening>, listing: seq<Digest>, temp: nat)

  datatype Event =
    | PutPhrase(digest: Digest, phrase: CachedPhrase, temp: nat, temp': nat, crash: Option<Crash>)
    | GetPhrase(digest: Digest, temp: nat, crash: Option<Crash>)

  // `stored` remembers the phrase last moved into place under each digest.
  datatype CacheState = CacheState(index: Index, disk: Disk, stored: map<Digest, CachedPhrase>)

  function Actions(c: Codec, s: CacheState, ev: Event, capacity: nat): seq<FsAction> {
    match ev
    case PutPhrase(d, p, temp, temp', _) =>
      if Storable(c, p, capacity) then PutActions(c, s.index, d, p, capacity, temp, temp') else []
    case GetPhrase(d, temp, _) => GetActions(c, s.index, s.disk, d, temp)
  }

  function IndexAfter(c: Codec, s: CacheState, ev: Event, capacity: nat): Index {
    match ev
    case PutPhrase(d, p, _, _, _) =>
      if Storable(c, p, capacity) then Put(s.index, d, |Entry(c, p)|, capacity) else s.index
    case GetPhrase(d, _, _) =>
      if d in s.index.entries then GetIndex(c, s.index, s.disk, d) else s.index
  }

  /** A stored phrase counts from the moment its entry file is renamed into place. */
  function StoredAfter(c: Codec, s: CacheState, ev: Event, capacity: nat, performed: nat): map<Digest, CachedPhrase> {
    if ev.PutPhrase? && Storable(c, ev.phrase, capacity) && performed >= 3
    then s.stored[ev.digest := ev.phrase] else s.stored
  }

  function Next(c: Codec, s: CacheState, ev: Event, capacity: nat): CacheState {
    var actions := Actions(c, s, ev, capacity);
    if ev.crash.None? then
      CacheState(IndexAfter(c, s, ev, capacity), Replay(s.disk, actions), StoredAfter(c, s, ev, capacity, |actions|))
    else
      var n, k := Min(ev.crash.value.after, |actions|), ev.crash.value;
      Restarted(c, Replay(s.disk, actions[..n]), StoredAfter(c, s, ev, capacity, n), k, capacity)
  }

  /** The cache after the openings that follow a crash. */
  function Restarted(c: Codec, disk: Disk, stored: map<Digest, CachedPhrase>, k: Crash, capacity: nat): CacheState {
    var left := Interrupted(c, disk, k.cuts, capacity);
    CacheState(Open(c, left, k.listing, capacity, k.temp).index, Reopened(c, left, k.listing, capacity, k.temp), stored)
  }

  function Run(c: Codec, s: CacheState, events: seq<Event>, capacity: nat): CacheState
    decreases |events|
  {
    if events == [] then s
    else Next(c, Run(c, s, events[..|events| - 1], capacity), events[|events| - 1], capacity)
  }

  /** Every entry file holds the encoding of the phrase last stored under its digest. */
  ghost predicate Genuine(c: Codec, disk: Disk, stored: map<Digest, CachedPhrase>) {
    forall d :: EntryFile(d) in disk ==> d in stored && EncodeEntry(c.sha, stored[d]) == Some(disk[EntryFile(d)])
  }

  ghost predicate Sound(c: Codec, s: CacheState, capacity: nat) {
    && Consistent(s.index.entries, s.disk) && TotalBytes(s.index.entries) <= capacity
    && IndexFile in s.disk && c.parseIndex(s.disk[IndexFile]) == Some(s.index)
    && Genuine(c, s.disk, s.stored)
  }

  // ---------------------------------------------------------------------
  // What every prefix of an operation leaves on disk

  /** Actions that never put anything under an entry name. */
  predicate OnlyRemovesEntries(a: FsAction) {
    a.Remove? || (!a.name.EntryFile? && (a.Rename? ==> !a.to.EntryFile?))
  }

  /** Actions that leave the index file alone. */
  predicate SparesIndex(a: FsAction) { !Touches(a, IndexFile) }

  lemma {:induction false} RemovalKeepsGenuine(c: Codec, disk: Disk, actions: seq<FsAction>, stored: map<Digest, CachedPhrase>)
    requires Genuine(c, disk, stored) && forall a :: a in actions ==> OnlyRemovesEntries(a)
    ensures Genuine(c, Replay(disk, actions), stored)
    decreases |actions|
  {
    if actions != [] {
      assert OnlyRemovesEntries(actions[0]);
      RemovalKeepsGenuine(c, Perform(disk, actions[0]), actions[1..], stored);
    }
  }

  /** A prefix of an atomic write either leaves the target alone or is the whole write. */
  lemma AtomicPrefix(disk: Disk, temp: nat, target: FileName, bytes: Bytes, n: nat, f: FileName)
    requires n <= 3 && f != TempFile(temp) && (f != target || n < 3)
    ensures SameFile(disk, Replay(disk, WriteAtomic(temp, target, bytes)[..n]), f)
  {
    ReplayFrame(disk, WriteAtomic(temp, target, bytes)[..n], f);
  }

  /** How a prefix of a put splits into its three phases. */
  lemma PutPrefix(a: seq<FsAction>, b: seq<FsAction>, n: nat)
    requires |a| == 3 && n <= |a + b|
    ensures n <= 3 ==> (a + b)[..n] == a[..n]
    ensures n >= 3 ==> (a + b)[..n] == a + b[..n - 3]
  {
  }

  lemma EvictThenPersist(entries: map<Digest, Record>, capacity: nat, temp: nat, bytes: Bytes, n: nat, a: FsAction)
    requires
      var rest := EvictActions(entries, capacity) + WriteAtomic(temp, IndexFile, bytes);
      n <= |rest| && a in rest[..n]
    ensures OnlyRemovesEntries(a)
    ensures forall x :: x in Evict(entries, capacity) ==> !Touches(a, EntryFile(x))
    ensures n < |EvictActions(entries, capacity)| + 3 ==> SparesIndex(a)
  {
    var evict, persist := EvictActions(entries, capacity), WriteAtomic(temp, IndexFile, bytes);
    if a in evict {
      EvictionTouches(entries, capacity, a);
    } else {
      assert a in persist[..Min(3, Max(0, n - |evict|))] by {
        var i :| 0 <= i < n && (evict + persist)[i] == a;
        assert a == persist[i - |evict|];
      }
    }
  }

  lemma WriteKeepsGenuine(c: Codec, disk: Disk, stored: map<Digest, CachedPhrase>, temp: nat, d: Digest, p: CachedPhrase)
    requires Genuine(c, disk, stored) && EncodeEntry(c.sha, p).Some?
    ensures Genuine(c, Replay(disk, WriteAtomic(temp, EntryFile(d), Entry(c, p))), stored[d := p])
  {
    EntryWritten(disk, temp, d, Entry(c, p));
    assert Genuine(c, disk[EntryFile(d) := Entry(c, p)], stored[d := p]);
  }

  lemma PutPrefixGenuine(c: Codec, s: CacheState, ev: Event, capacity: nat, n: nat)
    requires ev.PutPhrase? && Storable(c, ev.phrase, capacity) && Genuine(c, s.disk, s.stored)
    requires n <= |Actions(c, s, ev, capacity)|
    ensures Genuine(c, Replay(s.disk, Actions(c, s, ev, capacity)[..n]), StoredAfter(c, s, ev, capacity, n))
  {
    var d, entry := ev.digest, Entry(c, ev.phrase);
    var write := WriteAtomic(ev.temp, EntryFile(d), entry);
    var accounted := Accounted(s.index, d, |entry|);
    var bytes := c.renderIndex(Put(s.index, d, |entry|, capacity));
    var rest := EvictActions(accounted, capacity) + WriteAtomic(ev.temp', IndexFile, bytes);
    PutPrefix(write, rest, n);
    if n < 3 {
      forall x ensures SameFile(s.disk, Replay(s.disk, write[..n]), EntryFile(x)) {
        AtomicPrefix(s.disk, ev.temp, EntryFile(d), entry, n, EntryFile(x));
      }
    } else {
      var d1 := Replay(s.disk, write);
      WriteKeepsGenuine(c, s.disk, s.stored, ev.temp, d, ev.phrase);
      forall a | a in rest[..n - 3] ensures OnlyRemovesEntries(a) {
        EvictThenPersist(accounted, capacity, ev.temp', bytes, n - 3, a);
      }
      RemovalKeepsGenuine(c, d1, rest[..n - 3], s.stored[d := ev.phrase]);
      ReplayConcat(s.disk, write, rest[..n - 3]);
    }
  }

  lemma GetPrefixGenuine(c: Codec, s: CacheState, ev: Event, capacity: nat, n: nat)
    requires ev.GetPhrase? && Genuine(c, s.disk, s.stored) && n <= |Actions(c, s, ev, capacity)|
    ensures Genuine(c, Replay(s.disk, Actions(c, s, ev, capacity)[..n]), s.stored)
  {
    var actions := Actions(c, s, ev, capacity);
    forall a | a in actions[..n] ensures OnlyRemovesEntries(a) {
    }
    RemovalKeepsGenuine(c, s.disk, actions[..n], s.stored);
  }

  /** At every point of every operation the index file is readable: it is the old index
      until the last action, and the new one after it. */
  lemma PutPrefixReadable(c: Codec, s: CacheState, ev: Event, capacity: nat, n: nat)
    requires Lawful(c) && IndexFile in s.disk && c.parseIndex(s.disk[IndexFile]) == Some(s.index)
    requires ev.PutPhrase? && Storable(c, ev.phrase, capacity) && n <= |Actions(c, s, ev, capacity)|
    ensures
      var now := Replay(s.disk, Actions(c, s, ev, capacity)[..n]);
      && IndexFile in now
      && c.parseIndex(now[IndexFile]) ==
           Some(if n == |Actions(c, s, ev, capacity)| then IndexAfter(c, s, ev, capacity) else s.index)
  {
    var d, entry := ev.digest, Entry(c, ev.phrase);
    var write := WriteAtomic(ev.temp, EntryFile(d), entry);
    var accounted := Accounted(s.index, d, |entry|);
    var evict := EvictActions(accounted, capacity);
    var bytes := c.renderIndex(Put(s.index, d, |entry|, capacity));
    var persist := WriteAtomic(ev.temp', IndexFile, bytes);
    var actions := write + (evict + persist);
    assert Actions(c, s, ev, capacity) == actions;
    if n < |actions| {
      forall a | a in actions[..n] ensures SparesIndex(a) {
        var i :| 0 <= i < n && actions[i] == a;
        if i >= 3 {
          assert (evict + persist)[..n - 3][i - 3] == a;
          EvictThenPersist(accounted, capacity, ev.temp', bytes, n - 3, a);
        }
      }
      ReplayFrame(s.disk, actions[..n], IndexFile);
    } else {
      assert actions[..n] == (write + evict) + persist;
      ReplayConcat(s.disk, write + evict, persist);
      WriteAtomicReplaces(Replay(s.disk, write + evict), ev.temp', IndexFile, bytes);
    }
  }

  lemma GetPrefixReadable(c: Codec, s: CacheState, ev: Event, capacity: nat, n: nat)
    requires Lawful(c) && IndexFile in s.disk && c.parseIndex(s.disk[IndexFile]) == Some(s.index)
    requires ev.GetPhrase? && n <= |Actions(c, s, ev, capacity)|
    ensures
      var now := Replay(s.disk, Actions(c, s, ev, capacity)[..n]);
      && IndexFile in now
      && c.parseIndex(now[IndexFile]) ==
           Some(if n == |Actions(c, s, ev, capacity)| then IndexAfter(c, s, ev, capacity) else s.index)
  {
    var actions := Actions(c, s, ev, capacity);
    if n < |actions| {
      forall a | a in actions[..n] ensures SparesIndex(a) {
      }
      ReplayFrame(s.disk, actions[..n], IndexFile);
    } else if actions == [] {
      assert actions[..n] == [];
    } else {
      var forget := if ReadEntry(c, s.index, s.disk, ev.digest).Some? then [] else [Remove(EntryFile(ev.digest))];
      var bytes := c.renderIndex(GetIndex(c, s.index, s.disk, ev.digest));
      assert actions[..n] == forget + WriteAtomic(ev.temp, IndexFile, bytes);
      ReplayConcat(s.disk, forget, WriteAtomic(ev.temp, IndexFile, bytes));
      WriteAtomicReplaces(Replay(s.disk, forget), ev.temp, IndexFile, bytes);
    }
  }

  // ---------------------------------------------------------------------
  // Completed operations

  /** In a sound store a lookup finds exactly the phrase last stored, if it is indexed. */
  lemma HitReturnsLastStored(c: Codec, s: CacheState, capacity: nat, d: Digest)
    requires Sound(c, s, capacity)
    ensures ReadEntry(c, s.index, s.disk, d) ==
            if d in s.index.entries then (assert EntryFile(d) in s.disk; Some(s.stored[d])) else None
  {
    if d in s.index.entries {
      assert EntryFile(d) in s.disk;
      DecodeEncode(c.sha, s.stored[d]);
    }
  }

  lemma PutIsConsistent(c: Codec, s: CacheState, ev: Event, capacity: nat)
    requires Sound(c, s, capacity) && ev.PutPhrase? && Storable(c, ev.phrase, capacity)
    ensures
      var n := Replay(s.disk, Actions(c, s, ev, capacity));
      Consistent(IndexAfter(c, s, ev, capacity).entries, n)
    ensures TotalBytes(IndexAfter(c, s, ev, capacity).entries) <= capacity
  {
    var d, entry := ev.digest, Entry(c, ev.phrase);
    var write := WriteAtomic(ev.temp, EntryFile(d), entry);
    var accounted := Accounted(s.index, d, |entry|);
    var evict := EvictActions(accounted, capacity);
    var bytes := c.renderIndex(Put(s.index, d, |entry|, capacity));
    var persist := WriteAtomic(ev.temp', IndexFile, bytes);
    var d1 := Replay(s.disk, write);
    WriteIsConsistent(s.index.entries, s.disk, ev.temp, d, entry, accounted);
    EvictionIsConsistent(accounted, d1, capacity);
    EvictFits(accounted, capacity);
    var d2 := Replay(d1, evict);
    ReplayConcat(s.disk, write, evict + persist);
    ReplayConcat(d1, evict, persist);
    IndexWritten(d2, ev.temp', bytes);
    ConsistentForSame(Evict(accounted, capacity), d2, Replay(d2, persist));
  }

  lemma WriteIsConsistent(
    entries: map<Digest, Record>, disk: Disk, temp: nat, d: Digest, entry: Bytes, accounted: map<Digest, Record>)
    requires Consistent(entries, disk) && accounted.Keys == entries.Keys + {d}
    requires accounted[d].bytes == |entry| && forall x :: x in entries && x != d ==> accounted[x] == entries[x]
    ensures Consistent(accounted, Replay(disk, WriteAtomic(temp, EntryFile(d), entry)))
  {
    EntryWritten(disk, temp, d, entry);
    ConsistentForSame(accounted, disk[EntryFile(d) := entry], Replay(disk, WriteAtomic(temp, EntryFile(d), entry)));
  }

  /** Promoting a phrase changes neither which phrases are indexed nor their sizes. */
  lemma TouchKeepsContents(index: Index, d: Digest, disk: Disk)
    requires Consistent(index.entries, disk)
    ensures Consistent(Touch(index, d).entries, disk)
    ensures TotalBytes(Touch(index, d).entries) == TotalBytes(index.entries)
  {
    var touched := Touch(index, d);
    assert touched.entries.Keys == index.entries.Keys;
    SumOverCongruence(touched.entries.Keys, BytesOf(touched.entries), BytesOf(index.entries));
  }

  lemma GetIsConsistent(c: Codec, s: CacheState, ev: Event, capacity: nat)
    requires Sound(c, s, capacity) && ev.GetPhrase?
    ensures
      var n := Replay(s.disk, Actions(c, s, ev, capacity));
      Consistent(IndexAfter(c, s, ev, capacity).entries, n)
    ensures TotalBytes(IndexAfter(c, s, ev, capacity).entries) <= capacity
  {
    HitReturnsLastStored(c, s, capacity, ev.digest);
    if ev.digest in s.index.entries {
      var touched := Touch(s.index, ev.digest);
      var persist := WriteAtomic(ev.temp, IndexFile, c.renderIndex(touched));
      assert Actions(c, s, ev, capacity) == persist;
      TouchKeepsContents(s.index, ev.digest, s.disk);
      IndexWritten(s.disk, ev.temp, c.renderIndex(touched));
      ConsistentForSame(touched.entries, s.disk, Replay(s.disk, persist));
    }
  }

  // ---------------------------------------------------------------------
  // Every event, completed or cut short

  lemma PrefixFacts(c: Codec, s: CacheState, ev: Event, capacity: nat, n: nat)
    requires Lawful(c) && Sound(c, s, capacity) && n <= |Actions(c, s, ev, capacity)|
    ensures
      var now := Replay(s.disk, Actions(c, s, ev, capacity)[..n]);
      && Genuine(c, now, StoredAfter(c, s, ev, capacity, n))
      && IndexFile in now
      && c.parseIndex(now[IndexFile]) ==
           Some(if n == |Actions(c, s, ev, capacity)| then IndexAfter(c, s, ev, capacity) else s.index)
  {
    if ev.GetPhrase? {
      GetPrefixGenuine(c, s, ev, capacity, n);
      GetPrefixReadable(c, s, ev, capacity, n);
    } else if Storable(c, ev.phrase, capacity) {
      PutPrefixGenuine(c, s, ev, capacity, n);
      PutPrefixReadable(c, s, ev, capacity, n);
    } else {
      assert Actions(c, s, ev, capacity)[..n] == [];
    }
  }

  // ---------------------------------------------------------------------
  // Openings, completed or cut short

  predicate RemovesEntry(a: FsAction) { a.Remove? && a.name.EntryFile? }

  lemma LoadRemoves(c: Codec, disk: Disk, listing: seq<Digest>)
    ensures forall a :: a in Load(c, disk, listing).actions ==> RemovesEntry(a)
  {
  }

  lemma EvictionRemoves(entries: map<Digest, Record>, capacity: nat)
    ensures forall a :: a in EvictActions(entries, capacity) ==> RemovesEntry(a)
  {
    forall a | a in EvictActions(entries, capacity) ensures RemovesEntry(a) {
      EvictionTouches(entries, capacity, a);
    }
  }

  lemma PartKinds(sweep: seq<FsAction>, evict: seq<FsAction>, temp: nat, bytes: Bytes, i: nat, a: FsAction)
    requires forall x :: x in sweep || x in evict ==> RemovesEntry(x)
    requires i < |sweep + evict + WriteAtomic(temp, IndexFile, bytes)|
    requires a == (sweep + evict + WriteAtomic(temp, IndexFile, bytes))[i]
    ensures OnlyRemovesEntries(a) && (i < |sweep| + |evict| + 2 ==> SparesIndex(a))
  {
    assert i < |sweep| + |evict| ==> a in sweep || a in evict;
  }

  /** What an opening does before its last action: it removes entries and prepares a temporary file. */
  lemma OpenActionKinds(c: Codec, disk: Disk, listing: seq<Digest>, capacity: nat, temp: nat, i: nat)
    requires i < |Open(c, disk, listing, capacity, temp).actions|
    ensures
      var actions := Open(c, disk, listing, capacity, temp).actions;
      OnlyRemovesEntries(actions[i]) && (i < |actions| - 1 ==> SparesIndex(actions[i]))
  {
    var l, o := Load(c, disk, listing), Open(c, disk, listing, capacity, temp);
    LoadRemoves(c, disk, listing);
    EvictionRemoves(l.index.entries, capacity);
    PartKinds(l.actions, EvictActions(l.index.entries, capacity), temp, c.renderIndex(o.index), i, o.actions[i]);
  }

  /** What the first `n` actions do not touch stays as it was. */
  lemma PrefixSpares(disk: Disk, actions: seq<FsAction>, n: nat, f: FileName)
    requires n <= |actions| && forall i :: 0 <= i < n ==> !Touches(actions[i], f)
    ensures SameFile(disk, Replay(disk, actions[..n]), f)
  {
    ReplayFrame(disk, actions[..n], f);
  }

  lemma CutKeepsGenuine(c: Codec, disk: Disk, stored: map<Digest, CachedPhrase>, o: Opening, capacity: nat)
    requires Genuine(c, disk, stored)
    ensures Genuine(c, CutOpening(c, disk, o, capacity), stored)
  {
    var actions := Open(c, disk, o.listing, capacity, o.temp).actions;
    var n := Min(o.after, |actions|);
    forall a | a in actions[..n] ensures OnlyRemovesEntries(a) {
      var i :| 0 <= i < n && actions[..n][i] == a;
      OpenActionKinds(c, disk, o.listing, capacity, o.temp, i);
    }
    RemovalKeepsGenuine(c, disk, actions[..n], stored);
  }

  /** The index file read as an index, where it can be read. */
  function OnDisk(c: Codec, disk: Disk): Option<Index> {
    if IndexFile in disk then c.parseIndex(disk[IndexFile]) else None
  }

  /** `index` is `base` with some phrases forgotten. */
  ghost predicate Within(index: Index, base: Index) {
    index.nextUse == base.nextUse && forall d :: d in index.entries ==> d in base.entries && index.entries[d] == base.entries[d]
  }

  lemma OpenWithin(c: Codec, disk: Disk, listing: seq<Digest>, capacity: nat, temp: nat)
    requires OnDisk(c, disk).Some?
    ensures Within(Open(c, disk, listing, capacity, temp).index, OnDisk(c, disk).value)
  {
    EvictKeepsClock(Load(c, disk, listing).index.entries, capacity);
  }

  /** Before its last action an opening leaves the index file as it was. */
  lemma CutSparesIndex(c: Codec, disk: Disk, o: Opening, capacity: nat)
    requires o.after < |Open(c, disk, o.listing, capacity, o.temp).actions|
    ensures SameFile(disk, CutOpening(c, disk, o, capacity), IndexFile)
  {
    var actions := Open(c, disk, o.listing, capacity, o.temp).actions;
    forall i | 0 <= i < o.after ensures !Touches(actions[i], IndexFile) {
      OpenActionKinds(c, disk, o.listing, capacity, o.temp, i);
    }
    PrefixSpares(disk, actions, o.after, IndexFile);
  }

  lemma CompleteCut(c: Codec, disk: Disk, o: Opening, capacity: nat)
    requires o.after >= |Open(c, disk, o.listing, capacity, o.temp).actions|
    ensures CutOpening(c, disk, o, capacity) == Reopened(c, disk, o.listing, capacity, o.temp)
  {
    var actions := Open(c, disk, o.listing, capacity, o.temp).actions;
    assert actions[..|actions|] == actions;
  }

  lemma CutKeepsIndex(c: Codec, disk: Disk, o: Opening, capacity: nat)
    requires Lawful(c) && OnDisk(c, disk).Some?
    ensures OnDisk(c, CutOpening(c, disk, o, capacity)).Some?
    ensures Within(OnDisk(c, CutOpening(c, disk, o, capacity)).value, OnDisk(c, disk).value)
  {
    if o.after < |Open(c, disk, o.listing, capacity, o.temp).actions| {
      CutSparesIndex(c, disk, o, capacity);
    } else {
      CompleteCut(c, disk, o, capacity);
      ReopenIsConsistent(c, disk, o.listing, capacity, o.temp);
      OpenWithin(c, disk, o.listing, capacity, o.temp);
    }
  }

  /** However often opening is cut short, the entry files left are whole, and a readable index
      stays readable and at most forgets phrases. */
  lemma {:induction false} InterruptionsKeep(
      c: Codec, disk: Disk, stored: map<Digest, CachedPhrase>, cuts: seq<Opening>, capacity: nat)
    requires Lawful(c) && Genuine(c, disk, stored)
    ensures
      var left := Interrupted(c, disk, cuts, capacity);
      && Genuine(c, left, stored)
      && (OnDisk(c, disk).Some? ==> OnDisk(c, left).Some? && Within(OnDisk(c, left).value, OnDisk(c, disk).value))
    decreases |cuts|
  {
    if cuts != [] {
      var mid := Interrupted(c, disk, cuts[..|cuts| - 1], capacity);
      InterruptionsKeep(c, disk, stored, cuts[..|cuts| - 1], capacity);
      CutKeepsGenuine(c, mid, stored, cuts[|cuts| - 1], capacity);
      if OnDisk(c, disk).Some? {
        CutKeepsIndex(c, mid, cuts[|cuts| - 1], capacity);
      }
    }
  }

  /** Opening a directory whose entry files are whole makes the cache sound, whether its index
      can be read or has to be rebuilt from a listing. */
  lemma OpeningIsSound(c: Codec, disk: Disk, stored: map<Digest, CachedPhrase>, listing: seq<Digest>, temp: nat, capacity: nat)
    requires Lawful(c) && Genuine(c, disk, stored) && (Lists(listing, disk) || Readable(c, disk))
    ensures Sound(c, CacheState(Open(c, disk, listing, capacity, temp).index,
                           Reopened(c, disk, listing, capacity, temp), stored), capacity)
  {
    ReopenIsConsistent(c, disk, listing, capacity, temp);
  }

  /** So a run can begin: the first opening of a directory without entries, even after openings
      that were cut short, is sound with nothing stored. */
  lemma FirstOpeningIsSound(c: Codec, disk: Disk, cuts: seq<Opening>, temp: nat, capacity: nat)
    requires Lawful(c) && forall d :: EntryFile(d) !in disk
    ensures
      var left := Interrupted(c, disk, cuts, capacity);
      Sound(c, CacheState(Open(c, left, [], capacity, temp).index, Reopened(c, left, [], capacity, temp), map[]), capacity)
  {
    InterruptionsKeep(c, disk, map[], cuts, capacity);
    OpeningIsSound(c, Interrupted(c, disk, cuts, capacity), map[], [], temp, capacity);
  }

  /** From any crash that leaves whole entries and a readable index, interrupted openings included,
      reopening recovers a sound cache whose index at most forgot phrases. */
  lemma CrashEndsSound(c: Codec, disk: Disk, stored: map<Digest, CachedPhrase>, k: Crash, capacity: nat)
    requires Lawful(c) && Genuine(c, disk, stored) && OnDisk(c, disk).Some?
    ensures Sound(c, Restarted(c, disk, stored, k, capacity), capacity)
    ensures Within(Restarted(c, disk, stored, k, capacity).index, OnDisk(c, disk).value)
  {
    InterruptionsKeep(c, disk, stored, k.cuts, capacity);
    var left := Interrupted(c, disk, k.cuts, capacity);
    OpeningIsSound(c, left, stored, k.listing, k.temp, capacity);
    OpenWithin(c, left, k.listing, capacity, k.temp);
  }

  /** Every put and get, completed or cut short by a crash after any of its file-system
      actions, any number of openings cut short in the same way and a reopening, leads from a
      sound store to a sound store. */
  lemma NextIsSound(c: Codec, s: CacheState, ev: Event, capacity: nat)
    requires Lawful(c) && Sound(c, s, capacity)
    ensures Sound(c, Next(c, s, ev, capacity), capacity)
  {
    var actions := Actions(c, s, ev, capacity);
    if ev.crash.Some? {
      var n, k := Min(ev.crash.value.after, |actions|), ev.crash.value;
      PrefixFacts(c, s, ev, capacity, n);
      CrashEndsSound(c, Replay(s.disk, actions[..n]), StoredAfter(c, s, ev, capacity, n), k, capacity);
    } else {
      PrefixFacts(c, s, ev, capacity, |actions|);
      assert actions[..|actions|] == actions;
      if ev.GetPhrase? {
        GetIsConsistent(c, s, ev, capacity);
      } else if Storable(c, ev.phrase, capacity) {
        PutIsConsistent(c, s, ev, capacity);
      }
    }
  }

  /** Over every run with crashes anywhere, the store stays sound: index and entry files
      agree, the budget holds, and a lookup returns exactly the phrase last moved into
      place under its digest, or nothing. */
  lemma {:induction false} RunIsSound(c: Codec, s: CacheState, events: seq<Event>, capacity: nat, d: Digest)
    requires Lawful(c) && Sound(c, s, capacity)
    ensures
      var n := Run(c, s, events, capacity);
      && Sound(c, n, capacity)
      && (d in n.index.entries ==> d in n.stored)
      && ReadEntry(c, n.index, n.disk, d) == if d in n.index.entries then Some(n.stored[d]) else None
    decreases |events|
  {
    if events != [] {
      RunIsSound(c, s, events[..|events| - 1], capacity, d);
      NextIsSound(c, Run(c, s, events[..|events| - 1], capacity), events[|events| - 1], capacity);
    }
    var n := Run(c, s, events, capacity);
    HitReturnsLastStored(c, n, capacity, d);
    assert d in n.index.entries ==> EntryFile(d) in n.disk;
  }

  // ---------------------------------------------------------------------
  // Recency over runs with crashes

  /** What a put or get means for the recency index; nothing for a phrase that cannot be stored. */
  function AccessOf(c: Codec, s: CacheState, ev: Event, capacity: nat): Option<Access> {
    match ev
    case PutPhrase(d, p, _, _, _) => if Storable(c, p, capacity) then Some(Store(d, |Entry(c, p)|)) else None
    case GetPhrase(d, _, _) =>
      if d in s.index.entries && ReadEntry(c, s.index, s.disk, d).None? then Some(Discard(d)) else Some(Hit(d))
  }

  function ListAfter(c: Codec, s: CacheState, ev: Event, capacity: nat, list: seq<Item>): seq<Item> {
    var access := AccessOf(c, s, ev, capacity);
    if access.Some? then ListStep(list, access.value, capacity) else list
  }

  lemma IndexAfterIsStep(c: Codec, s: CacheState, ev: Event, capacity: nat)
    ensures
      var access := AccessOf(c, s, ev, capacity);
      IndexAfter(c, s, ev, capacity) == if access.Some? then Step(s.index, access.value, capacity) else s.index
  {
  }

  /** The recency list after an event. A crash falls back to the list before the event unless
      the event's last action was performed; reopening keeps the order and only forgets. */
  function ListNext(c: Codec, s: CacheState, ev: Event, capacity: nat, list: seq<Item>): seq<Item> {
    var after := ListAfter(c, s, ev, capacity, list);
    if ev.crash.None? then after
    else
      var base := if ev.crash.value.after < |Actions(c, s, ev, capacity)| then list else after;
      Keep(base, Next(c, s, ev, capacity).index.entries.Keys)
  }

  lemma CrashForgetsOnly(c: Codec, s: CacheState, ev: Event, capacity: nat)
    requires Lawful(c) && Sound(c, s, capacity) && ev.crash.Some?
    ensures Within(Next(c, s, ev, capacity).index,
                   if ev.crash.value.after < |Actions(c, s, ev, capacity)| then s.index else IndexAfter(c, s, ev, capacity))
  {
    var actions, k := Actions(c, s, ev, capacity), ev.crash.value;
    var n := Min(k.after, |actions|);
    PrefixFacts(c, s, ev, capacity, n);
    CrashEndsSound(c, Replay(s.disk, actions[..n]), StoredAfter(c, s, ev, capacity, n), k, capacity);
  }

  lemma NextRefines(c: Codec, s: CacheState, ev: Event, capacity: nat, list: seq<Item>)
    requires Lawful(c) && Sound(c, s, capacity)
    requires Refines(s.index.entries, list) && ClockAhead(s.index) && s.index.nextUse < U64_MAX
    ensures
      var n := Next(c, s, ev, capacity);
      && Refines(n.index.entries, ListNext(c, s, ev, capacity, list))
      && ClockAhead(n.index) && n.index.nextUse <= s.index.nextUse + 1
  {
    IndexAfterIsStep(c, s, ev, capacity);
    var access := AccessOf(c, s, ev, capacity);
    if access.Some? {
      StepRefines(s.index, list, access.value, capacity);
    }
    if ev.crash.Some? {
      CrashForgetsOnly(c, s, ev, capacity);
      var late := ev.crash.value.after >= |Actions(c, s, ev, capacity)|;
      ForgettingRefines(Next(c, s, ev, capacity).index, if late then IndexAfter(c, s, ev, capacity) else s.index,
                        if late then ListAfter(c, s, ev, capacity, list) else list);
    }
  }

  lemma ForgettingRefines(index: Index, base: Index, list: seq<Item>)
    requires Within(index, base) && Refines(base.entries, list) && ClockAhead(base)
    ensures Refines(index.entries, Keep(list, index.entries.Keys)) && ClockAhead(index)
  {
    KeepRefines(base.entries, list, index.entries);
  }

  /** Where the index cannot be read, opening starts the recency list over: the files in the order
      listed, as many of the last as fit the budget. */
  lemma OpeningRefines(c: Codec, disk: Disk, listing: seq<Digest>, capacity: nat, temp: nat)
    requires OnDisk(c, disk).None? && NoDuplicates(listing) && |listing| <= U64_MAX
    ensures
      var index := Open(c, disk, listing, capacity, temp).index;
      Refines(index.entries, Trim(Listed(disk, listing), capacity)) && ClockAhead(index) && index.nextUse <= |listing|
  {
    RebuildRefines(disk, listing);
    var rebuilt := Rebuild(disk, listing);
    EvictRefines(rebuilt.entries, Listed(disk, listing), capacity);
    EvictKeepsClock(rebuilt.entries, capacity);
  }

  /** An entry file damaged from outside is a miss: it and its index entry go, all others stay,
      and index and files agree again. */
  lemma DamagedEntryIsForgotten(c: Codec, index: Index, disk: Disk, d: Digest, temp: nat, n: Disk)
    requires Lawful(c) && Consistent(index.entries, disk) && d in index.entries
    requires DecodeFile(c, disk[EntryFile(d)]).None? && n == Replay(disk, GetActions(c, index, disk, d, temp))
    ensures ReadEntry(c, index, disk, d).None? && EntryFile(d) !in n
    ensures GetIndex(c, index, disk, d).entries == index.entries - {d}
    ensures Consistent(GetIndex(c, index, disk, d).entries, n) && OnDisk(c, n) == Some(GetIndex(c, index, disk, d))
    ensures forall x :: x != d ==> SameFile(disk, n, EntryFile(x))
  {
    var after := GetIndex(c, index, disk, d);
    var persist := WriteAtomic(temp, IndexFile, c.renderIndex(after));
    ReplayFirst(disk, Remove(EntryFile(d)), persist);
    var left := disk - {EntryFile(d)};
    WriteAtomicReplaces(left, temp, IndexFile, c.renderIndex(after));
    assert forall x :: SameFile(left, n, EntryFile(x));
  }

  function ListRun(c: Codec, s: CacheState, events: seq<Event>, capacity: nat, list: seq<Item>): seq<Item>
    decreases |events|
  {
    if events == [] then list
    else
      var before := events[..|events| - 1];
      ListNext(c, Run(c, s, before, capacity), events[|events| - 1], capacity, ListRun(c, s, before, capacity, list))
  }

  /** Over every run of puts and gets with crashes anywhere, the index is the recency list of a
      reference LRU, from which a crash at most forgets phrases. */
  lemma {:induction false} RunRefinesRecency(c: Codec, s: CacheState, events: seq<Event>, capacity: nat, list: seq<Item>)
    requires Lawful(c) && Sound(c, s, capacity)
    requires Refines(s.index.entries, list) && ClockAhead(s.index) && s.index.nextUse + |events| <= U64_MAX
    ensures
      var n := Run(c, s, events, capacity);
      && Refines(n.index.entries, ListRun(c, s, events, capacity, list))
      && ClockAhead(n.index) && n.index.nextUse <= s.index.nextUse + |events|
    decreases |events|
  {
    if events != [] {
      var before := events[..|events| - 1];
      RunRefinesRecency(c, s, before, capacity, list);
      RunIsSound(c, s, before, capacity, 0);
      NextRefines(c, Run(c, s, before, capacity), events[|events| - 1], capacity, ListRun(c, s, before, capacity, list));
    }
  }

  // ---------------------------------------------------------------------
  // What a crash during a put can cost

  /** Reopening with a readable index keeps every phrase whose file is intact, if the index was within budget. */
  lemma ReopenKeepsIntact(c: Codec, disk: Disk, index: Index, k: Crash, capacity: nat, x: Digest)
    requires Lawful(c) && IndexFile in disk && c.parseIndex(disk[IndexFile]) == Some(index)
    requires TotalBytes(index.entries) <= capacity
    requires x in index.entries && EntryFile(x) in disk && |disk[EntryFile(x)]| == index.entries[x].bytes
    ensures
      var o := Open(c, disk, k.listing, capacity, k.temp);
      x in o.index.entries && o.index.entries[x] == index.entries[x]
  {
    RetainedFits(disk, index, capacity);
  }

  /** The index in force when the process dies lists the bystander as before, and its file is untouched. */
  lemma BystanderIntact(c: Codec, s: CacheState, ev: Event, capacity: nat, x: Digest, n: nat)
    requires Lawful(c) && Sound(c, s, capacity) && ev.PutPhrase? && n <= |Actions(c, s, ev, capacity)|
    requires x in s.index.entries && x != ev.digest && x in IndexAfter(c, s, ev, capacity).entries
    ensures SameFile(s.disk, Replay(s.disk, Actions(c, s, ev, capacity)[..n]), EntryFile(x))
    ensures TotalBytes(IndexAfter(c, s, ev, capacity).entries) <= capacity
    ensures IndexAfter(c, s, ev, capacity).entries[x] == s.index.entries[x]
  {
    BystanderFileIntact(c, s, ev, capacity, x, n);
    if Storable(c, ev.phrase, capacity) {
      PutIsConsistent(c, s, ev, capacity);
      EvictKeepsClock(Accounted(s.index, ev.digest, |Entry(c, ev.phrase)|), capacity);
    }
  }

  lemma BystanderFileIntact(c: Codec, s: CacheState, ev: Event, capacity: nat, x: Digest, n: nat)
    requires ev.PutPhrase? && n <= |Actions(c, s, ev, capacity)|
    requires x != ev.digest && x in IndexAfter(c, s, ev, capacity).entries
    ensures SameFile(s.disk, Replay(s.disk, Actions(c, s, ev, capacity)[..n]), EntryFile(x))
  {
    var actions := Actions(c, s, ev, capacity);
    forall i | 0 <= i < n ensures !Touches(actions[i], EntryFile(x)) {
      assert actions[i] in actions;
      VictimsOnly(c, s, ev, capacity, x, actions[i]);
    }
    PrefixSpares(s.disk, actions, n, EntryFile(x));
  }

  /** A crash at any point of a put, followed by crashes during any number of openings, costs at
      most the phrase being stored and the phrases that put evicts: every other phrase is
      still indexed, unchanged, after reopening. */
  lemma CrashCostsOnlyVictims(c: Codec, s: CacheState, ev: Event, capacity: nat, x: Digest)
    requires Lawful(c) && Sound(c, s, capacity) && ev.PutPhrase? && ev.crash.Some?
    requires x in s.index.entries && x != ev.digest && x in IndexAfter(c, s, ev, capacity).entries
    ensures
      var n := Next(c, s, ev, capacity);
      && x in n.index.entries && n.index.entries[x] == s.index.entries[x]
      && EntryFile(x) in n.disk && EntryFile(x) in s.disk && n.disk[EntryFile(x)] == s.disk[EntryFile(x)]
  {
    var actions, k := Actions(c, s, ev, capacity), ev.crash.value;
    var n := Min(k.after, |actions|);
    var left := Replay(s.disk, actions[..n]);
    CrashLeavesBystander(c, s, ev, capacity, x, n, left);
    RestartKeepsHeld(c, left, StoredAfter(c, s, ev, capacity, n), k, capacity, x, s.index.entries[x], s.disk[EntryFile(x)]);
  }

  /** A phrase that the directory holds when the process dies is there, unchanged, after the restart. */
  lemma RestartKeepsHeld(c: Codec, disk: Disk, stored: map<Digest, CachedPhrase>, k: Crash, capacity: nat,
                         x: Digest, record: Record, bytes: Bytes)
    requires Lawful(c) && Holds(c, disk, capacity, x, record, bytes)
    ensures
      var n := Restarted(c, disk, stored, k, capacity);
      && x in n.index.entries && n.index.entries[x] == record
      && EntryFile(x) in n.disk && n.disk[EntryFile(x)] == bytes
  {
    InterruptionsKeepBystander(c, disk, k.cuts, capacity, x, record, bytes);
    var last := Interrupted(c, disk, k.cuts, capacity);
    ReopenKeepsFile(c, last, OnDisk(c, last).value, k, capacity, x);
  }

  /** The directory holds the phrase, and a readable index within budget lists it. */
  ghost predicate Holds(c: Codec, disk: Disk, capacity: nat, x: Digest, record: Record, bytes: Bytes) {
    && OnDisk(c, disk).Some? && TotalBytes(OnDisk(c, disk).value.entries) <= capacity
    && x in OnDisk(c, disk).value.entries && OnDisk(c, disk).value.entries[x] == record
    && EntryFile(x) in disk && disk[EntryFile(x)] == bytes && |bytes| == record.bytes
  }

  lemma CutKeepsBystander(c: Codec, disk: Disk, o: Opening, capacity: nat, x: Digest, record: Record, bytes: Bytes)
    requires Lawful(c) && Holds(c, disk, capacity, x, record, bytes)
    ensures Holds(c, CutOpening(c, disk, o, capacity), capacity, x, record, bytes)
  {
    var index := OnDisk(c, disk).value;
    var crash := Crash(0, [], o.listing, o.temp);
    if o.after < |Open(c, disk, o.listing, capacity, o.temp).actions| {
      CutSparesIndex(c, disk, o, capacity);
      CutSparesBystander(c, disk, o, capacity, x);
    } else {
      CompleteCut(c, disk, o, capacity);
      ReopenKeepsFile(c, disk, index, crash, capacity, x);
      ReopenIsConsistent(c, disk, o.listing, capacity, o.temp);
    }
  }

  lemma RetainedFits(disk: Disk, index: Index, capacity: nat)
    requires TotalBytes(index.entries) <= capacity
    ensures TotalBytes(RetainPresent(disk, index).entries) <= capacity
  {
    var kept := RetainPresent(disk, index);
    assert kept.entries.Keys <= index.entries.Keys;
    SumOverCongruence(kept.entries.Keys, BytesOf(kept.entries), BytesOf(index.entries));
    SumOverSubset(kept.entries.Keys, index.entries.Keys, BytesOf(index.entries));
  }

  lemma CutSparesBystander(c: Codec, disk: Disk, o: Opening, capacity: nat, x: Digest)
    requires OnDisk(c, disk).Some? && TotalBytes(OnDisk(c, disk).value.entries) <= capacity
    requires x in OnDisk(c, disk).value.entries && EntryFile(x) in disk
    requires |disk[EntryFile(x)]| == OnDisk(c, disk).value.entries[x].bytes
    ensures SameFile(disk, CutOpening(c, disk, o, capacity), EntryFile(x))
  {
    var actions := Open(c, disk, o.listing, capacity, o.temp).actions;
    var n := Min(o.after, |actions|);
    forall i | 0 <= i < n ensures !Touches(actions[i], EntryFile(x)) {
      OpenSparesListed(c, disk, o.listing, capacity, o.temp, x, i);
    }
    PrefixSpares(disk, actions, n, EntryFile(x));
  }

  /** Opening with an index within budget touches no entry file the index describes. */
  lemma OpenSparesListed(c: Codec, disk: Disk, listing: seq<Digest>, capacity: nat, temp: nat, x: Digest, i: nat)
    requires OnDisk(c, disk).Some? && TotalBytes(OnDisk(c, disk).value.entries) <= capacity
    requires x in OnDisk(c, disk).value.entries && EntryFile(x) in disk
    requires |disk[EntryFile(x)]| == OnDisk(c, disk).value.entries[x].bytes
    requires i < |Open(c, disk, listing, capacity, temp).actions|
    ensures !Touches(Open(c, disk, listing, capacity, temp).actions[i], EntryFile(x))
  {
    var l, o := Load(c, disk, listing), Open(c, disk, listing, capacity, temp);
    RetainedFits(disk, OnDisk(c, disk).value, capacity);
    SweepSpares(disk, l.index, x);
    PartsSpare(l.actions, EvictActions(l.index.entries, capacity), temp, c.renderIndex(o.index), x, i, o.actions[i]);
  }

  lemma PartsSpare(sweep: seq<FsAction>, evict: seq<FsAction>, temp: nat, bytes: Bytes, x: Digest, i: nat, a: FsAction)
    requires evict == [] && forall y :: y in sweep ==> !Touches(y, EntryFile(x))
    requires i < |sweep + evict + WriteAtomic(temp, IndexFile, bytes)|
    requires a == (sweep + evict + WriteAtomic(temp, IndexFile, bytes))[i]
    ensures !Touches(a, EntryFile(x))
  {
    assert i < |sweep| ==> a in sweep;
  }

  lemma SweepSpares(disk: Disk, index: Index, x: Digest)
    requires x in index.entries
    ensures forall a :: a in Sweep(disk, index) ==> !Touches(a, EntryFile(x))
  {
  }

  lemma {:induction false} InterruptionsKeepBystander(
      c: Codec, disk: Disk, cuts: seq<Opening>, capacity: nat, x: Digest, record: Record, bytes: Bytes)
    requires Lawful(c) && Holds(c, disk, capacity, x, record, bytes)
    ensures Holds(c, Interrupted(c, disk, cuts, capacity), capacity, x, record, bytes)
    decreases |cuts|
  {
    if cuts != [] {
      InterruptionsKeepBystander(c, disk, cuts[..|cuts| - 1], capacity, x, record, bytes);
      CutKeepsBystander(c, Interrupted(c, disk, cuts[..|cuts| - 1], capacity), cuts[|cuts| - 1], capacity, x, record, bytes);
    }
  }

  lemma ReopenKeepsFile(c: Codec, disk: Disk, index: Index, k: Crash, capacity: nat, x: Digest)
    requires Lawful(c) && IndexFile in disk && c.parseIndex(disk[IndexFile]) == Some(index)
    requires TotalBytes(index.entries) <= capacity
    requires x in index.entries && EntryFile(x) in disk && |disk[EntryFile(x)]| == index.entries[x].bytes
    ensures
      var o, n := Open(c, disk, k.listing, capacity, k.temp), Reopened(c, disk, k.listing, capacity, k.temp);
      && x in o.index.entries && o.index.entries[x] == index.entries[x]
      && EntryFile(x) in n && n[EntryFile(x)] == disk[EntryFile(x)]
  {
    ReopenKeepsIntact(c, disk, index, k, capacity, x);
    ReopenIsConsistent(c, disk, k.listing, capacity, k.temp);
  }

  /** The disk a crash leaves holds a readable index that lists the bystander, and its file. */
  lemma CrashLeavesBystander(c: Codec, s: CacheState, ev: Event, capacity: nat, x: Digest, n: nat, left: Disk)
    requires Lawful(c) && Sound(c, s, capacity) && ev.PutPhrase? && n <= |Actions(c, s, ev, capacity)|
    requires x in s.index.entries && x != ev.digest && x in IndexAfter(c, s, ev, capacity).entries
    requires left == Replay(s.disk, Actions(c, s, ev, capacity)[..n])
    ensures EntryFile(x) in s.disk && Holds(c, left, capacity, x, s.index.entries[x], s.disk[EntryFile(x)])
  {
    assert EntryFile(x) in s.disk && |s.disk[EntryFile(x)]| == s.index.entries[x].bytes;
    BystanderIntact(c, s, ev, capacity, x, n);
    PrefixFacts(c, s, ev, capacity, n);
  }

  /** A crash during a get, and during any number of openings after it, loses no phrase and no file. */
  lemma CrashDuringGetLosesNothing(c: Codec, s: CacheState, ev: Event, capacity: nat, x: Digest)
    requires Lawful(c) && Sound(c, s, capacity) && ev.GetPhrase? && ev.crash.Some?
    ensures
      var n := Next(c, s, ev, capacity);
      && (x in n.index.entries <==> x in s.index.entries)
      && (x in s.index.entries ==>
            && n.index.entries[x].bytes == s.index.entries[x].bytes
            && EntryFile(x) in s.disk && EntryFile(x) in n.disk && n.disk[EntryFile(x)] == s.disk[EntryFile(x)])
  {
    CrashForgetsOnly(c, s, ev, capacity);
    GetKeepsPhrases(c, s, ev, capacity);
    if x in s.index.entries {
      CrashDuringGetKeeps(c, s, ev, capacity, x);
    }
  }

  lemma CrashDuringGetKeeps(c: Codec, s: CacheState, ev: Event, capacity: nat, x: Digest)
    requires Lawful(c) && Sound(c, s, capacity) && ev.GetPhrase? && ev.crash.Some? && x in s.index.entries
    ensures
      var n := Next(c, s, ev, capacity);
      && x in n.index.entries && n.index.entries[x].bytes == s.index.entries[x].bytes
      && EntryFile(x) in s.disk && EntryFile(x) in n.disk && n.disk[EntryFile(x)] == s.disk[EntryFile(x)]
  {
    var actions, k := Actions(c, s, ev, capacity), ev.crash.value;
    var n := Min(k.after, |actions|);
    var left := Replay(s.disk, actions[..n]);
    var record := GetLeavesPhrase(c, s, ev, capacity, x, n, left);
    RestartKeepsHeld(c, left, StoredAfter(c, s, ev, capacity, n), k, capacity, x, record, s.disk[EntryFile(x)]);
  }

  /** In a sound cache a get changes at most when a phrase was last used. */
  lemma GetKeepsPhrases(c: Codec, s: CacheState, ev: Event, capacity: nat)
    requires Sound(c, s, capacity) && ev.GetPhrase?
    ensures
      var after := IndexAfter(c, s, ev, capacity);
      && after.entries.Keys == s.index.entries.Keys && TotalBytes(after.entries) <= capacity
      && forall x :: x in s.index.entries ==> after.entries[x].bytes == s.index.entries[x].bytes
  {
    HitReturnsLastStored(c, s, capacity, ev.digest);
    assert IndexAfter(c, s, ev, capacity) == if ev.digest in s.index.entries then Touch(s.index, ev.digest) else s.index;
    TouchKeepsContents(s.index, ev.digest, s.disk);
  }

  lemma GetSparesEntries(c: Codec, s: CacheState, ev: Event, capacity: nat, x: Digest, i: nat)
    requires Sound(c, s, capacity) && ev.GetPhrase? && i < |Actions(c, s, ev, capacity)|
    ensures !Touches(Actions(c, s, ev, capacity)[i], EntryFile(x))
  {
    HitReturnsLastStored(c, s, capacity, ev.digest);
  }

  /** The directory a get leaves, even cut short, holds every phrase it held. */
  lemma GetLeavesPhrase(c: Codec, s: CacheState, ev: Event, capacity: nat, x: Digest, n: nat, left: Disk)
    returns (record: Record)
    requires Lawful(c) && Sound(c, s, capacity) && ev.GetPhrase? && n <= |Actions(c, s, ev, capacity)|
    requires x in s.index.entries && left == Replay(s.disk, Actions(c, s, ev, capacity)[..n])
    ensures EntryFile(x) in s.disk && record.bytes == s.index.entries[x].bytes
    ensures Holds(c, left, capacity, x, record, s.disk[EntryFile(x)])
  {
    PrefixFacts(c, s, ev, capacity, n);
    GetKeepsPhrases(c, s, ev, capacity);
    GetLeavesFile(c, s, ev, capacity, x, n);
    record := (if n < |Actions(c, s, ev, capacity)| then s.index else IndexAfter(c, s, ev, capacity)).entries[x];
  }

  lemma GetLeavesFile(c: Codec, s: CacheState, ev: Event, capacity: nat, x: Digest, n: nat)
    requires Sound(c, s, capacity) && ev.GetPhrase? && n <= |Actions(c, s, ev, capacity)|
    ensures SameFile(s.disk, Replay(s.disk, Actions(c, s, ev, capacity)[..n]), EntryFile(x))
  {
    forall i | 0 <= i < n ensures !Touches(Actions(c, s, ev, capacity)[i], EntryFile(x)) {
      GetSparesEntries(c, s, ev, capacity, x, i);
    }
    PrefixSpares(s.disk, Actions(c, s, ev, capacity), n, EntryFile(x));
  }

  lemma VictimsOnly(c: Codec, s: CacheState, ev: Event, capacity: nat, x: Digest, a: FsAction)
    requires ev.PutPhrase? && x != ev.digest && x in IndexAfter(c, s, ev, capacity).entries
    requires a in Actions(c, s, ev, capacity)
    ensures !Touches(a, EntryFile(x))
  {
    var entry := Entry(c, ev.phrase);
    var write := WriteAtomic(ev.temp, EntryFile(ev.digest), entry);
    if a !in write {
      var accounted := Accounted(s.index, ev.digest, |entry|);
      var bytes := c.renderIndex(Put(s.index, ev.digest, |entry|, capacity));
      var rest := EvictActions(accounted, capacity) + WriteAtomic(ev.temp', IndexFile, bytes);
      assert a in rest && rest[..|rest|] == rest;
      EvictThenPersist(accounted, capacity, ev.temp', bytes, |rest|, a);
    }
  }

  // ---------------------------------------------------------------------
  // The cache as an object

  /** The least recently used phrase, by one pass over the index. */
  method OldestEntry(entries: map<Digest, Record>) returns (d: Digest)
    requires entries != map[]
    ensures d == LeastRecentlyUsed(entries)
  {
    d := Least(entries.Keys);
    var remaining := entries.Keys - {d};
    while remaining != {}
      invariant d in entries && remaining <= entries.Keys
      invariant forall x :: x in entries && x !in remaining && x != d ==> OlderThan(entries, d, x)
      decreases remaining
    {
      var x := Least(remaining);
      if OlderThan(entries, x, d) { d := x; }
      remaining := remaining - {x};
    }
    assert IsLru(entries, d);
    assert IsLru(entries, LeastRecentlyUsed(entries));
  }

  /** A saturating sum over the index. */
  method AccountedBytes(entries: map<Digest, Record>) returns (total: nat)
    ensures total == TotalBytes(entries)
  {
    total := 0;
    ghost var exact := 0;
    var remaining := entries.Keys;
    while remaining != {}
      invariant remaining <= entries.Keys
      invariant SumBytes(entries) == exact + SumOver(remaining, BytesOf(entries))
      invariant total == Min(exact, U64_MAX)
      decreases remaining
    {
      var d := Least(remaining);
      SumOverRemove(remaining, d, BytesOf(entries));
      total := SaturatingAdd(total, entries[d].bytes);
      exact := exact + entries[d].bytes;
      remaining := remaining - {d};
    }
  }

  /** `evict_to_capacity`: drop the oldest phrase and its file while the index is over budget. */
  method EvictLoop(before: map<Digest, Record>, files: Disk, capacity: nat)
    returns (entries: map<Digest, Record>, disk: Disk)
    ensures entries == Evict(before, capacity)
    ensures disk == Replay(files, EvictActions(before, capacity))
  {
    entries, disk := before, files;
    var total := AccountedBytes(entries);
    while total > capacity && entries != map[]
      invariant total == TotalBytes(entries)
      invariant Evict(before, capacity) == Evict(entries, capacity)
      invariant Replay(files, EvictActions(before, capacity)) == Replay(disk, EvictActions(entries, capacity))
      decreases |entries|
    {
      var d := OldestEntry(entries);
      EvictTurn(entries, capacity, disk, d, entries - {d});
      entries := entries - {d};
      disk := disk - {EntryFile(d)};
      total := AccountedBytes(entries);
    }
  }

  lemma WriteAtomicReplays(disk: Disk, temp: nat, target: FileName, bytes: Bytes)
    ensures
      var d1 := Perform(disk, Create(TempFile(temp)));
      var d2 := Perform(d1, Write(TempFile(temp), bytes));
      Replay(disk, WriteAtomic(temp, target, bytes)) == Perform(d2, Rename(TempFile(temp), target))
  {
    var a := WriteAtomic(temp, target, bytes);
    assert a == [a[0]] + ([a[1]] + ([a[2]] + []));
    ReplayFirst(disk, a[0], [a[1]] + ([a[2]] + []));
    ReplayFirst(Perform(disk, a[0]), a[1], [a[2]] + []);
    ReplayFirst(Perform(Perform(disk, a[0]), a[1]), a[2], []);
  }

  lemma ReplaySnoc(disk: Disk, done: seq<FsAction>, a: FsAction)
    ensures Replay(disk, done + [a]) == Perform(Replay(disk, done), a)
  {
    ReplayConcat(disk, done, [a]);
    assert Replay(Replay(disk, done), [a]) == Replay(Perform(Replay(disk, done), a), []);
  }

  lemma ReplayThree(disk: Disk, a: seq<FsAction>, b: seq<FsAction>, d: seq<FsAction>)
    ensures Replay(disk, a + (b + d)) == Replay(Replay(Replay(disk, a), b), d)
  {
    ReplayConcat(disk, a, b + d);
    ReplayConcat(Replay(disk, a), b, d);
  }

  /** The three phases of a put add up to its action sequence. */
  lemma PutComposes(c: Codec, index: Index, d: Digest, p: CachedPhrase, capacity: nat, temp: nat, temp': nat,
                    disk: Disk, log: seq<FsAction>, write: seq<FsAction>, evict: seq<FsAction>, persist: seq<FsAction>)
    requires Storable(c, p, capacity) && write == WriteAtomic(temp, EntryFile(d), Entry(c, p))
    requires evict == EvictActions(Accounted(index, d, |Entry(c, p)|), capacity)
    requires persist == WriteAtomic(temp', IndexFile, c.renderIndex(Put(index, d, |Entry(c, p)|, capacity)))
    ensures
      var actions := PutActions(c, index, d, p, capacity, temp, temp');
      && Replay(Replay(Replay(disk, write), evict), persist) == Replay(disk, actions)
      && ((log + write) + evict) + persist == log + actions
  {
    ThreeInTurn(disk, log, write, evict, persist);
  }

  lemma ThreeInTurn(disk: Disk, log: seq<FsAction>, a: seq<FsAction>, b: seq<FsAction>, d: seq<FsAction>)
    ensures Replay(Replay(Replay(disk, a), b), d) == Replay(disk, a + (b + d))
    ensures ((log + a) + b) + d == log + (a + (b + d))
  {
    ReplayThree(disk, a, b, d);
    ConcatAssociates(log + a, b, d);
    ConcatAssociates(log, a, b + d);
  }

  lemma OpenComposes(c: Codec, disk: Disk, listing: seq<Digest>, capacity: nat, temp: nat)
    ensures
      var l, o := Load(c, disk, listing), Open(c, disk, listing, capacity, temp);
      Reopened(c, disk, listing, capacity, temp) ==
        Replay(Replay(Replay(disk, l.actions), EvictActions(l.index.entries, capacity)),
               WriteAtomic(temp, IndexFile, c.renderIndex(o.index)))
  {
    var l, o := Load(c, disk, listing), Open(c, disk, listing, capacity, temp);
    var evict := EvictActions(l.index.entries, capacity);
    ReplayConcat(disk, l.actions, evict);
    ReplayConcat(disk, l.actions + evict, WriteAtomic(temp, IndexFile, c.renderIndex(o.index)));
  }

  /** Perform the actions one after the other. */
  method Execute(files: Disk, actions: seq<FsAction>) returns (disk: Disk)
    ensures disk == Replay(files, actions)
  {
    disk := files;
    for i := 0 to |actions|
      invariant Replay(files, actions) == Replay(disk, actions[i..])
    {
      assert actions[i..][0] == actions[i] && actions[i..][1..] == actions[i + 1..];
      disk := Perform(disk, actions[i]);
    }
  }

  datatype AudioError = Processing(reason: string)

  class PhraseCache {
    const codec: Codec
    const capacity: nat
    var entries: map<Digest, Record>
    var nextUse: nat
    var disk: Disk
    ghost var log: seq<FsAction>

    function TheIndex(): Index
      reads this
    {
      Index(entries, nextUse)
    }

    constructor (c: Codec, cap: nat, index: Index, files: Disk)
      ensures codec == c && capacity == cap && TheIndex() == index && disk == files && log == []
    {
      codec, capacity, entries, nextUse, disk, log := c, cap, index.entries, index.nextUse, files, [];
    }

    method Act(a: FsAction)
      modifies this`disk, this`log
      ensures disk == Perform(old(disk), a) && log == old(log) + [a]
    {
      disk := Perform(disk, a);
      log := log + [a];
    }

    method WriteFile(temp: nat, target: FileName, bytes: Bytes)
      modifies this`disk, this`log
      ensures log == old(log) + WriteAtomic(temp, target, bytes)
      ensures disk == Replay(old(disk), WriteAtomic(temp, target, bytes))
    {
      WriteAtomicReplays(disk, temp, target, bytes);
      Act(Create(TempFile(temp)));
      Act(Write(TempFile(temp), bytes));
      Act(Rename(TempFile(temp), target));
    }

    method EvictToCapacity()
      modifies this`entries, this`disk, this`log
      ensures entries == Evict(old(entries), capacity)
      ensures log == old(log) + EvictActions(old(entries), capacity)
      ensures disk == Replay(old(disk), EvictActions(old(entries), capacity))
    {
      log := log + EvictActions(entries, capacity);
      entries, disk := EvictLoop(entries, disk, capacity);
    }

    /** Store one phrase: refused without any effect exactly if it is invalid or exceeds the budget. */
    method Put(d: Digest, p: CachedPhrase, temp: nat, temp': nat) returns (r: Result<(), AudioError>)
      modifies this
      ensures r.Ok? <==> Storable(codec, p, capacity)
      ensures r.Err? ==> TheIndex() == old(TheIndex()) && disk == old(disk) && log == old(log)
      ensures r.Ok? ==>
        && TheIndex() == PhraseIndexes.Put(old(TheIndex()), d, |Entry(codec, p)|, capacity)
        && log == old(log) + PutActions(codec, old(TheIndex()), d, p, capacity, temp, temp')
        && disk == Replay(old(disk), PutActions(codec, old(TheIndex()), d, p, capacity, temp, temp'))
    {
      var encoded := Encode(codec.sha, p);
      if encoded.None? { return Err(Processing("phrase cache received an invalid PCM phrase")); }
      var bytes := |encoded.value|;
      if bytes > capacity { return Err(Processing("phrase is larger than the whole phrase-cache budget")); }
      ghost var index, files, past := TheIndex(), disk, log;
      WriteFile(temp, EntryFile(d), encoded.value);
      nextUse := SaturatingAdd(nextUse, 1);
      entries := entries[d := Record(bytes, nextUse)];
      ghost var evict := EvictActions(entries, capacity);
      EvictToCapacity();
      ghost var persist := WriteAtomic(temp', IndexFile, codec.renderIndex(TheIndex()));
      WriteFile(temp', IndexFile, codec.renderIndex(TheIndex()));
      PutComposes(codec, index, d, p, capacity, temp, temp', files, past,
                  WriteAtomic(temp, EntryFile(d), encoded.value), evict, persist);
      return Ok(());
    }

    /** Look a phrase up; an unreadable entry is forgotten and its file removed. */
    method Get(d: Digest, temp: nat) returns (r: Option<CachedPhrase>)
      modifies this
      ensures r == ReadEntry(codec, old(TheIndex()), old(disk), d)
      ensures TheIndex() == if d in old(entries) then GetIndex(codec, old(TheIndex()), old(disk), d) else old(TheIndex())
      ensures log == old(log) + GetActions(codec, old(TheIndex()), old(disk), d, temp)
      ensures disk == Replay(old(disk), GetActions(codec, old(TheIndex()), old(disk), d, temp))
    {
      if d !in entries { return None; }
      r := if EntryFile(d) in disk then DecodeFile(codec, disk[EntryFile(d)]) else None;
      if r.Some? {
        nextUse := SaturatingAdd(nextUse, 1);
        entries := entries[d := entries[d].(usedAt := nextUse)];
        assert TheIndex() == GetIndex(codec, old(TheIndex()), old(disk), d);
        WriteFile(temp, IndexFile, codec.renderIndex(TheIndex()));
        assert GetActions(codec, old(TheIndex()), old(disk), d, temp)
            == WriteAtomic(temp, IndexFile, codec.renderIndex(TheIndex()));
      } else {
        entries := entries - {d};
        ghost var remove, persist := [Remove(EntryFile(d))], WriteAtomic(temp, IndexFile, codec.renderIndex(TheIndex()));
        Act(Remove(EntryFile(d)));
        WriteFile(temp, IndexFile, codec.renderIndex(TheIndex()));
        ReplayConcat(old(disk), remove, persist);
        ReplaySnoc(old(disk), [], remove[0]);
        assert [] + remove == remove;
        assert GetActions(codec, old(TheIndex()), old(disk), d, temp) == remove + persist;
      }
    }

    /** Open a directory: refused exactly for a zero budget. */
    static method OpenAt(c: Codec, files: Disk, listing: seq<Digest>, cap: nat, temp: nat)
      returns (r: Result<PhraseCache, AudioError>)
      ensures r.Ok? <==> cap != 0
      ensures r.Ok? ==>
        && fresh(r.value) && r.value.codec == c && r.value.capacity == cap
        && r.value.TheIndex() == Open(c, files, listing, cap, temp).index
        && r.value.disk == Reopened(c, files, listing, cap, temp)
    {
      if cap == 0 { return Err(Processing("phrase cache capacity must be positive")); }
      var loaded := Load(c, files, listing);
      var swept := Execute(files, loaded.actions);
      var cache := new PhraseCache(c, cap, loaded.index, swept);
      cache.EvictToCapacity();
      cache.WriteFile(temp, IndexFile, c.renderIndex(cache.TheIndex()));
      OpenComposes(c, files, listing, cap, temp);
      return Ok(cache);
    }
  }
}
