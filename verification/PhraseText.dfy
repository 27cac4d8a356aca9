/** An index text that reads back: the round trip assumed of the index file is one that
    some encoding has. */
module PhraseTexts {
  import opened Collections
  import opened PhraseCodec
  import opened PhraseIndexes
  import opened PhraseStores

  /** `n` ones and a zero. */
  function Unary(n: nat): Bytes { seq(n, _ => 1) + [0] }

  lemma UnaryIsPrefixFree(a: nat, b: nat, x: Bytes, y: Bytes)
    requires Unary(a) + x == Unary(b) + y
    ensures a == b && x == y
  {
    var whole := Unary(a) + x;
    assert whole[a] == 0 && forall i :: 0 <= i < a ==> whole[i] == 1;
    assert (Unary(b) + y)[b] == 0 && forall i :: 0 <= i < b ==> (Unary(b) + y)[i] == 1;
    assert whole[a + 1..] == x && (Unary(b) + y)[b + 1..] == y;
  }

  function Numbers(ns: seq<nat>): Bytes { if ns == [] then [] else Unary(ns[0]) + Numbers(ns[1..]) }

  lemma {:induction false} NumbersAreInjective(a: seq<nat>, b: seq<nat>)
    requires Numbers(a) == Numbers(b)
    ensures a == b
    decreases |a|
  {
    if a != [] && b != [] {
      UnaryIsPrefixFree(a[0], b[0], Numbers(a[1..]), Numbers(b[1..]));
      NumbersAreInjective(a[1..], b[1..]);
      assert a == [a[0]] + a[1..] && b == [b[0]] + b[1..];
    }
  }

  function Rows(entries: map<Digest, Record>, keys: seq<Digest>): seq<nat>
    requires forall k :: k in keys ==> k in entries
  {
    if keys == [] then []
    else [keys[0], entries[keys[0]].bytes, entries[keys[0]].usedAt] + Rows(entries, keys[1..])
  }

  lemma {:induction false} RowsAreInjective(
      e: map<Digest, Record>, ks: seq<Digest>, f: map<Digest, Record>, ls: seq<Digest>)
    requires (forall k :: k in ks ==> k in e) && (forall k :: k in ls ==> k in f) && Rows(e, ks) == Rows(f, ls)
    ensures ks == ls && forall k :: k in ks ==> k in f && e[k] == f[k]
    decreases |ks|
  {
    if ks != [] && ls != [] {
      var x, y := Rows(e, ks), Rows(f, ls);
      assert x[0] == ks[0] && x[1] == e[ks[0]].bytes && x[2] == e[ks[0]].usedAt && x[3..] == Rows(e, ks[1..]);
      assert y[0] == ls[0] && y[1] == f[ls[0]].bytes && y[2] == f[ls[0]].usedAt && y[3..] == Rows(f, ls[1..]);
      RowsAreInjective(e, ks[1..], f, ls[1..]);
      assert ks == [ks[0]] + ks[1..] && ls == [ls[0]] + ls[1..];
    }
  }

  /** The clock, then digest, size and last use of every phrase in digest order. */
  function Text(index: Index): Bytes {
    Numbers([index.nextUse] + Rows(index.entries, Ascending(index.entries.Keys)))
  }

  lemma TextIsInjective(a: Index, b: Index)
    requires Text(a) == Text(b)
    ensures a == b
  {
    var ks, ls := Ascending(a.entries.Keys), Ascending(b.entries.Keys);
    var x, y := Rows(a.entries, ks), Rows(b.entries, ls);
    NumbersAreInjective([a.nextUse] + x, [b.nextUse] + y);
    assert ([a.nextUse] + x)[0] == a.nextUse && ([a.nextUse] + x)[1..] == x;
    assert ([b.nextUse] + y)[0] == b.nextUse && ([b.nextUse] + y)[1..] == y;
    RowsAreInjective(a.entries, ks, b.entries, ls);
    assert forall d :: d in a.entries <==> d in ks;
    assert forall d :: d in b.entries <==> d in ls;
    assert a.entries == b.entries;
  }

  ghost function Parse(text: Bytes): Option<Index> {
    if exists i :: Text(i) == text then
      var i :| Text(i) == text;
      Some(i)
    else None
  }

  /** For every hash there is a codec with the round trip the cache relies on. */
  lemma LawfulCodecExists(sha: Sha256) returns (c: Codec)
    ensures c.sha == sha && Lawful(c)
  {
    c := Codec(sha, i => Text(i), t => Parse(t));
    forall i ensures c.parseIndex(c.renderIndex(i)) == Some(i) {
      var t := Text(i);
      assert exists k :: Text(k) == t;
      var j := Parse(t).value;
      assert Text(j) == t;
      TextIsInjective(i, j);
    }
  }
}
