/** UTF-16 code units and the suffix diff of the streaming dictation protocol
    (crates/audio/src/dictation.rs, `diff_operation`; apps/desktop/src/dictation.ts,
    `replace_provisional_tail`). Text on the engine side is a sequence of Unicode
    scalar values, on the buffer side a sequence of code units. */
module Utf16 {
  import opened Collections

  type Unit = x: int | 0 <= x < 0x1_0000
  type Units = seq<Unit>

  function EncodeChar(c: char): (u: Units) {
    var n := c as int;
    if n < 0x1_0000 then [n]
    else [0xD800 + (n - 0x1_0000) / 0x400, 0xDC00 + (n - 0x1_0000) % 0x400]
  }

  function Encode(s: string): Units {
    if s == "" then [] else EncodeChar(s[0]) + Encode(s[1..])
  }

  predicate HighSurrogate(u: Unit) { 0xD800 <= u < 0xDC00 }

  predicate LowSurrogate(u: Unit) { 0xDC00 <= u < 0xE000 }

  /** Cutting `u` at `k` would separate the two halves of a surrogate pair. */
  predicate SplitsPair(u: Units, k: nat) {
    0 < k < |u| && HighSurrogate(u[k - 1]) && LowSurrogate(u[k])
  }

  lemma {:induction false} EncodeConcat(a: string, b: string)
    ensures Encode(a + b) == Encode(a) + Encode(b)
  {
    if a == "" {
      assert a + b == b;
    } else {
      assert (a + b)[1..] == a[1..] + b;
      EncodeConcat(a[1..], b);
    }
  }

  lemma EncodeEmptyIff(s: string)
    ensures Encode(s) == [] <==> s == ""
  {
  }

  /** The encoding of a string starts with a unit that is no low surrogate. */
  lemma FirstUnit(s: string)
    ensures s != "" ==> |Encode(s)| > 0 && !LowSurrogate(Encode(s)[0])
  {
  }

  function PairValue(high: int, low: int): (n: int)
    requires 0xD800 <= high < 0xDC00 && 0xDC00 <= low < 0xE000
    ensures 0x1_0000 <= n < 0x11_0000
  {
    0x1_0000 + (high - 0xD800) * 0x400 + (low - 0xDC00)
  }

  /** Reading code units back as section 3.9 of the Unicode Standard prescribes; nothing for
      units that are no well-formed text. */
  function Decode(u: Units): Option<string> {
    if u == [] then Some("")
    else if HighSurrogate(u[0]) && |u| > 1 && LowSurrogate(u[1]) then
      var rest := Decode(u[2..]);
      if rest.None? then None else Some([PairValue(u[0], u[1]) as char] + rest.value)
    else if HighSurrogate(u[0]) || LowSurrogate(u[0]) then None
    else
      var rest := Decode(u[1..]);
      if rest.None? then None else Some([u[0] as char] + rest.value)
  }

  /** Every text reads back, so no two texts share an encoding. */
  lemma {:induction false} DecodeEncode(s: string)
    ensures Decode(Encode(s)) == Some(s)
  {
    if s != "" {
      DecodeEncode(s[1..]);
      DecodeFirst(s[0], Encode(s[1..]), s[1..]);
      assert s == [s[0]] + s[1..];
    }
  }

  lemma DecodeFirst(c: char, rest: Units, text: string)
    requires Decode(rest) == Some(text)
    ensures Decode(EncodeChar(c) + rest) == Some([c] + text)
  {
    var u := EncodeChar(c) + rest;
    if c as int < 0x1_0000 {
      assert u[1..] == rest;
    } else {
      assert u[2..] == rest;
    }
  }

  lemma ScalarCutSplitsNoPair(s: string, k: nat)
    requires k <= |s|
    ensures |Encode(s[..k])| <= |Encode(s)|
    ensures Encode(s) == Encode(s[..k]) + Encode(s[k..])
    ensures !SplitsPair(Encode(s), |Encode(s[..k])|)
  {
    assert s == s[..k] + s[k..];
    EncodeConcat(s[..k], s[k..]);
    FirstUnit(s[k..]);
  }

  // ---------------------------------------------------------------------
  // The diff

  /** How many leading characters two strings share. */
  function CommonPrefix(a: string, b: string): (k: nat)
    ensures k <= |a| && k <= |b|
  {
    if a == "" || b == "" || a[0] != b[0] then 0 else 1 + CommonPrefix(a[1..], b[1..])
  }

  lemma {:induction false} CommonPrefixIsLongest(a: string, b: string)
    ensures
      var k := CommonPrefix(a, b);
      && a[..k] == b[..k]
      && forall j :: 0 <= j <= |a| && j <= |b| && a[..j] == b[..j] ==> j <= k
  {
    var k := CommonPrefix(a, b);
    if a != "" && b != "" && a[0] == b[0] {
      CommonPrefixIsLongest(a[1..], b[1..]);
      assert a[..k] == [a[0]] + a[1..][..k - 1] && b[..k] == [b[0]] + b[1..][..k - 1];
      forall j | 0 <= j <= |a| && j <= |b| && a[..j] == b[..j] ensures j <= k {
        if j > 0 {
          assert a[1..][..j - 1] == a[..j][1..] && b[1..][..j - 1] == b[..j][1..];
        }
      }
    } else {
      assert forall j :: 0 < j <= |a| && j <= |b| ==> a[..j][0] == a[0] && b[..j][0] == b[0];
    }
  }

  datatype TailEdit = TailEdit(retain: nat, delete: nat, insert: string)

  function Diff(before: string, after: string): TailEdit {
    var k := CommonPrefix(before, after);
    TailEdit(|Encode(after[..k])|, |Encode(before[k..])|, after[k..])
  }

  // JavaScript's `slice(0, n)` and `slice(n)`, which clamp to the length.
  function TakeUnits(u: Units, n: nat): Units { u[..Min(n, |u|)] }

  function DropUnits(u: Units, n: nat): Units { u[Min(n, |u|)..] }

  function ReviseTail(text: Units, retain: nat, delete: nat, insert: Units): Units {
    TakeUnits(text, retain) + insert + DropUnits(text, retain + delete)
  }

  /** Replaying the diff on the encoding of `before` gives the encoding of `after`;
      the cut is a character boundary of both, splits no surrogate pair of either,
      deletes everything behind it, and keeps the longest common character prefix. */
  lemma DiffIsExact(before: string, after: string)
    ensures
      var d, k := Diff(before, after), CommonPrefix(before, after);
      && ReviseTail(Encode(before), d.retain, d.delete, Encode(d.insert)) == Encode(after)
      && d.retain + d.delete == |Encode(before)|
      && d.retain == |Encode(before[..k])| == |Encode(after[..k])|
      && !SplitsPair(Encode(before), d.retain) && !SplitsPair(Encode(after), d.retain)
      && before[..k] == after[..k] && after == before[..k] + d.insert
      && (forall j :: 0 <= j <= |before| && j <= |after| && before[..j] == after[..j] ==> j <= k)
  {
    CommonPrefixIsLongest(before, after);
    CutIsExact(before, after, CommonPrefix(before, after));
    CutIsAtBoundary(before, after, CommonPrefix(before, after));
  }

  lemma CutIsAtBoundary(before: string, after: string, k: nat)
    requires k <= |before| && k <= |after| && before[..k] == after[..k]
    ensures
      var cut := |Encode(after[..k])|;
      && cut == |Encode(before[..k])| && !SplitsPair(Encode(before), cut) && !SplitsPair(Encode(after), cut)
      && after == before[..k] + after[k..]
  {
    ScalarCutSplitsNoPair(before, k);
    ScalarCutSplitsNoPair(after, k);
    assert after == after[..k] + after[k..];
  }

  /** Cutting both strings behind any common prefix works. */
  lemma CutIsExact(before: string, after: string, k: nat)
    requires k <= |before| && k <= |after| && before[..k] == after[..k]
    ensures |Encode(before[..k])| + |Encode(before[k..])| == |Encode(before)|
    ensures ReviseTail(Encode(before), |Encode(after[..k])|, |Encode(before[k..])|, Encode(after[k..])) == Encode(after)
  {
    EncodeConcat(before[..k], before[k..]);
    EncodeConcat(after[..k], after[k..]);
    assert before[..k] + before[k..] == before && after[..k] + after[k..] == after;
    var kept, gone, fresh' := Encode(before[..k]), Encode(before[k..]), Encode(after[k..]);
    assert TakeUnits(kept + gone, |kept|) == kept && DropUnits(kept + gone, |kept| + |gone|) == [];
    assert kept + fresh' + [] == kept + fresh';
  }
}
