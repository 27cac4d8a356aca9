/** Edit operations, and the in-app buffer that replays them
    (apps/desktop/src/dictation.ts, `InAppDictationBuffer`). */
module DictationBuffers {
  import opened Collections
  import opened Utf16

  datatype DictationMode = Natural | Literal | Code

  datatype Occurrence = First | Last | All

  datatype Formatting = Bold | Heading(level: nat) | BulletedList | NumberedList

  datatype EditOperation =
    | ReplaceProvisionalTail(transactionId: nat, retain: nat, delete: nat, insert: string, stablePrefix: nat)
    | CommitTransaction(transactionId: nat)
    | DeleteLastUtterance(expected: string, utf16Len: nat)
    | Undo
    | ReplaceLiteral(find: string, replacement: string, occurrence: Occurrence)
    | InsertRelative(anchor: string, text: string, before: bool, occurrence: Occurrence)
    | InsertText(text: string)
    | FormatLastUtterance(target: Option<string>, formatting: Formatting)
    | ChangeIndent(levels: int)
    | SetMode(mode: DictationMode)

  // `markdownFormat` and the white space `trimStart` removes are parameters of the model.
  datatype Platform = Platform(markdown: (Units, Formatting) -> Units, isSpace: Unit -> bool)

  datatype Transaction = Transaction(start: nat, text: Units, undoSnapshot: Units)

  datatype Buffer = Buffer(value: Units, transactions: map<nat, Transaction>, undo: seq<Units>) {
    /** `#rememberUndo`: push the value unless it is already on top. */
    function Remembered(): Buffer {
      if undo != [] && undo[|undo| - 1] == value then this else this.(undo := undo + [value])
    }
  }

  // ---------------------------------------------------------------------
  // Searching

  predicate OccursAt(u: Units, x: Units, i: nat) { i + |x| <= |u| && u[i..i + |x|] == x }

  /** The last position not above `from` at which `x` occurs, or -1. */
  function LastIndexFrom(u: Units, x: Units, from: nat): (r: int)
    ensures -1 <= r <= from
    ensures r >= 0 ==> OccursAt(u, x, r)
    ensures forall i :: r < i <= from ==> !OccursAt(u, x, i)
  {
    if OccursAt(u, x, from) then from else if from == 0 then -1 else LastIndexFrom(u, x, from - 1)
  }

  /** JavaScript's `lastIndexOf`. */
  function LastIndexOf(u: Units, x: Units): (r: int)
    ensures r >= 0 ==> OccursAt(u, x, r)
    ensures forall i :: i > r && i >= 0 ==> !OccursAt(u, x, i)
  {
    LastIndexFrom(u, x, |u|)
  }

  /** The first position from `from` on at which `x` occurs, or -1. */
  function FirstIndexFrom(u: Units, x: Units, from: nat): (r: int)
    requires from <= |u|
    ensures r == -1 || (from <= r && OccursAt(u, x, r))
    ensures forall i :: from <= i && (r == -1 || i < r) ==> !OccursAt(u, x, i)
    decreases |u| - from
  {
    if OccursAt(u, x, from) then from else if from == |u| then -1 else FirstIndexFrom(u, x, from + 1)
  }

  /** JavaScript's `split`: the pieces between the occurrences found from left to right. */
  function Split(u: Units, find: Units): (parts: seq<Units>)
    requires find != []
    ensures parts != []
    decreases |u|
  {
    var i := FirstIndexFrom(u, find, 0);
    if i < 0 then [u] else [u[..i]] + Split(u[i + |find|..], find)
  }

  function Join(parts: seq<Units>, separator: Units): Units {
    if parts == [] then [] else if |parts| == 1 then parts[0] else parts[0] + separator + Join(parts[1..], separator)
  }

  function ReplaceOccurrence(u: Units, find: Units, replacement: Units, occurrence: Occurrence): Units {
    if find == [] then u
    else if occurrence == All then Join(Split(u, find), replacement)
    else
      var start := if occurrence == First then FirstIndexFrom(u, find, 0) else LastIndexOf(u, find);
      if start < 0 then u else u[..start] + replacement + u[start + |find|..]
  }

  /** No occurrence of `x` anywhere in `u`. */
  ghost predicate Free(u: Units, x: Units) { forall i: nat :: !OccursAt(u, x, i) }

  lemma {:induction false} JoinUndoesSplit(u: Units, find: Units)
    requires find != []
    ensures Join(Split(u, find), find) == u
    decreases |u|
  {
    var i := FirstIndexFrom(u, find, 0);
    if i >= 0 {
      var rest := u[i + |find|..];
      JoinUndoesSplit(rest, find);
      JoinFirst(u[..i], Split(rest, find), find);
      assert u == u[..i] + find + rest;
    }
  }

  lemma JoinFirst(first: Units, rest: seq<Units>, separator: Units)
    requires rest != []
    ensures Join([first] + rest, separator) == first + separator + Join(rest, separator)
  {
    assert ([first] + rest)[1..] == rest;
  }

  /** The pieces put back together with what was searched for are the text, and none of them
      contains it: replacing all occurrences misses none and changes nothing else. */
  lemma {:induction false} SplitIsExact(u: Units, find: Units, k: nat)
    requires find != [] && k < |Split(u, find)|
    ensures Join(Split(u, find), find) == u && Free(Split(u, find)[k], find)
    decreases |u|
  {
    JoinUndoesSplit(u, find);
    var i := FirstIndexFrom(u, find, 0);
    if i < 0 {
      assert Split(u, find) == [u];
    } else {
      var rest := u[i + |find|..];
      assert Split(u, find) == [u[..i]] + Split(rest, find);
      if k == 0 {
        PrefixIsFree(u, find, i);
      } else {
        SplitIsExact(rest, find, k - 1);
      }
    }
  }

  lemma PrefixIsFree(u: Units, x: Units, n: nat)
    requires x != [] && n <= |u| && forall i :: 0 <= i < n ==> !OccursAt(u, x, i)
    ensures Free(u[..n], x)
  {
    forall i: nat ensures !OccursAt(u[..n], x, i) {
      if OccursAt(u[..n], x, i) {
        assert u[i..i + |x|] == u[..n][i..i + |x|];
        assert OccursAt(u, x, i);
      }
    }
  }

  /** `i` is where a replacement of one occurrence happens: the first or the last there is. */
  ghost predicate Chosen(u: Units, find: Units, occurrence: Occurrence, i: nat) {
    && OccursAt(u, find, i)
    && (occurrence == First ==> forall k: nat :: k < i ==> !OccursAt(u, find, k))
    && (occurrence == Last ==> forall k: nat :: k > i ==> !OccursAt(u, find, k))
  }

  /** Replacing one occurrence replaces exactly the chosen one, and nothing if there is none. */
  lemma ReplacesExactlyOne(u: Units, find: Units, replacement: Units, occurrence: Occurrence, i: nat)
    requires find != [] && occurrence != All
    ensures Free(u, find) ==> ReplaceOccurrence(u, find, replacement, occurrence) == u
    ensures Chosen(u, find, occurrence, i) ==>
              ReplaceOccurrence(u, find, replacement, occurrence) == u[..i] + replacement + u[i + |find|..]
  {
    var start := if occurrence == First then FirstIndexFrom(u, find, 0) else LastIndexOf(u, find);
    assert start >= 0 ==> OccursAt(u, find, start);
  }

  // ---------------------------------------------------------------------
  // Applying one operation

  const SPACE: Unit := 0x20
  const NEWLINE: Unit := 0x0A

  function Spaces(n: nat): Units { seq(n, _ => SPACE) }

  function LeadingSpace(p: Platform, line: Units): nat
    ensures LeadingSpace(p, line) <= |line|
  {
    if line == [] || !p.isSpace(line[0]) then 0 else 1 + LeadingSpace(p, line[1..])
  }

  function Indented(p: Platform, u: Units, levels: int): Units {
    var lineStart := LastIndexOf(u, [NEWLINE]) + 1;
    var line := u[lineStart..];
    if levels > 0 then u[..lineStart] + Spaces(4 * levels) + line
    else u[..lineStart] + line[Min(LeadingSpace(p, line), 4 * -levels)..]
  }

  function ApplyOne(p: Platform, b: Buffer, op: EditOperation): Buffer {
    match op
    case ReplaceProvisionalTail(id, retain, delete, insert, _) =>
      var txn := if id in b.transactions then b.transactions[id] else Transaction(|b.value|, [], b.value);
      var revised := ReviseTail(txn.text, retain, delete, Encode(insert));
      b.(value := TakeUnits(b.value, txn.start) + revised + DropUnits(b.value, txn.start + |txn.text|),
         transactions := b.transactions[id := txn.(text := revised)])
    case CommitTransaction(id) =>
      var undo := if id in b.transactions && b.transactions[id].undoSnapshot != b.value
                  then b.undo + [b.transactions[id].undoSnapshot] else b.undo;
      b.(undo := undo, transactions := b.transactions - {id})
    case DeleteLastUtterance(expected, utf16Len) =>
      var start := LastIndexOf(b.value, Encode(expected));
      if start < 0 then b.Remembered()
      else b.Remembered().(value := b.value[..start] + DropUnits(b.value, start + utf16Len))
    case Undo =>
      if b.undo == [] then b.(transactions := map[])
      else Buffer(b.undo[|b.undo| - 1], map[], b.undo[..|b.undo| - 1])
    case ReplaceLiteral(find, replacement, occurrence) =>
      b.Remembered().(value := ReplaceOccurrence(b.value, Encode(find), Encode(replacement), occurrence))
    case InsertRelative(anchor, text, before, occurrence) =>
      var addition := if before then text + " " + anchor else anchor + " " + text;
      b.Remembered().(value := ReplaceOccurrence(b.value, Encode(anchor), Encode(addition), occurrence))
    case InsertText(text) =>
      b.Remembered().(value := b.value + Encode(text))
    case FormatLastUtterance(target, formatting) =>
      if target.None? || target.value == "" then b
      else
        var expected := Encode(target.value);
        b.Remembered().(value := ReplaceOccurrence(b.value, expected, p.markdown(expected, formatting), Last))
    case ChangeIndent(levels) =>
      b.Remembered().(value := Indented(p, b.value, levels))
    case SetMode(_) => b
  }

  /** `sync`: a keyboard edit, which makes provisional ranges and the undo history meaningless. */
  function Synced(b: Buffer, v: Units): Buffer { if v == b.value then b else Buffer(v, map[], []) }

  function ApplyAll(p: Platform, b: Buffer, ops: seq<EditOperation>): Buffer
    decreases |ops|
  {
    if ops == [] then b else ApplyAll(p, ApplyOne(p, b, ops[0]), ops[1..])
  }

  lemma {:induction false} ApplyAllConcat(p: Platform, b: Buffer, a: seq<EditOperation>, c: seq<EditOperation>)
    ensures ApplyAll(p, b, a + c) == ApplyAll(p, ApplyAll(p, b, a), c)
    decreases |a|
  {
    if a == [] {
      assert a + c == c;
    } else {
      assert (a + c)[1..] == a[1..] + c;
      ApplyAllConcat(p, ApplyOne(p, b, a[0]), a[1..], c);
    }
  }

  /** Deleting the last occurrence of a suffix removes that suffix. */
  lemma LastIndexOfSuffix(base: Units, x: Units)
    ensures LastIndexOf(base + x, x) == |base|
  {
    assert (base + x)[|base|..|base| + |x|] == x;
    assert OccursAt(base + x, x, |base|);
    assert forall i :: i > |base| ==> !OccursAt(base + x, x, i);
  }

  /** Replacing one occurrence of a phrase puts the replacement in its place and leaves the rest of
      the document; a document without the phrase stays as it is. */
  lemma ReplaceLiteralReplacesOne(p: Platform, b: Buffer, find: string, replacement: string, occurrence: Occurrence, i: nat)
    requires find != "" && occurrence != All
    ensures
      var n := ApplyOne(p, b, ReplaceLiteral(find, replacement, occurrence));
      && (Chosen(b.value, Encode(find), occurrence, i) ==>
            n.value == b.value[..i] + Encode(replacement) + b.value[i + |Encode(find)|..])
      && (Free(b.value, Encode(find)) ==> n.value == b.value)
  {
    EncodeEmptyIff(find);
    ReplacesExactlyOne(b.value, Encode(find), Encode(replacement), occurrence, i);
  }

  /** Replacing all occurrences replaces the first there is and all in the text behind it. */
  lemma ReplaceLiteralReplacesAll(p: Platform, b: Buffer, find: string, replacement: string, i: nat)
    requires find != "" && Chosen(b.value, Encode(find), First, i)
    ensures ApplyOne(p, b, ReplaceLiteral(find, replacement, All)).value
            == b.value[..i] + Encode(replacement)
               + ReplaceOccurrence(b.value[i + |Encode(find)|..], Encode(find), Encode(replacement), All)
  {
    EncodeEmptyIff(find);
    ReplacesFirstOfAll(b.value, Encode(find), Encode(replacement), i);
  }

  lemma ReplacesFirstOfAll(u: Units, find: Units, replacement: Units, i: nat)
    requires find != [] && Chosen(u, find, First, i)
    ensures ReplaceOccurrence(u, find, replacement, All)
            == u[..i] + replacement + ReplaceOccurrence(u[i + |find|..], find, replacement, All)
  {
    assert FirstIndexFrom(u, find, 0) == i;
    JoinFirst(u[..i], Split(u[i + |find|..], find), replacement);
  }

  /** Where there is nothing to replace, nothing is, whichever occurrence was meant. */
  lemma NothingToReplace(p: Platform, b: Buffer, find: string, replacement: string, occurrence: Occurrence)
    requires Free(b.value, Encode(find))
    ensures ApplyOne(p, b, ReplaceLiteral(find, replacement, occurrence)).value == b.value
  {
    if find != "" {
      EncodeEmptyIff(find);
      assert FirstIndexFrom(b.value, Encode(find), 0) == -1;
    }
  }

  /** Formatting rewrites the last place where the utterance stands. */
  lemma FormatRewritesLast(p: Platform, b: Buffer, target: string, formatting: Formatting, i: nat)
    requires target != "" && Chosen(b.value, Encode(target), Last, i)
    ensures ApplyOne(p, b, FormatLastUtterance(Some(target), formatting)).value
            == b.value[..i] + p.markdown(Encode(target), formatting) + b.value[i + |Encode(target)|..]
  {
    EncodeEmptyIff(target);
    ReplacesExactlyOne(b.value, Encode(target), p.markdown(Encode(target), formatting), Last, i);
  }

  /** `line` is the last line of the document and `head` all before it. */
  ghost predicate LastLine(head: Units, line: Units) {
    && (head == [] || head[|head| - 1] == NEWLINE)
    && forall i :: 0 <= i < |line| ==> line[i] != NEWLINE
  }

  lemma LastLineStart(head: Units, line: Units)
    requires LastLine(head, line)
    ensures LastIndexOf(head + line, [NEWLINE]) + 1 == |head|
  {
    var u := head + line;
    if head != [] {
      assert u[|head| - 1..|head|] == [NEWLINE];
      assert OccursAt(u, [NEWLINE], |head| - 1);
    }
    forall i: nat | i >= |head| ensures !OccursAt(u, [NEWLINE], i) {
      assert i < |u| ==> u[i..i + 1] == [u[i]] && u[i] == line[i - |head|];
    }
  }

  /** Indenting puts four spaces a level before the last line. */
  lemma IndentMovesLine(p: Platform, b: Buffer, head: Units, line: Units, levels: int)
    requires b.value == head + line && LastLine(head, line) && levels > 0
    ensures ApplyOne(p, b, ChangeIndent(levels)).value == head + Spaces(4 * levels) + line
  {
    LastLineStart(head, line);
  }

  /** Outdenting takes away at most four leading spaces a level, and nothing else. */
  lemma OutdentMovesLine(p: Platform, b: Buffer, head: Units, pad: Units, rest: Units, levels: int)
    requires b.value == head + (pad + rest) && LastLine(head, pad + rest) && levels >= 0
    requires (forall i :: 0 <= i < |pad| ==> p.isSpace(pad[i])) && (rest == [] || !p.isSpace(rest[0]))
    ensures ApplyOne(p, b, ChangeIndent(-levels)).value == head + (pad[Min(|pad|, 4 * levels)..] + rest)
  {
    LastLineStart(head, pad + rest);
    LeadingSpaceIs(p, pad, rest);
    LineWithout(b.value, head, pad, rest, Min(|pad|, 4 * levels));
    assert b.value[|head|..] == pad + rest && b.value[..|head|] == head;
    assert ApplyOne(p, b, ChangeIndent(-levels)).value == Indented(p, b.value, -levels);
  }

  lemma LineWithout(u: Units, head: Units, pad: Units, rest: Units, n: nat)
    requires u == head + (pad + rest) && n <= |pad|
    ensures u[..|head|] + u[|head|..][n..] == head + (pad[n..] + rest)
  {
    assert u[|head|..] == pad + rest && (pad + rest)[n..] == pad[n..] + rest;
  }

  lemma {:induction false} LeadingSpaceIs(p: Platform, pad: Units, rest: Units)
    requires (forall i :: 0 <= i < |pad| ==> p.isSpace(pad[i])) && (rest == [] || !p.isSpace(rest[0]))
    ensures LeadingSpace(p, pad + rest) == |pad|
  {
    if pad == [] {
      assert pad + rest == rest;
    } else {
      assert (pad + rest)[1..] == pad[1..] + rest;
      LeadingSpaceIs(p, pad[1..], rest);
    }
  }

  /** Inserting before an anchor leaves all text as it was and adds the new text, and one space,
      directly before the chosen occurrence of the anchor. */
  lemma InsertBeforeOnlyAdds(p: Platform, b: Buffer, anchor: string, text: string, occurrence: Occurrence, i: nat)
    requires anchor != "" && occurrence != All && Chosen(b.value, Encode(anchor), occurrence, i)
    ensures ApplyOne(p, b, InsertRelative(anchor, text, true, occurrence)).value
            == b.value[..i] + Encode(text + " ") + b.value[i..]
  {
    EncodeEmptyIff(anchor);
    InsertionReplaces(p, b, anchor, text, true, occurrence, text + " " + anchor);
    EncodeConcat(text + " ", anchor);
    AddBefore(b.value, Encode(anchor), Encode(text + " "), occurrence, i);
  }

  /** Inserting after an anchor adds one space and the new text directly behind it. */
  lemma InsertAfterOnlyAdds(p: Platform, b: Buffer, anchor: string, text: string, occurrence: Occurrence, i: nat)
    requires anchor != "" && occurrence != All && Chosen(b.value, Encode(anchor), occurrence, i)
    ensures ApplyOne(p, b, InsertRelative(anchor, text, false, occurrence)).value
            == b.value[..i + |Encode(anchor)|] + Encode(" " + text) + b.value[i + |Encode(anchor)|..]
  {
    EncodeEmptyIff(anchor);
    InsertionReplaces(p, b, anchor, text, false, occurrence, anchor + " " + text);
    ConcatAssociates(anchor, " ", text);
    EncodeConcat(anchor, " " + text);
    AddAfter(b.value, Encode(anchor), Encode(" " + text), occurrence, i);
  }

  lemma InsertionReplaces(
      p: Platform, b: Buffer, anchor: string, text: string, before: bool, occurrence: Occurrence, addition: string)
    requires addition == if before then text + " " + anchor else anchor + " " + text
    ensures ApplyOne(p, b, InsertRelative(anchor, text, before, occurrence)).value
            == ReplaceOccurrence(b.value, Encode(anchor), Encode(addition), occurrence)
  {
  }

  lemma AddBefore(u: Units, a: Units, t: Units, occurrence: Occurrence, i: nat)
    requires a != [] && occurrence != All && Chosen(u, a, occurrence, i)
    ensures ReplaceOccurrence(u, a, t + a, occurrence) == u[..i] + t + u[i..]
  {
    ReplacesExactlyOne(u, a, t + a, occurrence, i);
    assert u[i..] == a + u[i + |a|..];
    ConcatAssociates(u[..i], t, a);
    ConcatAssociates(u[..i] + t, a, u[i + |a|..]);
  }

  lemma AddAfter(u: Units, a: Units, t: Units, occurrence: Occurrence, i: nat)
    requires a != [] && occurrence != All && Chosen(u, a, occurrence, i)
    ensures ReplaceOccurrence(u, a, a + t, occurrence) == u[..i + |a|] + t + u[i + |a|..]
  {
    ReplacesExactlyOne(u, a, a + t, occurrence, i);
    assert u[..i + |a|] == u[..i] + a;
    ConcatAssociates(u[..i], a, t);
  }

  /** Outdenting by as many levels undoes indenting. */
  lemma OutdentUndoesIndent(p: Platform, u: Units, levels: int)
    requires levels > 0 && p.isSpace(SPACE)
    ensures Indented(p, Indented(p, u, levels), -levels) == u
  {
    var start := LastIndexOf(u, [NEWLINE]) + 1;
    var line, pad := u[start..], Spaces(4 * levels);
    var v := u[..start] + (pad + line);
    LineHasNoBreak(u, start);
    ConcatAssociates(u[..start], pad, line);
    assert Indented(p, u, levels) == v;
    LineStartsAt(u, v, start, pad + line);
    LeadingSpaceOfPadded(p, 4 * levels, line);
    Unpadded(u, start, pad, line, v);
    Outdented(p, v, start, levels);
  }

  lemma Outdented(p: Platform, v: Units, start: nat, levels: int)
    requires levels > 0 && LastIndexOf(v, [NEWLINE]) + 1 == start <= |v| && LeadingSpace(p, v[start..]) >= 4 * levels
    ensures Indented(p, v, -levels) == v[..start] + v[start..][4 * levels..]
  {
  }

  lemma Unpadded(u: Units, start: nat, pad: Units, line: Units, v: Units)
    requires start <= |u| && line == u[start..] && v == u[..start] + (pad + line)
    ensures v[start..] == pad + line && v[..start] + v[start..][|pad|..] == u
  {
    assert (pad + line)[|pad|..] == line;
  }

  lemma LineHasNoBreak(u: Units, start: nat)
    requires start == LastIndexOf(u, [NEWLINE]) + 1
    ensures start <= |u| && forall i :: start <= i < |u| ==> u[i] != NEWLINE
  {
    forall i | start <= i < |u| ensures u[i] != NEWLINE {
      assert !OccursAt(u, [NEWLINE], i);
      assert u[i..i + 1] == [u[i]];
    }
  }

  /** Text after the last line break that contains none itself keeps the line where it starts. */
  lemma LineStartsAt(u: Units, v: Units, start: nat, line: Units)
    requires start == LastIndexOf(u, [NEWLINE]) + 1 <= |u| && v == u[..start] + line
    requires forall i :: 0 <= i < |line| ==> line[i] != NEWLINE
    ensures LastIndexOf(v, [NEWLINE]) + 1 == start
  {
    if start > 0 {
      assert OccursAt(u, [NEWLINE], start - 1);
      assert v[start - 1..start] == u[start - 1..start];
      assert OccursAt(v, [NEWLINE], start - 1);
    }
    forall i: nat | i >= start ensures !OccursAt(v, [NEWLINE], i) {
      assert i < |v| ==> v[i..i + 1] == [v[i]] && v[i] == line[i - start];
    }
  }

  lemma {:induction false} LeadingSpaceOfPadded(p: Platform, n: nat, line: Units)
    requires p.isSpace(SPACE)
    ensures LeadingSpace(p, Spaces(n) + line) >= n
  {
    if n > 0 {
      assert (Spaces(n) + line)[1..] == Spaces(n - 1) + line;
      LeadingSpaceOfPadded(p, n - 1, line);
    }
  }

  // ---------------------------------------------------------------------
  // Undo

  /** The operations that put the text on the undo stack before they change it. */
  predicate Remembers(op: EditOperation) {
    || op.DeleteLastUtterance? || op.ReplaceLiteral? || op.InsertRelative? || op.InsertText? || op.ChangeIndent?
    || (op.FormatLastUtterance? && op.target.Some? && op.target.value != "")
  }

  /** Undo takes back exactly one edit, whatever it did; repeating an edit of the same text
      does not stack up a second copy. */
  lemma UndoRestores(p: Platform, b: Buffer, op: EditOperation)
    requires Remembers(op)
    ensures
      var n := ApplyOne(p, ApplyOne(p, b, op), Undo);
      && n.value == b.value
      && n.undo == if b.undo != [] && b.undo[|b.undo| - 1] == b.value then b.undo[..|b.undo| - 1] else b.undo
  {
    EditRemembers(p, b, op);
    UndoPops(p, ApplyOne(p, b, op));
  }

  lemma EditRemembers(p: Platform, b: Buffer, op: EditOperation)
    requires Remembers(op)
    ensures ApplyOne(p, b, op).undo == b.Remembered().undo
  {
  }

  lemma UndoPops(p: Platform, b: Buffer)
    requires b.undo != []
    ensures ApplyOne(p, b, Undo) == Buffer(b.undo[|b.undo| - 1], map[], b.undo[..|b.undo| - 1])
  {
  }

  /** Nothing but an edit, a commit or an undo changes the undo stack, and of these others only a
      revision of provisional text changes anything at all. */
  lemma OthersRememberNothing(p: Platform, b: Buffer, op: EditOperation)
    requires !Remembers(op) && !op.Undo? && !op.CommitTransaction?
    ensures ApplyOne(p, b, op).undo == b.undo
    ensures !op.ReplaceProvisionalTail? ==> ApplyOne(p, b, op) == b
  {
  }

  /** Committed or restored text is out of reach of later revisions: they only append. */
  lemma SealedTextIsKept(
      p: Platform, b: Buffer, op: EditOperation, id: nat, retain: nat, delete: nat, insert: string, stable: nat)
    requires op == Undo || op == CommitTransaction(id)
    ensures
      var n := ApplyOne(p, b, op);
      ApplyOne(p, n, ReplaceProvisionalTail(id, retain, delete, insert, stable)).value == n.value + Encode(insert)
  {
    var n := ApplyOne(p, b, op);
    assert id !in n.transactions;
    assert ReviseTail([], retain, delete, Encode(insert)) == Encode(insert);
    assert TakeUnits(n.value, |n.value|) == n.value && DropUnits(n.value, |n.value|) == [];
  }

  /** Undo never takes back what was typed. */
  lemma UndoLeavesTyping(p: Platform, b: Buffer, v: Units)
    requires v != b.value
    ensures ApplyOne(p, Synced(b, v), Undo).value == v
  {
  }

  /** Undo after a commit takes the text back to where the transaction found it. */
  lemma UndoRevertsCommit(p: Platform, b: Buffer, id: nat)
    requires id in b.transactions && b.transactions[id].undoSnapshot != b.value
    ensures
      var n := ApplyOne(p, ApplyOne(p, b, CommitTransaction(id)), Undo);
      n.value == b.transactions[id].undoSnapshot && n.undo == b.undo
  {
  }

  // ---------------------------------------------------------------------
  // The buffer as an object

  class InAppDictationBuffer {
    const platform: Platform
    var value: Units
    var transactions: map<nat, Transaction>
    var undo: seq<Units>

    function State(): Buffer
      reads this
    {
      Buffer(value, transactions, undo)
    }

    constructor (p: Platform, initial: Units)
      ensures platform == p && State() == Buffer(initial, map[], [])
    {
      platform, value, transactions, undo := p, initial, map[], [];
    }

    /** Keyboard edits invalidate provisional ranges and the undo history. */
    method Sync(v: Units)
      modifies this
      ensures State() == Synced(old(State()), v)
    {
      if v == value { return; }
      value, transactions, undo := v, map[], [];
    }

    method RememberUndo()
      modifies this`undo
      ensures State() == old(State()).Remembered()
    {
      if undo == [] || undo[|undo| - 1] != value { undo := undo + [value]; }
    }

    /** The provisional text of a transaction is revised where it stands. */
    method ReviseProvisional(op: EditOperation)
      requires op.ReplaceProvisionalTail?
      modifies this`value, this`transactions
      ensures State() == ApplyOne(platform, old(State()), op)
    {
      var id := op.transactionId;
      var txn := if id in transactions then transactions[id] else Transaction(|value|, [], value);
      var retained := TakeUnits(txn.text, op.retain);
      var afterDeleted := DropUnits(txn.text, op.retain + op.delete);
      var revised := retained + Encode(op.insert) + afterDeleted;
      value := TakeUnits(value, txn.start) + revised + DropUnits(value, txn.start + |txn.text|);
      transactions := transactions[id := txn.(text := revised)];
    }

    method ApplyOperation(op: EditOperation)
      modifies this
      ensures State() == ApplyOne(platform, old(State()), op)
    {
      match op
      case ReplaceProvisionalTail(_, _, _, _, _) =>
        ReviseProvisional(op);
      case CommitTransaction(id) =>
        if id in transactions && transactions[id].undoSnapshot != value {
          undo := undo + [transactions[id].undoSnapshot];
        }
        transactions := transactions - {id};
      case DeleteLastUtterance(expected, utf16Len) =>
        RememberUndo();
        var start := LastIndexOf(value, Encode(expected));
        if start >= 0 { value := value[..start] + DropUnits(value, start + utf16Len); }
      case Undo =>
        if undo != [] { value, undo := undo[|undo| - 1], undo[..|undo| - 1]; }
        transactions := map[];
      case ReplaceLiteral(find, replacement, occurrence) =>
        RememberUndo();
        value := ReplaceOccurrence(value, Encode(find), Encode(replacement), occurrence);
      case InsertRelative(anchor, text, before, occurrence) =>
        RememberUndo();
        var addition := if before then text + " " + anchor else anchor + " " + text;
        value := ReplaceOccurrence(value, Encode(anchor), Encode(addition), occurrence);
      case InsertText(text) =>
        RememberUndo();
        value := value + Encode(text);
      case FormatLastUtterance(target, formatting) =>
        if target.None? || target.value == "" { return; }
        RememberUndo();
        var expected := Encode(target.value);
        value := ReplaceOccurrence(value, expected, platform.markdown(expected, formatting), Last);
      case ChangeIndent(levels) =>
        RememberUndo();
        value := Indented(platform, value, levels);
      case SetMode(_) =>
    }

    method Apply(ops: seq<EditOperation>) returns (v: Units)
      modifies this
      ensures State() == ApplyAll(platform, old(State()), ops) && v == value
    {
      for i := 0 to |ops|
        invariant ApplyAll(platform, old(State()), ops) == ApplyAll(platform, State(), ops[i..])
      {
        assert ops[i..][0] == ops[i] && ops[i..][1..] == ops[i + 1..];
        ApplyOperation(ops[i]);
      }
      return value;
    }
  }
}
