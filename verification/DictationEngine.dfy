/** The streaming dictation engine (crates/audio/src/dictation.rs, `DictationEngine`). */
module DictationEngines {
  import opened Collections
  import opened Utf16
  import opened DictationBuffers

  const U64_MAX: nat := 0xFFFF_FFFF_FFFF_FFFF

  const STABILITY_OBSERVATIONS: nat := 2

  datatype ParsedControl = ParsedControl(visibleText: Option<string>, operations: seq<EditOperation>)

  // Trimming, the spoken-command grammar, spoken-text rendering, word splitting and
  // the Unicode white space property are parameters of the model.
  datatype Speech = Speech(
    trim: string -> string,
    parse: string -> Option<ParsedControl>,
    render: (string, DictationMode) -> string,
    words: string -> seq<string>,
    isSpace: char -> bool)

  datatype Transcript = Transcript(text: string, finalResult: bool)

  datatype Stability = Stable | Unstable

  datatype Token = Token(text: string, stability: Stability)

  datatype Update = Update(
    transactionId: nat,
    mode: DictationMode,
    tokens: seq<Token>,
    renderedText: string,
    finalResult: bool,
    operations: seq<EditOperation>)

  datatype DictationError = InvalidInput

  datatype Engine = Engine(
    mode: DictationMode,
    transactionId: nat,
    prefix: string,
    priorRendered: string,
    priorTokens: seq<string>,
    runs: seq<nat>,
    committed: seq<string>,
    suppressNextSeparator: bool)

  function NewEngine(mode: DictationMode): Engine { Engine(mode, 1, "", "", [], [], [], false) }

  // ---------------------------------------------------------------------
  // Pieces of one update

  function Control(sp: Speech, event: Transcript): Option<ParsedControl> {
    if event.finalResult then sp.parse(sp.trim(event.text)) else None
  }

  function DisplayText(sp: Speech, e: Engine, event: Transcript): string {
    var control := Control(sp, event);
    if control.None? then sp.render(sp.trim(event.text), e.mode)
    else if control.value.visibleText.Some? then control.value.visibleText.value
    else ""
  }

  /** The separator before a new utterance; a pending suppression is used up. */
  function SeparatorFor(sp: Speech, e: Engine, next: string): (string, Engine) {
    if e.suppressNextSeparator then ("", e.(suppressNextSeparator := false))
    else
      var last := if e.committed == [] then "" else e.committed[|e.committed| - 1];
      var opens := last == "" || sp.isSpace(last[|last| - 1]) || last[|last| - 1] in "([{/'\"";
      var closes := next != "" && (sp.isSpace(next[0]) || next[0] in ".,?!:;)]}");
      (if opens || closes then "" else " ", e)
  }

  /** Choose the transaction prefix when its first visible text arrives. */
  function Prefixed(sp: Speech, e: Engine, event: Transcript): Engine {
    var display := DisplayText(sp, e, event);
    if Control(sp, event).None? && e.priorRendered == "" && display != "" then
      var (separator, next) := SeparatorFor(sp, e, display);
      next.(prefix := separator)
    else e
  }

  function SaturatingU8(n: nat): nat { Min(n, 255) }

  function NextRuns(priorTokens: seq<string>, priorRuns: seq<nat>, words: seq<string>): seq<nat> {
    seq(|words|, i requires 0 <= i < |words| =>
      if i < |priorTokens| && priorTokens[i] == words[i]
      then SaturatingU8((if i < |priorRuns| then priorRuns[i] else 1) + 1)
      else 1)
  }

  function Tokens(words: seq<string>, runs: seq<nat>, finalResult: bool): seq<Token>
    requires |runs| == |words|
  {
    seq(|words|, i requires 0 <= i < |words| =>
      Token(words[i], if finalResult || runs[i] >= STABILITY_OBSERVATIONS then Stable else Unstable))
  }

  /** Length of the leading stable tokens, one separator each. */
  function StableLength(tokens: seq<Token>): nat {
    if tokens == [] || tokens[0].stability != Stable then 0
    else |Encode(tokens[0].text)| + 1 + StableLength(tokens[1..])
  }

  function StablePrefix(tokens: seq<Token>, prefix: string, rendered: string): nat {
    Min(StableLength(tokens) + |Encode(prefix)|, |Encode(rendered)|)
  }

  function TailOperation(id: nat, before: string, after: string, stablePrefix: nat): EditOperation {
    var d := Diff(before, after);
    ReplaceProvisionalTail(id, d.retain, d.delete, d.insert, stablePrefix)
  }

  function Latest(e: Engine): Option<string> {
    if e.committed == [] then None else Some(e.committed[|e.committed| - 1])
  }

  /** Fill in what a semantic operation refers to. */
  function Resolved(op: EditOperation, latest: Option<string>): EditOperation {
    match op
    case DeleteLastUtterance(_, _) =>
      if latest.Some? then DeleteLastUtterance(latest.value, |Encode(latest.value)|) else Undo
    case FormatLastUtterance(_, formatting) => FormatLastUtterance(latest, formatting)
    case _ => op
  }

  function ResolvedAll(ops: seq<EditOperation>, latest: Option<string>): seq<EditOperation> {
    seq(|ops|, i requires 0 <= i < |ops| => Resolved(ops[i], latest))
  }

  predicate SuppressesSeparator(op: EditOperation) {
    op.ChangeIndent? || (op.InsertText? && op.text != "" && op.text[|op.text| - 1] == '\n')
  }

  /** Mode switches and separator suppression take effect in order. */
  function Noted(e: Engine, ops: seq<EditOperation>): Engine
    decreases |ops|
  {
    if ops == [] then e
    else
      var mode := if ops[0].SetMode? then ops[0].mode else e.mode;
      Noted(e.(mode := mode, suppressNextSeparator := e.suppressNextSeparator || SuppressesSeparator(ops[0])), ops[1..])
  }

  function ApplyControl(e: Engine, control: ParsedControl): (Engine, seq<EditOperation>) {
    var ops := ResolvedAll(control.operations, Latest(e));
    var noted := Noted(e, ops);
    var popped := if (exists i :: 0 <= i < |ops| && ops[i].DeleteLastUtterance?) && noted.committed != []
                  then noted.(committed := noted.committed[..|noted.committed| - 1]) else noted;
    (popped, if ops == [] && control.visibleText.None? then [Undo] else ops)
  }

  function NextTransaction(e: Engine): Engine {
    e.(transactionId := Min(e.transactionId + 1, U64_MAX), prefix := "", priorRendered := "", priorTokens := [], runs := [])
  }

  // ---------------------------------------------------------------------
  // One update

  predicate Acceptable(event: Transcript) { '\0' !in event.text }

  /** The whole provisional text of the transaction after this update. */
  function Rendered(sp: Speech, e: Engine, event: Transcript): string {
    Prefixed(sp, e, event).prefix + DisplayText(sp, e, event)
  }

  /** The engine once prefix and run counters are up to date. */
  function Observed(sp: Speech, e: Engine, event: Transcript): Engine {
    var e1 := Prefixed(sp, e, event);
    e1.(runs := NextRuns(e1.priorTokens, e1.runs, sp.words(DisplayText(sp, e, event))))
  }

  function UpdateTokens(sp: Speech, e: Engine, event: Transcript): seq<Token> {
    Tokens(sp.words(DisplayText(sp, e, event)), Observed(sp, e, event).runs, event.finalResult)
  }

  function UpdateStablePrefix(sp: Speech, e: Engine, event: Transcript): nat {
    StablePrefix(UpdateTokens(sp, e, event), Prefixed(sp, e, event).prefix, Rendered(sp, e, event))
  }

  /** The suffix revision, if the provisional text changed. */
  function TailOps(id: nat, before: string, after: string, stablePrefix: nat): seq<EditOperation> {
    if after == before then [] else [TailOperation(id, before, after, stablePrefix)]
  }

  /** `ingest` on an acceptable event. */
  function Ingest(sp: Speech, e: Engine, event: Transcript): (Engine, Update) {
    var control := Control(sp, event);
    var display, rendered := DisplayText(sp, e, event), Rendered(sp, e, event);
    var now, tokens := Observed(sp, e, event), UpdateTokens(sp, e, event);
    var tail := TailOps(e.transactionId, e.priorRendered, rendered, UpdateStablePrefix(sp, e, event));
    if !event.finalResult then
      (now.(priorRendered := rendered, priorTokens := sp.words(display)),
       Update(e.transactionId, now.mode, tokens, display, false, tail))
    else if control.Some? then
      var (after, ops) := ApplyControl(now, control.value);
      (NextTransaction(after), Update(e.transactionId, after.mode, tokens, display, true, tail + ops))
    else if rendered != "" then
      (NextTransaction(now.(committed := now.committed + [rendered])),
       Update(e.transactionId, now.mode, tokens, display, true, tail + [CommitTransaction(e.transactionId)]))
    else
      (NextTransaction(now), Update(e.transactionId, now.mode, tokens, display, true, tail))
  }

  /** Up to here the engine has only chosen a prefix and counted words. */
  lemma ObservedKeeps(sp: Speech, e: Engine, event: Transcript)
    ensures
      var now := Observed(sp, e, event);
      && now.committed == e.committed && now.transactionId == e.transactionId && now.mode == e.mode
      && now.priorRendered == e.priorRendered && now.priorTokens == e.priorTokens
      && now.prefix == Prefixed(sp, e, event).prefix
      && (Control(sp, event).Some? ==> now.prefix == e.prefix)
  {
  }

  lemma {:induction false} NotedKeeps(e: Engine, ops: seq<EditOperation>)
    ensures Noted(e, ops).transactionId == e.transactionId && Noted(e, ops).committed == e.committed
    decreases |ops|
  {
    if ops != [] {
      var mode := if ops[0].SetMode? then ops[0].mode else e.mode;
      NotedKeeps(
        e.(mode := mode, suppressNextSeparator := e.suppressNextSeparator || SuppressesSeparator(ops[0])), ops[1..]);
    }
  }

  // ---------------------------------------------------------------------
  // Stability over a transaction

  /** How many of the most recent updates, without a gap, have the same word at position `i` as the last one. */
  function RunLength(history: seq<seq<string>>, i: nat): nat
    requires history != [] && i < |history[|history| - 1]|
  {
    var last := |history| - 1;
    if last > 0 && i < |history[last - 1]| && history[last - 1][i] == history[last][i]
    then 1 + RunLength(history[..last], i)
    else 1
  }

  /** The engine state records exactly this history of word lists since the transaction began. */
  ghost predicate Records(e: Engine, history: seq<seq<string>>) {
    if history == [] then e.priorTokens == [] && e.runs == []
    else
      var words := history[|history| - 1];
      && e.priorTokens == words && |e.runs| == |words|
      && forall i :: 0 <= i < |words| ==> e.runs[i] == SaturatingU8(RunLength(history, i))
  }

  /** The new counters measure the history extended by the new words. */
  lemma RunsExtendHistory(e: Engine, history: seq<seq<string>>, words: seq<string>, i: nat)
    requires Records(e, history) && i < |words|
    ensures
      var runs := NextRuns(e.priorTokens, e.runs, words);
      && runs[i] == SaturatingU8(RunLength(history + [words], i))
      && (runs[i] >= 2 <==>
            history != [] && i < |history[|history| - 1]| && history[|history| - 1][i] == words[i])
  {
    var extended := history + [words];
    assert extended[..|history|] == history;
    if history != [] {
      assert extended[|history| - 1] == history[|history| - 1];
    }
  }

  /** Each partial extends the recorded history by its words; in every update of the
      transaction, partial or final, a token is stable exactly if the update is final or
      this and the previous update agree on it. The stable prefix never exceeds the text. */
  lemma StabilityIsHistoryExact(sp: Speech, e: Engine, event: Transcript, history: seq<seq<string>>)
    requires Records(e, history)
    ensures
      var words := sp.words(DisplayText(sp, e, event));
      var (next, update) := Ingest(sp, e, event);
      && (if event.finalResult then Records(next, []) else Records(next, history + [words]))
      && |update.tokens| == |words|
      && (forall i :: 0 <= i < |words| ==>
            && update.tokens[i].text == words[i]
            && (update.tokens[i].stability == Stable <==>
                  || event.finalResult
                  || (history != [] && i < |history[|history| - 1]| && history[|history| - 1][i] == words[i])))
      && UpdateStablePrefix(sp, e, event) <= |Encode(Rendered(sp, e, event))|
  {
    var words := sp.words(DisplayText(sp, e, event));
    ObservedKeeps(sp, e, event);
    var now := Observed(sp, e, event);
    assert now.runs == NextRuns(e.priorTokens, e.runs, words);
    forall i | 0 <= i < |words|
      ensures now.runs[i] == SaturatingU8(RunLength(history + [words], i))
      ensures now.runs[i] >= 2 <==>
        (history != [] && i < |history[|history| - 1]| && history[|history| - 1][i] == words[i])
    {
      RunsExtendHistory(e, history, words, i);
    }
    assert UpdateTokens(sp, e, event) == Tokens(words, now.runs, event.finalResult);
  }

  /** A run of partial updates, with the word list each of them showed. */
  function Partials(sp: Speech, e: Engine, texts: seq<string>): (Engine, seq<seq<string>>)
    decreases |texts|
  {
    if texts == [] then (e, [])
    else
      var (before, history) := Partials(sp, e, texts[..|texts| - 1]);
      var event := Transcript(texts[|texts| - 1], false);
      (Ingest(sp, before, event).0, history + [sp.words(DisplayText(sp, before, event))])
  }

  /** Over any transaction: after any number of partials from its start, each run counter is
      min(255, length of the current run of equal words at that position). */
  lemma {:induction false} RunsCountHistory(sp: Speech, e: Engine, texts: seq<string>)
    requires e.priorTokens == [] && e.runs == []
    ensures
      var (now, history) := Partials(sp, e, texts);
      && |history| == |texts|
      && (texts != [] ==> |now.runs| == |history[|texts| - 1]|
                          && forall i :: 0 <= i < |now.runs| ==> now.runs[i] == Min(255, RunLength(history, i)))
      && Records(now, history)
    decreases |texts|
  {
    if texts != [] {
      RunsCountHistory(sp, e, texts[..|texts| - 1]);
      var (before, history) := Partials(sp, e, texts[..|texts| - 1]);
      StabilityIsHistoryExact(sp, before, Transcript(texts[|texts| - 1], false), history);
    }
  }

  // ---------------------------------------------------------------------
  // Where the stable prefix ends

  /** Words with one space behind each. */
  function Trailing(words: seq<string>): string {
    if words == [] then "" else words[0] + " " + Trailing(words[1..])
  }

  /** Words with one space between each two. */
  function Spaced(words: seq<string>): string {
    if words == [] then "" else if |words| == 1 then words[0] else words[0] + " " + Spaced(words[1..])
  }

  lemma {:induction false} SpacedSplits(words: seq<string>, k: nat)
    requires k < |words|
    ensures Spaced(words) == Trailing(words[..k]) + Spaced(words[k..])
  {
    if k > 0 {
      SpacedSplits(words[1..], k - 1);
      assert words[..k][1..] == words[1..][..k - 1] && words[1..][k - 1..] == words[k..];
    }
  }

  lemma {:induction false} TrailingSpaced(words: seq<string>)
    requires words != []
    ensures Trailing(words) == Spaced(words) + " "
  {
    if |words| > 1 {
      TrailingSpaced(words[1..]);
    }
  }

  lemma {:induction false} StableLengthIs(words: seq<string>, tokens: seq<Token>, k: nat)
    requires |tokens| == |words| && k <= |words|
    requires forall i :: 0 <= i < |words| ==> tokens[i].text == words[i]
    requires (forall i :: 0 <= i < k ==> tokens[i].stability == Stable) && (k < |words| ==> tokens[k].stability != Stable)
    ensures StableLength(tokens) == |Encode(Trailing(words[..k]))|
    decreases k
  {
    if k > 0 {
      StableLengthIs(words[1..], tokens[1..], k - 1);
      assert words[..k][1..] == words[1..][..k - 1];
      EncodeConcat(words[0] + " ", Trailing(words[..k][1..]));
      EncodeConcat(words[0], " ");
      assert " "[1..] == "" && |Encode(" ")| == 1;
    }
  }

  /** Of a text whose words stand one space apart, the stable prefix reaches exactly to the first
      word that is not stable, separator included, and to the end if all are. */
  lemma StablePrefixEndsAtWord(sp: Speech, e: Engine, event: Transcript, words: seq<string>, tokens: seq<Token>, k: nat)
    returns (head: string)
    requires words == sp.words(DisplayText(sp, e, event)) && Spaced(words) == DisplayText(sp, e, event)
    requires tokens == UpdateTokens(sp, e, event) && k <= |words|
    requires |tokens| == |words| && forall i :: 0 <= i < k ==> tokens[i].stability == Stable
    requires k < |words| ==> tokens[k].stability != Stable
    ensures
      var prefix, rest := Prefixed(sp, e, event).prefix, if k < |words| then Spaced(words[k..]) else "";
      && Rendered(sp, e, event) == prefix + head + rest
      && UpdateStablePrefix(sp, e, event) == |Encode(prefix + head)|
  {
    var prefix, display := Prefixed(sp, e, event).prefix, DisplayText(sp, e, event);
    assert UpdateStablePrefix(sp, e, event) == StablePrefix(tokens, prefix, prefix + display);
    StableLengthIs(words, tokens, k);
    if k < |words| {
      head := Trailing(words[..k]);
      SpacedSplits(words, k);
      CutAt(prefix, head, Spaced(words[k..]), display);
    } else {
      head := display;
      assert words[..k] == words && prefix + display + "" == prefix + display;
      AllStable(prefix, words, display);
    }
  }

  lemma CutAt(prefix: string, head: string, rest: string, display: string)
    requires display == head + rest
    ensures prefix + display == prefix + head + rest
    ensures Min(|Encode(head)| + |Encode(prefix)|, |Encode(prefix + display)|) == |Encode(prefix + head)|
  {
    ConcatAssociates(prefix, head, rest);
    EncodeConcat(prefix, head);
    EncodeConcat(prefix + head, rest);
  }

  lemma AllStable(prefix: string, words: seq<string>, display: string)
    requires display == Spaced(words)
    ensures Min(|Encode(Trailing(words))| + |Encode(prefix)|, |Encode(prefix + display)|) == |Encode(prefix + display)|
  {
    EncodeConcat(prefix, display);
    if words != [] {
      TrailingSpaced(words);
      EncodeConcat(display, " ");
    }
  }

  // ---------------------------------------------------------------------
  // Modes

  /** The mode a final commands, if it does. */
  function Commanded(sp: Speech, event: Transcript): Option<DictationMode> {
    var control := Control(sp, event);
    if control.Some? && |control.value.operations| == 1 && control.value.operations[0].SetMode?
    then Some(control.value.operations[0].mode) else None
  }

  /** Speech takes the mode commanded; nothing else changes it. */
  lemma ModeStep(sp: Speech, e: Engine, event: Transcript)
    requires Control(sp, event).Some? ==> |Control(sp, event).value.operations| == 1
    ensures Ingest(sp, e, event).0.mode == if Commanded(sp, event).Some? then Commanded(sp, event).value else e.mode
    ensures Ingest(sp, e, event).1.mode == Ingest(sp, e, event).0.mode
  {
    ObservedKeeps(sp, e, event);
    if Control(sp, event).Some? {
      var now := Observed(sp, e, event);
      var op := Resolved(Control(sp, event).value.operations[0], Latest(now));
      assert ResolvedAll(Control(sp, event).value.operations, Latest(now)) == [op];
      OneNoted(now, op);
    }
  }

  lemma OneNoted(e: Engine, op: EditOperation)
    ensures Noted(e, [op]).mode == if op.SetMode? then op.mode else e.mode
    ensures Noted(e, [op]).suppressNextSeparator == (e.suppressNextSeparator || SuppressesSeparator(op))
  {
    assert [op][1..] == [];
  }

  // ---------------------------------------------------------------------
  // Where utterances meet

  /** No space belongs between these two characters. */
  predicate JoinsTight(sp: Speech, last: char, first: char) {
    sp.isSpace(last) || last in "([{/'\"" || sp.isSpace(first) || first in ".,?!:;)]}"
  }

  /** A final with something to show commits it behind the separator chosen for it. */
  lemma PlainFinalCommits(sp: Speech, e: Engine, event: Transcript)
    requires event.finalResult && Control(sp, event).None? && e.priorRendered == "" && DisplayText(sp, e, event) != ""
    ensures
      var (next, separator) := (Ingest(sp, e, event).0, SeparatorFor(sp, e, DisplayText(sp, e, event)).0);
      && Rendered(sp, e, event) == separator + DisplayText(sp, e, event)
      && next.committed == e.committed + [separator + DisplayText(sp, e, event)]
      && !next.suppressNextSeparator && next.priorRendered == ""
  {
    ObservedKeeps(sp, e, event);
  }

  /** Two utterances in a row are joined by exactly one space, or none exactly where the
      characters that meet call for none, whatever was said before. */
  lemma ConsecutiveUtterancesSeam(
      sp: Speech, e: Engine, a: Transcript, b: Transcript, e1: Engine, first: string, second: string)
    requires a.finalResult && Control(sp, a).None? && b.finalResult && Control(sp, b).None?
    requires e.priorRendered == "" && e1 == Ingest(sp, e, a).0
    requires first == Rendered(sp, e, a) && DisplayText(sp, e, a) != ""
    requires second == DisplayText(sp, e1, b) && second != ""
    ensures first != "" && e1.committed == e.committed + [first]
    ensures Ingest(sp, e1, b).0.committed
            == e1.committed + [(if JoinsTight(sp, first[|first| - 1], second[0]) then "" else " ") + second]
  {
    PlainFinalCommits(sp, e, a);
    SeamAfter(sp, e1, first, b);
  }

  lemma SeamAfter(sp: Speech, e: Engine, first: string, b: Transcript)
    requires !e.suppressNextSeparator && e.priorRendered == "" && e.committed != [] && first != ""
    requires first == e.committed[|e.committed| - 1]
    requires b.finalResult && Control(sp, b).None? && DisplayText(sp, e, b) != ""
    ensures
      var second := DisplayText(sp, e, b);
      Ingest(sp, e, b).0.committed
      == e.committed + [(if JoinsTight(sp, first[|first| - 1], second[0]) then "" else " ") + second]
  {
    PlainFinalCommits(sp, e, b);
    SeparatorAfter(sp, e, first, DisplayText(sp, e, b));
  }

  lemma SeparatorAfter(sp: Speech, e: Engine, last: string, next: string)
    requires !e.suppressNextSeparator && e.committed != [] && last == e.committed[|e.committed| - 1]
    requires last != "" && next != ""
    ensures SeparatorFor(sp, e, next).0 == if JoinsTight(sp, last[|last| - 1], next[0]) then "" else " "
  {
  }

  /** Commands that begin a line or move it. */
  predicate IsLayout(op: EditOperation) {
    op == InsertText("\n") || op == InsertText("\n\n") || op == ChangeIndent(1) || op == ChangeIndent(-1)
  }

  /** Any other command leaves the next separator as it would have been. */
  lemma OthersSuppressNothing(sp: Speech, e: Engine, c: Transcript)
    requires Control(sp, c).Some? && |Control(sp, c).value.operations| == 1
    requires !Control(sp, c).value.operations[0].InsertText? && !Control(sp, c).value.operations[0].ChangeIndent?
    ensures Ingest(sp, e, c).0.suppressNextSeparator == e.suppressNextSeparator
  {
    ObservedKeeps(sp, e, c);
    var now := Observed(sp, e, c);
    var op := Resolved(Control(sp, c).value.operations[0], Latest(now));
    assert ResolvedAll(Control(sp, c).value.operations, Latest(now)) == [op];
    assert now.suppressNextSeparator == e.suppressNextSeparator;
    OneNoted(now, op);
  }

  /** What an update tells its reader: which transaction it belongs to, whether it ends it, and
      the text shown in it, behind the separator. A command without text or operation undoes. */
  lemma UpdateReports(sp: Speech, e: Engine, event: Transcript)
    ensures
      var (next, update) := Ingest(sp, e, event);
      && update.transactionId == e.transactionId && update.finalResult == event.finalResult
      && (!event.finalResult ==> next.priorRendered == next.prefix + update.renderedText
                                 && next.transactionId == e.transactionId)
      && (event.finalResult ==> next.transactionId == Min(e.transactionId + 1, U64_MAX))
      && update.renderedText == (
           if Control(sp, event).None? then sp.render(sp.trim(event.text), e.mode)
           else if Control(sp, event).value.visibleText.Some? then Control(sp, event).value.visibleText.value else "")
      && (Control(sp, event) == Some(ParsedControl(None, [])) ==>
            update.operations != [] && update.operations[|update.operations| - 1] == Undo)
  {
    ObservedKeeps(sp, e, event);
    if Control(sp, event).Some? {
      NotedKeeps(Observed(sp, e, event), ResolvedAll(Control(sp, event).value.operations, Latest(Observed(sp, e, event))));
    }
  }

  /** After a line break or an indent command the next utterance starts without a space, and only that one. */
  lemma LayoutSuppressesOnce(sp: Speech, e: Engine, c: Transcript, b: Transcript)
    requires Control(sp, c).Some? && Control(sp, c).value.visibleText.None? && |Control(sp, c).value.operations| == 1
    requires IsLayout(Control(sp, c).value.operations[0])
    requires b.finalResult && Control(sp, b).None? && DisplayText(sp, Ingest(sp, e, c).0, b) != ""
    ensures
      var e1 := Ingest(sp, e, c).0;
      var e2 := Ingest(sp, e1, b).0;
      e2.committed == e1.committed + [DisplayText(sp, e1, b)] && !e2.suppressNextSeparator
  {
    var now, op := Observed(sp, e, c), Control(sp, c).value.operations[0];
    var ops := ResolvedAll(Control(sp, c).value.operations, Latest(now));
    assert ops == [op] && ops[1..] == [];
    assert Noted(now, ops).suppressNextSeparator;
    var e1 := Ingest(sp, e, c).0;
    assert e1.suppressNextSeparator && e1.priorRendered == "";
    PlainFinalCommits(sp, e1, b);
    assert "" + DisplayText(sp, e1, b) == DisplayText(sp, e1, b);
  }

  // ---------------------------------------------------------------------
  // The engine as an object

  class DictationEngine {
    const speech: Speech
    var mode: DictationMode
    var transactionId: nat
    var prefix: string
    var priorRendered: string
    var priorTokens: seq<string>
    var runs: seq<nat>
    var committed: seq<string>
    var suppressNextSeparator: bool

    function State(): Engine
      reads this
    {
      Engine(mode, transactionId, prefix, priorRendered, priorTokens, runs, committed, suppressNextSeparator)
    }

    constructor (sp: Speech, initial: DictationMode)
      ensures speech == sp && State() == NewEngine(initial)
    {
      speech, mode, transactionId, prefix, priorRendered := sp, initial, 1, "", "";
      priorTokens, runs, committed, suppressNextSeparator := [], [], [], false;
    }

    method ChooseSeparator(next: string) returns (separator: string)
      modifies this`suppressNextSeparator
      ensures (separator, State()) == SeparatorFor(speech, old(State()), next)
    {
      if suppressNextSeparator {
        suppressNextSeparator := false;
        return "";
      }
      var last := if committed == [] then "" else committed[|committed| - 1];
      if last == "" || speech.isSpace(last[|last| - 1]) || last[|last| - 1] in "([{/'\""
         || (next != "" && (speech.isSpace(next[0]) || next[0] in ".,?!:;)]}"))
      {
        return "";
      }
      return " ";
    }

    method UpdateStability(words: seq<string>)
      modifies this`runs
      ensures runs == NextRuns(priorTokens, old(runs), words)
    {
      var updated: seq<nat> := [];
      for i := 0 to |words|
        invariant updated == NextRuns(priorTokens, runs, words)[..i]
      {
        var run := 1;
        if i < |priorTokens| && priorTokens[i] == words[i] {
          run := if i < |runs| then runs[i] else 1;
          run := if run < 255 then run + 1 else 255;
        }
        updated := updated + [run];
      }
      runs := updated;
    }

    method ApplyControls(control: ParsedControl) returns (ops: seq<EditOperation>)
      modifies this
      ensures (State(), ops) == ApplyControl(old(State()), control)
    {
      var latest := Latest(State());
      ops := [];
      var deletes := false;
      for i := 0 to |control.operations|
        invariant ops == ResolvedAll(control.operations, latest)[..i] && unchanged(this)
        invariant deletes <==> exists k :: 0 <= k < i && ops[k].DeleteLastUtterance?
      {
        var op := Resolved(control.operations[i], latest);
        ops := ops + [op];
        if op.DeleteLastUtterance? {
          deletes := true;
          assert ops[i].DeleteLastUtterance?;
        }
      }
      assert ops == ResolvedAll(control.operations, latest);
      for i := 0 to |ops|
        invariant Noted(old(State()), ops) == Noted(State(), ops[i..])
        invariant committed == old(committed)
      {
        assert ops[i..][0] == ops[i] && ops[i..][1..] == ops[i + 1..];
        if ops[i].SetMode? { mode := ops[i].mode; }
        if SuppressesSeparator(ops[i]) { suppressNextSeparator := true; }
      }
      if deletes && committed != [] { committed := committed[..|committed| - 1]; }
      if ops == [] && control.visibleText.None? { ops := [Undo]; }
    }

    method StartNextTransaction()
      modifies this
      ensures State() == NextTransaction(old(State()))
    {
      transactionId := if transactionId < U64_MAX then transactionId + 1 else U64_MAX;
      prefix, priorRendered, priorTokens, runs := "", "", [], [];
    }

    /** Choose a separator for the first visible text of a transaction and count repeated words. */
    method Observe(ghost event: Transcript, plain: bool, display: string) returns (rendered: string, words: seq<string>)
      requires plain == Control(speech, event).None? && display == DisplayText(speech, State(), event)
      modifies this`prefix, this`suppressNextSeparator, this`runs
      ensures State() == Observed(speech, old(State()), event)
      ensures rendered == Rendered(speech, old(State()), event) && words == speech.words(display)
    {
      ghost var e := State();
      if plain && priorRendered == "" && display != "" {
        prefix := ChooseSeparator(display);
      }
      assert State() == Prefixed(speech, e, event);
      rendered := prefix + display;
      words := speech.words(display);
      UpdateStability(words);
    }

    /** Consume one recognition event; an unacceptable one changes nothing. */
    method IngestEvent(event: Transcript) returns (r: Result<Update, DictationError>)
      requires transactionId <= U64_MAX
      modifies this
      ensures Acceptable(event) ==> r.Ok? && (State(), r.value) == Ingest(speech, old(State()), event)
      ensures !Acceptable(event) ==> r == Err(InvalidInput) && State() == old(State())
      ensures transactionId <= U64_MAX
    {
      if '\0' in event.text { return Err(InvalidInput); }
      var id, before := transactionId, priorRendered;
      ghost var e := State();
      var raw := speech.trim(event.text);
      var control := if event.finalResult then speech.parse(raw) else None;
      var display := if control.None? then speech.render(raw, mode)
                     else if control.value.visibleText.Some? then control.value.visibleText.value else "";
      var rendered, words := Observe(event, control.None?, display);
      var tokens := Tokens(words, runs, event.finalResult);
      var operations := TailOps(id, before, rendered, StablePrefix(tokens, prefix, rendered));
      if event.finalResult {
        if control.Some? {
          var more := ApplyControls(control.value);
          operations := operations + more;
        } else if rendered != "" {
          operations := operations + [CommitTransaction(id)];
          committed := committed + [rendered];
        }
        ghost var settled := State();
        StartNextTransaction();
        assert State() == NextTransaction(settled);
      } else {
        priorRendered, priorTokens := rendered, words;
      }
      return Ok(Update(id, mode, tokens, display, event.finalResult, operations));
    }
  }
}
