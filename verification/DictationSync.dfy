/** Engine and buffer composed: what the document holds after every run. */
module DictationSync {
  import opened Collections
  import opened Utf16
  import opened DictationBuffers
  import opened DictationEngines

  datatype System = System(engine: Engine, buffer: Buffer)

  /** Feed one recognition event to the engine and replay its operations into the buffer.
      An event with a NUL character is refused and changes nothing. */
  function Deliver(sp: Speech, p: Platform, s: System, event: Transcript): System {
    if !Acceptable(event) then s
    else
      var (e, update) := Ingest(sp, s.engine, event);
      System(e, ApplyAll(p, s.buffer, update.operations))
  }

  function DeliverAll(sp: Speech, p: Platform, s: System, events: seq<Transcript>): System
    decreases |events|
  {
    if events == [] then s
    else Deliver(sp, p, DeliverAll(sp, p, s, events[..|events| - 1]), events[|events| - 1])
  }

  /** The committed utterances as document text. */
  function EncodeAll(utterances: seq<string>): Units {
    if utterances == [] then []
    else EncodeAll(utterances[..|utterances| - 1]) + Encode(utterances[|utterances| - 1])
  }

  function Base(initial: Units, e: Engine): Units { initial + EncodeAll(e.committed) }

  /** The document is the initial text, the committed utterances and the provisional text,
      and the buffer's record of the active transaction says where that text sits and what
      was there before it. */
  ghost predicate InStep(initial: Units, s: System) {
    var e, b := s.engine, s.buffer;
    && b.value == Base(initial, e) + Encode(e.priorRendered)
    && (forall id :: id in b.transactions ==> id <= e.transactionId)
    && (if e.transactionId in b.transactions
        then b.transactions[e.transactionId] == Transaction(|Base(initial, e)|, Encode(e.priorRendered), Base(initial, e))
        else e.priorRendered == "")
    && (e.priorRendered == "" ==> e.prefix == "")
  }

  lemma FreshSystemInStep(initial: Units, mode: DictationMode)
    ensures InStep(initial, System(NewEngine(mode), Buffer(initial, map[], [])))
  {
  }

  // ---------------------------------------------------------------------
  // The provisional tail

  /** The buffer holds `base` followed by the provisional `text` of transaction `id`. */
  ghost predicate Provisional(b: Buffer, base: Units, id: nat, text: string) {
    && b.value == base + Encode(text)
    && (forall k :: k in b.transactions ==> k <= id)
    && (if id in b.transactions
        then b.transactions[id] == Transaction(|base|, Encode(text), base)
        else text == "")
  }

  lemma TailRevises(p: Platform, b: Buffer, base: Units, id: nat, before: string, after: string, stablePrefix: nat)
    requires Provisional(b, base, id, before)
    ensures
      var n := ApplyAll(p, b, TailOps(id, before, after, stablePrefix));
      Provisional(n, base, id, after) && n.undo == b.undo
  {
    if after != before {
      var op := TailOperation(id, before, after, stablePrefix);
      assert ApplyAll(p, b, [op]) == ApplyOne(p, b, op);
      TailOperationRevises(p, b, base, id, before, after, stablePrefix);
    }
  }

  lemma TailOperationRevises(p: Platform, b: Buffer, base: Units, id: nat, before: string, after: string, stablePrefix: nat)
    requires Provisional(b, base, id, before)
    ensures
      var n := ApplyOne(p, b, TailOperation(id, before, after, stablePrefix));
      Provisional(n, base, id, after) && n.undo == b.undo
  {
    RevisedText(before, after);
    TailInPlace(b.value, base, Encode(before), Encode(after));
    EncodeEmptyIff(before);
    assert base + [] == base;
  }

  lemma RevisedText(before: string, after: string)
    ensures
      var d := Diff(before, after);
      ReviseTail(Encode(before), d.retain, d.delete, Encode(d.insert)) == Encode(after)
  {
    DiffIsExact(before, after);
  }

  lemma TailInPlace(value: Units, base: Units, before: Units, after: Units)
    requires value == base + before
    ensures TakeUnits(value, |base|) + after + DropUnits(value, |base| + |before|) == base + after
  {
    assert TakeUnits(value, |base|) == base && DropUnits(value, |base| + |before|) == [];
  }

  // ---------------------------------------------------------------------
  // Plain speech

  /** What the engine does with plain speech, as seen from the buffer. */
  lemma PlainShape(sp: Speech, e: Engine, event: Transcript, rendered: string)
    requires Control(sp, event).None? && (e.priorRendered == "" ==> e.prefix == "")
    requires rendered == Rendered(sp, e, event)
    ensures
      var (next, update) := Ingest(sp, e, event);
      var committing := event.finalResult && rendered != "";
      && update.operations == TailOps(e.transactionId, e.priorRendered, rendered, UpdateStablePrefix(sp, e, event))
                              + (if committing then [CommitTransaction(e.transactionId)] else [])
      && next.committed == e.committed + (if committing then [rendered] else [])
      && next.transactionId == (if event.finalResult then Min(e.transactionId + 1, U64_MAX) else e.transactionId)
      && next.priorRendered == (if event.finalResult then "" else rendered)
      && (next.priorRendered == "" ==> next.prefix == "")
  {
    ObservedKeeps(sp, e, event);
  }

  /** Plain speech first turns the provisional text into the new rendering, then commits it if it is final. */
  lemma PlainRuns(sp: Speech, p: Platform, initial: Units, s: System, event: Transcript, rendered: string)
    returns (b1: Buffer)
    requires InStep(initial, s) && rendered == Rendered(sp, s.engine, event)
    requires Acceptable(event) && Control(sp, event).None?
    ensures Provisional(b1, Base(initial, s.engine), s.engine.transactionId, rendered) && b1.undo == s.buffer.undo
    ensures Deliver(sp, p, s, event).buffer ==
              if event.finalResult && rendered != "" then ApplyOne(p, b1, CommitTransaction(s.engine.transactionId)) else b1
  {
    var e, id := s.engine, s.engine.transactionId;
    var stable, commit := UpdateStablePrefix(sp, e, event), CommitTransaction(s.engine.transactionId);
    PlainShape(sp, e, event, rendered);
    var tail := TailOps(id, e.priorRendered, rendered, stable);
    TailRevises(p, s.buffer, Base(initial, e), id, e.priorRendered, rendered, stable);
    b1 := ApplyAll(p, s.buffer, tail);
    ApplyAllConcat(p, s.buffer, tail, [commit]);
    assert ApplyAll(p, b1, [commit]) == ApplyOne(p, b1, commit) && tail + [] == tail;
  }

  lemma PlainKeepsStep(sp: Speech, p: Platform, initial: Units, s: System, event: Transcript)
    requires InStep(initial, s) && s.engine.transactionId < U64_MAX
    requires Acceptable(event) && Control(sp, event).None?
    ensures InStep(initial, Deliver(sp, p, s, event))
  {
    var e, rendered := s.engine, Rendered(sp, s.engine, event);
    PlainShape(sp, e, event, rendered);
    var next := Ingest(sp, e, event).0;
    var b1 := PlainRuns(sp, p, initial, s, event, rendered);
    if event.finalResult && rendered != "" {
      CommitSettles(p, initial, e, b1, rendered, next);
    } else {
      assert e.committed + [] == e.committed;
      NothingSettles(initial, e, b1, rendered, next);
    }
  }

  lemma NothingSettles(initial: Units, e: Engine, b: Buffer, rendered: string, next: Engine)
    requires Provisional(b, Base(initial, e), e.transactionId, rendered) && next.committed == e.committed
    requires next.priorRendered == "" ==> next.prefix == ""
    requires (next.transactionId == e.transactionId && next.priorRendered == rendered)
          || (next.transactionId == e.transactionId + 1 && next.priorRendered == "" && rendered == "")
    ensures InStep(initial, System(next, b))
  {
  }

  lemma CommitSettles(p: Platform, initial: Units, e: Engine, b: Buffer, rendered: string, next: Engine)
    requires Provisional(b, Base(initial, e), e.transactionId, rendered)
    requires next.committed == e.committed + [rendered] && next.transactionId == e.transactionId + 1
    requires next.priorRendered == "" && next.prefix == ""
    ensures InStep(initial, System(next, ApplyOne(p, b, CommitTransaction(e.transactionId))))
  {
    BaseGrows(initial, e, next, rendered);
  }

  // ---------------------------------------------------------------------
  // Spoken controls

  /** Every command of the grammar shows no text and carries one operation. */
  predicate Spoken(control: ParsedControl) { control.visibleText.None? && |control.operations| == 1 }

  /** The document without the provisional text of the active transaction. */
  function Settled(s: System): Units {
    s.buffer.value[..Max(0, |s.buffer.value| - |Encode(s.engine.priorRendered)|)]
  }

  /** An undo would find nothing to undo, or the settled document on top of its stack. */
  predicate UndoIsNeutral(s: System) {
    if s.buffer.undo == [] then s.engine.prefix == "" else s.buffer.undo[|s.buffer.undo| - 1] == Settled(s)
  }

  /** What can be checked before a command is delivered. */
  predicate Harmless(s: System, op: EditOperation) {
    match op
    case SetMode(_) => s.engine.prefix == ""
    case DeleteLastUtterance(_, _) => if s.engine.committed != [] then s.engine.prefix == "" else UndoIsNeutral(s)
    case Undo => UndoIsNeutral(s)
    case InsertText(text) => text == "" && s.engine.prefix == ""
    case _ => false
  }

  /** The commands whose effect on the correspondence is settled below. */
  predicate Settles(op: EditOperation) {
    op.SetMode? || op.DeleteLastUtterance? || op.Undo? || op.InsertText?
  }

  /** What the engine does with a spoken command, as seen from the buffer. */
  lemma ControlShape(sp: Speech, e: Engine, event: Transcript)
    requires Control(sp, event).Some? && Spoken(Control(sp, event).value)
    ensures
      var op := Control(sp, event).value.operations[0];
      var (next, update) := Ingest(sp, e, event);
      && update.operations == TailOps(e.transactionId, e.priorRendered, e.prefix, UpdateStablePrefix(sp, e, event))
                              + [Resolved(op, Latest(e))]
      && next.transactionId == Min(e.transactionId + 1, U64_MAX) && next.prefix == "" && next.priorRendered == ""
      && next.committed == if op.DeleteLastUtterance? && e.committed != []
                           then e.committed[..|e.committed| - 1] else e.committed
  {
    ObservedKeeps(sp, e, event);
    assert Rendered(sp, e, event) == e.prefix;
    OneControl(Observed(sp, e, event), Control(sp, event).value);
  }

  lemma OneControl(e: Engine, control: ParsedControl)
    requires Spoken(control)
    ensures
      var op := control.operations[0];
      var (next, ops) := ApplyControl(e, control);
      && ops == [Resolved(op, Latest(e))]
      && next.transactionId == e.transactionId
      && next.committed == if op.DeleteLastUtterance? && e.committed != []
                           then e.committed[..|e.committed| - 1] else e.committed
  {
    var op := Resolved(control.operations[0], Latest(e));
    var ops := ResolvedAll(control.operations, Latest(e));
    assert ops == [op];
    NotedKeeps(e, ops);
    assert op.DeleteLastUtterance? ==> ops[0].DeleteLastUtterance?;
  }

  /** A command final first shrinks the provisional text to exactly the transaction prefix,
      then its operation runs on the buffer, and a new transaction begins. */
  lemma ControlRuns(sp: Speech, p: Platform, initial: Units, s: System, event: Transcript) returns (b1: Buffer)
    requires InStep(initial, s) && s.engine.transactionId < U64_MAX && Acceptable(event)
    requires Control(sp, event).Some? && Spoken(Control(sp, event).value)
    ensures Provisional(b1, Base(initial, s.engine), s.engine.transactionId, s.engine.prefix)
    ensures b1.undo == s.buffer.undo
    ensures
      var op, n := Control(sp, event).value.operations[0], Deliver(sp, p, s, event);
      && n.buffer == ApplyOne(p, b1, Resolved(op, Latest(s.engine)))
      && n.engine.transactionId == s.engine.transactionId + 1
      && n.engine.prefix == "" && n.engine.priorRendered == ""
      && n.engine.committed == if op.DeleteLastUtterance? && s.engine.committed != []
                               then s.engine.committed[..|s.engine.committed| - 1] else s.engine.committed
  {
    var e, b, id := s.engine, s.buffer, s.engine.transactionId;
    ControlShape(sp, e, event);
    var stable := UpdateStablePrefix(sp, e, event);
    var tail := TailOps(id, e.priorRendered, e.prefix, stable);
    TailRevises(p, b, Base(initial, e), id, e.priorRendered, e.prefix, stable);
    b1 := ApplyAll(p, b, tail);
    var op := Resolved(Control(sp, event).value.operations[0], Latest(e));
    ApplyAllConcat(p, b, tail, [op]);
    assert ApplyAll(p, b1, [op]) == ApplyOne(p, b1, op);
  }

  /** After a command, the two sides agree exactly if the document equals what the engine has committed. */
  lemma ControlStepIff(initial: Units, s: System, b1: Buffer, op: EditOperation, p: Platform, n: System)
    requires Provisional(b1, Base(initial, s.engine), s.engine.transactionId, s.engine.prefix)
    requires n.buffer == ApplyOne(p, b1, op) && !op.ReplaceProvisionalTail?
    requires n.engine.transactionId == s.engine.transactionId + 1
    requires n.engine.prefix == "" && n.engine.priorRendered == ""
    ensures InStep(initial, n) <==> n.buffer.value == Base(initial, n.engine)
  {
    assert forall id :: id in n.buffer.transactions ==> id in b1.transactions;
  }

  lemma SettledIsBase(initial: Units, s: System)
    requires InStep(initial, s)
    ensures Settled(s) == Base(initial, s.engine)
  {
    assert (Base(initial, s.engine) + Encode(s.engine.priorRendered))[..|Base(initial, s.engine)|] == Base(initial, s.engine);
  }

  /** Scratching the last utterance removes exactly it, plus nothing of a leftover prefix. */
  lemma ScratchValue(p: Platform, initial: Units, e: Engine, b1: Buffer)
    requires e.committed != [] && Provisional(b1, Base(initial, e), e.transactionId, e.prefix)
    ensures
      var last := e.committed[|e.committed| - 1];
      var n := ApplyOne(p, b1, DeleteLastUtterance(last, |Encode(last)|));
      var kept := initial + EncodeAll(e.committed[..|e.committed| - 1]);
      && |n.value| == |kept| + |Encode(e.prefix)|
      && (e.prefix == "" ==> n.value == kept)
  {
    var last := e.committed[|e.committed| - 1];
    var kept := initial + EncodeAll(e.committed[..|e.committed| - 1]);
    var x := Encode(last);
    assert Base(initial, e) == kept + x;
    ScratchLast(p, b1, kept, x, Encode(e.prefix), last);
  }

  lemma ScratchLast(p: Platform, b1: Buffer, kept: Units, x: Units, left: Units, last: string)
    requires b1.value == kept + x + left && x == Encode(last)
    ensures
      var n := ApplyOne(p, b1, DeleteLastUtterance(last, |x|));
      |n.value| == |kept| + |left| && (left == [] ==> n.value == kept)
  {
    assert OccursAt(b1.value, x, |kept|);
    if left == [] {
      assert b1.value == kept + x;
      LastIndexOfSuffix(kept, x);
    }
  }

  lemma EncodedLengthIsZeroIff(s: string)
    ensures |Encode(s)| == 0 <==> s == ""
  {
    EncodeEmptyIff(s);
  }

  lemma ControlValueIff(p: Platform, initial: Units, s: System, b1: Buffer, op: EditOperation, n: System)
    requires InStep(initial, s) && Settles(op) && b1.undo == s.buffer.undo
    requires Provisional(b1, Base(initial, s.engine), s.engine.transactionId, s.engine.prefix)
    requires n.buffer == ApplyOne(p, b1, Resolved(op, Latest(s.engine)))
    requires n.engine.committed == if op.DeleteLastUtterance? && s.engine.committed != []
                                   then s.engine.committed[..|s.engine.committed| - 1] else s.engine.committed
    ensures n.buffer.value == Base(initial, n.engine) <==> Harmless(s, op)
  {
    SettledIsBase(initial, s);
    EncodedLengthIsZeroIff(s.engine.prefix);
    var base := Base(initial, s.engine);
    assert |b1.value| == |base| + |Encode(s.engine.prefix)|;
    if op.DeleteLastUtterance? && s.engine.committed != [] {
      ScratchValue(p, initial, s.engine, b1);
    } else if op.InsertText? {
      EncodedLengthIsZeroIff(op.text);
      assert |n.buffer.value| == |b1.value| + |Encode(op.text)|;
    }
  }

  /** Delivering a mode switch, "scratch that", "undo" or a line break keeps engine and
      buffer in step if and only if the command is harmless in the state it arrives in. */
  lemma ControlKeepsStepIff(sp: Speech, p: Platform, initial: Units, s: System, event: Transcript)
    requires InStep(initial, s) && s.engine.transactionId < U64_MAX && Acceptable(event)
    requires Control(sp, event).Some? && Spoken(Control(sp, event).value)
    requires Settles(Control(sp, event).value.operations[0])
    ensures InStep(initial, Deliver(sp, p, s, event)) <==> Harmless(s, Control(sp, event).value.operations[0])
  {
    var op := Control(sp, event).value.operations[0];
    var b1 := ControlRuns(sp, p, initial, s, event);
    var n := Deliver(sp, p, s, event);
    ControlStepIff(initial, s, b1, Resolved(op, Latest(s.engine)), p, n);
    ControlValueIff(p, initial, s, b1, op, n);
  }

  /** A mode switch that follows a partial leaves exactly the transaction prefix behind. */
  lemma ModeSwitchLeavesPrefix(sp: Speech, p: Platform, initial: Units, s: System, event: Transcript)
    requires InStep(initial, s) && s.engine.transactionId < U64_MAX && Acceptable(event)
    requires Control(sp, event).Some? && Spoken(Control(sp, event).value)
    requires Control(sp, event).value.operations[0].SetMode?
    ensures
      var n := Deliver(sp, p, s, event);
      && n.buffer.value == initial + EncodeAll(n.engine.committed) + Encode(s.engine.prefix)
      && n.engine.committed == s.engine.committed && n.buffer.undo == s.buffer.undo
  {
    var b1 := ControlRuns(sp, p, initial, s, event);
    assert ApplyOne(p, b1, Control(sp, event).value.operations[0]) == b1;
    assert b1.value == Base(initial, s.engine) + Encode(s.engine.prefix);
  }

  // ---------------------------------------------------------------------
  // Whole runs

  /** The event is refused, plain speech, or a command that is harmless here. */
  predicate Benign(sp: Speech, s: System, event: Transcript) {
    || !Acceptable(event)
    || Control(sp, event).None?
    || (Spoken(Control(sp, event).value) && Harmless(s, Control(sp, event).value.operations[0]))
  }

  lemma DeliverAdvancesByOne(sp: Speech, p: Platform, s: System, event: Transcript)
    requires s.engine.transactionId < U64_MAX
    ensures Deliver(sp, p, s, event).engine.transactionId <= s.engine.transactionId + 1
  {
    var now := Observed(sp, s.engine, event);
    ObservedKeeps(sp, s.engine, event);
    if Control(sp, event).Some? {
      NotedKeeps(now, ResolvedAll(Control(sp, event).value.operations, Latest(now)));
    }
  }

  /** Engine and buffer stay in step over every run of benign events, of any length the
      transaction counter can number: the document is always the initial text, the
      committed utterances and the current provisional text. */
  lemma {:induction false} RunStaysInStep(sp: Speech, p: Platform, initial: Units, s: System, events: seq<Transcript>)
    requires InStep(initial, s) && s.engine.transactionId + |events| <= U64_MAX
    requires forall n :: 0 <= n < |events| ==> Benign(sp, DeliverAll(sp, p, s, events[..n]), events[n])
    ensures
      var now := DeliverAll(sp, p, s, events);
      && InStep(initial, now)
      && now.buffer.value == initial + EncodeAll(now.engine.committed) + Encode(now.engine.priorRendered)
      && now.engine.transactionId <= s.engine.transactionId + |events|
    decreases |events|
  {
    if events != [] {
      var before, event := events[..|events| - 1], events[|events| - 1];
      forall n | 0 <= n < |before| ensures Benign(sp, DeliverAll(sp, p, s, before[..n]), before[n]) {
        assert before[..n] == events[..n];
      }
      RunStaysInStep(sp, p, initial, s, before);
      var mid := DeliverAll(sp, p, s, before);
      assert Benign(sp, mid, event);
      DeliverAdvancesByOne(sp, p, mid, event);
      if Acceptable(event) {
        if Control(sp, event).None? {
          PlainKeepsStep(sp, p, initial, mid, event);
        } else {
          ControlKeepsStepIff(sp, p, initial, mid, event);
        }
      }
    }
  }

  // ---------------------------------------------------------------------
  // What commands do to the document

  /** A line break goes to the very end of the document. */
  lemma InsertedTextGoesLast(sp: Speech, p: Platform, initial: Units, s: System, event: Transcript, text: string)
    requires InStep(initial, s) && s.engine.transactionId < U64_MAX && Acceptable(event)
    requires Control(sp, event) == Some(ParsedControl(None, [InsertText(text)]))
    ensures Deliver(sp, p, s, event).buffer.value == Base(initial, s.engine) + Encode(s.engine.prefix) + Encode(text)
  {
    var b1 := ControlRuns(sp, p, initial, s, event);
    assert Resolved(InsertText(text), Latest(s.engine)) == InsertText(text);
    assert b1.value == Base(initial, s.engine) + Encode(s.engine.prefix);
  }

  /** A format command formats the utterance committed last, and nothing before it. */
  lemma FormatCommandFormatsLast(
      sp: Speech, p: Platform, initial: Units, s: System, event: Transcript, last: string, formatting: Formatting)
    requires InStep(initial, s) && s.engine.transactionId < U64_MAX && Acceptable(event) && s.engine.prefix == ""
    requires Control(sp, event) == Some(ParsedControl(None, [FormatLastUtterance(None, formatting)]))
    requires s.engine.committed != [] && last == s.engine.committed[|s.engine.committed| - 1] && last != ""
    ensures Deliver(sp, p, s, event).buffer.value
            == initial + EncodeAll(s.engine.committed[..|s.engine.committed| - 1]) + p.markdown(Encode(last), formatting)
  {
    var kept := initial + EncodeAll(s.engine.committed[..|s.engine.committed| - 1]);
    var b1 := ControlRuns(sp, p, initial, s, event);
    assert Base(initial, s.engine) == kept + Encode(last);
    FormatSuffix(p, b1, kept, last, formatting);
  }

  lemma FormatSuffix(p: Platform, b: Buffer, kept: Units, last: string, formatting: Formatting)
    requires b.value == kept + Encode(last) && last != ""
    ensures ApplyOne(p, b, FormatLastUtterance(Some(last), formatting)).value == kept + p.markdown(Encode(last), formatting)
  {
    LastIndexOfSuffix(kept, Encode(last));
    assert Chosen(b.value, Encode(last), Last, |kept|);
    FormatRewritesLast(p, b, last, formatting, |kept|);
    assert b.value[..|kept|] == kept && b.value[|kept| + |Encode(last)|..] == [];
  }

  // ---------------------------------------------------------------------
  // Modes over whole runs

  /** The mode last commanded by the events, or the one before them. */
  function LastMode(sp: Speech, mode: DictationMode, events: seq<Transcript>): DictationMode {
    if events == [] then mode
    else
      var last := events[|events| - 1];
      if Acceptable(last) && Commanded(sp, last).Some? then Commanded(sp, last).value
      else LastMode(sp, mode, events[..|events| - 1])
  }

  lemma {:induction false} ModeIsLastCommanded(sp: Speech, p: Platform, s: System, events: seq<Transcript>)
    requires forall text :: sp.parse(text).Some? ==> Spoken(sp.parse(text).value)
    ensures DeliverAll(sp, p, s, events).engine.mode == LastMode(sp, s.engine.mode, events)
    decreases |events|
  {
    if events != [] {
      ModeIsLastCommanded(sp, p, s, events[..|events| - 1]);
      ModeStep(sp, DeliverAll(sp, p, s, events[..|events| - 1]).engine, events[|events| - 1]);
    }
  }

  /** After any events, what is said next is rendered in the mode last commanded: it ends the
      utterance committed. */
  lemma UtteranceUsesCommandedMode(sp: Speech, p: Platform, s: System, events: seq<Transcript>, event: Transcript)
    requires forall text :: sp.parse(text).Some? ==> Spoken(sp.parse(text).value)
    requires Acceptable(event) && event.finalResult && Control(sp, event).None?
    ensures
      var before := DeliverAll(sp, p, s, events);
      var spoken := sp.render(sp.trim(event.text), LastMode(sp, s.engine.mode, events));
      spoken != "" ==>
        var after := Deliver(sp, p, before, event).engine.committed;
        && |after| == |before.engine.committed| + 1 && after[..|after| - 1] == before.engine.committed
        && EndsWith(after[|after| - 1], spoken)
  {
    ModeIsLastCommanded(sp, p, s, events);
    var e := DeliverAll(sp, p, s, events).engine;
    ObservedKeeps(sp, e, event);
  }

  predicate EndsWith(text: string, end: string) { |end| <= |text| && text[|text| - |end|..] == end }

  // ---------------------------------------------------------------------
  // What holds whatever is said

  /** Whatever became of the text before it, the document ends with the current provisional
      text, and the buffer knows where that is. */
  ghost predicate TailTracked(s: System) {
    && Provisional(s.buffer, Settled(s), s.engine.transactionId, s.engine.priorRendered)
    && (s.engine.priorRendered == "" ==> s.engine.prefix == "")
  }

  lemma TailTrackedFrom(s: System, base: Units)
    requires Provisional(s.buffer, base, s.engine.transactionId, s.engine.priorRendered)
    requires s.engine.priorRendered == "" ==> s.engine.prefix == ""
    ensures TailTracked(s)
  {
    assert (base + Encode(s.engine.priorRendered))[..|base|] == base;
  }

  ghost predicate KnownIds(b: Buffer, id: nat) { forall k :: k in b.transactions ==> k <= id }

  /** A command as the grammar makes them: one operation, and not one about transactions. */
  predicate Semantic(control: ParsedControl) {
    Spoken(control) && !control.operations[0].ReplaceProvisionalTail? && !control.operations[0].CommitTransaction?
  }

  lemma {:induction false} OperationsKeepKnownIds(p: Platform, b: Buffer, ops: seq<EditOperation>, id: nat)
    requires KnownIds(b, id)
    requires forall op :: op in ops && op.ReplaceProvisionalTail? ==> op.transactionId == id
    ensures KnownIds(ApplyAll(p, b, ops), id)
    decreases |ops|
  {
    if ops != [] {
      assert ops[0] in ops;
      assert KnownIds(ApplyOne(p, b, ops[0]), id);
      OperationsKeepKnownIds(p, ApplyOne(p, b, ops[0]), ops[1..], id);
    }
  }

  lemma NewTransactionIsTracked(s: System)
    requires s.engine.transactionId > 0 && KnownIds(s.buffer, s.engine.transactionId - 1)
    requires s.engine.priorRendered == "" && s.engine.prefix == ""
    ensures TailTracked(s)
  {
    assert s.buffer.value + [] == s.buffer.value;
    TailTrackedFrom(s, s.buffer.value);
  }

  /** Every final, speech or command, starts a new transaction whose tail is tracked, even if
      the tail before it was not. */
  lemma FinalRestoresTail(sp: Speech, p: Platform, s: System, event: Transcript)
    requires KnownIds(s.buffer, s.engine.transactionId) && s.engine.transactionId < U64_MAX
    requires s.engine.priorRendered == "" ==> s.engine.prefix == ""
    requires Acceptable(event) && event.finalResult && (Control(sp, event).Some? ==> Semantic(Control(sp, event).value))
    ensures TailTracked(Deliver(sp, p, s, event))
  {
    FinalShape(sp, s.engine, event);
    OperationsKeepKnownIds(p, s.buffer, Ingest(sp, s.engine, event).1.operations, s.engine.transactionId);
    NewTransactionIsTracked(Deliver(sp, p, s, event));
  }

  lemma FinalShape(sp: Speech, e: Engine, event: Transcript)
    requires e.transactionId < U64_MAX && (e.priorRendered == "" ==> e.prefix == "")
    requires event.finalResult && (Control(sp, event).Some? ==> Semantic(Control(sp, event).value))
    ensures
      var (next, update) := Ingest(sp, e, event);
      && next.transactionId == e.transactionId + 1 && next.priorRendered == "" && next.prefix == ""
      && forall op :: op in update.operations && op.ReplaceProvisionalTail? ==> op.transactionId == e.transactionId
  {
    if Control(sp, event).None? {
      PlainFinalShape(sp, e, event);
    } else {
      CommandFinalShape(sp, e, event);
    }
  }

  lemma PlainFinalShape(sp: Speech, e: Engine, event: Transcript)
    requires e.transactionId < U64_MAX && (e.priorRendered == "" ==> e.prefix == "")
    requires event.finalResult && Control(sp, event).None?
    ensures
      var (next, update) := Ingest(sp, e, event);
      && next.transactionId == e.transactionId + 1 && next.priorRendered == "" && next.prefix == ""
      && forall op :: op in update.operations && op.ReplaceProvisionalTail? ==> op.transactionId == e.transactionId
  {
    PlainShape(sp, e, event, Rendered(sp, e, event));
  }

  lemma CommandFinalShape(sp: Speech, e: Engine, event: Transcript)
    requires e.transactionId < U64_MAX && Control(sp, event).Some? && Semantic(Control(sp, event).value)
    ensures
      var (next, update) := Ingest(sp, e, event);
      && next.transactionId == e.transactionId + 1 && next.priorRendered == "" && next.prefix == ""
      && forall op :: op in update.operations && op.ReplaceProvisionalTail? ==> op.transactionId == e.transactionId
  {
    ControlShape(sp, e, event);
  }

  lemma PartialKeepsTail(sp: Speech, p: Platform, s: System, event: Transcript)
    requires TailTracked(s) && Acceptable(event) && !event.finalResult
    ensures TailTracked(Deliver(sp, p, s, event))
  {
    var e := s.engine;
    var rendered, stable := Rendered(sp, e, event), UpdateStablePrefix(sp, e, event);
    PlainShape(sp, e, event, rendered);
    var tail := TailOps(e.transactionId, e.priorRendered, rendered, stable);
    assert tail + [] == tail;
    TailRevises(p, s.buffer, Settled(s), e.transactionId, e.priorRendered, rendered, stable);
    TailTrackedFrom(Deliver(sp, p, s, event), Settled(s));
  }

  // ---------------------------------------------------------------------
  // Keyboard edits

  /** A keyboard edit keeps the tail tracked exactly if it changes nothing or no provisional text is shown. */
  lemma SyncKeepsTailIff(s: System, v: Units)
    requires TailTracked(s)
    ensures TailTracked(System(s.engine, Synced(s.buffer, v))) <==> v == s.buffer.value || s.engine.priorRendered == ""
  {
    if s.engine.priorRendered == "" && v != s.buffer.value {
      TailTrackedFrom(System(s.engine, Synced(s.buffer, v)), v);
    }
  }

  /** After a changing keyboard edit, the next revision of a provisional text appends only what
      the diff inserts: the whole new text is shown exactly if old and new text share no prefix. */
  lemma RevisionAfterEditIff(p: Platform, b: Buffer, v: Units, id: nat, before: string, after: string, stable: nat)
    requires v != b.value
    ensures
      var n := ApplyOne(p, Synced(b, v), TailOperation(id, before, after, stable));
      && n.value == v + Encode(Diff(before, after).insert)
      && (n.value == v + Encode(after) <==> CommonPrefix(before, after) == 0)
  {
    var d := Diff(before, after);
    FreshTail(v, d.retain, d.delete, Encode(d.insert));
    SuffixIsAllIff(v, after, CommonPrefix(before, after));
  }

  /** A tail operation for a transaction the buffer does not know appends its insertion. */
  lemma FreshTail(v: Units, retain: nat, delete: nat, insert: Units)
    ensures TakeUnits(v, |v|) + ReviseTail([], retain, delete, insert) + DropUnits(v, |v| + 0) == v + insert
  {
    assert TakeUnits(v, |v|) == v && DropUnits(v, |v| + 0) == [];
    assert ReviseTail([], retain, delete, insert) == insert;
  }

  lemma SuffixIsAllIff(v: Units, text: string, k: nat)
    requires k <= |text|
    ensures v + Encode(text[k..]) == v + Encode(text) <==> k == 0
  {
    EncodeConcat(text[..k], text[k..]);
    EncodedLengthIsZeroIff(text[..k]);
    assert text[..k] + text[k..] == text;
    assert |v + Encode(text[k..])| == |v| + |Encode(text[k..])| && |v + Encode(text)| == |v| + |Encode(text)|;
  }

  /** "ab" is shown, the user types an X behind it, and the recognizer goes on to "abc": the
      document shows "abXc". */
  lemma EditLosesRetainedPrefix(p: Platform, b: Buffer, id: nat, stable: nat)
    requires Provisional(b, [], id, "ab")
    ensures ApplyOne(p, Synced(b, Encode("abX")), TailOperation(id, "ab", "abc", stable)).value == Encode("abXc")
  {
    EncodeConcat("ab", "X");
    EncodeConcat("abX", "c");
    EncodeEmptyIff("X");
    assert "ab" + "X" == "abX" && "abX" + "c" == "abXc";
    assert |Encode("abX")| > |Encode("ab")|;
    CommonPrefixOf("ab", "abc");
    RevisionAfterEditIff(p, b, Encode("abX"), id, "ab", "abc", stable);
  }

  lemma CommonPrefixOf(a: string, b: string)
    requires a <= b
    ensures CommonPrefix(a, b) == |a|
  {
    CommonPrefixIsLongest(a, b);
    assert a[..|a|] == b[..|a|];
  }

  // What reaches the system: recognition events and keyboard edits.
  datatype Input = Said(event: Transcript) | Typed(value: Units)

  function Receive(sp: Speech, p: Platform, s: System, input: Input): System {
    match input
    case Said(event) => Deliver(sp, p, s, event)
    case Typed(v) => System(s.engine, Synced(s.buffer, v))
  }

  function ReceiveAll(sp: Speech, p: Platform, s: System, inputs: seq<Input>): System
    decreases |inputs|
  {
    if inputs == [] then s
    else Receive(sp, p, ReceiveAll(sp, p, s, inputs[..|inputs| - 1]), inputs[|inputs| - 1])
  }

  /** A keyboard edit, if it is one, comes while no provisional text is shown. */
  predicate Calm(s: System, input: Input) {
    input.Typed? ==> input.value == s.buffer.value || s.engine.priorRendered == ""
  }

  /** What holds after any inputs at all: no record of a transaction to come, and a prefix only
      with text behind it. */
  ghost predicate Coherent(s: System) {
    KnownIds(s.buffer, s.engine.transactionId) && (s.engine.priorRendered == "" ==> s.engine.prefix == "")
  }

  /** Every command the grammar can produce is a semantic one. */
  ghost predicate SemanticGrammar(sp: Speech) {
    forall text :: sp.parse(text).Some? ==> Semantic(sp.parse(text).value)
  }

  lemma PartialIsCoherent(sp: Speech, p: Platform, s: System, event: Transcript)
    requires Coherent(s) && Acceptable(event) && !event.finalResult
    ensures Coherent(Deliver(sp, p, s, event))
  {
    PlainShape(sp, s.engine, event, Rendered(sp, s.engine, event));
    OperationsKeepKnownIds(p, s.buffer, Ingest(sp, s.engine, event).1.operations, s.engine.transactionId);
  }

  lemma InputIsCoherent(sp: Speech, p: Platform, s: System, input: Input)
    requires Coherent(s) && SemanticGrammar(sp) && s.engine.transactionId < U64_MAX
    ensures Coherent(Receive(sp, p, s, input))
    ensures Receive(sp, p, s, input).engine.transactionId <= s.engine.transactionId + 1
  {
    if input.Said? {
      var event := input.event;
      DeliverAdvancesByOne(sp, p, s, event);
      if Acceptable(event) {
        if event.finalResult {
          FinalRestoresTail(sp, p, s, event);
        } else {
          PartialIsCoherent(sp, p, s, event);
        }
      }
    }
  }

  lemma {:induction false} RunIsCoherent(sp: Speech, p: Platform, s: System, inputs: seq<Input>)
    requires Coherent(s) && SemanticGrammar(sp) && s.engine.transactionId + |inputs| <= U64_MAX
    ensures Coherent(ReceiveAll(sp, p, s, inputs))
    ensures ReceiveAll(sp, p, s, inputs).engine.transactionId <= s.engine.transactionId + |inputs|
    decreases |inputs|
  {
    if inputs != [] {
      RunIsCoherent(sp, p, s, inputs[..|inputs| - 1]);
      InputIsCoherent(sp, p, ReceiveAll(sp, p, s, inputs[..|inputs| - 1]), inputs[|inputs| - 1]);
    }
  }

  lemma CalmKeepsTail(sp: Speech, p: Platform, s: System, input: Input)
    requires TailTracked(s) && Calm(s, input) && SemanticGrammar(sp) && s.engine.transactionId < U64_MAX
    ensures TailTracked(Receive(sp, p, s, input))
  {
    match input
    case Typed(v) => SyncKeepsTailIff(s, v);
    case Said(event) =>
      if Acceptable(event) {
        if event.finalResult {
          FinalRestoresTail(sp, p, s, event);
        } else {
          PartialKeepsTail(sp, p, s, event);
        }
      }
  }

  /** A speech final or command that is not refused. */
  predicate Settling(input: Input) { input.Said? && Acceptable(input.event) && input.event.finalResult }

  /** The tail of `s` is tracked, or a settling input ends the first `n` inputs. */
  ghost predicate TrackedAt(s: System, inputs: seq<Input>, n: nat)
    requires n <= |inputs|
  {
    (n == 0 && TailTracked(s)) || (n > 0 && Settling(inputs[n - 1]))
  }

  /** Over every run of any recognition events, any spoken commands and any keyboard edits, the
      document ends with the current provisional text from each settling input on until a
      keyboard edit changes the document while such text is shown. */
  lemma {:induction false} RunTracksTail(sp: Speech, p: Platform, s: System, inputs: seq<Input>, since: nat)
    requires Coherent(s) && SemanticGrammar(sp) && s.engine.transactionId + |inputs| <= U64_MAX
    requires since <= |inputs| && TrackedAt(s, inputs, since)
    requires forall n :: since <= n < |inputs| ==> Calm(ReceiveAll(sp, p, s, inputs[..n]), inputs[n])
    ensures
      var now := ReceiveAll(sp, p, s, inputs);
      TailTracked(now) && now.buffer.value == Settled(now) + Encode(now.engine.priorRendered)
    decreases |inputs|
  {
    if inputs != [] {
      var before, last := inputs[..|inputs| - 1], inputs[|inputs| - 1];
      RunIsCoherent(sp, p, s, before);
      if since == |inputs| {
        FinalRestoresTail(sp, p, ReceiveAll(sp, p, s, before), last.event);
      } else {
        forall n | since <= n < |before| ensures Calm(ReceiveAll(sp, p, s, before[..n]), before[n]) {
          assert before[..n] == inputs[..n];
        }
        RunTracksTail(sp, p, s, before, since);
        CalmKeepsTail(sp, p, ReceiveAll(sp, p, s, before), last);
      }
    }
  }

  // ---------------------------------------------------------------------
  // Undo after a commit

  /** A committed utterance followed by an undo command: the document is as before the utterance,
      the engine still counts it as committed, and the two sides are out of step. */
  lemma UndoAfterCommitGoesOutOfStep(
      sp: Speech, p: Platform, initial: Units, s: System, event: Transcript, undo: Transcript, s1: System, s2: System)
    requires InStep(initial, s) && s.engine.transactionId + 1 < U64_MAX
    requires Acceptable(event) && event.finalResult && Control(sp, event).None? && Rendered(sp, s.engine, event) != ""
    requires Acceptable(undo) && Control(sp, undo).Some? && Control(sp, undo).value == ParsedControl(None, [Undo])
    requires s1 == Deliver(sp, p, s, event) && s2 == Deliver(sp, p, s1, undo)
    ensures s2.buffer.value == Base(initial, s.engine)
    ensures s2.engine.committed == s.engine.committed + [Rendered(sp, s.engine, event)]
    ensures !InStep(initial, s2)
  {
    var rendered := Rendered(sp, s.engine, event);
    PlainShape(sp, s.engine, event, rendered);
    PlainKeepsStep(sp, p, initial, s, event);
    CommitPushes(sp, p, initial, s, event, rendered);
    BaseGrows(initial, s.engine, s1.engine, rendered);
    UndoReturnsTo(sp, p, initial, s1, undo, s.buffer.undo, Base(initial, s.engine), s2);
  }

  lemma BaseGrows(initial: Units, e: Engine, next: Engine, rendered: string)
    requires next.committed == e.committed + [rendered]
    ensures Base(initial, next) == Base(initial, e) + Encode(rendered)
    ensures rendered != "" ==> Base(initial, next) != Base(initial, e)
  {
    assert next.committed[..|next.committed| - 1] == e.committed;
    ConcatAssociates(initial, EncodeAll(e.committed), Encode(rendered));
    EncodedLengthIsZeroIff(rendered);
    assert |Base(initial, e) + Encode(rendered)| == |Base(initial, e)| + |Encode(rendered)|;
  }

  /** An undo command takes the document back to the top of the undo stack and leaves the engine's
      history alone, so the two are out of step unless that was the settled text. */
  lemma UndoReturnsTo(sp: Speech, p: Platform, initial: Units, s: System, undo: Transcript,
                      below: seq<Units>, top: Units, n: System)
    requires InStep(initial, s) && s.engine.transactionId < U64_MAX && s.buffer.undo == below + [top]
    requires Acceptable(undo) && Control(sp, undo).Some? && Control(sp, undo).value == ParsedControl(None, [Undo])
    requires n == Deliver(sp, p, s, undo)
    ensures n.buffer.value == top && n.engine.committed == s.engine.committed
    ensures InStep(initial, n) <==> top == Base(initial, s.engine)
  {
    SettledIsBase(initial, s);
    ControlKeepsStepIff(sp, p, initial, s, undo);
    var b1 := ControlRuns(sp, p, initial, s, undo);
  }

  /** Every committed utterance leaves the text before it on the undo stack. */
  lemma CommitPushes(sp: Speech, p: Platform, initial: Units, s: System, event: Transcript, rendered: string)
    requires InStep(initial, s) && rendered == Rendered(sp, s.engine, event) && rendered != ""
    requires Acceptable(event) && event.finalResult && Control(sp, event).None?
    ensures Deliver(sp, p, s, event).buffer.undo == s.buffer.undo + [Base(initial, s.engine)]
  {
    var b1 := PlainRuns(sp, p, initial, s, event, rendered);
    SnapshotPushed(p, b1, Base(initial, s.engine), s.engine.transactionId, rendered);
  }

  lemma SnapshotPushed(p: Platform, b: Buffer, base: Units, id: nat, rendered: string)
    requires Provisional(b, base, id, rendered) && rendered != ""
    ensures ApplyOne(p, b, CommitTransaction(id)).undo == b.undo + [base]
  {
    EncodeEmptyIff(rendered);
    assert |b.value| > |base|;
  }

  // ---------------------------------------------------------------------
  // A reachable failure: the prefix chosen for a partial outlives a mode switch

  const Parrot := Speech(
    s => s,
    s => if s == "code mode" then Some(ParsedControl(None, [SetMode(Code)])) else None,
    (s, m) => s,
    s => [s],
    c => c == ' ')

  const Hello := Transcript("Hi", true)
  const Partial := Transcript("code", false)
  const Switch := Transcript("code mode", true)

  lemma ParrotCommits(p: Platform, s: System, n: System)
    requires s == System(NewEngine(Natural), Buffer([], map[], [])) && n == Deliver(Parrot, p, s, Hello)
    ensures InStep([], n) && n.engine == Engine(Natural, 2, "", "", [], [], ["Hi"], false)
  {
    PlainKeepsStep(Parrot, p, [], s, Hello);
    ParrotHears();
  }

  lemma ParrotHears()
    ensures Ingest(Parrot, NewEngine(Natural), Hello).0 == Engine(Natural, 2, "", "", [], [], ["Hi"], false)
  {
    PlainShape(Parrot, NewEngine(Natural), Hello, "Hi");
  }

  lemma ParrotPrefixes(p: Platform, s: System, n: System)
    requires InStep([], s) && s.engine == Engine(Natural, 2, "", "", [], [], ["Hi"], false)
    requires n == Deliver(Parrot, p, s, Partial)
    ensures InStep([], n) && n.engine.transactionId == 2 && n.engine.prefix == " "
  {
    PlainKeepsStep(Parrot, p, [], s, Partial);
    ParrotSeparates(s.engine);
  }

  lemma ParrotSeparates(e: Engine)
    requires e == Engine(Natural, 2, "", "", [], [], ["Hi"], false)
    ensures Ingest(Parrot, e, Partial).0.prefix == " " && Ingest(Parrot, e, Partial).0.transactionId == 2
  {
    assert DisplayText(Parrot, e, Partial) == "code";
    var last := e.committed[|e.committed| - 1];
    assert last[|last| - 1] == 'i' && "code"[0] == 'c';
    assert SeparatorFor(Parrot, e, "code") == (" ", e);
    ObservedKeeps(Parrot, e, Partial);
  }

  /** "Hi" is committed, "code" arrives as a partial and is preceded by a space, and the final
      turns out to be the command "code mode": the document keeps "Hi " while the engine has
      committed "Hi". */
  lemma ModeSwitchAfterPartialGoesOutOfStep(p: Platform)
    ensures
      !InStep([], DeliverAll(Parrot, p, System(NewEngine(Natural), Buffer([], map[], [])), [Hello, Partial, Switch]))
  {
    var start := System(NewEngine(Natural), Buffer([], map[], []));
    var s1, s2, s3 := DeliverThree(Parrot, p, start, [Hello, Partial, Switch]);
    ParrotCommits(p, start, s1);
    ParrotPrefixes(p, s1, s2);
    ParrotSwitches(p, s2, s3);
  }

  lemma ParrotSwitches(p: Platform, s: System, n: System)
    requires InStep([], s) && s.engine.transactionId == 2 && s.engine.prefix == " "
    requires n == Deliver(Parrot, p, s, Switch)
    ensures !InStep([], n)
  {
    ControlKeepsStepIff(Parrot, p, [], s, Switch);
  }

  lemma DeliverSnoc(sp: Speech, p: Platform, s: System, events: seq<Transcript>, n: nat)
    requires 0 < n <= |events|
    ensures DeliverAll(sp, p, s, events[..n]) == Deliver(sp, p, DeliverAll(sp, p, s, events[..n - 1]), events[n - 1])
  {
    assert events[..n][..n - 1] == events[..n - 1];
  }

  lemma DeliverThree(sp: Speech, p: Platform, s: System, events: seq<Transcript>)
    returns (s1: System, s2: System, s3: System)
    requires |events| == 3
    ensures s1 == Deliver(sp, p, s, events[0]) && s2 == Deliver(sp, p, s1, events[1])
    ensures s3 == Deliver(sp, p, s2, events[2]) && s3 == DeliverAll(sp, p, s, events)
  {
    assert events[..0] == [] && events[..3] == events;
    DeliverSnoc(sp, p, s, events, 1);
    DeliverSnoc(sp, p, s, events, 2);
    DeliverSnoc(sp, p, s, events, 3);
    s1, s2, s3 := DeliverAll(sp, p, s, events[..1]), DeliverAll(sp, p, s, events[..2]), DeliverAll(sp, p, s, events);
  }
}
