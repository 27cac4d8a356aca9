/** Speech detection over a chunked stream (scripts/voice-runtime.py, `_reset_silero_vad` and
    `_speech_probability`): 512-sample windows, each run with the last 64 samples before it and
    the recurrent state left by the previous window. The network itself is a parameter. */
module VoiceActivity {
  import opened Collections

  const SAMPLE_RATE: nat := 16_000
  const WINDOW: nat := 512
  const CONTEXT: nat := 64

  // A float as the code meets it.
  datatype Float = Num(value: real) | NotANumber | PositiveInfinity | NegativeInfinity

  function Clip(x: real, low: real, high: real): real
    requires low <= high
  {
    if x < low then low else if x > high then high else x
  }

  function Clean(x: Float): real {
    match x
    case Num(v) => Clip(v, -1.0, 1.0)
    case NotANumber => 0.0
    case PositiveInfinity => 1.0
    case NegativeInfinity => -1.0
  }

  /** Cleaning keeps a sample in range, takes one out of range to the nearer end, infinities
      included, and turns what is no number into silence. */
  lemma CleanIsClamp(x: Float, p: real)
    ensures !x.NotANumber? ==> IsClampTo(x, -1.0, 1.0, Clean(x))
    ensures IsClampTo(x, -1.0, 1.0, p) ==> p == Clean(x)
    ensures x.NotANumber? ==> Clean(x) == 0.0
  {
  }

  // ---------------------------------------------------------------------
  // Clamping by comparisons, which are false on NaN

  predicate Less(a: Float, b: Float) {
    match (a, b)
    case (Num(x), Num(y)) => x < y
    case (NegativeInfinity, _) => b.Num? || b.PositiveInfinity?
    case (Num(_), PositiveInfinity) => true
    case _ => false
  }

  predicate AtMost(a: Float, b: Float) { Less(a, b) || (a == b && !a.NotANumber?) }

  function MinOf(a: Float, b: Float): Float { if Less(b, a) then b else a }

  function MaxOf(a: Float, b: Float): Float { if Less(a, b) then b else a }

  /** `max(0, min(1, x))`. */
  function Probability(x: Float): (p: real)
    ensures 0.0 <= p <= 1.0
  {
    MaxOf(Num(0.0), MinOf(Num(1.0), x)).value
  }

  /** `p` is the point of [low, high] closest to `x`. */
  predicate IsClampTo(x: Float, low: real, high: real, p: real) {
    low <= p <= high && (p < high ==> AtMost(x, Num(p))) && (p > low ==> AtMost(Num(p), x))
  }

  /** The two comparisons clamp exactly the inputs that are numbers, where the clamp is unique;
      NaN has no clamp and comes out as certain speech. */
  lemma ProbabilityClampsIff(x: Float, p: real)
    ensures IsClampTo(x, 0.0, 1.0, Probability(x)) <==> !x.NotANumber?
    ensures IsClampTo(x, 0.0, 1.0, p) ==> p == Probability(x)
    ensures x.NotANumber? ==> Probability(x) == 1.0
  {
  }

  function CleanAll(xs: seq<Float>): seq<real> { seq(|xs|, i requires 0 <= i < |xs| => Clean(xs[i])) }

  function Lifted(xs: seq<real>): seq<Float> { seq(|xs|, i requires 0 <= i < |xs| => Num(xs[i])) }

  ghost predicate InRange(xs: seq<real>) { forall i :: 0 <= i < |xs| ==> -1.0 <= xs[i] <= 1.0 }

  /** Samples kept from an earlier call are cleaned again, which changes nothing. */
  lemma CleaningAgain(pending: seq<real>, samples: seq<Float>)
    requires InRange(pending)
    ensures CleanAll(Lifted(pending) + samples) == pending + CleanAll(samples)
    ensures InRange(pending + CleanAll(samples))
  {
  }

  // ---------------------------------------------------------------------
  // Processing a whole stream at once

  type Network<!S> = (seq<real>, S) -> (Float, S)

  function Silence(): seq<real> { seq(CONTEXT, _ => 0.0) }

  /** The 64 samples before window `i`, silence before the first. */
  function ContextAt(stream: seq<real>, i: nat): seq<real>
    requires WINDOW * i <= |stream|
  {
    if i == 0 then Silence() else stream[WINDOW * i - CONTEXT..WINDOW * i]
  }

  function InputAt(stream: seq<real>, i: nat): seq<real>
    requires WINDOW * (i + 1) <= |stream|
  {
    ContextAt(stream, i) + stream[WINDOW * i..WINDOW * (i + 1)]
  }

  function StateAt<S>(run: Network<S>, initial: S, stream: seq<real>, i: nat): S
    requires WINDOW * i <= |stream|
  {
    if i == 0 then initial else run(InputAt(stream, i - 1), StateAt(run, initial, stream, i - 1)).1
  }

  function ProbabilityAt<S>(run: Network<S>, initial: S, stream: seq<real>, i: nat): real
    requires WINDOW * (i + 1) <= |stream|
  {
    Probability(run(InputAt(stream, i), StateAt(run, initial, stream, i)).0)
  }

  /** The probabilities of windows `from`, `from + 1`, ... below `to`. */
  function Probabilities<S>(run: Network<S>, initial: S, stream: seq<real>, from: nat, to: nat): seq<real>
    requires from <= to && WINDOW * to <= |stream|
  {
    seq(to - from, i requires 0 <= i < to - from => ProbabilityAt(run, initial, stream, from + i))
  }

  function Complete(stream: seq<real>): nat { |stream| / WINDOW }

  /** The inputs are 576 samples wide and move on by 512 along the stream, which begins with 64
      samples of silence. */
  lemma InputsSlide(stream: seq<real>, i: nat)
    requires 512 * (i + 1) <= |stream|
    ensures InputAt(stream, i) == (seq(64, _ => 0.0) + stream)[512 * i..512 * i + 576]
  {
    var led := seq(64, _ => 0.0) + stream;
    assert led[512 * i + 64..512 * i + 576] == stream[512 * i..512 * (i + 1)];
    assert led[512 * i..512 * i + 64] == ContextAt(stream, i);
    assert led[512 * i..512 * i + 576] == led[512 * i..512 * i + 64] + led[512 * i + 64..512 * i + 576];
  }

  // ---------------------------------------------------------------------
  // Later audio changes nothing that was already decided

  lemma InputIsStable(stream: seq<real>, more: seq<real>, i: nat)
    requires WINDOW * (i + 1) <= |stream|
    ensures InputAt(stream + more, i) == InputAt(stream, i)
  {
  }

  lemma {:induction false} StateIsStable<S>(run: Network<S>, initial: S, stream: seq<real>, more: seq<real>, i: nat)
    requires WINDOW * i <= |stream|
    ensures StateAt(run, initial, stream + more, i) == StateAt(run, initial, stream, i)
    ensures ContextAt(stream + more, i) == ContextAt(stream, i)
  {
    if i > 0 {
      StateIsStable(run, initial, stream, more, i - 1);
      InputIsStable(stream, more, i - 1);
    }
  }

  lemma ProbabilitiesAreStable<S>(
      run: Network<S>, initial: S, stream: seq<real>, more: seq<real>, all: seq<real>, from: nat, to: nat)
    requires from <= to && WINDOW * to <= |stream| && all == stream + more
    ensures Probabilities(run, initial, all, from, to) == Probabilities(run, initial, stream, from, to)
  {
    forall i: nat | from <= i < to
      ensures ProbabilityAt(run, initial, all, i) == ProbabilityAt(run, initial, stream, i)
    {
      ProbabilityIsStable(run, initial, stream, more, i);
    }
  }

  lemma ProbabilityIsStable<S>(run: Network<S>, initial: S, stream: seq<real>, more: seq<real>, i: nat)
    requires WINDOW * (i + 1) <= |stream|
    ensures ProbabilityAt(run, initial, stream + more, i) == ProbabilityAt(run, initial, stream, i)
  {
    InputIsStable(stream, more, i);
    StateIsStable(run, initial, stream, more, i);
  }

  lemma ProbabilitiesConcat<S>(run: Network<S>, initial: S, stream: seq<real>, from: nat, mid: nat, to: nat)
    requires from <= mid <= to && WINDOW * to <= |stream|
    ensures Probabilities(run, initial, stream, from, mid) + Probabilities(run, initial, stream, mid, to)
            == Probabilities(run, initial, stream, from, to)
  {
  }

  // ---------------------------------------------------------------------
  // The calls

  datatype Detector<S> = Detector(pending: seq<real>, state: S, context: seq<real>, last: real)

  /** The window loop: what a call does with its audio, one window after the other. */
  function Windows<S>(run: Network<S>, state: S, context: seq<real>, audio: seq<real>): (S, seq<real>, seq<real>)
    requires |context| == CONTEXT
    decreases |audio|
  {
    if |audio| < WINDOW then (state, context, [])
    else
      var input := context + audio[..WINDOW];
      var (output, next) := run(input, state);
      var (state', context', rest) := Windows(run, next, input[|input| - CONTEXT..], audio[WINDOW..]);
      (state', context', [Probability(output)] + rest)
  }

  function Peak(xs: seq<real>): (m: real)
    requires xs != []
    ensures m in xs && forall i :: 0 <= i < |xs| ==> xs[i] <= m
  {
    var last := xs[|xs| - 1];
    if |xs| == 1 then last
    else
      var m := Peak(xs[..|xs| - 1]);
      if last > m then last else m
  }

  /** What a call reports: the peak of its own windows, or the previous report without any. */
  function Report(previous: real, probabilities: seq<real>): real {
    if probabilities == [] then previous else Peak(probabilities)
  }

  /** `_speech_probability` on 16 kHz samples: the detector afterwards and the call's probabilities. */
  function Call<S>(run: Network<S>, d: Detector<S>, samples: seq<Float>): (Detector<S>, seq<real>)
    requires |d.context| == CONTEXT
  {
    var audio := CleanAll(Lifted(d.pending) + samples);
    var (state, context, probabilities) := Windows(run, d.state, d.context, audio);
    (Detector(audio[|audio| / WINDOW * WINDOW..], state, context, Report(d.last, probabilities)), probabilities)
  }

  lemma {:induction false} WindowsKeepContext<S>(run: Network<S>, state: S, context: seq<real>, audio: seq<real>)
    requires |context| == CONTEXT
    ensures |Windows(run, state, context, audio).1| == CONTEXT
    decreases |audio|
  {
    if |audio| >= WINDOW {
      var input := context + audio[..WINDOW];
      WindowsKeepContext(run, run(input, state).1, input[|input| - CONTEXT..], audio[WINDOW..]);
    }
  }

  /** One call per chunk: the detector afterwards and all probabilities in order. */
  function Calls<S>(run: Network<S>, d: Detector<S>, chunks: seq<seq<Float>>): (r: (Detector<S>, seq<real>))
    requires |d.context| == CONTEXT
    ensures |r.0.context| == CONTEXT
    decreases |chunks|
  {
    if chunks == [] then (d, [])
    else
      var (before, probabilities) := Calls(run, d, chunks[..|chunks| - 1]);
      var samples := chunks[|chunks| - 1];
      WindowsKeepContext(run, before.state, before.context, CleanAll(Lifted(before.pending) + samples));
      var (now, more) := Call(run, before, samples);
      (now, probabilities + more)
  }

  function Flatten(chunks: seq<seq<Float>>): seq<Float> {
    if chunks == [] then [] else Flatten(chunks[..|chunks| - 1]) + chunks[|chunks| - 1]
  }

  function NewDetector<S>(initial: S): Detector<S> { Detector([], initial, Silence(), 0.0) }

  /** What the detector keeps is what the whole stream so far leaves, and less than a window waits. */
  ghost predicate Tracks<S>(run: Network<S>, initial: S, heard: seq<real>, d: Detector<S>) {
    && InRange(d.pending)
    && d.pending == heard[WINDOW * Complete(heard)..] && |d.pending| < WINDOW
    && d.state == StateAt(run, initial, heard, Complete(heard))
    && d.context == ContextAt(heard, Complete(heard))
  }

  lemma NewDetectorTracks<S>(run: Network<S>, initial: S)
    ensures Tracks(run, initial, [], NewDetector(initial))
  {
  }

  /** The loop's input and next context are those of the whole stream. */
  lemma WindowOfStream(stream: seq<real>, first: nat, audio: seq<real>, input: seq<real>)
    requires WINDOW * first <= |stream| && audio == stream[WINDOW * first..] && WINDOW <= |audio|
    requires input == ContextAt(stream, first) + audio[..WINDOW]
    ensures input == InputAt(stream, first)
    ensures |input| >= CONTEXT && input[|input| - CONTEXT..] == ContextAt(stream, first + 1)
    ensures audio[WINDOW..] == stream[WINDOW * (first + 1)..]
  {
  }

  lemma ProbabilitiesFromFront<S>(run: Network<S>, initial: S, stream: seq<real>, from: nat, to: nat)
    requires from < to && WINDOW * to <= |stream|
    ensures Probabilities(run, initial, stream, from, to)
            == [ProbabilityAt(run, initial, stream, from)] + Probabilities(run, initial, stream, from + 1, to)
  {
  }

  lemma CompleteFrom(stream: seq<real>, first: nat, audio: seq<real>)
    requires WINDOW * first <= |stream| && audio == stream[WINDOW * first..]
    ensures Complete(stream) == first + |audio| / WINDOW
    ensures audio[|audio| / WINDOW * WINDOW..] == stream[WINDOW * Complete(stream)..]
  {
  }

  /** Run from any window of a stream on, the loop goes through the stream's states, contexts and probabilities. */
  lemma {:induction false} WindowsFollowStream<S>(
      run: Network<S>, initial: S, stream: seq<real>, first: nat, state: S, context: seq<real>, audio: seq<real>)
    requires WINDOW * first <= |stream| && audio == stream[WINDOW * first..]
    requires state == StateAt(run, initial, stream, first) && context == ContextAt(stream, first)
    ensures
      var n := Complete(stream);
      first <= n && Windows(run, state, context, audio) == (
        StateAt(run, initial, stream, n), ContextAt(stream, n), Probabilities(run, initial, stream, first, n))
    decreases |audio|
  {
    CompleteFrom(stream, first, audio);
    if |audio| < WINDOW {
      assert Probabilities(run, initial, stream, first, first) == [];
    } else {
      var input := context + audio[..WINDOW];
      WindowOfStream(stream, first, audio, input);
      var (output, next) := run(input, state);
      assert next == StateAt(run, initial, stream, first + 1);
      assert Probability(output) == ProbabilityAt(run, initial, stream, first);
      WindowsFollowStream(run, initial, stream, first + 1, next, input[|input| - CONTEXT..], audio[WINDOW..]);
      ProbabilitiesFromFront(run, initial, stream, first, Complete(stream));
    }
  }

  lemma CallTracks<S>(run: Network<S>, initial: S, heard: seq<real>, d: Detector<S>, samples: seq<Float>)
    requires Tracks(run, initial, heard, d)
    ensures |d.context| == CONTEXT
    ensures
      var stream := heard + CleanAll(samples);
      var (n, probabilities) := Call(run, d, samples);
      && Tracks(run, initial, stream, n) && Complete(heard) <= Complete(stream)
      && probabilities == Probabilities(run, initial, stream, Complete(heard), Complete(stream))
  {
    var first, stream := Complete(heard), heard + CleanAll(samples);
    var audio := CleanAll(Lifted(d.pending) + samples);
    CleaningAgain(d.pending, samples);
    StateIsStable(run, initial, heard, CleanAll(samples), first);
    assert audio == stream[WINDOW * first..];
    WindowsFollowStream(run, initial, stream, first, d.state, d.context, audio);
    CompleteFrom(stream, first, audio);
  }

  lemma CleanAllConcat(a: seq<Float>, b: seq<Float>)
    ensures CleanAll(a + b) == CleanAll(a) + CleanAll(b)
  {
  }

  /** Everything heard once the chunks are handed over: by `HeardIsFlat`, however they are cut. */
  function Heard(heard: seq<real>, chunks: seq<seq<Float>>): seq<real> {
    if chunks == [] then heard else Heard(heard, chunks[..|chunks| - 1]) + CleanAll(chunks[|chunks| - 1])
  }

  lemma {:induction false} HeardIsFlat(heard: seq<real>, chunks: seq<seq<Float>>)
    ensures Heard(heard, chunks) == heard + CleanAll(Flatten(chunks))
  {
    if chunks != [] {
      var front, last := chunks[..|chunks| - 1], chunks[|chunks| - 1];
      HeardIsFlat(heard, front);
      CleanAllConcat(Flatten(front), last);
      assert heard + (CleanAll(Flatten(front)) + CleanAll(last)) == (heard + CleanAll(Flatten(front))) + CleanAll(last);
    }
  }

  /** However a stream is cut into chunks, the calls together leave the pending samples, state
      and context of the whole stream, and produce exactly its window probabilities. */
  lemma {:induction false} ChunkingIsInvisible<S>(
      run: Network<S>, initial: S, heard: seq<real>, d: Detector<S>, chunks: seq<seq<Float>>)
    requires Tracks(run, initial, heard, d)
    ensures |d.context| == CONTEXT
    ensures
      var all := Heard(heard, chunks);
      var (n, probabilities) := Calls(run, d, chunks);
      && Tracks(run, initial, all, n) && Complete(heard) <= Complete(all)
      && probabilities == Probabilities(run, initial, all, Complete(heard), Complete(all))
    decreases |chunks|
  {
    if chunks != [] {
      var front, samples := chunks[..|chunks| - 1], chunks[|chunks| - 1];
      ChunkingIsInvisible(run, initial, heard, d, front);
      var (before, probabilities) := Calls(run, d, front);
      NextChunk(run, initial, Complete(heard), Heard(heard, front), before, probabilities, samples, Heard(heard, chunks));
    }
  }

  lemma NextChunk<S>(run: Network<S>, initial: S, first: nat, mid: seq<real>, d: Detector<S>,
                     probabilities: seq<real>, samples: seq<Float>, all: seq<real>)
    requires Tracks(run, initial, mid, d) && all == mid + CleanAll(samples) && first <= Complete(mid)
    requires probabilities == Probabilities(run, initial, mid, first, Complete(mid))
    ensures |d.context| == CONTEXT && Complete(mid) <= Complete(all)
    ensures Tracks(run, initial, all, Call(run, d, samples).0)
    ensures probabilities + Call(run, d, samples).1 == Probabilities(run, initial, all, first, Complete(all))
  {
    CallTracks(run, initial, mid, d, samples);
    ProbabilitiesAreStable(run, initial, mid, CleanAll(samples), all, first, Complete(mid));
    ProbabilitiesConcat(run, initial, all, first, Complete(mid), Complete(all));
  }

  /** Two ways of cutting one stream end in the same pending samples, state, context and probabilities. */
  lemma SplitsAgree<S>(run: Network<S>, initial: S, heard: seq<real>, d: Detector<S>,
                       a: seq<seq<Float>>, b: seq<seq<Float>>)
    requires Tracks(run, initial, heard, d) && Flatten(a) == Flatten(b)
    ensures |d.context| == CONTEXT
    ensures
      var ((x, p), (y, q)) := (Calls(run, d, a), Calls(run, d, b));
      p == q && x.pending == y.pending && x.state == y.state && x.context == y.context
  {
    ChunkingIsInvisible(run, initial, heard, d, a);
    ChunkingIsInvisible(run, initial, heard, d, b);
    HeardIsFlat(heard, a);
    HeardIsFlat(heard, b);
  }

  // ---------------------------------------------------------------------
  // The report, which does depend on the chunks

  /** First window completed by the last chunk that completes any. */
  function LastBatch(heard: seq<real>, chunks: seq<seq<Float>>): nat {
    if chunks == [] then Complete(heard)
    else
      var front := chunks[..|chunks| - 1];
      var before, now := Complete(Heard(heard, front)), Complete(Heard(heard, chunks));
      if before < now then before else LastBatch(heard, front)
  }

  /** Some element from `from` on is as large as every element. */
  ghost predicate AttainsPeak(p: seq<real>, from: nat) {
    exists i :: from <= i < |p| && forall j :: 0 <= j < |p| ==> p[j] <= p[i]
  }

  lemma PeakOfSuffixIff(p: seq<real>, from: nat)
    requires from < |p|
    ensures Peak(p[from..]) == Peak(p) <==> AttainsPeak(p, from)
  {
    var part := p[from..];
    var x :| 0 <= x < |part| && part[x] == Peak(part);
    assert part[x] == p[from + x];
    if AttainsPeak(p, from) {
      var i :| from <= i < |p| && forall j :: 0 <= j < |p| ==> p[j] <= p[i];
      assert part[i - from] == p[i];
    }
  }

  /** The report is the peak over the last batch of windows. */
  lemma {:induction false} ReportIsOfLastBatch<S>(
      run: Network<S>, initial: S, heard: seq<real>, d: Detector<S>, chunks: seq<seq<Float>>)
    requires Tracks(run, initial, heard, d)
    ensures |d.context| == CONTEXT
    ensures
      var all := Heard(heard, chunks);
      var k, n := LastBatch(heard, chunks), Complete(all);
      && Complete(heard) <= k <= n && (k == n <==> Complete(heard) == n)
      && Calls(run, d, chunks).0.last == Report(d.last, Probabilities(run, initial, all, k, n))
    decreases |chunks|
  {
    if chunks != [] {
      var front, samples := chunks[..|chunks| - 1], chunks[|chunks| - 1];
      ReportIsOfLastBatch(run, initial, heard, d, front);
      ChunkingIsInvisible(run, initial, heard, d, front);
      ReportAfterChunk(run, initial, Heard(heard, front), Calls(run, d, front).0, d.last, LastBatch(heard, front),
                       samples, Heard(heard, chunks));
    }
  }

  lemma ReportAfterChunk<S>(run: Network<S>, initial: S, mid: seq<real>, d: Detector<S>, previous: real,
                            k: nat, samples: seq<Float>, all: seq<real>)
    requires Tracks(run, initial, mid, d) && all == mid + CleanAll(samples) && k <= Complete(mid)
    requires d.last == Report(previous, Probabilities(run, initial, mid, k, Complete(mid)))
    ensures |d.context| == CONTEXT && Complete(mid) <= Complete(all)
    ensures
      var k' := if Complete(mid) < Complete(all) then Complete(mid) else k;
      Call(run, d, samples).0.last == Report(previous, Probabilities(run, initial, all, k', Complete(all)))
  {
    CallTracks(run, initial, mid, d, samples);
    if Complete(mid) == Complete(all) {
      ProbabilitiesAreStable(run, initial, mid, CleanAll(samples), all, k, Complete(mid));
    }
  }

  /** Some window of the last batch is as likely speech as every window since `heard`. */
  ghost predicate LastBatchPeaks<S>(run: Network<S>, initial: S, heard: seq<real>, all: seq<real>, k: nat)
    requires Complete(heard) <= Complete(all) && Complete(heard) <= k
  {
    AttainsPeak(Probabilities(run, initial, all, Complete(heard), Complete(all)), k - Complete(heard))
  }

  /** A stream handed over in chunks ends with the report of one call on all of it exactly if
      a window of the last batch is as likely speech as any window of the stream. */
  lemma ReportAgreesIff<S>(run: Network<S>, initial: S, heard: seq<real>, d: Detector<S>, chunks: seq<seq<Float>>)
    requires Tracks(run, initial, heard, d) && Complete(heard) < Complete(Heard(heard, chunks))
    ensures |d.context| == CONTEXT && Complete(heard) <= LastBatch(heard, chunks)
    ensures Calls(run, d, chunks).0.last == Call(run, d, Flatten(chunks)).0.last
            <==> LastBatchPeaks(run, initial, heard, Heard(heard, chunks), LastBatch(heard, chunks))
  {
    ReportIsOfLastBatch(run, initial, heard, d, chunks);
    HeardIsFlat(heard, chunks);
    OneCallIff(run, initial, heard, d, Flatten(chunks), Heard(heard, chunks), LastBatch(heard, chunks));
  }

  lemma OneCallIff<S>(run: Network<S>, initial: S, heard: seq<real>, d: Detector<S>, samples: seq<Float>,
                      all: seq<real>, k: nat)
    requires Tracks(run, initial, heard, d) && all == heard + CleanAll(samples)
    requires Complete(heard) <= k < Complete(all)
    ensures |d.context| == CONTEXT
    ensures Report(d.last, Probabilities(run, initial, all, k, Complete(all))) == Call(run, d, samples).0.last
            <==> LastBatchPeaks(run, initial, heard, all, k)
  {
    CallTracks(run, initial, heard, d, samples);
    var p := Probabilities(run, initial, all, Complete(heard), Complete(all));
    SuffixOfProbabilities(run, initial, all, Complete(heard), k, Complete(all));
    ReportOfSuffixIff(d.last, p, k - Complete(heard), Probabilities(run, initial, all, k, Complete(all)));
  }

  lemma SuffixOfProbabilities<S>(run: Network<S>, initial: S, all: seq<real>, first: nat, k: nat, n: nat)
    requires first <= k < n && WINDOW * n <= |all|
    ensures k - first < |Probabilities(run, initial, all, first, n)|
    ensures Probabilities(run, initial, all, first, n)[k - first..] == Probabilities(run, initial, all, k, n)
  {
  }

  lemma ReportOfSuffixIff(previous: real, p: seq<real>, from: nat, part: seq<real>)
    requires from < |p| && part == p[from..]
    ensures Report(previous, part) == Report(previous, p) <==> AttainsPeak(p, from)
  {
    PeakOfSuffixIff(p, from);
  }

  // A network that hears speech in its first window only, and two windows of silence.
  const OnceOnly: Network<nat> := (_: seq<real>, s: nat) => (if s == 0 then Num(1.0) else Num(0.0), s + 1)

  function Quiet(n: nat): seq<Float> { seq(n, _ => Num(0.0)) }

  /** 1024 samples in one call report 1; the same samples in two calls of 512 end with report 0. */
  lemma ReportDependsOnChunks()
    ensures Flatten([Quiet(512), Quiet(512)]) == Flatten([Quiet(1024)]) == Quiet(1024)
    ensures Calls(OnceOnly, NewDetector(0), [Quiet(1024)]).0.last == 1.0
    ensures Calls(OnceOnly, NewDetector(0), [Quiet(512), Quiet(512)]).0.last == 0.0
  {
    TwoChunks(Quiet(512), Quiet(512));
    OneChunk(Quiet(1024));
    assert Quiet(512) + Quiet(512) == Quiet(1024);
    NewDetectorTracks(OnceOnly, 0);
    ReportIsOfLastBatch(OnceOnly, 0, [], NewDetector(0), [Quiet(1024)]);
    ReportIsOfLastBatch(OnceOnly, 0, [], NewDetector(0), [Quiet(512), Quiet(512)]);
    OnceOnlyHearsOnce(Heard([], [Quiet(1024)]));
    OnceOnlyHearsOnce(Heard([], [Quiet(512), Quiet(512)]));
  }

  lemma OneChunk(a: seq<Float>)
    ensures Flatten([a]) == a && Heard([], [a]) == CleanAll(a) && (|a| >= WINDOW ==> LastBatch([], [a]) == 0)
  {
    assert [a][..0] == [];
  }

  lemma TwoChunks(a: seq<Float>, b: seq<Float>)
    ensures Flatten([a, b]) == a + b && |Heard([], [a, b])| == |a| + |b|
    ensures |a| == |b| == WINDOW ==> LastBatch([], [a, b]) == 1
  {
    assert [a, b][..1] == [a];
    OneChunk(a);
  }

  lemma OnceOnlyHearsOnce(all: seq<real>)
    requires |all| == 1024
    ensures Peak(Probabilities(OnceOnly, 0, all, 0, 2)) == 1.0 && Peak(Probabilities(OnceOnly, 0, all, 1, 2)) == 0.0
  {
    assert StateAt(OnceOnly, 0, all, 1) == 1;
    assert ProbabilityAt(OnceOnly, 0, all, 0) == 1.0 && ProbabilityAt(OnceOnly, 0, all, 1) == 0.0;
    assert Probabilities(OnceOnly, 0, all, 0, 2) == [1.0, 0.0] by {
      assert Probabilities(OnceOnly, 0, all, 0, 1) == [] + [1.0];
    }
    assert Probabilities(OnceOnly, 0, all, 1, 2) == [] + [0.0];
    assert Peak([1.0]) == 1.0 && [1.0, 0.0][..1] == [1.0];
  }

  // ---------------------------------------------------------------------
  // The detector

  method RunWindows<S>(run: Network<S>, audio: seq<real>, state0: S, context0: seq<real>)
    returns (state: S, context: seq<real>, probabilities: seq<real>)
    requires |context0| == CONTEXT
    ensures (state, context, probabilities) == Windows(run, state0, context0, audio)
  {
    state, context, probabilities := state0, context0, [];
    ghost var all := Windows(run, state0, context0, audio);
    assert audio[0..] == audio && [] + all.2 == all.2;
    for n := 0 to |audio| / WINDOW
      invariant |context| == CONTEXT
      invariant Continues(run, state, context, audio[WINDOW * n..], probabilities, all)
    {
      var input := context + audio[WINDOW * n..WINDOW * (n + 1)];
      ghost var left := audio[WINDOW * n..];
      assert left[..WINDOW] == audio[WINDOW * n..WINDOW * (n + 1)] && left[WINDOW..] == audio[WINDOW * (n + 1)..];
      OneMoreWindow(run, state, context, left, probabilities, all);
      var (output, next) := run(input, state);
      state := next;
      context := input[|input| - CONTEXT..];
      probabilities := probabilities + [Probability(output)];
    }
    assert Windows(run, state, context, audio[WINDOW * (|audio| / WINDOW)..]) == (state, context, []);
    assert probabilities + [] == probabilities;
  }

  /** `all` is what is done so far followed by the loop on the audio left. */
  ghost predicate Continues<S>(run: Network<S>, state: S, context: seq<real>, left: seq<real>,
                               done: seq<real>, all: (S, seq<real>, seq<real>))
    requires |context| == CONTEXT
  {
    var rest := Windows(run, state, context, left);
    all == (rest.0, rest.1, done + rest.2)
  }

  lemma OneMoreWindow<S>(run: Network<S>, state: S, context: seq<real>, left: seq<real>,
                         done: seq<real>, all: (S, seq<real>, seq<real>))
    requires |context| == CONTEXT && |left| >= WINDOW && Continues(run, state, context, left, done, all)
    ensures
      var input := context + left[..WINDOW];
      var (output, next) := run(input, state);
      Continues(run, next, input[|input| - CONTEXT..], left[WINDOW..], done + [Probability(output)], all)
  {
    var input := context + left[..WINDOW];
    var (output, next) := run(input, state);
    var rest := Windows(run, next, input[|input| - CONTEXT..], left[WINDOW..]);
    assert done + ([Probability(output)] + rest.2) == (done + [Probability(output)]) + rest.2;
  }

  method Maximum(xs: seq<real>) returns (m: real)
    requires xs != []
    ensures m == Peak(xs)
  {
    m := xs[0];
    assert xs[..1] == [xs[0]];
    for i := 1 to |xs|
      invariant m == Peak(xs[..i])
    {
      assert xs[..i + 1][..i] == xs[..i];
      if xs[i] > m {
        m := xs[i];
      }
    }
    assert xs[..|xs|] == xs;
  }

  class SpeechDetector<S> {
    const run: Network<S>
    const initial: S
    var pending: seq<real>
    var state: S
    var context: seq<real>
    var lastProbability: real
    ghost var heard: seq<real>         // every cleaned sample since the last reset

    function Value(): Detector<S>
      reads this
    {
      Detector(pending, state, context, lastProbability)
    }

    ghost predicate Valid()
      reads this
    {
      Tracks(run, initial, heard, Value())
    }

    constructor (run: Network<S>, initial: S)
      ensures Valid() && heard == [] && Value() == NewDetector(initial)
      ensures this.run == run && this.initial == initial
    {
      this.run := run;
      this.initial := initial;
      pending := [];
      state := initial;
      context := Silence();
      lastProbability := 0.0;
      heard := [];
    }

    method Reset()
      modifies this
      ensures Valid() && heard == [] && Value() == NewDetector(initial)
    {
      pending := [];
      lastProbability := 0.0;
      state := initial;
      context := Silence();
      heard := [];
    }

    method SpeechProbability(samples: seq<Float>, sampleRate: nat) returns (r: Result<Detection, string>)
      requires Valid()
      modifies this
      ensures Valid()
      ensures r.Err? <==> sampleRate != SAMPLE_RATE
      ensures r.Err? ==> heard == old(heard) && Value() == old(Value())
      ensures r.Ok? ==>
                && |old(context)| == CONTEXT && Value() == Call(run, old(Value()), samples).0
                && heard == old(heard) + CleanAll(samples)
                && var windows := Probabilities(run, initial, heard, Complete(old(heard)), Complete(heard));
                && lastProbability == Report(old(lastProbability), windows)
                && r.value == Detection(lastProbability, |windows|)
    {
      if sampleRate != SAMPLE_RATE {
        return Err("Silero VAD chunks must be 16 kHz mono audio");
      }
      CallTracks(run, initial, heard, Value(), samples);
      var audio := CleanAll(Lifted(pending) + samples);
      var completeSamples := |audio| / WINDOW * WINDOW;
      pending := audio[completeSamples..];
      heard := heard + CleanAll(samples);
      var probabilities;
      state, context, probabilities := RunWindows(run, audio, state, context);
      if probabilities != [] {
        lastProbability := Maximum(probabilities);
      }
      return Ok(Detection(lastProbability, |probabilities|));
    }
  }

  datatype Detection = Detection(probability: real, windows: nat)
}
