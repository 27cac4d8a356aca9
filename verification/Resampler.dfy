/** The capture worklet (apps/desktop/src/audio-worklet.ts): mono mixing, streaming linear
    resampling to 16 kHz and 320-sample framing, over `real`. */
module Resamplers {
  import opened Collections

  const TARGET_SAMPLE_RATE: real := 16_000.0
  const FRAME_SAMPLES: nat := 320
  const SOURCE_CAPACITY: nat := 4_096

  // ---------------------------------------------------------------------
  // Mixing

  function Clip(x: real): real { if x < -1.0 then -1.0 else if x > 1.0 then 1.0 else x }

  /** A channel shorter than the first one counts as silence where it is missing. */
  function SampleAt(channel: seq<real>, i: nat): real { if i < |channel| then channel[i] else 0.0 }

  function ChannelSum(channels: seq<seq<real>>, i: nat): real {
    if channels == [] then 0.0 else ChannelSum(channels[..|channels| - 1], i) + SampleAt(channels[|channels| - 1], i)
  }

  function Mono(channels: seq<seq<real>>, gain: real, i: nat): real
    requires channels != []
  {
    Level(ChannelSum(channels, i), |channels|, gain)
  }

  /** Average of the channels, amplified and clipped. */
  function Level(sum: real, channels: nat, gain: real): real
    requires channels > 0
  {
    Clip(Scaled(sum / channels as real, gain))
  }

  /** The mono samples one call contributes; nothing without a first channel. */
  function Block(channels: seq<seq<real>>, gain: real): seq<real> {
    if channels == [] then [] else seq(|channels[0]|, i requires 0 <= i => Mono(channels, gain, i))
  }

  /** Clipping gives the nearest level in range. */
  lemma ClipIsNearest(x: real, y: real)
    requires -1.0 <= y <= 1.0
    ensures -1.0 <= Clip(x) <= 1.0 && Distance(x, Clip(x)) <= Distance(x, y)
  {
  }

  function Distance(x: real, y: real): real { if x <= y then y - x else x - y }

  /** Where a channel has ended it counts as silence. */
  lemma MissingIsSilence(channels: seq<seq<real>>, gain: real, c: nat, more: nat, i: nat)
    requires c < |channels|
    ensures Mono(channels[c := channels[c] + seq(more, _ => 0.0)], gain, i) == Mono(channels, gain, i)
  {
    SameSamplesSameSum(channels, channels[c := channels[c] + seq(more, _ => 0.0)], i);
  }

  lemma {:induction false} SameSamplesSameSum(a: seq<seq<real>>, b: seq<seq<real>>, i: nat)
    requires |a| == |b| && forall c :: 0 <= c < |a| ==> SampleAt(a[c], i) == SampleAt(b[c], i)
    ensures ChannelSum(a, i) == ChannelSum(b, i)
  {
    if a != [] {
      SameSamplesSameSum(a[..|a| - 1], b[..|b| - 1], i);
    }
  }

  /** Channels that agree mix to what they agree on, amplified and clipped, however many they are. */
  lemma EqualChannelsMix(channels: seq<seq<real>>, gain: real, i: nat, x: real)
    requires channels != [] && forall c :: 0 <= c < |channels| ==> SampleAt(channels[c], i) == x
    ensures Mono(channels, gain, i) == Clip(Scaled(x, gain))
  {
    EqualSum(channels, i, x);
    LevelOfEqual(ChannelSum(channels, i), |channels|, x, gain);
  }

  lemma LevelOfEqual(sum: real, n: nat, x: real, gain: real)
    requires n > 0 && sum == n as real * x
    ensures Level(sum, n, gain) == Clip(Scaled(x, gain))
  {
    Average(n, x);
    assert sum / n as real == x;
    assert Scaled(sum / n as real, gain) == Scaled(x, gain);
  }

  lemma {:induction false} EqualSum(channels: seq<seq<real>>, i: nat, x: real)
    requires forall c :: 0 <= c < |channels| ==> SampleAt(channels[c], i) == x
    ensures ChannelSum(channels, i) == |channels| as real * x
  {
    if channels != [] {
      EqualSum(channels[..|channels| - 1], i, x);
      OneMore(|channels| - 1, x);
    }
  }

  lemma OneMore(n: nat, x: real)
    ensures n as real * x + x == (n + 1) as real * x
  {
  }

  lemma Average(n: nat, x: real)
    requires n > 0
    ensures n as real * x / n as real == x
  {
  }

  /** So unamplified in-range sound that is the same on all channels passes through unchanged. */
  lemma SoundPassesThrough(channels: seq<seq<real>>)
    requires channels != [] && (forall c :: 0 <= c < |channels| ==> channels[c] == channels[0]) && Bounded(channels[0])
    ensures Block(channels, 1.0) == channels[0]
  {
    forall i | 0 <= i < |channels[0]| ensures Mono(channels, 1.0, i) == channels[0][i] {
      EqualChannelsMix(channels, 1.0, i, channels[0][i]);
    }
  }

  // ---------------------------------------------------------------------
  // What the whole stream resamples to

  /** Where output sample `k` falls in the source: the position after `k` advances by `ratio`. */
  function Position(k: nat, ratio: real): real { if k == 0 then 0.0 else Position(k - 1, ratio) + ratio }

  lemma {:induction false} PositionIsMultiple(k: nat, ratio: real)
    ensures Position(k, ratio) == k as real * ratio
  {
    if k > 0 {
      PositionIsMultiple(k - 1, ratio);
    }
  }

  lemma {:induction false} PositionIsNonNegative(k: nat, ratio: real)
    requires ratio > 0.0
    ensures Position(k, ratio) >= 0.0
  {
    if k > 0 {
      PositionIsNonNegative(k - 1, ratio);
    }
  }

  function Blend(first: real, second: real, fraction: real): real { first + Scaled(second - first, fraction) }

  function Scaled(x: real, t: real): real { x * t }

  /** Linear interpolation of `source` at position `x`. */
  function Interpolate(source: seq<real>, x: real): real
    requires 0.0 <= x && x + 1.0 < |source| as real
  {
    Blend(source[x.Floor], source[x.Floor + 1], x - x.Floor as real)
  }

  /** Both source samples that output sample `k` needs have arrived. */
  predicate Ready(k: nat, received: nat, ratio: real) { Position(k, ratio) + 1.0 < received as real }

  function Tap(source: seq<real>, ratio: real, k: nat): real
    requires ratio > 0.0
  {
    PositionIsNonNegative(k, ratio);
    if Ready(k, |source|, ratio) then Interpolate(source, Position(k, ratio)) else 0.0
  }

  /** Number of output samples that `received` source samples determine: the ceiling of `(received - 1) / ratio`. */
  function Count(received: nat, ratio: real): nat
    requires ratio > 0.0
  {
    if received <= 1 then 0
    else
      var c := -((-((received - 1) as real / ratio)).Floor);
      if c < 0 then 0 else c
  }

  function Taps(source: seq<real>, ratio: real, n: nat): seq<real>
    requires ratio > 0.0
  {
    seq(n, k requires 0 <= k => Tap(source, ratio, k))
  }

  function Output(source: seq<real>, ratio: real): seq<real>
    requires ratio > 0.0
  {
    Taps(source, ratio, Count(|source|, ratio))
  }

  function Joined(frames: seq<seq<real>>): seq<real> {
    if frames == [] then [] else Joined(frames[..|frames| - 1]) + frames[|frames| - 1]
  }

  /** `x / r` is the exact bound on the multiples of `r` below `x`. */
  lemma MultipleBelow(k: nat, x: real, r: real)
    requires r > 0.0
    ensures k as real * r < x <==> k as real < x / r
  {
    assert x / r * r == x;
    if k as real < x / r {
      assert (x / r - k as real) * r > 0.0;
    } else {
      assert (k as real - x / r) * r >= 0.0;
    }
  }

  /** The closed form counts exactly the output samples `k` with `k * ratio + 1 < received`. */
  lemma CountIsExact(k: nat, received: nat, ratio: real)
    requires ratio > 0.0
    ensures k < Count(received, ratio) <==> Ready(k, received, ratio)
    ensures Ready(k, received, ratio) <==> k as real * ratio + 1.0 < received as real
  {
    PositionIsMultiple(k, ratio);
    if received <= 1 {
      PositionIsNonNegative(k, ratio);
    } else {
      MultipleBelow(k, (received - 1) as real, ratio);
    }
  }

  /** The count is reached when the next output sample is not determined yet. */
  lemma CountReached(n: nat, received: nat, ratio: real)
    requires ratio > 0.0 && n <= Count(received, ratio) && !Ready(n, received, ratio)
    ensures n == Count(received, ratio)
  {
    CountIsExact(n, received, ratio);
  }

  /** More source samples never change an output sample already determined. */
  lemma TapIsStable(source: seq<real>, more: seq<real>, ratio: real, k: nat)
    requires ratio > 0.0 && Ready(k, |source|, ratio)
    ensures Ready(k, |source + more|, ratio) && Tap(source + more, ratio, k) == Tap(source, ratio, k)
  {
    PositionIsNonNegative(k, ratio);
  }

  lemma CountGrows(received: nat, more: nat, ratio: real)
    requires ratio > 0.0 && received <= more
    ensures Count(received, ratio) <= Count(more, ratio)
  {
    var n := Count(received, ratio);
    if n > 0 {
      CountIsExact(n - 1, received, ratio);
      CountIsExact(n - 1, more, ratio);
    }
  }

  lemma OutputGrows(source: seq<real>, more: seq<real>, ratio: real)
    requires ratio > 0.0
    ensures Output(source, ratio) <= Output(source + more, ratio)
    ensures Output(source, ratio) == Taps(source + more, ratio, Count(|source|, ratio))
  {
    var n := Count(|source|, ratio);
    CountGrows(|source|, |source + more|, ratio);
    forall k: nat | k < n
      ensures Tap(source + more, ratio, k) == Tap(source, ratio, k)
    {
      CountIsExact(k, |source|, ratio);
      TapIsStable(source, more, ratio, k);
    }
  }

  /** A straight line is resampled to itself: interpolation weighs both neighbours rightly at every place. */
  lemma LineIsPreserved(source: seq<real>, ratio: real, a: real, b: real, k: nat)
    requires ratio > 0.0 && k < Count(|source|, ratio)
    requires forall i :: 0 <= i < |source| ==> source[i] == a + b * i as real
    ensures Output(source, ratio)[k] == a + b * (k as real * ratio)
  {
    CountIsExact(k, |source|, ratio);
    PositionIsMultiple(k, ratio);
    PositionIsNonNegative(k, ratio);
    var x := Position(k, ratio);
    BlendOnLine(a, b, x.Floor as real, x - x.Floor as real);
    assert source[x.Floor + 1] == a + b * (x.Floor as real + 1.0);
  }

  lemma BlendOnLine(a: real, b: real, i: real, t: real)
    ensures Blend(a + b * i, a + b * (i + 1.0), t) == a + b * (i + t)
  {
    assert b * (i + 1.0) == b * i + b && b * (i + t) == b * i + b * t;
  }

  /** At a whole-number ratio every `r`-th source sample comes out as it is. */
  lemma WholeRatioPicks(source: seq<real>, r: nat, k: nat)
    requires r > 0 && k < Count(|source|, r as real)
    ensures k * r < |source| && Output(source, r as real)[k] == source[k * r]
  {
    CountIsExact(k, |source|, r as real);
    PositionIsMultiple(k, r as real);
    PositionIsNonNegative(k, r as real);
    assert k as real * r as real == (k * r) as real;
    assert Position(k, r as real).Floor == k * r;
    ScaledByNothing(source[k * r + 1] - source[k * r]);
  }

  lemma ScaledByNothing(x: real)
    ensures Scaled(x, 0.0) == 0.0
  {
  }

  ghost predicate Bounded(s: seq<real>) { forall i :: 0 <= i < |s| ==> -1.0 <= s[i] <= 1.0 }

  /** Interpolating clipped samples never overshoots. */
  lemma OutputIsBounded(source: seq<real>, ratio: real)
    requires ratio > 0.0 && Bounded(source)
    ensures Bounded(Output(source, ratio))
  {
    forall k: nat | k < Count(|source|, ratio)
      ensures -1.0 <= Tap(source, ratio, k) <= 1.0
    {
      CountIsExact(k, |source|, ratio);
      PositionIsNonNegative(k, ratio);
      var x := Position(k, ratio);
      BlendIsBetween(source[x.Floor], source[x.Floor + 1], x - x.Floor as real);
    }
  }

  lemma BlendIsBetween(a: real, b: real, t: real)
    requires -1.0 <= a <= 1.0 && -1.0 <= b <= 1.0 && 0.0 <= t <= 1.0
    ensures -1.0 <= Blend(a, b, t) <= 1.0
  {
    if a <= b {
      ScaledIsBetween(b - a, t);
    } else {
      ScaledIsBetween(a - b, t);
      ScaledIsOdd(a - b, t);
    }
  }

  lemma ScaledIsBetween(d: real, t: real)
    requires d >= 0.0 && 0.0 <= t <= 1.0
    ensures 0.0 <= Scaled(d, t) <= d
  {
    ProductIsNonNegative(d, t);
    ProductIsNonNegative(d, 1.0 - t);
  }

  lemma ScaledIsOdd(d: real, t: real)
    ensures Scaled(-d, t) == -Scaled(d, t)
  {
  }

  lemma ProductIsNonNegative(x: real, y: real)
    requires x >= 0.0 && y >= 0.0
    ensures x * y >= 0.0
  {
  }

  ghost predicate Framed(frames: seq<seq<real>>) {
    forall i :: 0 <= i < |frames| ==> |frames[i]| == FRAME_SAMPLES
  }

  /** Frame `j` of a framed stream is its `j`-th block of 320 samples. */
  lemma {:induction false} FramesAreSlices(frames: seq<seq<real>>, rest: seq<real>, j: nat)
    requires Framed(frames) && j < |frames|
    ensures |Joined(frames)| == FRAME_SAMPLES * |frames|
    ensures (Joined(frames) + rest)[FRAME_SAMPLES * j..FRAME_SAMPLES * (j + 1)] == frames[j]
    decreases |frames|
  {
    var last := |frames| - 1;
    var front := frames[..last];
    if last > 0 {
      FramesAreSlices(front, frames[last] + rest, if j < last then j else 0);
    }
    assert Joined(frames) + rest == Joined(front) + (frames[last] + rest);
  }

  // ---------------------------------------------------------------------
  // The processor

  method MixDown(channels: seq<seq<real>>, gain: real, index: nat) returns (mono: real)
    requires channels != []
    ensures mono == Mono(channels, gain, index)
  {
    mono := 0.0;
    for c := 0 to |channels|
      invariant mono == ChannelSum(channels[..c], index)
    {
      assert channels[..c + 1][..c] == channels[..c];
      mono := mono + SampleAt(channels[c], index);
    }
    assert channels[..|channels|] == channels;
    mono := Level(mono, |channels|, gain);
  }

  /** What the loop computes from its buffer is the next output sample of the whole stream. */
  lemma NextTap(received: seq<real>, buffer: seq<real>, position: real, ratio: real, k: nat)
    requires ratio > 0.0 && |buffer| <= |received| && buffer == received[|received| - |buffer|..]
    requires position >= 0.0 && position == Position(k, ratio) - (|received| - |buffer|) as real
    requires position + 1.0 < |buffer| as real
    ensures k < Count(|received|, ratio)
    ensures
      var lower := position.Floor;
      Tap(received, ratio, k) == Blend(buffer[lower], buffer[lower + 1], position - lower as real)
  {
    CountIsExact(k, |received|, ratio);
    FloorShift(position, |received| - |buffer|);
  }

  lemma FloorShift(x: real, n: nat)
    ensures (x + n as real).Floor == x.Floor + n
  {
  }

  class VoiceCaptureProcessor {
    const gain: real
    const sourcePerOutputSample: real
    const sourceBuffer: array<real>
    var sourceLength: nat
    var sourcePosition: real
    var outputFrame: array<real>
    var outputLength: nat
    var posted: seq<seq<real>>         // frames handed to the port
    ghost var received: seq<real>      // every mono sample so far

    ghost predicate Shape()
      reads this
    {
      && sourcePerOutputSample > 0.0
      && sourceBuffer.Length == SOURCE_CAPACITY
      && outputFrame.Length == FRAME_SAMPLES
      && outputFrame != sourceBuffer
      && outputLength < FRAME_SAMPLES
      && sourceLength <= SOURCE_CAPACITY
      && sourceLength <= |received|
      && Framed(posted)
    }

    /** Every output sample so far: the posted frames and the frame being filled. */
    ghost function Produced(): seq<real>
      requires Shape()
      reads this, outputFrame
    {
      Joined(posted) + outputFrame[..outputLength]
    }

    /** The buffer is the unread end of the stream, and the position is the next output sample's
        place relative to it. */
    ghost predicate Aligned()
      requires Shape()
      reads this, sourceBuffer, outputFrame
    {
      && sourceBuffer[..sourceLength] == received[|received| - sourceLength..]
      && sourcePosition >= 0.0
      && sourcePosition == Position(|Produced()|, sourcePerOutputSample) - (|received| - sourceLength) as real
    }

    /** Between calls: at most one source sample is carried over, and the output is exactly
        that of the whole stream. */
    ghost predicate Valid()
      reads this, sourceBuffer, outputFrame
    {
      && Shape() && Aligned() && sourceLength <= 1
      && Produced() == Output(received, sourcePerOutputSample)
      && Bounded(received)
    }

    constructor (configuredGain: Option<real>, sampleRate: real)
      requires sampleRate > 0.0
      ensures Valid() && received == [] && posted == [] && fresh(sourceBuffer) && fresh(outputFrame)
      ensures sourcePerOutputSample == sampleRate / TARGET_SAMPLE_RATE
      ensures gain >= 0.0 && (configuredGain.None? ==> gain == 1.0)
      ensures configuredGain.Some? ==> gain == if configuredGain.value >= 0.0 then configuredGain.value else 0.0
    {
      gain := if configuredGain.Some? then (if configuredGain.value > 0.0 then configuredGain.value else 0.0) else 1.0;
      sourcePerOutputSample := sampleRate / TARGET_SAMPLE_RATE;
      sourceBuffer := new real[SOURCE_CAPACITY];
      sourceLength := 0;
      sourcePosition := 0.0;
      outputFrame := new real[FRAME_SAMPLES];
      outputLength := 0;
      posted := [];
      received := [];
      new;
      assert Produced() == [];
    }

    /** Appends the block's mono samples to the buffer. */
    method Absorb(channels: seq<seq<real>>)
      requires Shape() && channels != [] && sourceLength + |channels[0]| <= SOURCE_CAPACITY
      requires sourceBuffer[..sourceLength] == received[|received| - sourceLength..]
      modifies this`sourceLength, this`received, sourceBuffer
      ensures Shape()
      ensures received == old(received) + Block(channels, gain)
      ensures sourceLength == old(sourceLength) + |channels[0]|
      ensures sourceBuffer[..sourceLength] == received[|received| - sourceLength..]
    {
      ghost var block := Block(channels, gain);
      for index := 0 to |channels[0]|
        invariant Shape() && sourceLength == old(sourceLength) + index
        invariant received == old(received) + block[..index]
        invariant sourceBuffer[..sourceLength] == received[|received| - sourceLength..]
      {
        var mono := MixDown(channels, gain, index);
        ghost var before := sourceBuffer[..sourceLength];
        sourceBuffer[sourceLength] := mono;
        assert sourceBuffer[..sourceLength + 1] == before + [block[index]];
        sourceLength := sourceLength + 1;
        received := received + [block[index]];
        assert block[..index + 1] == block[..index] + [block[index]];
      }
      assert block[..|channels[0]|] == block;
    }

    /** Adds one output sample; a frame of 320 is posted and a new one begun. */
    method Emit(sample: real)
      requires Shape()
      modifies this`outputFrame, this`outputLength, this`posted, outputFrame
      ensures Shape() && (outputFrame == old(outputFrame) || fresh(outputFrame))
      ensures Produced() == old(Produced()) + [sample]
    {
      ghost var before := outputFrame[..outputLength];
      outputFrame[outputLength] := sample;
      outputLength := outputLength + 1;
      assert outputFrame[..outputLength] == before + [sample];
      if outputLength == FRAME_SAMPLES {
        posted := posted + [outputFrame[..]];
        assert outputFrame[..] == before + [sample];
        assert posted[..|posted| - 1] == old(posted);
        outputFrame := new real[FRAME_SAMPLES];
        outputLength := 0;
      }
    }

    /** The output sample at the current position. */
    method SampleHere() returns (sample: real)
      requires Shape() && Aligned() && sourcePosition + 1.0 < sourceLength as real
      ensures |Produced()| < Count(|received|, sourcePerOutputSample)
      ensures sample == Tap(received, sourcePerOutputSample, |Produced()|)
    {
      NextTap(received, sourceBuffer[..sourceLength], sourcePosition, sourcePerOutputSample, |Produced()|);
      var lower := sourcePosition.Floor;
      var fraction := sourcePosition - lower as real;
      var first := sourceBuffer[lower];
      var second := sourceBuffer[lower + 1];
      sample := Blend(first, second, fraction);
    }

    /** One turn of the interpolation loop. */
    method Advance()
      requires Shape() && Aligned() && sourcePosition + 1.0 < sourceLength as real
      modifies this`sourcePosition, this`outputFrame, this`outputLength, this`posted, outputFrame
      ensures Shape() && Aligned() && (outputFrame == old(outputFrame) || fresh(outputFrame))
      ensures |Produced()| == old(|Produced()|) + 1 <= Count(|received|, sourcePerOutputSample)
      ensures Produced() == old(Produced()) + [Tap(received, sourcePerOutputSample, old(|Produced()|))]
    {
      var sample := SampleHere();
      Emit(sample);
      sourcePosition := sourcePosition + sourcePerOutputSample;
    }

    /** Emits every output sample the buffer now determines. */
    method Resample()
      requires Shape() && Aligned()
      requires Produced() == Taps(received, sourcePerOutputSample, |Produced()|)
      requires |Produced()| <= Count(|received|, sourcePerOutputSample)
      modifies this`sourcePosition, this`outputFrame, this`outputLength, this`posted, outputFrame
      ensures Shape() && Aligned() && (outputFrame == old(outputFrame) || fresh(outputFrame))
      ensures sourcePosition + 1.0 >= sourceLength as real
      ensures Produced() == Output(received, sourcePerOutputSample)
    {
      ghost var total := Count(|received|, sourcePerOutputSample);
      while sourcePosition + 1.0 < sourceLength as real
        invariant Shape() && Aligned() && (outputFrame == old(outputFrame) || fresh(outputFrame))
        invariant Produced() == Taps(received, sourcePerOutputSample, |Produced()|)
        invariant |Produced()| <= total
        decreases total - |Produced()|
      {
        Advance();
      }
      CountReached(|Produced()|, |received|, sourcePerOutputSample);
    }

    /** Drops the source samples that no later output sample needs. */
    method Compact()
      requires Shape() && Aligned() && sourcePosition + 1.0 >= sourceLength as real
      modifies this`sourceLength, this`sourcePosition, sourceBuffer
      ensures Shape() && Aligned() && sourceLength <= 1
    {
      var consumed := Min(sourcePosition.Floor, sourceLength);
      if consumed > 0 {
        ghost var before := sourceBuffer[..sourceLength];
        forall i | 0 <= i < sourceLength - consumed {
          sourceBuffer[i] := sourceBuffer[i + consumed];
        }
        assert sourceBuffer[..sourceLength - consumed] == before[consumed..];
        sourceLength := sourceLength - consumed;
        sourcePosition := sourcePosition - consumed as real;
      }
    }

    method Process(channels: seq<seq<real>>)
      requires Valid()
      requires channels != [] ==> sourceLength + |channels[0]| <= SOURCE_CAPACITY
      modifies this, sourceBuffer, outputFrame
      ensures Valid() && (outputFrame == old(outputFrame) || fresh(outputFrame))
      ensures received == old(received) + Block(channels, gain)
    {
      if channels == [] || channels[0] == [] {
        return;
      }
      ghost var block := Block(channels, gain);
      OutputGrows(received, block, sourcePerOutputSample);
      Absorb(channels);
      Resample();
      Compact();
    }
  }
}
