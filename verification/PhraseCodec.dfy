/** The on-disk format of one cached phrase (crates/audio/src/cache.rs,
    `encode_entry` and `decode_entry`). */
module PhraseCodec {
  import opened Collections

  type u8 = x: int | 0 <= x < 0x100
  type u16 = x: int | 0 <= x < 0x1_0000
  type u32 = x: int | 0 <= x < 0x1_0000_0000
  type i16 = x: int | -0x8000 <= x < 0x8000
  type Bytes = seq<u8>

  // No slice exceeds 2^63 - 1 bytes; a phrase leaves room for the header beside its payload.
  const SLICE_MAX: nat := 0x7FFF_FFFF_FFFF_FFFF
  type Slice = b: Bytes | |b| <= SLICE_MAX
  type Samples = s: seq<i16> | 2 * |s| + 56 <= SLICE_MAX

  // SHA-256 enters the model only as some function to 32 bytes.
  type Digest32 = d: Bytes | |d| == 32 witness seq(32, _ => 0)
  type Sha256 = Bytes -> Digest32

  datatype CachedPhrase = CachedPhrase(samples: Samples, sampleRateHz: u32, channels: u16)

  const ENTRY_MAGIC: Bytes := [0x50, 0x41, 0x50, 0x48, 0x52, 0x41, 0x53, 0x31]
  const ENTRY_HEADER_BYTES: nat := 56

  predicate ValidPhrase(p: CachedPhrase) {
    p.samples != [] && 8_000 <= p.sampleRateHz <= 192_000 && p.channels != 0 && |p.samples| % p.channels == 0
  }

  // ---------------------------------------------------------------------
  // Little-endian numbers

  function Pow256(n: nat): nat { if n == 0 then 1 else 256 * Pow256(n - 1) }

  function ToLe(x: nat, width: nat): (b: Bytes)
    ensures |b| == width
  {
    if width == 0 then [] else [x % 256] + ToLe(x / 256, width - 1)
  }

  function FromLe(b: Bytes): nat { if b == [] then 0 else b[0] + 256 * FromLe(b[1..]) }

  lemma {:induction false} FromLeToLe(x: nat, width: nat)
    requires x < Pow256(width)
    ensures FromLe(ToLe(x, width)) == x
  {
    if width > 0 {
      FromLeToLe(x / 256, width - 1);
      assert ToLe(x, width)[1..] == ToLe(x / 256, width - 1);
    }
  }

  lemma {:induction false} ToLeFromLe(b: Bytes)
    ensures FromLe(b) < Pow256(|b|) && ToLe(FromLe(b), |b|) == b
  {
    if b != [] {
      ToLeFromLe(b[1..]);
      assert FromLe(b) / 256 == FromLe(b[1..]) && FromLe(b) % 256 == b[0];
      assert b == [b[0]] + b[1..];
    }
  }

  lemma Widths()
    ensures Pow256(2) == 0x1_0000 && Pow256(4) == 0x1_0000_0000 && Pow256(8) == 0x1_0000_0000_0000_0000
  {
    assert Pow256(3) == 256 * Pow256(2) && Pow256(4) == 256 * Pow256(3) && Pow256(5) == 256 * Pow256(4);
    assert Pow256(6) == 256 * Pow256(5) && Pow256(7) == 256 * Pow256(6);
  }

  // ---------------------------------------------------------------------
  // Samples

  function SampleToLe(x: i16): Bytes {
    var n := if x < 0 then x + 0x1_0000 else x;
    [n % 256, n / 256]
  }

  function SampleFromLe(lo: u8, hi: u8): i16 {
    var n := lo + 256 * hi;
    if n >= 0x8000 then n - 0x1_0000 else n
  }

  function Payload(samples: seq<i16>): (b: Bytes)
    ensures |b| == 2 * |samples|
  {
    if samples == [] then [] else SampleToLe(samples[0]) + Payload(samples[1..])
  }

  function Unpack(b: Bytes): (s: seq<i16>)
    ensures |s| == |b| / 2
  {
    if |b| < 2 then [] else [SampleFromLe(b[0], b[1])] + Unpack(b[2..])
  }

  lemma {:induction false} UnpackPayload(samples: seq<i16>)
    ensures Unpack(Payload(samples)) == samples
  {
    if samples != [] {
      UnpackPayload(samples[1..]);
      assert Payload(samples)[2..] == Payload(samples[1..]);
    }
  }

  lemma {:induction false} PayloadUnpack(b: Bytes)
    requires |b| % 2 == 0
    ensures Payload(Unpack(b)) == b
  {
    if b != [] {
      PayloadUnpack(b[2..]);
      assert SampleToLe(SampleFromLe(b[0], b[1])) == [b[0], b[1]];
      assert b == [b[0], b[1]] + b[2..];
    }
  }

  // ---------------------------------------------------------------------
  // Entries

  /** The 56 header bytes: magic, rate, channels, two reserved bytes, sample count, payload digest. */
  function Header(rate: nat, channels: nat, reserved: Bytes, count: nat, digest: Bytes): Bytes {
    ENTRY_MAGIC + ToLe(rate, 4) + ToLe(channels, 2) + reserved + ToLe(count, 8) + digest
  }

  function EncodeEntry(sha: Sha256, p: CachedPhrase): Option<Slice> {
    if !ValidPhrase(p) then None
    else
      var payload := Payload(p.samples);
      Some(Header(p.sampleRateHz, p.channels, [0, 0], |p.samples|, sha(payload)) + payload)
  }

  function DecodeEntry(sha: Sha256, bytes: Slice): Option<CachedPhrase> {
    if |bytes| < ENTRY_HEADER_BYTES || bytes[..8] != ENTRY_MAGIC then None
    else
      var rate, channels, count := FromLe(bytes[8..12]), FromLe(bytes[12..14]), FromLe(bytes[16..24]);
      var payload := bytes[ENTRY_HEADER_BYTES..];
      if || count == 0 || channels == 0 || !(8_000 <= rate <= 192_000)
         || 2 * count > 0xFFFF_FFFF_FFFF_FFFF || |payload| != 2 * count || count % channels != 0
         || sha(payload) != bytes[24..ENTRY_HEADER_BYTES]
      then None
      else
        ToLeFromLe(bytes[12..14]);
        Widths();
        Some(CachedPhrase(Unpack(payload), rate, channels))
  }

  /** The encoder as the program runs it: samples are appended to a growing payload. */
  method Encode(sha: Sha256, p: CachedPhrase) returns (r: Option<Slice>)
    ensures r == EncodeEntry(sha, p)
  {
    if p.samples == [] || !(8_000 <= p.sampleRateHz <= 192_000) || p.channels == 0 || |p.samples| % p.channels != 0 {
      return None;
    }
    var payload: Bytes := [];
    for i := 0 to |p.samples|
      invariant payload + Payload(p.samples[i..]) == Payload(p.samples)
    {
      var pair := SampleToLe(p.samples[i]);
      assert Payload(p.samples[i..]) == pair + Payload(p.samples[i + 1..]) by {
        assert p.samples[i..][1..] == p.samples[i + 1..];
      }
      payload := payload + pair;
    }
    assert payload == Payload(p.samples);
    var encoded := ENTRY_MAGIC;
    encoded := encoded + ToLe(p.sampleRateHz, 4);
    encoded := encoded + ToLe(p.channels, 2);
    encoded := encoded + [0, 0];
    encoded := encoded + ToLe(|p.samples|, 8);
    encoded := encoded + sha(payload);
    encoded := encoded + payload;
    r := Some(encoded);
  }

  /** The fields of a header can be read back at their offsets. */
  lemma HeaderFields(rate: nat, channels: nat, reserved: Bytes, count: nat, digest: Bytes, payload: Bytes)
    requires |reserved| == 2 && |digest| == 32
    ensures
      var b := Header(rate, channels, reserved, count, digest) + payload;
      && |b| == ENTRY_HEADER_BYTES + |payload|
      && b[..8] == ENTRY_MAGIC && b[8..12] == ToLe(rate, 4) && b[12..14] == ToLe(channels, 2)
      && b[14..16] == reserved && b[16..24] == ToLe(count, 8) && b[24..56] == digest && b[56..] == payload
  {
  }

  /** Where an entry keeps what: the magic, and each sample as two bytes, low byte first. */
  lemma EntryLayout(sha: Sha256, p: CachedPhrase, k: nat)
    requires ValidPhrase(p) && k < |p.samples|
    ensures
      var e := EncodeEntry(sha, p).value;
      && |e| == 56 + 2 * |p.samples| && (forall i :: 0 <= i < 8 ==> e[i] == "PAPHRAS1"[i] as int)
      && (e[56 + 2 * k] as int + 256 * e[56 + 2 * k + 1] as int - p.samples[k] as int) % 0x1_0000 == 0
  {
    var payload := Payload(p.samples);
    HeaderFields(p.sampleRateHz, p.channels, [0, 0], |p.samples|, sha(payload), payload);
    var e := EncodeEntry(sha, p).value;
    assert forall i :: 0 <= i < 8 ==> e[i] == e[..8][i];
    assert e[56 + 2 * k] == e[56..][2 * k] && e[56 + 2 * k + 1] == e[56..][2 * k + 1];
    SampleBytes(p.samples, k);
  }

  lemma {:induction false} SampleBytes(samples: seq<i16>, k: nat)
    requires k < |samples|
    ensures (Payload(samples)[2 * k] as int + 256 * Payload(samples)[2 * k + 1] as int - samples[k] as int) % 0x1_0000 == 0
  {
    if k > 0 {
      SampleBytes(samples[1..], k - 1);
      assert Payload(samples)[2..] == Payload(samples[1..]);
    }
  }

  /** Every valid phrase survives the round trip; invalid ones are refused. */
  lemma DecodeEncode(sha: Sha256, p: CachedPhrase)
    ensures EncodeEntry(sha, p).Some? <==> ValidPhrase(p)
    ensures ValidPhrase(p) ==> DecodeEntry(sha, EncodeEntry(sha, p).value) == Some(p)
  {
    if ValidPhrase(p) {
      var payload := Payload(p.samples);
      HeaderFields(p.sampleRateHz, p.channels, [0, 0], |p.samples|, sha(payload), payload);
      Widths();
      FromLeToLe(p.sampleRateHz, 4);
      FromLeToLe(p.channels, 2);
      FromLeToLe(|p.samples|, 8);
      UnpackPayload(p.samples);
    }
  }

  /** Whatever decodes is the encoding of what it decodes to, except that the two reserved
      bytes, which decoding ignores, come back as zero. */
  lemma EncodeDecode(sha: Sha256, bytes: Slice)
    requires DecodeEntry(sha, bytes).Some?
    ensures ValidPhrase(DecodeEntry(sha, bytes).value)
    ensures EncodeEntry(sha, DecodeEntry(sha, bytes).value) == Some(bytes[..14] + [0, 0] + bytes[16..])
  {
    DecodedFields(sha, bytes);
    var p := DecodeEntry(sha, bytes).value;
    HeaderRebuilt(bytes, p.sampleRateHz, p.channels, |p.samples|, sha(bytes[56..]), bytes[56..]);
  }

  /** What decoding reads from each part of an entry. */
  lemma DecodedFields(sha: Sha256, bytes: Slice)
    requires DecodeEntry(sha, bytes).Some?
    ensures
      var p := DecodeEntry(sha, bytes).value;
      && ValidPhrase(p) && |bytes| >= ENTRY_HEADER_BYTES && bytes[..8] == ENTRY_MAGIC
      && FromLe(bytes[8..12]) == p.sampleRateHz && FromLe(bytes[12..14]) == p.channels
      && FromLe(bytes[16..24]) == |p.samples|
      && bytes[24..56] == sha(bytes[56..]) && bytes[56..] == Payload(p.samples)
  {
    PayloadUnpack(bytes[56..]);
  }

  lemma HeaderRebuilt(bytes: Bytes, rate: nat, channels: nat, count: nat, digest: Bytes, payload: Bytes)
    requires |bytes| >= ENTRY_HEADER_BYTES && bytes[..8] == ENTRY_MAGIC
    requires FromLe(bytes[8..12]) == rate && FromLe(bytes[12..14]) == channels && FromLe(bytes[16..24]) == count
    requires bytes[24..56] == digest && bytes[56..] == payload
    ensures Header(rate, channels, [0, 0], count, digest) + payload == bytes[..14] + [0, 0] + bytes[16..]
  {
    var front := bytes[..14] + [0, 0];
    ToLeFromLe(bytes[8..12]);
    ToLeFromLe(bytes[12..14]);
    ToLeFromLe(bytes[16..24]);
    assert bytes[..14] == ENTRY_MAGIC + ToLe(rate, 4) + ToLe(channels, 2);
    assert bytes[16..] == ToLe(count, 8) + digest + payload;
    ConcatAssociates(front, ToLe(count, 8), digest);
    ConcatAssociates(front, ToLe(count, 8) + digest, payload);
  }

  // ---------------------------------------------------------------------
  // Cache identity

  /** One field as it enters the hash: its length in eight bytes, a colon, its bytes. */
  function FramedField(field: Slice): Bytes { ToLe(|field|, 8) + [0x3A] + field }

  /** The bytes hashed for a list of fields, joined by a bar. */
  function Preimage(fields: seq<Slice>): Bytes {
    if fields == [] then []
    else if |fields| == 1 then FramedField(fields[0])
    else FramedField(fields[0]) + [0x7C] + Preimage(fields[1..])
  }

  lemma FramedFieldIsPrefixFree(a: Slice, b: Slice, restA: Bytes, restB: Bytes)
    requires FramedField(a) + restA == FramedField(b) + restB
    ensures a == b && restA == restB
  {
    var whole := FramedField(a) + restA;
    assert whole[..8] == ToLe(|a|, 8) && whole[..8] == ToLe(|b|, 8);
    Widths();
    FromLeToLe(|a|, 8);
    FromLeToLe(|b|, 8);
    assert whole[9..9 + |a|] == a && whole[9..9 + |b|] == b;
    assert whole[9 + |a|..] == restA && whole[9 + |b|..] == restB;
  }

  /** Different engine, voice, rate or text never hash the same bytes, whatever separators they contain. */
  lemma {:induction false} PreimageIsInjective(a: seq<Slice>, b: seq<Slice>)
    requires |a| == |b| && Preimage(a) == Preimage(b)
    ensures a == b
    decreases |a|
  {
    if |a| == 1 {
      assert FramedField(a[0]) + [] == FramedField(b[0]) + [];
      FramedFieldIsPrefixFree(a[0], b[0], [], []);
    } else if |a| > 1 {
      var restA, restB := [0x7C] + Preimage(a[1..]), [0x7C] + Preimage(b[1..]);
      PreimageUnfolds(a);
      PreimageUnfolds(b);
      FramedFieldIsPrefixFree(a[0], b[0], restA, restB);
      assert restA[1..] == Preimage(a[1..]) && restB[1..] == Preimage(b[1..]);
      PreimageIsInjective(a[1..], b[1..]);
      assert a == [a[0]] + a[1..] && b == [b[0]] + b[1..];
    }
  }

  lemma PreimageUnfolds(fields: seq<Slice>)
    requires |fields| > 1
    ensures Preimage(fields) == FramedField(fields[0]) + ([0x7C] + Preimage(fields[1..]))
  {
    ConcatAssociates(FramedField(fields[0]), [0x7C], Preimage(fields[1..]));
  }
}
