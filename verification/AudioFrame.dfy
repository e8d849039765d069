/** The audio frame format carried inside AUDIO messages: a 16-byte header and up to 32 signed 16-bit samples. */
module AudioFrame {
  import opened Machine
  import opened Bytes
  import Protocol

  const FRAME_HEADER_BYTES: nat := 16
  const SAMPLES_PER_FRAME: nat := 32
  const BITS_PER_SAMPLE: Word16 := 16
  const CHANNELS: Word16 := 1
  const FRAME_VERSION: Word16 := 1

  type Sample = x: int | -0x8000 <= x < 0x8000
  type SampleBuffer = s: seq<Sample> | |s| == 32 witness seq(32, _ => 0)

  /** `samples` is the whole fixed buffer; the first `count` of them are the frame's sound. */
  datatype Frame = Frame(
    version: Word16, rate: Word16, channels: Word16, bits: Word16, count: Word16,
    sequence: Word16, timestamp: Word32, samples: SampleBuffer)

  predicate Encodable(f: Frame) { 0 < f.count <= SAMPLES_PER_FRAME && f.bits == BITS_PER_SAMPLE }

  /** The 16-bit word that carries a signed sample. */
  function TwosComplement(s: Sample): Word16 { if s < 0 then s + 0x1_0000 else s }

  function SampleBytes(s: Sample): (b: seq<Byte>) { U16(TwosComplement(s)) }

  function ReadSample(b0: Byte, b1: Byte): Sample {
    var v := ReadU16(b0, b1);
    if v < 0x8000 then v else v - 0x1_0000
  }

  function PackSamples(samples: seq<Sample>): (b: seq<Byte>)
    ensures |b| == 2 * |samples|
  {
    if samples == [] then [] else PackSamples(samples[..|samples| - 1]) + SampleBytes(samples[|samples| - 1])
  }

  function UnpackSamples(b: seq<Byte>): (s: seq<Sample>)
    requires |b| % 2 == 0
    ensures |s| == |b| / 2
  {
    if b == [] then [] else UnpackSamples(b[..|b| - 2]) + [ReadSample(b[|b| - 2], b[|b| - 1])]
  }

  /** The first n samples followed by silence, as a cleared buffer holds them. */
  function Padded(samples: seq<Sample>): SampleBuffer
    requires |samples| <= SAMPLES_PER_FRAME
  {
    samples + seq(SAMPLES_PER_FRAME - |samples|, _ => 0)
  }

  function Header(f: Frame): (h: seq<Byte>)
    ensures |h| == FRAME_HEADER_BYTES
  {
    U16(f.version) + U16(f.rate) + U16(f.channels) + U16(f.bits) + U16(f.count) + U16(f.sequence) + U32(f.timestamp)
  }

  function Encode(f: Frame): (b: seq<Byte>)
    requires Encodable(f)
    ensures |b| == FRAME_HEADER_BYTES + 2 * f.count
  {
    Header(f) + PackSamples(f.samples[..f.count])
  }

  function Decode(b: seq<Byte>): Option<Frame> {
    if |b| < FRAME_HEADER_BYTES then None
    else
      var count := ReadU16(b[8], b[9]);
      if ReadU16(b[0], b[1]) != FRAME_VERSION || count == 0 || count > SAMPLES_PER_FRAME
         || ReadU16(b[6], b[7]) != BITS_PER_SAMPLE || ReadU16(b[4], b[5]) != CHANNELS
         || |b| != FRAME_HEADER_BYTES + 2 * count then None
      else
        Some(Frame(ReadU16(b[0], b[1]), ReadU16(b[2], b[3]), ReadU16(b[4], b[5]), ReadU16(b[6], b[7]), count,
                   ReadU16(b[10], b[11]), ReadU32(b[12], b[13], b[14], b[15]),
                   Padded(UnpackSamples(b[FRAME_HEADER_BYTES..]))))
  }

  lemma SampleRoundTrip(s: Sample)
    ensures ReadSample(SampleBytes(s)[0], SampleBytes(s)[1]) == s
  {
    ReadWritten16(TwosComplement(s));
  }

  lemma SampleWriteRead(b0: Byte, b1: Byte)
    ensures SampleBytes(ReadSample(b0, b1)) == [b0, b1]
  {
    WriteRead16(b0, b1);
  }

  lemma {:induction false} UnpackPack(samples: seq<Sample>)
    ensures UnpackSamples(PackSamples(samples)) == samples
  {
    if samples != [] {
      var b := PackSamples(samples);
      var front, last := samples[..|samples| - 1], samples[|samples| - 1];
      assert b[..|b| - 2] == PackSamples(front);
      SampleRoundTrip(last);
      UnpackPack(front);
    }
  }

  lemma PackLast(s: seq<Sample>, x: Sample)
    ensures PackSamples(s + [x]) == PackSamples(s) + SampleBytes(x)
  {
    assert (s + [x])[..|s|] == s;
  }

  lemma {:induction false} PackUnpack(b: seq<Byte>)
    requires |b| % 2 == 0
    ensures PackSamples(UnpackSamples(b)) == b
  {
    if b != [] {
      var front, low, high := b[..|b| - 2], b[|b| - 2], b[|b| - 1];
      assert b == front + [low, high];
      PackUnpack(front);
      PackLast(UnpackSamples(front), ReadSample(low, high));
      SampleWriteRead(low, high);
    }
  }

  lemma HeaderFields(f: Frame)
    ensures var h := Header(f);
            && h[0..2] == U16(f.version) && h[2..4] == U16(f.rate) && h[4..6] == U16(f.channels)
               && h[6..8] == U16(f.bits)
            && h[8..10] == U16(f.count) && h[10..12] == U16(f.sequence) && h[12..16] == U32(f.timestamp)
  {
  }

  lemma PairAt(h: seq<Byte>, i: nat, v: Word16)
    requires i + 2 <= |h| && h[i..i + 2] == U16(v)
    ensures ReadU16(h[i], h[i + 1]) == v
  {
    assert h[i] == h[i..i + 2][0] && h[i + 1] == h[i..i + 2][1];
    ReadWritten16(v);
  }

  lemma {:induction false} PackedAt(samples: seq<Sample>, i: nat)
    requires i < |samples|
    ensures PackSamples(samples)[2 * i..2 * i + 2] == SampleBytes(samples[i])
  {
    var front := samples[..|samples| - 1];
    if i < |front| {
      PackedAt(front, i);
      assert PackSamples(samples)[2 * i..2 * i + 2] == PackSamples(front)[2 * i..2 * i + 2];
    }
  }

  /** The sound byte by byte: from byte 16, two bytes a sample in two's complement, the low byte first. */
  lemma SampleLayout(f: Frame, i: nat)
    requires Encodable(f) && i < f.count
    ensures var b, s := Encode(f), f.samples[i];
            var word: int := if s < 0 then 65536 + s as int else s;
            b[16 + 2 * i] == word % 256 && b[17 + 2 * i] == word / 256
  {
    var packed := PackSamples(f.samples[..f.count]);
    PackedAt(f.samples[..f.count], i);
    assert Encode(f)[16 + 2 * i] == packed[2 * i..2 * i + 2][0] && Encode(f)[17 + 2 * i] == packed[2 * i..2 * i + 2][1];
  }

  /** Every header field is read back from the encoded bytes. */
  lemma EncodedFields(f: Frame)
    requires Encodable(f)
    ensures var b := Encode(f);
            && ReadU16(b[0], b[1]) == f.version && ReadU16(b[2], b[3]) == f.rate && ReadU16(b[4], b[5]) == f.channels
            && ReadU16(b[6], b[7]) == f.bits && ReadU16(b[8], b[9]) == f.count && ReadU16(b[10], b[11]) == f.sequence
            && ReadU32(b[12], b[13], b[14], b[15]) == f.timestamp
  {
    var h, b := Header(f), Encode(f);
    assert forall i :: 0 <= i < FRAME_HEADER_BYTES ==> b[i] == h[i];
    HeaderFields(f);
    PairAt(h, 0, f.version);
    PairAt(h, 2, f.rate);
    PairAt(h, 4, f.channels);
    PairAt(h, 6, f.bits);
    PairAt(h, 8, f.count);
    PairAt(h, 10, f.sequence);
    assert h[12] == h[12..16][0] && h[13] == h[12..16][1] && h[14] == h[12..16][2] && h[15] == h[12..16][3];
    ReadWritten32(f.timestamp);
  }

  /**
   A version-1 mono frame is read back with the samples past its count silenced; every other encodable frame is refused.
   So a frame comes back unchanged exactly when it is version 1, mono and silent past its count.
   */
  lemma DecodeEncode(f: Frame)
    requires Encodable(f)
    ensures Decode(Encode(f)) ==
            if f.version == FRAME_VERSION && f.channels == CHANNELS
                then Some(f.(samples := Padded(f.samples[..f.count]))) else None
  {
    EncodedFields(f);
    assert Encode(f)[FRAME_HEADER_BYTES..] == PackSamples(f.samples[..f.count]);
    UnpackPack(f.samples[..f.count]);
  }

  lemma EncodeDecode(b: seq<Byte>)
    requires Decode(b).Some?
    ensures Encodable(Decode(b).value) && Encode(Decode(b).value) == b
  {
    var f := Decode(b).value;
    WriteRead16(b[0], b[1]);
    WriteRead16(b[2], b[3]);
    WriteRead16(b[4], b[5]);
    WriteRead16(b[6], b[7]);
    WriteRead16(b[8], b[9]);
    WriteRead16(b[10], b[11]);
    WriteRead32(b[12], b[13], b[14], b[15]);
    assert Header(f) == b[..FRAME_HEADER_BYTES];
    var body := b[FRAME_HEADER_BYTES..];
    assert f.samples[..f.count] == UnpackSamples(body);
    PackUnpack(body);
    assert b == b[..FRAME_HEADER_BYTES] + body;
  }

  /** A frame nested in a version-1 AUDIO message fits one transport packet and survives both layers. */
  lemma NestedFrameSurvives(f: Frame, m: Protocol.Message)
    requires Encodable(f) && f.version == FRAME_VERSION && f.channels == CHANNELS
    requires m.payload == Encode(f) && m.version == Protocol.VERSION && m.kind == Protocol.AUDIO
    ensures |Protocol.Encode(m)| <= 98
    ensures Protocol.Decode(Protocol.Encode(m)) == Some(m)
    ensures Decode(m.payload) == Some(f.(samples := Padded(f.samples[..f.count])))
  {
    Protocol.DecodeEncode(m);
    DecodeEncode(f);
  }

  // --- the in-place forms ---

  lemma PackOneMore(samples: seq<Sample>, n: nat)
    requires n < |samples|
    ensures PackSamples(samples[..n + 1]) == PackSamples(samples[..n]) + SampleBytes(samples[n])
  {
    assert samples[..n + 1][..n] == samples[..n];
  }

  lemma PackAfter(head: seq<Byte>, samples: seq<Sample>, n: nat)
    requires n < |samples|
    ensures head + PackSamples(samples[..n + 1]) == (head + PackSamples(samples[..n])) + U16(TwosComplement(samples[n]))
  {
    PackOneMore(samples, n);
    assert head + (PackSamples(samples[..n]) + SampleBytes(samples[n]))
        == (head + PackSamples(samples[..n])) + SampleBytes(samples[n]);
  }

  /** Writes the seven header fields at offsets 0, 2, 4, 6, 8, 10 and 12. */
  method WriteHeader(buffer: array<Byte>, f: Frame)
    requires FRAME_HEADER_BYTES <= buffer.Length
    modifies buffer
    ensures buffer[..] == Header(f) + old(buffer[FRAME_HEADER_BYTES..])
  {
    ghost var was := buffer[..];
    Protocol.WriteU16(buffer, 0, f.version);
    ghost var h2 := U16(f.version);
    assert buffer[..] == h2 + was[2..];
    Protocol.WriteU16(buffer, 2, f.rate);
    Splice(h2, was, U16(f.rate));
    ghost var h4 := h2 + U16(f.rate);
    Protocol.WriteU16(buffer, 4, f.channels);
    Splice(h4, was, U16(f.channels));
    ghost var h6 := h4 + U16(f.channels);
    Protocol.WriteU16(buffer, 6, f.bits);
    Splice(h6, was, U16(f.bits));
    ghost var h8 := h6 + U16(f.bits);
    Protocol.WriteU16(buffer, 8, f.count);
    Splice(h8, was, U16(f.count));
    ghost var h10 := h8 + U16(f.count);
    Protocol.WriteU16(buffer, 10, f.sequence);
    Splice(h10, was, U16(f.sequence));
    Protocol.WriteU32(buffer, 12, f.timestamp);
    Splice(h10 + U16(f.sequence), was, U32(f.timestamp));
  }

  method WriteSamples(buffer: array<Byte>, samples: SampleBuffer, count: nat)
    requires count <= SAMPLES_PER_FRAME && FRAME_HEADER_BYTES + 2 * count <= buffer.Length
    modifies buffer
    ensures buffer[..] == old(buffer[..FRAME_HEADER_BYTES]) + PackSamples(samples[..count])
            + old(buffer[FRAME_HEADER_BYTES + 2 * count..])
  {
    ghost var head, was := buffer[..FRAME_HEADER_BYTES], buffer[..];
    var offset, index := FRAME_HEADER_BYTES, 0;
    while index < count
      invariant 0 <= index <= count && offset == FRAME_HEADER_BYTES + 2 * index
      invariant buffer[..] == head + PackSamples(samples[..index]) + was[offset..]
    {
      ghost var front := head + PackSamples(samples[..index]);
      PackAfter(head, samples, index);
      var word := TwosComplement(samples[index]);
      Protocol.WriteU16(buffer, offset, word);
      Splice(front, was, U16(word));
      offset := offset + 2;
      index := index + 1;
    }
  }

  method EncodeInto(buffer: array<Byte>, f: Frame) returns (ok: bool, length: nat)
    modifies buffer
    ensures ok <==> Encodable(f) && FRAME_HEADER_BYTES + 2 * f.count <= buffer.Length
    ensures ok ==> length == FRAME_HEADER_BYTES + 2 * f.count && buffer[..] == Encode(f) + old(buffer[length..])
    ensures !ok ==> buffer[..] == old(buffer[..])
  {
    ok, length := false, 0;
    if f.count > SAMPLES_PER_FRAME || f.count == 0 {
      return;
    }
    if f.bits != BITS_PER_SAMPLE {
      return;
    }
    var required := FRAME_HEADER_BYTES + f.count * 2;
    if buffer.Length < required {
      return;
    }
    WriteHeader(buffer, f);
    assert buffer[..FRAME_HEADER_BYTES] == Header(f) && buffer[required..] == old(buffer[required..]);
    WriteSamples(buffer, f.samples, f.count);
    ok, length := true, required;
  }

  lemma UnpackOneMore(b: seq<Byte>, n: nat)
    requires 2 * n + 2 <= |b|
    ensures UnpackSamples(b[..2 * n + 2]) == UnpackSamples(b[..2 * n]) + [ReadSample(b[2 * n], b[2 * n + 1])]
  {
    assert b[..2 * n + 2][..2 * n] == b[..2 * n];
  }

  method ReadSamples(buffer: array<Byte>, count: nat) returns (samples: SampleBuffer)
    requires count <= SAMPLES_PER_FRAME && buffer.Length == FRAME_HEADER_BYTES + 2 * count
    ensures samples == Padded(UnpackSamples(buffer[FRAME_HEADER_BYTES..]))
  {
    ghost var body := buffer[FRAME_HEADER_BYTES..];
    samples := seq(SAMPLES_PER_FRAME, _ => 0);
    var index := 0;
    while index < count
      invariant 0 <= index <= count
      invariant samples == Padded(UnpackSamples(body[..2 * index]))
    {
      var at := FRAME_HEADER_BYTES + 2 * index;
      UnpackOneMore(body, index);
      assert body[2 * index] == buffer[at] && body[2 * index + 1] == buffer[at + 1];
      samples := samples[index := ReadSample(buffer[at], buffer[at + 1])];
      index := index + 1;
    }
    assert body[..2 * count] == body;
  }

  method DecodeFrom(buffer: array<Byte>) returns (r: Option<Frame>)
    ensures r == Decode(buffer[..])
  {
    if buffer.Length < FRAME_HEADER_BYTES {
      return None;
    }
    var version, rate := ReadU16(buffer[0], buffer[1]), ReadU16(buffer[2], buffer[3]);
    var channels, bits := ReadU16(buffer[4], buffer[5]), ReadU16(buffer[6], buffer[7]);
    var count, sequence := ReadU16(buffer[8], buffer[9]), ReadU16(buffer[10], buffer[11]);
    var timestamp := ReadU32(buffer[12], buffer[13], buffer[14], buffer[15]);
    if version != FRAME_VERSION || count == 0 || count > SAMPLES_PER_FRAME || bits != BITS_PER_SAMPLE
       || channels != CHANNELS || buffer.Length != FRAME_HEADER_BYTES + count * 2 {
      return None;
    }
    var samples := ReadSamples(buffer, count);
    assert buffer[..][FRAME_HEADER_BYTES..] == buffer[FRAME_HEADER_BYTES..];
    r := Some(Frame(version, rate, channels, bits, count, sequence, timestamp, samples));
  }
}
