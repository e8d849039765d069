/** The intercom message format: an 18-byte header followed by the payload. */
module Protocol {
  import opened Machine
  import opened Bytes

  const HEADER_BYTES: nat := 18
  const VERSION: Byte := 1

  const INVALID: Byte := 0
  const HELLO: Byte := 1
  const HELLO_ACK: Byte := 2
  const KEEPALIVE: Byte := 3
  const AUDIO: Byte := 4
  const ERROR: Byte := 5
  const GOODBYE: Byte := 6

  type Payload = s: seq<Byte> | |s| < 0x1_0000

  datatype Message = Message(
    version: Byte, kind: Byte, sessionId: Word32, sequence: Word16, ack: Word16,
    source: Byte, target: Byte, flags: Word16, payload: Payload)

  predicate Encodable(m: Message) { m.kind != INVALID && m.version != 0 }

  function Header(m: Message): (h: seq<Byte>)
    ensures |h| == HEADER_BYTES
  {
    [0x49, 0x43, m.version, m.kind] + U32(m.sessionId) + U16(m.sequence) + U16(m.ack)
    + [m.source, m.target] + U16(|m.payload|) + U16(m.flags)
  }

  function Encode(m: Message): (b: seq<Byte>)
    ensures |b| == HEADER_BYTES + |m.payload|
  {
    Header(m) + m.payload
  }

  function Parse(b: seq<Byte>): Message
    requires HEADER_BYTES <= |b| < HEADER_BYTES + 0x1_0000
  {
    Message(b[2], b[3], ReadU32(b[4], b[5], b[6], b[7]), ReadU16(b[8], b[9]), ReadU16(b[10], b[11]),
            b[12], b[13], ReadU16(b[16], b[17]), b[HEADER_BYTES..])
  }

  function Decode(b: seq<Byte>): Option<Message> {
    if |b| < HEADER_BYTES || ReadU16(b[0], b[1]) != 0x4349 then None
    else if b[2] != VERSION || b[3] == INVALID then None
    else if |b| != HEADER_BYTES + ReadU16(b[14], b[15]) then None
    else Some(Parse(b))
  }

  lemma HeaderFields(m: Message)
    ensures var h := Header(m);
            && h[0] == 0x49 && h[1] == 0x43 && h[2] == m.version && h[3] == m.kind
            && h[4..8] == U32(m.sessionId) && h[8..10] == U16(m.sequence) && h[10..12] == U16(m.ack)
            && h[12] == m.source && h[13] == m.target && h[14..16] == U16(|m.payload|) && h[16..18] == U16(m.flags)
  {
  }

  /** The format byte by byte: multi-byte fields have their low byte first. */
  lemma Layout(m: Message)
    ensures var b := Encode(m);
            && b[0] == 0x49 && b[1] == 0x43 && b[2] == m.version && b[3] == m.kind
            && b[4] == m.sessionId % 256 && b[5] == m.sessionId / 256 % 256
            && b[6] == m.sessionId / 65536 % 256 && b[7] == m.sessionId / 16777216
            && b[8] == m.sequence % 256 && b[9] == m.sequence / 256 && b[10] == m.ack % 256 && b[11] == m.ack / 256
            && b[12] == m.source && b[13] == m.target && b[14] == |m.payload| % 256 && b[15] == |m.payload| / 256
            && b[16] == m.flags % 256 && b[17] == m.flags / 256 && b[18..] == m.payload
  {
    var h, b := Header(m), Encode(m);
    HeaderFields(m);
    assert forall i :: 0 <= i < HEADER_BYTES ==> b[i] == h[i];
    assert h[4] == h[4..8][0] && h[5] == h[4..8][1] && h[6] == h[4..8][2] && h[7] == h[4..8][3];
    assert h[8] == h[8..10][0] && h[9] == h[8..10][1] && h[10] == h[10..12][0] && h[11] == h[10..12][1];
    assert h[14] == h[14..16][0] && h[15] == h[14..16][1] && h[16] == h[16..18][0] && h[17] == h[16..18][1];
  }

  /** An encodable message is read back whole exactly when it carries the version this firmware speaks. */
  lemma DecodeEncode(m: Message)
    requires Encodable(m)
    ensures Decode(Encode(m)) == if m.version == VERSION then Some(m) else None
  {
    var h, b := Header(m), Encode(m);
    HeaderFields(m);
    assert forall i :: 0 <= i < HEADER_BYTES ==> b[i] == h[i];
    assert h[4] == h[4..8][0] && h[5] == h[4..8][1] && h[6] == h[4..8][2] && h[7] == h[4..8][3];
    assert h[8] == h[8..10][0] && h[9] == h[8..10][1] && h[10] == h[10..12][0] && h[11] == h[10..12][1];
    assert h[14] == h[14..16][0] && h[15] == h[14..16][1] && h[16] == h[16..18][0] && h[17] == h[16..18][1];
    ReadWritten32(m.sessionId);
    ReadWritten16(m.sequence);
    ReadWritten16(m.ack);
    ReadWritten16(|m.payload|);
    ReadWritten16(m.flags);
    assert b[HEADER_BYTES..] == m.payload;
  }

  /** Whatever decodes is the encoding of what it decodes to: no two packets mean the same message. */
  lemma EncodeDecode(b: seq<Byte>)
    requires Decode(b).Some?
    ensures Encodable(Decode(b).value) && Encode(Decode(b).value) == b
  {
    var m := Decode(b).value;
    WriteRead16(b[0], b[1]);
    WriteRead32(b[4], b[5], b[6], b[7]);
    WriteRead16(b[8], b[9]);
    WriteRead16(b[10], b[11]);
    WriteRead16(b[14], b[15]);
    WriteRead16(b[16], b[17]);
    assert b[0] == 0x49 && b[1] == 0x43;
    assert Header(m) == b[..HEADER_BYTES];
    assert b == b[..HEADER_BYTES] + b[HEADER_BYTES..];
  }

  // --- the in-place forms ---

  method WriteU16(buffer: array<Byte>, offset: nat, value: Word16)
    requires offset + 2 <= buffer.Length
    modifies buffer
    ensures buffer[..] == old(buffer[..offset]) + U16(value) + old(buffer[offset + 2..])
  {
    buffer[offset] := value % 0x100;
    buffer[offset + 1] := value / 0x100 % 0x100;
  }

  method WriteU32(buffer: array<Byte>, offset: nat, value: Word32)
    requires offset + 4 <= buffer.Length
    modifies buffer
    ensures buffer[..] == old(buffer[..offset]) + U32(value) + old(buffer[offset + 4..])
  {
    buffer[offset] := value % 0x100;
    buffer[offset + 1] := value / 0x100 % 0x100;
    buffer[offset + 2] := value / 0x1_0000 % 0x100;
    buffer[offset + 3] := value / 0x100_0000 % 0x100;
  }

  method CopyBytes(buffer: array<Byte>, offset: nat, bytes: seq<Byte>)
    requires offset + |bytes| <= buffer.Length
    modifies buffer
    ensures buffer[..] == old(buffer[..offset]) + bytes + old(buffer[offset + |bytes|..])
  {
    var i := 0;
    while i < |bytes|
      invariant 0 <= i <= |bytes|
      invariant buffer[..] == old(buffer[..offset]) + bytes[..i] + old(buffer[offset + i..])
    {
      ghost var before := buffer[..];
      buffer[offset + i] := bytes[i];
      assert buffer[..] == before[offset + i := bytes[i]];
      i := i + 1;
    }
  }

  method WritePeers(buffer: array<Byte>, source: Byte, target: Byte)
    requires HEADER_BYTES <= buffer.Length
    modifies buffer
    ensures buffer[..] == old(buffer[..12]) + [source, target] + old(buffer[14..])
  {
    buffer[12], buffer[13] := source, target;
  }

  /** Writes the header fields at their fixed offsets. */
  method WriteHeader(buffer: array<Byte>, m: Message)
    requires HEADER_BYTES <= buffer.Length
    modifies buffer
    ensures buffer[..] == Header(m) + old(buffer[HEADER_BYTES..])
  {
    ghost var was := buffer[..];
    WriteU16(buffer, 0, 0x4349);
    buffer[2] := m.version;
    buffer[3] := m.kind;
    ghost var h4 := [0x49, 0x43, m.version, m.kind];
    assert buffer[..] == h4 + was[4..];
    WriteU32(buffer, 4, m.sessionId);
    Splice(h4, was, U32(m.sessionId));
    ghost var h8 := h4 + U32(m.sessionId);
    WriteU16(buffer, 8, m.sequence);
    Splice(h8, was, U16(m.sequence));
    ghost var h10 := h8 + U16(m.sequence);
    WriteU16(buffer, 10, m.ack);
    Splice(h10, was, U16(m.ack));
    ghost var h12 := h10 + U16(m.ack);
    WritePeers(buffer, m.source, m.target);
    Splice(h12, was, [m.source, m.target]);
    ghost var h14 := h12 + [m.source, m.target];
    WriteU16(buffer, 14, |m.payload|);
    Splice(h14, was, U16(|m.payload|));
    ghost var h16 := h14 + U16(|m.payload|);
    WriteU16(buffer, 16, m.flags);
    Splice(h16, was, U16(m.flags));
  }

  /** Writes the message at the front of the buffer, or leaves the buffer alone. */
  method EncodeInto(buffer: array<Byte>, m: Message) returns (ok: bool, length: nat)
    modifies buffer
    ensures ok <==> Encodable(m) && HEADER_BYTES + |m.payload| <= buffer.Length
    ensures ok ==> length == HEADER_BYTES + |m.payload| && buffer[..] == Encode(m) + old(buffer[length..])
    ensures !ok ==> buffer[..] == old(buffer[..])
  {
    ok, length := false, 0;
    if m.kind == INVALID || m.version == 0 {
      return;
    }
    if buffer.Length < HEADER_BYTES + |m.payload| {
      return;
    }
    ghost var was := buffer[..];
    WriteHeader(buffer, m);
    Splice(Header(m), was, m.payload);
    CopyBytes(buffer, HEADER_BYTES, m.payload);
    ok, length := true, HEADER_BYTES + |m.payload|;
  }

  // --- error payloads ---

  const ERROR_BUFFER_BYTES: nat := 64
  const DECODE_ERROR: Byte := 1
  const TARGET_ERROR: Byte := 2
  const SESSION_ERROR: Byte := 3

  /** The code followed by as much of the reason as fits. */
  function ErrorPayload(capacity: nat, code: Byte, reason: seq<Byte>): (p: seq<Byte>)
    requires 0 < capacity
    ensures |p| == if |reason| < capacity - 1 then 1 + |reason| else capacity
    ensures p[0] == code && p[1..] <= reason
  {
    [code] + reason[..if |reason| < capacity - 1 then |reason| else capacity - 1]
  }
}
