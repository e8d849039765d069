/** Little-endian byte layout shared by the two wire formats and the flash image. */
module Bytes {
  import opened Machine

  function U16(v: Word16): seq<Byte> { [v % 0x100, v / 0x100] }

  function U32(v: Word32): seq<Byte> {
    [v % 0x100, v / 0x100 % 0x100, v / 0x1_0000 % 0x100, v / 0x100_0000]
  }

  function ReadU16(b0: Byte, b1: Byte): Word16 { b0 + 0x100 * b1 }

  function ReadU32(b0: Byte, b1: Byte, b2: Byte, b3: Byte): Word32 {
    b0 + 0x100 * b1 + 0x1_0000 * b2 + 0x100_0000 * b3
  }

  lemma ReadWritten16(v: Word16)
    ensures ReadU16(U16(v)[0], U16(v)[1]) == v
  {
  }

  lemma WriteRead16(b0: Byte, b1: Byte)
    ensures U16(ReadU16(b0, b1)) == [b0, b1]
  {
  }

  lemma ReadWritten32(v: Word32)
    ensures ReadU32(U32(v)[0], U32(v)[1], U32(v)[2], U32(v)[3]) == v
  {
    assert v / 0x1_0000 == v / 0x100 / 0x100;
    assert v / 0x100_0000 == v / 0x1_0000 / 0x100;
  }

  lemma WriteRead32(b0: Byte, b1: Byte, b2: Byte, b3: Byte)
    ensures U32(ReadU32(b0, b1, b2, b3)) == [b0, b1, b2, b3]
  {
    var v := ReadU32(b0, b1, b2, b3);
    assert v / 0x100 == b1 + 0x100 * b2 + 0x1_0000 * b3;
    assert v / 0x1_0000 == b2 + 0x100 * b3;
    assert v / 0x100_0000 == b3;
  }

  /** Overwriting the part of a buffer right after what has been written so far. */
  lemma Splice(done: seq<Byte>, was: seq<Byte>, piece: seq<Byte>)
    requires |done| + |piece| <= |was|
    ensures var b := done + was[|done|..];
            b[..|done|] + piece + b[|done| + |piece|..] == (done + piece) + was[|done| + |piece|..]
  {
    var b := done + was[|done|..];
    assert b[..|done|] == done;
    assert b[|done| + |piece|..] == was[|done| + |piece|..];
  }
}
