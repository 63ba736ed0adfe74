/** Bytes, and integers in network byte order. */
module Bytes {

  type Byte = n: nat | n < 256

  /** htons followed by a 16-bit store. */
  function U16(v: nat): (b: seq<Byte>)
    requires v < 0x1_0000
    ensures |b| == 2
  {
    [v / 256, v % 256]
  }

  /** htonl followed by a 32-bit store. */
  function U32(v: nat): (b: seq<Byte>)
    requires v < 0x1_0000_0000
    ensures |b| == 4
  {
    [v / 0x100_0000, v / 0x1_0000 % 256, v / 256 % 256, v % 256]
  }

  function GetU16(a: Byte, b: Byte): (v: nat)
    ensures v < 0x1_0000 && U16(v) == [a, b]
  {
    256 * a + b
  }

  function GetU32(a: Byte, b: Byte, c: Byte, d: Byte): (v: nat)
    ensures v < 0x1_0000_0000
  {
    0x1_0000 * GetU16(a, b) + GetU16(c, d)
  }

  lemma Halves(v: nat)
    requires v < 0x1_0000_0000
    ensures v / 0x100_0000 == v / 0x1_0000 / 256
    ensures v / 256 % 256 == v % 0x1_0000 / 256
    ensures v % 256 == v % 0x1_0000 % 256
  {
  }

  /** Storing and loading a 16-bit or 32-bit value in network order gives it back. */
  lemma NetworkOrder(v: nat)
    ensures v < 0x1_0000 ==> GetU16(U16(v)[0], U16(v)[1]) == v
    ensures v < 0x1_0000_0000 ==> GetU32(U32(v)[0], U32(v)[1], U32(v)[2], U32(v)[3]) == v
  {
    if v < 0x1_0000_0000 {
      Halves(v);
    }
  }

  /** Is the bit of weight `bit` set in `v`? */
  predicate Bit(v: nat, bit: nat)
    requires bit > 0
  {
    v / bit % 2 == 1
  }
}
