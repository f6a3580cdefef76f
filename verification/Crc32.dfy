/** CRC-32 as section 8 of RFC 1952 defines it, in the form of Go's `hash/crc32`. */
module Crc32 {
  import opened Bytes

  const MAX_UINT32: int := 0xFFFF_FFFF
  const POLYNOMIAL: nat := 0xEDB8_8320

  type uint32 = x: int | 0 <= x <= 0xFFFF_FFFF

  /** Exclusive or of two numbers of at most n bits. */
  function Xor(a: nat, b: nat, n: nat): nat {
    if n == 0 then 0
    else (if a % 2 == b % 2 then 0 else 1) + 2 * Xor(a / 2, b / 2, n - 1)
  }

  function Pow2(n: nat): nat {
    if n == 0 then 1 else 2 * Pow2(n - 1)
  }

  lemma {:induction false} XorBound(a: nat, b: nat, n: nat)
    ensures Xor(a, b, n) < Pow2(n)
  {
    if n > 0 {
      XorBound(a / 2, b / 2, n - 1);
    }
  }

  lemma {:induction false} Pow2Of32()
    ensures Pow2(32) == 0x1_0000_0000
  {
    assert Pow2(8) == 256 by {
      assert Pow2(4) == 16;
    }
    assert Pow2(12) == 16 * Pow2(8);
    assert Pow2(16) == 16 * Pow2(12);
    assert Pow2(20) == 16 * Pow2(16);
    assert Pow2(24) == 16 * Pow2(20);
    assert Pow2(28) == 16 * Pow2(24);
    assert Pow2(32) == 16 * Pow2(28);
  }

  function Xor32(a: uint32, b: uint32): uint32 {
    XorBound(a, b, 32);
    Pow2Of32();
    Xor(a, b, 32)
  }

  function Not32(a: uint32): uint32 {
    MAX_UINT32 - a
  }

  function ShiftBit(c: uint32): uint32 {
    if c % 2 == 1 then Xor32(POLYNOMIAL, c / 2) else c / 2
  }

  /** Entry n of the table of CRCs of all 8-bit messages. */
  function TableEntry(n: byte): uint32 {
    ShiftBit(ShiftBit(ShiftBit(ShiftBit(ShiftBit(ShiftBit(ShiftBit(ShiftBit(n))))))))
  }

  /** One byte through the shift register. */
  function Step(c: uint32, b: byte): uint32 {
    Xor32(TableEntry(Xor32(c, b) % 256), c / 256)
  }

  function Register(c: uint32, p: bytes): uint32
    decreases |p|
  {
    if |p| == 0 then c else Register(Step(c, p[0]), p[1..])
  }

  /** `crc32.Update`: continues a running checksum over more bytes. */
  function Update(crc: uint32, p: bytes): uint32 {
    Not32(Register(Not32(crc), p))
  }

  /** `crc32.ChecksumIEEE`. */
  function Checksum(p: bytes): uint32 {
    Update(0, p)
  }

  lemma {:induction false} RegisterConcat(c: uint32, p: bytes, q: bytes)
    ensures Register(Register(c, p), q) == Register(c, p + q)
    decreases |p|
  {
    if |p| == 0 {
      assert p + q == q;
    } else {
      assert (p + q)[1..] == p[1..] + q;
      RegisterConcat(Step(c, p[0]), p[1..], q);
    }
  }

  /** A checksum may be taken piece by piece. */
  lemma {:induction false} UpdateConcat(crc: uint32, p: bytes, q: bytes)
    ensures Update(Update(crc, p), q) == Update(crc, p + q)
  {
    RegisterConcat(Not32(crc), p, q);
  }
}
