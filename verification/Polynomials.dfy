/**
 * CRC-32 as polynomial division: section 8 of RFC 1952 names the generator by its exponents, and the shift register of
 * `hash/crc32` leaves the remainder of the message by it.
 */
module Polynomials {
  import opened Bytes
  import opened Crc32

  /** A polynomial over the field of two elements, the coefficient of the highest power first. */
  type Poly = seq<bool>

  /** The exponents of the generator. */
  const EXPONENTS: set<nat> := {32, 26, 23, 22, 16, 12, 11, 10, 8, 7, 5, 4, 2, 1, 0}

  function Generator(): (g: Poly)
    ensures |g| == 33 && g[0]
  {
    seq(33, i requires 0 <= i < 33 => 32 - i in EXPONENTS)
  }

  /** Addition, which is subtraction. */
  function Plus(a: Poly, b: Poly): (c: Poly)
    requires |a| == |b|
    ensures |c| == |a|
  {
    seq(|a|, i requires 0 <= i < |a| => a[i] != b[i])
  }

  function Zeros(n: nat): (z: Poly)
    ensures |z| == n
  {
    seq(n, _ => false)
  }

  /** Long division by the generator: as long as the degree is 32 or more, the leading coefficient is cleared. */
  function Remainder(p: Poly): (r: Poly)
    requires |p| >= 32
    ensures |r| == 32
    decreases |p|
  {
    if |p| == 32 then p
    else Remainder(if p[0] then Plus(p[..33], Generator())[1..] + p[33..] else p[1..])
  }

  /** The lowest n bits of a number, the lowest one first. */
  function Bits(x: nat, n: nat): (b: Poly)
    ensures |b| == n
  {
    if n == 0 then [] else [x % 2 == 1] + Bits(x / 2, n - 1)
  }

  /** A message as a polynomial: byte after byte, of each byte the lowest bit first. */
  function Message(p: bytes): Poly
    decreases |p|
  {
    if |p| == 0 then [] else Bits(p[0], 8) + Message(p[1..])
  }

  /** A polynomial with these coefficients added to its first ones. */
  function Masked(mask: Poly, p: Poly): (q: Poly)
    requires |mask| <= |p|
    ensures |q| == |p|
  {
    Plus(mask, p[..|mask|]) + p[|mask|..]
  }

  function Complement(p: Poly): (q: Poly)
    ensures |q| == |p|
  {
    seq(|p|, i requires 0 <= i < |p| => !p[i])
  }

  // ---------------------------------------------------------------- numbers and their bits

  lemma {:induction false} XorBits(a: nat, b: nat, n: nat)
    ensures Bits(Xor(a, b, n), n) == Plus(Bits(a, n), Bits(b, n))
  {
    if n > 0 {
      XorBits(a / 2, b / 2, n - 1);
      assert Xor(a, b, n) / 2 == Xor(a / 2, b / 2, n - 1);
    }
  }

  lemma {:induction false} SameBits(a: nat, b: nat, n: nat)
    requires a < Pow2(n) && b < Pow2(n) && Bits(a, n) == Bits(b, n)
    ensures a == b
  {
    if n > 0 {
      assert Bits(a, n)[0] == Bits(b, n)[0] && Bits(a, n)[1..] == Bits(b, n)[1..];
      assert Bits(a, n)[1..] == Bits(a / 2, n - 1) && Bits(b, n)[1..] == Bits(b / 2, n - 1);
      SameBits(a / 2, b / 2, n - 1);
    }
  }

  lemma {:induction false} ZeroBits(n: nat)
    ensures Bits(0, n) == Zeros(n)
  {
    if n > 0 {
      ZeroBits(n - 1);
    }
  }

  /** Shifting down drops the lowest bit. */
  lemma {:induction false} HalfBits(x: nat, n: nat)
    requires x < Pow2(n) && n > 0
    ensures Bits(x / 2, n) == Bits(x, n)[1..] + [false]
  {
    if n > 1 {
      HalfBits(x / 2, n - 1);
      assert Bits(x, n)[1..] == Bits(x / 2, n - 1);
    } else {
      assert Pow2(1) == 2;
      assert Bits(0, 1) == [false];
    }
  }

  lemma {:induction false} FourBits(x: nat, n: nat)
    ensures Bits(x, n + 4) == [x % 2 == 1, x / 2 % 2 == 1, x / 4 % 2 == 1, x / 8 % 2 == 1] + Bits(x / 16, n)
  {
    assert Bits(x, n + 4)
        == [x % 2 == 1] + ([x / 2 % 2 == 1] + ([x / 4 % 2 == 1] + ([x / 8 % 2 == 1] + Bits(x / 16, n)))) by {
      assert x / 2 / 2 == x / 4 && x / 4 / 2 == x / 8 && x / 8 / 2 == x / 16;
      assert Bits(x / 2, n + 3) == [x / 2 % 2 == 1] + Bits(x / 4, n + 2);
      assert Bits(x / 4, n + 2) == [x / 4 % 2 == 1] + Bits(x / 8, n + 1);
    }
  }

  lemma {:induction false} UpperHalf()
    ensures Bits(0xEDB8, 16) == [false, false, false, true, true, true, false, true,
                                 true, false, true, true, false, true, true, true]
  {
    hide Bits;
    FourBits(0xEDB8, 12);
    FourBits(0xEDB, 8);
    FourBits(0xED, 4);
    FourBits(0xE, 0);
    NoBits(0);
  }

  lemma {:induction false} LowerHalf()
    ensures Bits(0xEDB8_8320, 32) == [false, false, false, false, false, true, false, false,
                                      true, true, false, false, false, false, false, true] + Bits(0xEDB8, 16)
  {
    hide Bits;
    FourBits(0xEDB8_8320, 28);
    FourBits(0xEDB_8832, 24);
    FourBits(0xED_B883, 20);
    FourBits(0xE_DB88, 16);
  }

  /** The constant of the register is the generator without its leading term. */
  lemma {:induction false} PolynomialIsGenerator()
    ensures Bits(POLYNOMIAL, 32) == Generator()[1..]
  {
    hide Bits;
    UpperHalf();
    LowerHalf();
  }

  lemma {:induction false} NoBits(x: nat)
    ensures Bits(x, 0) == []
  {
  }

  // ---------------------------------------------------------------- the register

  /** The register moves by one place. */
  function Shift(s: Poly): (t: Poly)
    requires |s| == 32
    ensures |t| == 32
  {
    if s[0] then Plus(s[1..] + [false], Generator()[1..]) else s[1..] + [false]
  }

  function Shifts(s: Poly, n: nat): (t: Poly)
    requires |s| == 32
    ensures |t| == 32
    decreases n
  {
    if n == 0 then s else Shifts(Shift(s), n - 1)
  }

  /** One coefficient of the message is added in front, and the register moves. */
  function Feed(s: Poly, bit: bool): (t: Poly)
    requires |s| == 32
    ensures |t| == 32
  {
    Shift([s[0] != bit] + s[1..])
  }

  function FeedAll(s: Poly, m: Poly): (t: Poly)
    requires |s| == 32
    ensures |t| == 32
    decreases |m|
  {
    if |m| == 0 then s else FeedAll(Feed(s, m[0]), m[1..])
  }

  lemma {:induction false} FeedConcat(s: Poly, a: Poly, b: Poly)
    requires |s| == 32
    ensures FeedAll(s, a + b) == FeedAll(FeedAll(s, a), b)
    decreases |a|
  {
    hide Feed;
    if |a| == 0 {
      assert a + b == b;
    } else {
      assert (a + b)[1..] == a[1..] + b;
      FeedConcat(Feed(s, a[0]), a[1..], b);
    }
  }

  lemma {:induction false} ShiftIsLinear(a: Poly, b: Poly)
    requires |a| == 32 && |b| == 32
    ensures Shift(Plus(a, b)) == Plus(Shift(a), Shift(b))
  {
    hide Generator;
  }

  lemma {:induction false} ShiftsAreLinear(a: Poly, b: Poly, n: nat)
    requires |a| == 32 && |b| == 32
    ensures Shifts(Plus(a, b), n) == Plus(Shifts(a, n), Shifts(b, n))
    decreases n
  {
    hide Shift, Plus;
    if n > 0 {
      ShiftIsLinear(a, b);
      ShiftsAreLinear(Shift(a), Shift(b), n - 1);
    }
  }

  lemma {:induction false} ShiftsInTwo(s: Poly, n: nat, k: nat)
    requires |s| == 32
    ensures Shifts(Shifts(s, n), k) == Shifts(s, n + k)
    decreases n
  {
    hide Shift;
    if n > 0 {
      ShiftsInTwo(Shift(s), n - 1, k);
    }
  }

  /** Nothing is added while zeros leave the register. */
  lemma {:induction false} ShiftsOfZeros(s: Poly, n: nat)
    requires |s| == 32 && n <= 32 && forall i :: 0 <= i < n ==> !s[i]
    ensures Shifts(s, n) == s[n..] + Zeros(n)
    decreases n
  {
    if n == 0 {
      assert s[0..] + Zeros(0) == s;
    } else {
      var t := s[1..] + [false];
      assert Shift(s) == t;
      ShiftsOfZeros(t, n - 1);
      assert t[n - 1..] == s[n..] + [false];
      assert [false] + Zeros(n - 1) == Zeros(n);
    }
  }

  /** Feeding a stretch of the message is adding it to the register first. */
  lemma {:induction false} FeedIsShifts(s: Poly, m: Poly)
    requires |s| == 32 && |m| <= 32
    ensures FeedAll(s, m) == Shifts(Plus(s, m + Zeros(32 - |m|)), |m|)
    decreases |m|
  {
    hide Shift, Generator;
    if |m| == 0 {
      assert Plus(s, m + Zeros(32)) == s;
    } else {
      var rest := m[1..];
      var first, others := [m[0]] + Zeros(31), [false] + rest + Zeros(32 - |m|);
      assert [s[0] != m[0]] + s[1..] == Plus(s, first);
      assert Plus(s, m + Zeros(32 - |m|)) == Plus(Plus(s, first), others);
      ShiftIsLinear(Plus(s, first), others);
      ShiftOnce(others);
      assert others[1..] + [false] == rest + Zeros(32 - |rest|);
      FeedIsShifts(Feed(s, m[0]), rest);
    }
  }

  lemma {:induction false} ShiftOnce(s: Poly)
    requires |s| == 32 && !s[0]
    ensures Shift(s) == s[1..] + [false]
  {
  }

  // ---------------------------------------------------------------- the code's register

  lemma {:induction false} ShiftBitIsShift(c: uint32)
    ensures Bits(ShiftBit(c), 32) == Shift(Bits(c, 32))
  {
    hide Xor, Generator;
    Pow2Of32();
    HalfBits(c, 32);
    if c % 2 == 1 {
      XorBits(POLYNOMIAL, c / 2, 32);
      PolynomialIsGenerator();
      assert Plus(Generator()[1..], Bits(c / 2, 32)) == Plus(Bits(c / 2, 32), Generator()[1..]);
    }
  }

  function ShiftBits(c: uint32, n: nat): uint32
    decreases n
  {
    if n == 0 then c else ShiftBits(ShiftBit(c), n - 1)
  }

  lemma {:induction false} ShiftBitsAreShifts(c: uint32, n: nat)
    ensures Bits(ShiftBits(c, n), 32) == Shifts(Bits(c, 32), n)
    decreases n
  {
    hide ShiftBit, Shift, Bits;
    if n > 0 {
      ShiftBitIsShift(c);
      ShiftBitsAreShifts(ShiftBit(c), n - 1);
    }
  }

  lemma {:induction false} TableIsShifts(n: byte)
    ensures Bits(TableEntry(n), 32) == Shifts(Bits(n, 32), 8)
  {
    hide ShiftBit, Shift, Bits, Shifts;
    var c := ShiftBit(ShiftBit(ShiftBit(ShiftBit(n))));
    assert ShiftBits(n, 8) == ShiftBits(ShiftBit(ShiftBit(n)), 6) == ShiftBits(c, 4);
    assert ShiftBits(c, 4) == ShiftBits(ShiftBit(ShiftBit(c)), 2) == TableEntry(n);
    ShiftBitsAreShifts(n, 8);
  }

  /** The bits of a number are those of its low and of its high part. */
  lemma {:induction false} SplitBits(low: nat, high: nat, k: nat, n: nat)
    requires low < Pow2(k)
    ensures Bits(low + high * Pow2(k), k + n) == Bits(low, k) + Bits(high, n)
    decreases k
  {
    if k == 0 {
      assert low + high * Pow2(0) == high;
    } else {
      assert high * Pow2(k) == 2 * (high * Pow2(k - 1)) by {
        Twice(high, Pow2(k - 1));
      }
      Halved(low, high * Pow2(k - 1));
      SplitBits(low / 2, high, k - 1, n);
    }
  }

  lemma {:induction false} Twice(a: nat, b: nat)
    ensures a * (2 * b) == 2 * (a * b)
  {
  }

  lemma {:induction false} Halved(low: nat, h: nat)
    ensures (low + 2 * h) % 2 == low % 2 && (low + 2 * h) / 2 == low / 2 + h
  {
  }

  lemma {:induction false} Pow2Of8()
    ensures Pow2(8) == 256
  {
    assert Pow2(4) == 16;
  }

  lemma {:induction false} EightBits(x: nat, n: nat)
    ensures Bits(x, 8 + n) == Bits(x % 256, 8) + Bits(x / 256, n)
  {
    hide Bits;
    Pow2Of8();
    SplitBits(x % 256, x / 256, 8, n);
  }

  /** What remains of a byte beyond its eight bits is nothing. */
  lemma {:induction false} ByteBits(b: byte, n: nat)
    ensures Bits(b, 8 + n) == Bits(b, 8) + Zeros(n)
  {
    hide Bits;
    EightBits(b, n);
    ZeroBits(n);
  }

  lemma {:induction false} HighBits(x: nat)
    ensures Bits(x, 32)[8..] == Bits(x / 256, 24)
    ensures Bits(x, 32)[..8] == Bits(x % 256, 8)
  {
    hide Bits;
    EightBits(x, 24);
  }

  /** One byte through the code's register is its eight bits through the register. */
  lemma {:induction false} StepIsFeed(c: uint32, b: byte)
    ensures Bits(Step(c, b), 32) == FeedAll(Bits(c, 32), Bits(b, 8))
  {
    hide Bits, Xor, TableEntry, Shifts, Shift, FeedAll;
    var x := Xor32(c, b);
    XorBits(c, b, 32);
    ByteBits(b, 24);
    FeedIsShifts(Bits(c, 32), Bits(b, 8));
    var low, high := Bits(x % 256, 32), Zeros(8) + Bits(x / 256, 24);
    ByteBits(x % 256, 24);
    HighBits(x);
    assert Bits(x, 32) == Plus(low, high);
    ShiftsAreLinear(low, high, 8);
    ShiftsOfZeros(high, 8);
    TableIsShifts(x % 256);
    XorBits(TableEntry(x % 256), c / 256, 32);
    HighBits(c);
    HighByteStays(c, b);
    EightBits(c / 256, 24);
    TopByte(c);
  }

  /** A byte leaves the upper part of the register alone. */
  lemma {:induction false} HighByteStays(c: uint32, b: byte)
    ensures Bits(Xor32(c, b) / 256, 24) == Bits(c / 256, 24)
  {
    hide Bits, Xor;
    XorBits(c, b, 32);
    ByteBits(b, 24);
    HighBits(Xor32(c, b));
    HighBits(c);
    assert Plus(Bits(c, 32), Bits(b, 32))[8..] == Bits(c, 32)[8..];
  }

  /** A register shifted down by a byte ends in eight zeros. */
  lemma {:induction false} TopByte(c: uint32)
    ensures Bits(c / 256, 32) == Bits(c / 256, 24) + Zeros(8)
  {
    hide Bits;
    Pow2Of32();
    Pow2Of24();
    SplitBits(c / 256, 0, 24, 8);
    ZeroBits(8);
  }

  lemma {:induction false} Pow2Of24()
    ensures Pow2(24) == 0x100_0000
  {
    assert Pow2(8) == 256 by {
      assert Pow2(4) == 16;
    }
    assert Pow2(12) == 16 * Pow2(8);
    assert Pow2(16) == 16 * Pow2(12);
    assert Pow2(20) == 16 * Pow2(16);
    assert Pow2(24) == 16 * Pow2(20);
  }

  lemma {:induction false} RegisterIsFeed(c: uint32, p: bytes)
    ensures Bits(Register(c, p), 32) == FeedAll(Bits(c, 32), Message(p))
    decreases |p|
  {
    hide Bits, Step, Feed;
    if |p| > 0 {
      StepIsFeed(c, p[0]);
      RegisterIsFeed(Step(c, p[0]), p[1..]);
      FeedConcat(Bits(c, 32), Bits(p[0], 8), Message(p[1..]));
    }
  }

  // ---------------------------------------------------------------- the remainder

  /** What the register holds in the end is the remainder of the message, moved up by 32 places, with the mask added. */
  lemma {:induction false} RemainderIsFeed(s: Poly, m: Poly)
    requires |s| == 32
    ensures Remainder(Masked(s, m + Zeros(32))) == FeedAll(s, m)
    decreases |m|
  {
    hide Generator;
    var p := Masked(s, m + Zeros(32));
    if |m| == 0 {
      assert m + Zeros(32) == Zeros(32);
      assert p == s;
    } else {
      var rest := m[1..] + Zeros(32);
      assert m + Zeros(32) == [m[0]] + rest;
      DivisionStep(s, m[0], rest);
      RemainderIsFeed(Feed(s, m[0]), m[1..]);
    }
  }

  /** One step of the division is one step of the register. */
  lemma {:induction false} DivisionStep(s: Poly, bit: bool, rest: Poly)
    requires |s| == 32 && |rest| >= 32
    ensures
      var p := Masked(s, [bit] + rest);
      && p[0] == (s[0] != bit)
      && (if p[0] then Plus(p[..33], Generator())[1..] + p[33..] else p[1..]) == Masked(Feed(s, bit), rest)
  {
    hide Generator;
    var p, moved, g := Masked(s, [bit] + rest), s[1..] + [false], Generator()[1..];
    assert ([bit] + rest)[..32] == [bit] + rest[..31] && ([bit] + rest)[32..] == rest[31..];
    assert p[1..] == Masked(moved, rest);
    assert [p[0]] + s[1..] == [s[0] != bit] + s[1..];
    if p[0] {
      assert Plus(p[..33], Generator())[1..] == Plus(p[1..][..32], g);
      assert Feed(s, bit) == Plus(moved, g);
      assert Plus(p[1..][..32], g) + p[1..][32..] == Masked(Plus(moved, g), rest);
      assert p[33..] == p[1..][32..];
    } else {
      assert Feed(s, bit) == moved;
    }
  }

  lemma {:induction false} NotIsComplement(c: uint32)
    ensures Bits(Not32(c), 32) == Complement(Bits(c, 32))
  {
    Pow2Of32();
    NotBits(c, 32);
  }

  lemma {:induction false} NotBits(x: nat, n: nat)
    requires x < Pow2(n)
    ensures Bits(Pow2(n) - 1 - x, n) == Complement(Bits(x, n))
  {
    if n > 0 {
      assert (Pow2(n) - 1 - x) / 2 == Pow2(n - 1) - 1 - x / 2;
      NotBits(x / 2, n - 1);
    }
  }

  /**
   * The checksum of any bytes: of the message moved up by 32 places, its first 32 coefficients complemented, the
   * remainder by the generator is taken and complemented; the highest coefficient is the lowest bit of the checksum.
   */
  lemma {:induction false} ChecksumIsRemainder(p: bytes)
    ensures Bits(Checksum(p), 32)
         == Complement(Remainder(Masked(Complement(Zeros(32)), Message(p) + Zeros(32))))
  {
    hide Bits, Register, Remainder, Masked, Message;
    NotIsComplement(0);
    ZeroBits(32);
    RegisterIsFeed(Not32(0), p);
    RemainderIsFeed(Complement(Zeros(32)), Message(p));
    NotIsComplement(Register(Not32(0), p));
  }

  /** No other number has these bits. */
  lemma {:induction false} ChecksumIsDetermined(p: bytes, c: uint32)
    requires Bits(c, 32) == Complement(Remainder(Masked(Complement(Zeros(32)), Message(p) + Zeros(32))))
    ensures c == Checksum(p)
  {
    hide Bits, Register, Remainder, Masked, Message;
    Pow2Of32();
    ChecksumIsRemainder(p);
    SameBits(c, Checksum(p), 32);
  }
}
