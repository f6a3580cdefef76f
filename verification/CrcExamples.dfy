/** CRC-32 of given bytes, evaluated on machine words: the checksums that data/log_record_test.go expects. */
module CrcExamples {
  import opened Bytes
  import opened Crc32
  import opened Polynomials
  import LittleEndian

  /** The word with only the i-th bit set. */
  function Place(i: nat): bv32 {
    if i == 0 then 1 else Place(i - 1) << 1
  }

  predicate Shares(x: bv32, y: bv32) {
    x & y != 0
  }

  predicate IsSet(x: bv32, i: nat) {
    Shares(x, Place(i))
  }

  /** The bits of a word, the lowest one first. */
  function Coefficients(x: bv32): (p: Poly)
    ensures |p| == 32
  {
    seq(32, i requires 0 <= i < 32 => IsSet(x, i))
  }

  function ShiftWord(x: bv32): bv32 {
    if x & 1 == 1 then (x >> 1) ^ 0xEDB8_8320 else x >> 1
  }

  /** A byte is added in front, and the register moves by eight places. */
  function ThroughWord(x: bv32, b: bv32): bv32 {
    EightTimes(x ^ b)
  }

  function EightTimes(x: bv32): bv32 {
    ShiftWord(ShiftWord(ShiftWord(ShiftWord(ShiftWord(ShiftWord(ShiftWord(ShiftWord(x))))))))
  }

  lemma {:induction false} LastPlace()
    ensures Place(31) == 0x8000_0000
  {
    assert Place(4) == 0x10;
    assert Place(8) == 0x100;
    assert Place(12) == 0x1000;
    assert Place(16) == 0x1_0000;
    assert Place(20) == 0x10_0000;
    assert Place(24) == 0x100_0000;
    assert Place(28) == 0x1000_0000;
  }

  lemma {:induction false} NextPlace(i: nat)
    ensures Place(i + 1) == Place(i) << 1
  {
  }

  lemma {:induction false} NothingComesBack(i: nat, j: nat)
    requires i <= j && Place(i) == 0
    ensures Place(j) == 0
  {
    if i < j {
      NothingComesBack(i, j - 1);
    }
  }

  lemma {:induction false} SingleBit(m: bv32)
    requires m != 0 && m & (m - 1) == 0
    ensures m & 0x8000_0000 != 0 ==> m << 1 == 0
    ensures m & 0x8000_0000 == 0 ==> m << 1 != 0 && (m << 1) & ((m << 1) - 1) == 0
  {
  }

  /** One bit at every place, and not the highest one before the last. */
  lemma {:induction false} SinglePlace(i: nat)
    requires i < 32
    ensures Place(i) != 0 && Place(i) & (Place(i) - 1) == 0
    ensures i < 31 ==> Place(i) & 0x8000_0000 == 0
  {
    if i > 0 {
      SinglePlace(i - 1);
      SingleBit(Place(i - 1));
    }
    if i < 31 && Place(i) & 0x8000_0000 != 0 {
      SingleBit(Place(i));
      NothingComesBack(i + 1, 31);
      LastPlace();
    }
  }

  lemma {:induction false} XorAtPlace(x: bv32, y: bv32, m: bv32)
    requires m != 0 && m & (m - 1) == 0
    ensures Shares(x ^ y, m) == (Shares(x, m) != Shares(y, m))
  {
  }

  lemma {:induction false} ShiftAtPlace(x: bv32, m: bv32)
    requires m & 0x8000_0000 == 0
    ensures Shares(x >> 1, m) == Shares(x, m << 1)
  {
  }

  lemma {:induction false} XorCoefficients(x: bv32, y: bv32)
    ensures Coefficients(x ^ y) == Plus(Coefficients(x), Coefficients(y))
  {
    hide Place, Shares;
    forall i | 0 <= i < 32 ensures IsSet(x ^ y, i) == (IsSet(x, i) != IsSet(y, i)) {
      SinglePlace(i);
      XorAtPlace(x, y, Place(i));
    }
  }

  lemma {:induction false} TopPlace(x: bv32)
    ensures !IsSet(x >> 1, 31)
  {
    LastPlace();
    hide Place;
    NoTop(x);
  }

  lemma {:induction false} NoTop(x: bv32)
    ensures (x >> 1) & 0x8000_0000 == 0
  {
  }

  lemma {:induction false} HalfIsSet(x: bv32, i: nat)
    requires i < 31
    ensures IsSet(x >> 1, i) == IsSet(x, i + 1)
  {
    SinglePlace(i);
    NextPlace(i);
    hide Place, Shares;
    ShiftAtPlace(x, Place(i));
  }

  lemma {:induction false} HalfCoefficients(x: bv32)
    ensures Coefficients(x >> 1) == Coefficients(x)[1..] + [false]
  {
    hide IsSet;
    var half, all := Coefficients(x >> 1), Coefficients(x);
    TopPlace(x);
    forall i | 0 <= i < 31 ensures half[i] == all[i + 1] {
      HalfIsSet(x, i);
    }
  }

  // ---------------------------------------------------------------- numbers as words

  /** The word with the lowest k bits of a number. */
  function WordOf(n: nat, k: nat): bv32
    decreases k
  {
    if k == 0 then 0 else OneOrZero(n) | (WordOf(n / 2, k - 1) << 1)
  }

  /** The lowest bit of a number as a word. */
  function OneOrZero(n: nat): (w: bv32)
    ensures w == 0 || w == 1
  {
    if n % 2 == 1 then 1 else 0
  }

  lemma {:induction false} DoubleAtPlace(x: bv32, bit: bv32, m: bv32)
    requires (bit == 0 || bit == 1) && m & 0x8000_0000 == 0
    ensures Shares(bit | (x << 1), m << 1) == Shares(x, m)
    ensures (bit | (x << 1)) & 1 == bit
  {
  }

  lemma {:induction false} DoubleIsSet(x: bv32, bit: bv32, i: nat)
    requires (bit == 0 || bit == 1) && i < 31
    ensures IsSet(bit | (x << 1), i + 1) == IsSet(x, i)
  {
    SinglePlace(i);
    NextPlace(i);
    hide Place, Shares;
    DoubleAtPlace(x, bit, Place(i));
  }

  lemma {:induction false} DoubleCoefficients(x: bv32, bit: bv32)
    requires bit == 0 || bit == 1
    ensures Coefficients(bit | (x << 1)) == [bit == 1] + Coefficients(x)[..31]
  {
    hide IsSet;
    var twice, all := Coefficients(bit | (x << 1)), Coefficients(x);
    DoubleAtPlace(x, bit, 0);
    FirstPlace(bit | (x << 1));
    forall i | 0 <= i < 31 ensures twice[i + 1] == all[i] {
      DoubleIsSet(x, bit, i);
    }
  }

  lemma {:induction false} NoCoefficients()
    ensures Coefficients(0) == Zeros(32)
  {
    hide Place;
  }

  lemma {:induction false} WordHasBits(n: nat, k: nat)
    requires k <= 32
    ensures Coefficients(WordOf(n, k)) == Bits(n, k) + Zeros(32 - k)
    decreases k
  {
    hide Coefficients, Bits;
    if k == 0 {
      NoCoefficients();
      NoBits(n);
      Padded([], 32);
    } else {
      WordHasBits(n / 2, k - 1);
      DoubleCoefficients(WordOf(n / 2, k - 1), OneOrZero(n));
      OneMoreBit(n, k);
      Extended(Coefficients(WordOf(n / 2, k - 1)), n % 2 == 1, Bits(n / 2, k - 1));
    }
  }

  lemma {:induction false} Padded(p: Poly, n: nat)
    ensures [] + Zeros(n) == Zeros(n) && p + Zeros(0) == p
  {
  }

  lemma {:induction false} Extended(c: Poly, bit: bool, p: Poly)
    requires |p| < 32 && c == p + Zeros(32 - |p|)
    ensures [bit] + c[..31] == ([bit] + p) + Zeros(31 - |p|)
  {
  }

  lemma {:induction false} OneMoreBit(n: nat, k: nat)
    requires k > 0
    ensures Bits(n, k) == [n % 2 == 1] + Bits(n / 2, k - 1)
    ensures (OneOrZero(n) == 1) == (n % 2 == 1)
  {
  }

  // ---------------------------------------------------------------- the register

  lemma {:induction false} GeneratorWord()
    ensures Coefficients(0xEDB8_8320) == Generator()[1..]
  {
    hide Bits, Coefficients, WordOf;
    PolynomialIsGenerator();
    PolynomialWord();
    WordHasBits(POLYNOMIAL, 32);
    assert Bits(POLYNOMIAL, 32) + Zeros(0) == Bits(POLYNOMIAL, 32);
  }

  lemma {:induction false} PolynomialWord()
    ensures WordOf(0xEDB8_8320, 32) == 0xEDB8_8320
  {
    assert WordOf(0xE, 4) == 0xE;
    assert WordOf(0xED, 8) == 0xED;
    assert WordOf(0xEDB, 12) == 0xEDB;
    assert WordOf(0xEDB8, 16) == 0xEDB8;
    assert WordOf(0xE_DB88, 20) == 0xE_DB88;
    assert WordOf(0xED_B883, 24) == 0xED_B883;
    assert WordOf(0xEDB_8832, 28) == 0xEDB_8832;
  }

  lemma {:induction false} FirstPlace(x: bv32)
    ensures IsSet(x, 0) == (x & 1 == 1)
  {
    assert x & 1 == 0 || x & 1 == 1;
  }

  lemma {:induction false} ShiftCoefficients(x: bv32)
    ensures Coefficients(ShiftWord(x)) == Shift(Coefficients(x))
  {
    hide Generator, Place, IsSet;
    FirstPlace(x);
    HalfCoefficients(x);
    GeneratorWord();
    XorCoefficients(x >> 1, 0xEDB8_8320);
  }

  function RunWord(c: bv32, p: bytes): bv32
    decreases |p|
  {
    if |p| == 0 then c else RunWord(ThroughWord(c, WordOf(p[0], 8)), p[1..])
  }

  lemma {:induction false} ThroughIsFeed(c: bv32, w: bv32, m: Poly)
    requires |m| == 8 && Coefficients(w) == m + Zeros(24)
    ensures Coefficients(ThroughWord(c, w)) == FeedAll(Coefficients(c), m)
  {
    hide Coefficients, EightTimes, Shifts, FeedAll, Plus, Zeros;
    XorCoefficients(c, w);
    EightWords(c ^ w);
    FeedIsShifts(Coefficients(c), m);
  }

  lemma {:induction false} EightWords(x: bv32)
    ensures Coefficients(EightTimes(x)) == Shifts(Coefficients(x), 8)
  {
    hide Coefficients, ShiftWord, Shift, Shifts;
    var y := ShiftWord(ShiftWord(ShiftWord(ShiftWord(x))));
    FourWords(x, Coefficients(x));
    FourWords(y, Coefficients(y));
    ShiftsInTwo(Coefficients(x), 4, 4);
  }

  lemma {:induction false} FourWords(x: bv32, s: Poly)
    requires s == Coefficients(x)
    ensures Coefficients(ShiftWord(ShiftWord(ShiftWord(ShiftWord(x))))) == Shifts(s, 4)
  {
    hide Coefficients, ShiftWord, Shift;
    var x1 := ShiftWord(x);
    var x2 := ShiftWord(x1);
    var x3 := ShiftWord(x2);
    ShiftCoefficients(x);
    ShiftCoefficients(x1);
    ShiftCoefficients(x2);
    ShiftCoefficients(x3);
    assert Shifts(s, 4) == Shifts(Coefficients(x1), 3) == Shifts(Coefficients(x2), 2);
    assert Shifts(Coefficients(x2), 2) == Shifts(Coefficients(x3), 1);
  }

  lemma {:induction false} RunIsFeed(c: bv32, p: bytes)
    ensures Coefficients(RunWord(c, p)) == FeedAll(Coefficients(c), Message(p))
    decreases |p|
  {
    hide Coefficients, ThroughWord, WordOf, Bits, Feed;
    if |p| > 0 {
      WordHasBits(p[0], 8);
      ThroughIsFeed(c, WordOf(p[0], 8), Bits(p[0], 8));
      RunIsFeed(ThroughWord(c, WordOf(p[0], 8)), p[1..]);
      FeedConcat(Coefficients(c), Bits(p[0], 8), Message(p[1..]));
    }
  }

  lemma {:induction false} AllOnes()
    ensures WordOf(MAX_UINT32, 32) == 0xFFFF_FFFF
  {
    assert WordOf(0xF, 4) == 0xF;
    assert WordOf(0xFF, 8) == 0xFF;
    assert WordOf(0xFFF, 12) == 0xFFF;
    assert WordOf(0xFFFF, 16) == 0xFFFF;
    assert WordOf(0xF_FFFF, 20) == 0xF_FFFF;
    assert WordOf(0xFF_FFFF, 24) == 0xFF_FFFF;
    assert WordOf(0xFFF_FFFF, 28) == 0xFFF_FFFF;
  }

  /** The register as a word and as a number. */
  lemma {:induction false} ChecksumOfWord(p: bytes, r: uint32)
    requires RunWord(0xFFFF_FFFF, p) == WordOf(r, 32)
    ensures Checksum(p) == MAX_UINT32 - r
  {
    hide Coefficients, RunWord, WordOf, Bits, FeedAll, Message, Register;
    AllOnes();
    WordHasBits(MAX_UINT32, 32);
    WordHasBits(r, 32);
    RunIsFeed(0xFFFF_FFFF, p);
    RegisterIsFeed(MAX_UINT32, p);
    assert Bits(r, 32) + Zeros(0) == Bits(r, 32) && Bits(MAX_UINT32, 32) + Zeros(0) == Bits(MAX_UINT32, 32);
    Pow2Of32();
    SameBits(Register(MAX_UINT32, p), r, 32);
  }

  // ---------------------------------------------------------------- checksums

  lemma {:induction false} OneByte(c: bv32, p: bytes, rest: bytes, w: bv32, d: bv32)
    requires |p| > 0 && p[1..] == rest && WordOf(p[0], 8) == w && ThroughWord(c, w) == d
    ensures RunWord(c, p) == RunWord(d, rest)
  {
    hide WordOf, ThroughWord;
  }

  lemma {:induction false} Finished(c: bv32)
    ensures RunWord(c, []) == c
  {
  }

  lemma {:induction false} RegisterOfNameRecord()
    ensures WordOf(0x1FCB_CE72, 32) == 0x1FCB_CE72
  {
    assert WordOf(0x1, 4) == 0x1;
    assert WordOf(0x1F, 8) == 0x1F;
    assert WordOf(0x1FC, 12) == 0x1FC;
    assert WordOf(0x1FCB, 16) == 0x1FCB;
    assert WordOf(0x1_FCBC, 20) == 0x1_FCBC;
    assert WordOf(0x1F_CBCE, 24) == 0x1F_CBCE;
    assert WordOf(0x1FC_BCE7, 28) == 0x1FC_BCE7;
  }

  lemma {:induction false} NameRecord1()
    ensures RunWord(0xFFFF_FFFF, [0, 8, 6, 110, 97, 109, 101, 119, 115, 120])
         == RunWord(0x2104_09D0, [110, 97, 109, 101, 119, 115, 120])
  {
    hide RunWord;
    var two: bytes := [6, 110, 97, 109, 101, 119, 115, 120];
    var one: bytes := [8, 6, 110, 97, 109, 101, 119, 115, 120];
    OneByte(0xFFFF_FFFF, [0, 8, 6, 110, 97, 109, 101, 119, 115, 120], one, 0x00, 0x2DFD_1072);
    OneByte(0x2DFD_1072, one, two, 0x08, 0xB0FD_6532);
    OneByte(0xB0FD_6532, two, [110, 97, 109, 101, 119, 115, 120], 0x06, 0x2104_09D0);
  }

  lemma {:induction false} NameRecord2()
    ensures RunWord(0x2104_09D0, [110, 97, 109, 101, 119, 115, 120]) == RunWord(0x568A_EB68, [101, 119, 115, 120])
  {
    hide RunWord;
    OneByte(0x2104_09D0, [110, 97, 109, 101, 119, 115, 120], [97, 109, 101, 119, 115, 120], 0x6E, 0x2CF8_9A82);
    OneByte(0x2CF8_9A82, [97, 109, 101, 119, 115, 120], [109, 101, 119, 115, 120], 0x61, 0x392F_4B58);
    OneByte(0x392F_4B58, [109, 101, 119, 115, 120], [101, 119, 115, 120], 0x6D, 0x568A_EB68);
  }

  lemma {:induction false} NameRecord3()
    ensures RunWord(0x568A_EB68, [101, 119, 115, 120]) == RunWord(0x114D_1CAB, [120])
  {
    hide RunWord;
    OneByte(0x568A_EB68, [101, 119, 115, 120], [119, 115, 120], 0x65, 0x7EE7_F656);
    OneByte(0x7EE7_F656, [119, 115, 120], [115, 120], 0x77, 0x4C17_F7A8);
    OneByte(0x4C17_F7A8, [115, 120], [120], 0x73, 0x114D_1CAB);
  }

  lemma {:induction false} NameRecord4()
    ensures RunWord(0x114D_1CAB, [120]) == RunWord(0x1FCB_CE72, [])
  {
    hide RunWord;
    OneByte(0x114D_1CAB, [120], [], 0x78, 0x1FCB_CE72);
  }

  /** Type 0, key length 4, value length 3, then "name" and "wsx". */
  lemma {:induction false} NameRecord()
    ensures Checksum([0, 8, 6, 110, 97, 109, 101, 119, 115, 120]) == 0xE034_318D
  {
    hide RunWord, WordOf;
    RegisterOfNameRecord();
    NameRecord1();
    NameRecord2();
    NameRecord3();
    NameRecord4();
    Finished(0x1FCB_CE72);
    ChecksumOfWord([0, 8, 6, 110, 97, 109, 101, 119, 115, 120], 0x1FCB_CE72);
  }

  lemma {:induction false} RegisterOfNameDeleted()
    ensures WordOf(0x57D0_0842, 32) == 0x57D0_0842
  {
    assert WordOf(0x5, 4) == 0x5;
    assert WordOf(0x57, 8) == 0x57;
    assert WordOf(0x57D, 12) == 0x57D;
    assert WordOf(0x57D0, 16) == 0x57D0;
    assert WordOf(0x5_7D00, 20) == 0x5_7D00;
    assert WordOf(0x57_D008, 24) == 0x57_D008;
    assert WordOf(0x57D_0084, 28) == 0x57D_0084;
  }

  lemma {:induction false} NameDeleted1()
    ensures RunWord(0xFFFF_FFFF, [1, 8, 0, 110, 97, 109, 101]) == RunWord(0xC9A5_C6D2, [110, 97, 109, 101])
  {
    hide RunWord;
    OneByte(0xFFFF_FFFF, [1, 8, 0, 110, 97, 109, 101], [8, 0, 110, 97, 109, 101], 0x01, 0x5AFA_20E4);
    OneByte(0x5AFA_20E4, [8, 0, 110, 97, 109, 101], [0, 110, 97, 109, 101], 0x08, 0xA9E6_5473);
    OneByte(0xA9E6_5473, [0, 110, 97, 109, 101], [110, 97, 109, 101], 0x00, 0xC9A5_C6D2);
  }

  lemma {:induction false} NameDeleted2()
    ensures RunWord(0xC9A5_C6D2, [110, 97, 109, 101]) == RunWord(0xB8BD_6711, [101])
  {
    hide RunWord;
    OneByte(0xC9A5_C6D2, [110, 97, 109, 101], [97, 109, 101], 0x6E, 0xC21E_5A61);
    OneByte(0xC21E_5A61, [97, 109, 101], [109, 101], 0x61, 0x00C2_1E5A);
    OneByte(0x00C2_1E5A, [109, 101], [101], 0x6D, 0xB8BD_6711);
  }

  lemma {:induction false} NameDeleted3()
    ensures RunWord(0xB8BD_6711, [101]) == RunWord(0x57D0_0842, [])
  {
    hide RunWord;
    OneByte(0xB8BD_6711, [101], [], 0x65, 0x57D0_0842);
  }

  /** Type 1, key length 4, no value, then "name". */
  lemma {:induction false} NameDeleted()
    ensures Checksum([1, 8, 0, 110, 97, 109, 101]) == 0xA82F_F7BD
  {
    hide RunWord, WordOf;
    RegisterOfNameDeleted();
    NameDeleted1();
    NameDeleted2();
    NameDeleted3();
    Finished(0x57D0_0842);
    ChecksumOfWord([1, 8, 0, 110, 97, 109, 101], 0x57D0_0842);
  }

  lemma {:induction false} RegisterOfFourZeros()
    ensures WordOf(0xDEBB_20E3, 32) == 0xDEBB_20E3
  {
    assert WordOf(0xD, 4) == 0xD;
    assert WordOf(0xDE, 8) == 0xDE;
    assert WordOf(0xDEB, 12) == 0xDEB;
    assert WordOf(0xDEBB, 16) == 0xDEBB;
    assert WordOf(0xD_EBB2, 20) == 0xD_EBB2;
    assert WordOf(0xDE_BB20, 24) == 0xDE_BB20;
    assert WordOf(0xDEB_B20E, 28) == 0xDEB_B20E;
  }

  lemma {:induction false} FourZeros1()
    ensures RunWord(0xFFFF_FFFF, [0, 0, 0, 0]) == RunWord(0x00BE_26ED, [0])
  {
    hide RunWord;
    OneByte(0xFFFF_FFFF, [0, 0, 0, 0], [0, 0, 0], 0x00, 0x2DFD_1072);
    OneByte(0x2DFD_1072, [0, 0, 0], [0, 0], 0x00, 0xBE26_ED00);
    OneByte(0xBE26_ED00, [0, 0], [0], 0x00, 0x00BE_26ED);
  }

  lemma {:induction false} FourZeros2()
    ensures RunWord(0x00BE_26ED, [0]) == RunWord(0xDEBB_20E3, [])
  {
    hide RunWord;
    OneByte(0x00BE_26ED, [0], [], 0x00, 0xDEBB_20E3);
  }

  /** Four bytes of zero. */
  lemma {:induction false} FourZeros()
    ensures Checksum([0, 0, 0, 0]) == 0x2144_DF1C
  {
    hide RunWord, WordOf;
    RegisterOfFourZeros();
    FourZeros1();
    FourZeros2();
    Finished(0xDEBB_20E3);
    ChecksumOfWord([0, 0, 0, 0], 0xDEBB_20E3);
  }

  lemma {:induction false} RegisterOfCheckValue()
    ensures WordOf(0x340B_C6D9, 32) == 0x340B_C6D9
  {
    assert WordOf(0x3, 4) == 0x3;
    assert WordOf(0x34, 8) == 0x34;
    assert WordOf(0x340, 12) == 0x340;
    assert WordOf(0x340B, 16) == 0x340B;
    assert WordOf(0x3_40BC, 20) == 0x3_40BC;
    assert WordOf(0x34_0BC6, 24) == 0x34_0BC6;
    assert WordOf(0x340_BC6D, 28) == 0x340_BC6D;
  }

  lemma {:induction false} CheckValue1()
    ensures RunWord(0xFFFF_FFFF, [49, 50, 51, 52, 53, 54, 55, 56, 57]) == RunWord(0x77B7_9C2D, [52, 53, 54, 55, 56, 57])
  {
    hide RunWord;
    OneByte(0xFFFF_FFFF, [49, 50, 51, 52, 53, 54, 55, 56, 57], [50, 51, 52, 53, 54, 55, 56, 57], 0x31, 0x7C23_1048);
    OneByte(0x7C23_1048, [50, 51, 52, 53, 54, 55, 56, 57], [51, 52, 53, 54, 55, 56, 57], 0x32, 0xB0AC_BB32);
    OneByte(0xB0AC_BB32, [51, 52, 53, 54, 55, 56, 57], [52, 53, 54, 55, 56, 57], 0x33, 0x77B7_9C2D);
  }

  lemma {:induction false} CheckValue2()
    ensures RunWord(0x77B7_9C2D, [52, 53, 54, 55, 56, 57]) == RunWord(0xF68D_2C9E, [55, 56, 57])
  {
    hide RunWord;
    OneByte(0x77B7_9C2D, [52, 53, 54, 55, 56, 57], [53, 54, 55, 56, 57], 0x34, 0x641C_1F5C);
    OneByte(0x641C_1F5C, [53, 54, 55, 56, 57], [54, 55, 56, 57], 0x35, 0x340A_C5E3);
    OneByte(0x340A_C5E3, [54, 55, 56, 57], [55, 56, 57], 0x36, 0xF68D_2C9E);
  }

  lemma {:induction false} CheckValue3()
    ensures RunWord(0xF68D_2C9E, [55, 56, 57]) == RunWord(0x340B_C6D9, [])
  {
    hide RunWord;
    OneByte(0xF68D_2C9E, [55, 56, 57], [56, 57], 0x37, 0xAFFC_9660);
    OneByte(0xAFFC_9660, [56, 57], [57], 0x38, 0x651F_2550);
    OneByte(0x651F_2550, [57], [], 0x39, 0x340B_C6D9);
  }

  /** The check value of the algorithm: the digits from 1 to 9. */
  lemma {:induction false} CheckValue()
    ensures Checksum([49, 50, 51, 52, 53, 54, 55, 56, 57]) == 0xCBF4_3926
  {
    hide RunWord, WordOf;
    RegisterOfCheckValue();
    CheckValue1();
    CheckValue2();
    CheckValue3();
    Finished(0x340B_C6D9);
    ChecksumOfWord([49, 50, 51, 52, 53, 54, 55, 56, 57], 0x340B_C6D9);
  }

  // ---------------------------------------------------------------- a message and its checksum

  /** A number of 32 bits as a message of four bytes, the lowest first. */
  lemma {:induction false} MessageOfNumber(x: nat)
    ensures Message(LittleEndian.ToBytes(x, 4)) == Bits(x, 32)
  {
    hide Bits;
    EightBits(x, 24);
    EightBits(x / 256, 16);
    EightBits(x / 256 / 256, 8);
    EightBits(x / 256 / 256 / 256, 0);
    NoBits(x / 256 / 256 / 256 / 256);
    MessageOfByte(x, 3);
    MessageOfByte(x / 256, 2);
    MessageOfByte(x / 256 / 256, 1);
    MessageOfByte(x / 256 / 256 / 256, 0);
    assert LittleEndian.ToBytes(x / 256 / 256 / 256 / 256, 0) == [] && Message([]) == [];
  }

  lemma {:induction false} MessageOfByte(x: nat, n: nat)
    ensures Message(LittleEndian.ToBytes(x, n + 1)) == Bits(x % 256, 8) + Message(LittleEndian.ToBytes(x / 256, n))
  {
    hide Bits;
    assert LittleEndian.ToBytes(x, n + 1)[1..] == LittleEndian.ToBytes(x / 256, n);
  }

  /** Feeding the register its own complement leaves the same whatever it held. */
  lemma {:induction false} OwnComplement(s: Poly)
    requires |s| == 32
    ensures FeedAll(s, Complement(s)) == FeedAll(Complement(Zeros(32)), Zeros(32))
  {
    hide Shifts, FeedAll;
    FeedIsShifts(s, Complement(s));
    FeedIsShifts(Complement(Zeros(32)), Zeros(32));
    var ones := Complement(Zeros(32));
    assert Plus(s, Complement(s) + Zeros(0)) == ones == Plus(ones, Zeros(32) + Zeros(0));
  }

  /** The residue of the algorithm: any message followed by its own checksum, lowest byte first. */
  lemma {:induction false} Residue(p: bytes)
    ensures Checksum(p + LittleEndian.ToBytes(Checksum(p), 4)) == 0x2144_DF1C
  {
    hide Bits, Register, FeedAll, Message, LittleEndian.ToBytes;
    var c := Register(MAX_UINT32, p);
    var own := LittleEndian.ToBytes(Not32(c), 4);
    RegisterConcat(MAX_UINT32, p, own);
    RegisterIsFeed(c, own);
    MessageOfNumber(Not32(c));
    NotIsComplement(c);
    OwnComplement(Bits(c, 32));
    Pow2Of32();
    FourZerosFed();
    SameBits(Register(c, own), Register(MAX_UINT32, [0, 0, 0, 0]), 32);
    FourZeros();
  }

  lemma {:induction false} FourZerosFed()
    ensures Bits(Register(MAX_UINT32, [0, 0, 0, 0]), 32) == FeedAll(Complement(Zeros(32)), Zeros(32))
  {
    hide Bits, Register, FeedAll, Message;
    RegisterIsFeed(MAX_UINT32, [0, 0, 0, 0]);
    assert LittleEndian.ToBytes(0, 4) == [0, 0, 0, 0];
    MessageOfNumber(0);
    ZeroBits(32);
    NotIsComplement(0);
  }
}
