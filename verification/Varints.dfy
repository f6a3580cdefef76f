/** The variable-length integers of Go's `encoding/binary`: unsigned base-128 groups and their zigzag form. */
module Varints {
  import opened Bytes

  const MAX_VARINT_LEN_32: nat := 5
  const MAX_VARINT_LEN_64: nat := 10
  const TWO_32: int := 0x1_0000_0000
  const TWO_63: int := 0x8000_0000_0000_0000
  const TWO_64: int := 0x1_0000_0000_0000_0000

  /** A decoded value and the number of bytes read: 0 when the buffer is too small, negative on overflow. */
  datatype Decoded = Decoded(value: int, n: int)

  /** What `binary.PutUvarint` writes. */
  function UvarintBytes(x: nat): (s: bytes)
    ensures |s| >= 1
  {
    if x < 128 then [x] else [x % 128 + 128] + UvarintBytes(x / 128)
  }

  function Zigzag(x: int): nat {
    if x >= 0 then 2 * x else -2 * x - 1
  }

  function Unzigzag(u: int): int {
    if u % 2 == 0 then u / 2 else -(u / 2) - 1
  }

  /** What `binary.PutVarint` writes. */
  function VarintBytes(x: int): (s: bytes)
    ensures |s| >= 1
  {
    UvarintBytes(Zigzag(x))
  }

  /** The loop of `binary.Uvarint` from byte i on: acc is the value so far and scale is 128 to the power i. */
  function UvarintFrom(buf: bytes, i: nat, acc: nat, scale: nat): (d: Decoded)
    ensures d.n <= i + |buf|
  {
    if |buf| == 0 then Decoded(0, 0)
    else if i == MAX_VARINT_LEN_64 then Decoded(0, -(i + 1))
    else if buf[0] < 128 then
      if i == MAX_VARINT_LEN_64 - 1 && buf[0] > 1 then Decoded(0, -(i + 1))
      else Decoded(acc + buf[0] * scale, i + 1)
    else UvarintFrom(buf[1..], i + 1, acc + (buf[0] - 128) * scale, scale * 128)
  }

  function Uvarint(buf: bytes): (d: Decoded)
    ensures d.n <= |buf|
  {
    UvarintFrom(buf, 0, 0, 1)
  }

  function Varint(buf: bytes): (d: Decoded)
    ensures d.n <= |buf|
  {
    var d := Uvarint(buf);
    Decoded(Unzigzag(d.value), d.n)
  }

  /** How large a value may still be when i groups have been read from a 64-bit integer. */
  function Room(i: nat): nat
    requires i <= 9
  {
    [0x1_0000_0000_0000_0000, 0x200_0000_0000_0000, 0x4_0000_0000_0000, 0x800_0000_0000, 0x10_0000_0000,
     0x2000_0000, 0x40_0000, 0x8000, 0x100, 2][i]
  }

  lemma {:induction false} UvarintFromReadsBack(x: nat, rest: bytes, i: nat, acc: nat, scale: nat)
    requires i <= 9 && x < Room(i)
    ensures UvarintFrom(UvarintBytes(x) + rest, i, acc, scale)
         == Decoded(acc + x * scale, i + |UvarintBytes(x)|)
    decreases x
  {
    var s := UvarintBytes(x) + rest;
    if x < 128 {
      assert s[0] == x;
    } else {
      assert i < 9 && x / 128 < Room(i + 1);
      assert s[0] == x % 128 + 128;
      assert s[1..] == UvarintBytes(x / 128) + rest;
      UvarintFromReadsBack(x / 128, rest, i + 1, acc + (x % 128) * scale, scale * 128);
      assert x * scale == (x % 128) * scale + (x / 128) * (scale * 128) by {
        assert x == x % 128 + 128 * (x / 128);
        Distribute(x % 128, x / 128, scale);
      }
    }
  }

  lemma {:induction false} Distribute(r: nat, q: nat, scale: nat)
    ensures (r + 128 * q) * scale == r * scale + q * (scale * 128)
  {
  }

  /** An unsigned integer of 64 bits is read back from the bytes written for it, whatever follows them. */
  lemma {:induction false} UvarintRoundTrip(x: nat, rest: bytes)
    requires x < TWO_64
    ensures Uvarint(UvarintBytes(x) + rest) == Decoded(x, |UvarintBytes(x)|)
  {
    UvarintFromReadsBack(x, rest, 0, 0, 1);
  }

  /** A signed integer of 64 bits is read back from the bytes written for it, whatever follows them. */
  lemma {:induction false} VarintRoundTrip(x: int, rest: bytes)
    requires -TWO_63 <= x < TWO_63
    ensures Varint(VarintBytes(x) + rest) == Decoded(x, |VarintBytes(x)|)
  {
    UvarintRoundTrip(Zigzag(x), rest);
  }

  /** Reading a varint leaves the cursor at what follows it. */
  lemma {:induction false} SkipVarint(x: int, rest: bytes)
    requires -TWO_63 <= x < TWO_63
    ensures Varint(VarintBytes(x) + rest) == Decoded(x, |VarintBytes(x)|)
    ensures (VarintBytes(x) + rest)[|VarintBytes(x)|..] == rest
  {
    VarintRoundTrip(x, rest);
  }

  /** Reading an unsigned varint leaves the cursor at what follows it. */
  lemma {:induction false} SkipUvarint(x: nat, rest: bytes)
    requires x < TWO_64
    ensures Uvarint(UvarintBytes(x) + rest) == Decoded(x, |UvarintBytes(x)|)
    ensures (UvarintBytes(x) + rest)[|UvarintBytes(x)|..] == rest
  {
    UvarintRoundTrip(x, rest);
  }

  lemma {:induction false} FiveBytes(x: nat)
    requires x >= 0x1000_0000
    ensures |UvarintBytes(x)| >= 5
  {
    assert |UvarintBytes(x)| == 1 + |UvarintBytes(x / 128)|;
    assert |UvarintBytes(x / 128)| == 1 + |UvarintBytes(x / 128 / 128)|;
    assert |UvarintBytes(x / 128 / 128)| == 1 + |UvarintBytes(x / 128 / 128 / 128)|;
    assert |UvarintBytes(x / 128 / 128 / 128)| == 1 + |UvarintBytes(x / 128 / 128 / 128 / 128)|;
  }

  lemma {:induction false} NineBytes(x: nat)
    requires x >= 0x100_0000_0000_0000
    ensures |UvarintBytes(x)| >= 9
  {
    assert |UvarintBytes(x)| == 1 + |UvarintBytes(x / 128)|;
    assert |UvarintBytes(x / 128)| == 1 + |UvarintBytes(x / 128 / 128)|;
    assert |UvarintBytes(x / 128 / 128)| == 1 + |UvarintBytes(x / 128 / 128 / 128)|;
    assert |UvarintBytes(x / 128 / 128 / 128)| == 1 + |UvarintBytes(x / 128 / 128 / 128 / 128)|;
    FiveBytes(x / 128 / 128 / 128 / 128);
  }

  lemma {:induction false} TenBytes(x: nat)
    requires x >= TWO_63
    ensures |UvarintBytes(x)| >= 10
  {
    NineBytes(x / 128);
  }

  // ---------------------------------------------------------------- what the bytes mean

  /** Seven bits of each byte, the first byte's the lowest. */
  function Groups(s: bytes): nat {
    if |s| == 0 then 0 else s[0] % 128 + 128 * Groups(s[1..])
  }

  /** The bytes of a number: its groups of seven bits, the top bit on all but the last, and no empty last group. */
  lemma {:induction false} UvarintLayout(x: nat)
    ensures
      var s := UvarintBytes(x);
      && Groups(s) == x && s[|s| - 1] < 128 && (|s| > 1 ==> s[|s| - 1] > 0)
      && forall i :: 0 <= i < |s| - 1 ==> s[i] >= 128
  {
    if x >= 128 {
      UvarintLayout(x / 128);
      assert UvarintBytes(x)[1..] == UvarintBytes(x / 128);
    } else {
      assert Groups([x][1..]) == 0;
    }
  }

  /** How many bytes with the top bit set come first. */
  function Leading(buf: bytes): (k: nat)
    ensures k <= |buf|
  {
    if |buf| == 0 || buf[0] < 128 then 0 else 1 + Leading(buf[1..])
  }

  /** `binary.Uvarint` on any bytes: too short, too long or too large, and otherwise the groups up to the first end. */
  function UvarintOutcome(buf: bytes): Decoded {
    var k := Leading(buf);
    if k == |buf| && k <= MAX_VARINT_LEN_64 then Decoded(0, 0)
    else if k >= MAX_VARINT_LEN_64 then Decoded(0, -(MAX_VARINT_LEN_64 + 1))
    else if k == MAX_VARINT_LEN_64 - 1 && buf[k] > 1 then Decoded(0, -(k + 1))
    else Decoded(Groups(buf[..k + 1]), k + 1)
  }

  /** What is read from byte i on: k bytes with the top bit set, then b, if that was not the end of the buffer. */
  function OutcomeOf(k: nat, ends: bool, b: byte, i: nat, value: nat): Decoded {
    if ends && i + k <= 10 then Decoded(0, 0)
    else if i + k >= 10 then Decoded(0, -11)
    else if i + k == 9 && b > 1 then Decoded(0, -10)
    else Decoded(value, i + k + 1)
  }

  function OutcomeFrom(buf: bytes, i: nat, acc: nat, scale: nat): Decoded {
    var k := Leading(buf);
    if k == |buf| then OutcomeOf(k, true, 0, i, 0)
    else OutcomeOf(k, false, buf[k], i, acc + Groups(buf[..k + 1]) * scale)
  }

  lemma {:induction false} FirstGroup(buf: bytes, k: nat)
    requires 0 < k < |buf| && buf[0] >= 128
    ensures Groups(buf[..k + 1]) == buf[0] - 128 + 128 * Groups(buf[1..][..k])
  {
    assert buf[..k + 1][1..] == buf[1..][..k];
  }

  lemma {:induction false} OnlyGroup(buf: bytes)
    requires |buf| > 0 && buf[0] < 128
    ensures Groups(buf[..1]) == buf[0]
  {
    assert buf[..1][1..] == [] && Groups([]) == 0;
  }

  /** Moving the first byte into acc does not change the outcome. */
  lemma {:induction false} OutcomeMoves(buf: bytes, i: nat, acc: nat, scale: nat)
    requires |buf| > 0 && buf[0] >= 128
    ensures OutcomeFrom(buf[1..], i + 1, acc + (buf[0] - 128) * scale, scale * 128) == OutcomeFrom(buf, i, acc, scale)
  {
    hide Groups, OutcomeOf;
    var k, len, rest := Leading(buf[1..]), |buf|, buf[1..];
    if k < len - 1 {
      FirstGroup(buf, k + 1);
      var g := Groups(rest[..k + 1]);
      Distribute(buf[0] - 128, g, scale);
      SameOutcome(k, false, buf[k + 1], i, acc + (buf[0] - 128 + 128 * g) * scale);
    } else {
      SameOutcome(k, true, 0, i, 0);
    }
  }

  lemma {:induction false} SameOutcome(k: nat, ends: bool, b: byte, i: nat, value: nat)
    ensures OutcomeOf(k, ends, b, i + 1, value) == OutcomeOf(k + 1, ends, b, i, value)
  {
  }

  lemma {:induction false} UvarintFromIs(buf: bytes, i: nat, acc: nat, scale: nat)
    requires i <= 10
    ensures UvarintFrom(buf, i, acc, scale) == OutcomeFrom(buf, i, acc, scale)
    decreases |buf|
  {
    hide Groups;
    if |buf| > 0 && buf[0] < 128 {
      OnlyGroup(buf);
    } else if |buf| > 0 && i < 10 {
      hide OutcomeFrom;
      UvarintFromIs(buf[1..], i + 1, acc + (buf[0] - 128) * scale, scale * 128);
      OutcomeMoves(buf, i, acc, scale);
    }
  }

  lemma {:induction false} UvarintIsOutcome(buf: bytes)
    ensures Uvarint(buf) == UvarintOutcome(buf)
  {
    UvarintFromIs(buf, 0, 0, 1);
  }

  /** The zigzag form is the word shifted up by one place, and complemented for negative numbers. */
  lemma {:induction false} ZigzagIsShifted(x: int)
    requires -TWO_63 <= x < TWO_63
    ensures
      var shifted := (2 * x) % TWO_64;
      Zigzag(x) == if x < 0 then TWO_64 - 1 - shifted else shifted
    ensures Unzigzag(Zigzag(x)) == x
  {
  }

  function Pow128(n: nat): nat {
    if n == 0 then 1 else 128 * Pow128(n - 1)
  }

  lemma {:induction false} UvarintLength(x: nat, n: nat)
    requires n >= 1 && x < Pow128(n)
    ensures |UvarintBytes(x)| <= n
  {
    if x >= 128 {
      assert n >= 2 by {
        assert Pow128(1) == 128;
      }
      UvarintLength(x / 128, n - 1);
    }
  }

  lemma {:induction false} UvarintFits64(x: nat)
    requires x < TWO_64
    ensures |UvarintBytes(x)| <= MAX_VARINT_LEN_64
  {
    assert Pow128(10) == 128 * 128 * 128 * Pow128(7);
    assert Pow128(7) == 128 * 128 * 128 * Pow128(4);
    assert Pow128(4) == 128 * 128 * 128 * 128;
    UvarintLength(x, 10);
  }

  lemma {:induction false} VarintFits64(x: int)
    requires -TWO_63 <= x < TWO_63
    ensures |VarintBytes(x)| <= MAX_VARINT_LEN_64
  {
    UvarintFits64(Zigzag(x));
  }

  /** Lengths and file ids below 2^32 take at most five bytes even after zigzag. */
  lemma {:induction false} VarintFits32(x: nat)
    requires x < TWO_32
    ensures |VarintBytes(x)| <= MAX_VARINT_LEN_32
  {
    assert Pow128(5) == 128 * 128 * 128 * Pow128(2);
    assert Pow128(2) == 128 * 128;
    UvarintLength(Zigzag(x), 5);
  }

  lemma {:induction false} UvarintLengthMonotone(x: nat, y: nat)
    requires x <= y
    ensures |UvarintBytes(x)| <= |UvarintBytes(y)|
    decreases x
  {
    if x >= 128 {
      UvarintLengthMonotone(x / 128, y / 128);
    }
  }

  lemma {:induction false} NextGroup(written: bytes, v: nat)
    requires v >= 128
    ensures written + UvarintBytes(v) == written + [v % 128 + 128] + UvarintBytes(v / 128)
  {
    assert UvarintBytes(v) == [v % 128 + 128] + UvarintBytes(v / 128);
  }

  lemma {:induction false} LastGroup(v: nat)
    requires v < 128
    ensures UvarintBytes(v) == [v]
  {
  }

  /** `binary.PutUvarint`: writes x at index `at` of the buffer and touches nothing else. */
  method PutUvarint(buf: array<byte>, at: nat, x: nat) returns (n: nat)
    requires at + |UvarintBytes(x)| <= buf.Length
    modifies buf
    ensures n == |UvarintBytes(x)|
    ensures buf[at..at + n] == UvarintBytes(x)
    ensures buf[..at] == old(buf[..at]) && buf[at + n..] == old(buf[at + n..])
  {
    hide UvarintBytes;
    var i, v := at, x;
    while v >= 128
      invariant at <= i && i + |UvarintBytes(v)| <= buf.Length
      invariant buf[at..i] + UvarintBytes(v) == UvarintBytes(x)
      invariant forall j :: 0 <= j < at || i <= j < buf.Length ==> buf[j] == old(buf[j])
      decreases v
    {
      NextGroup(buf[at..i], v);
      ghost var written := buf[at..i];
      buf[i] := v % 128 + 128;
      assert buf[at..i + 1] == written + [v % 128 + 128];
      i, v := i + 1, v / 128;
    }
    LastGroup(v);
    ghost var written := buf[at..i];
    buf[i] := v;
    n := i + 1 - at;
    assert buf[at..at + n] == written + [v];
  }

  /** `binary.PutVarint`. */
  method PutVarint(buf: array<byte>, at: nat, x: int) returns (n: nat)
    requires at + |VarintBytes(x)| <= buf.Length
    modifies buf
    ensures n == |VarintBytes(x)|
    ensures buf[at..at + n] == VarintBytes(x)
    ensures buf[..at] == old(buf[..at]) && buf[at + n..] == old(buf[at + n..])
  {
    n := PutUvarint(buf, at, Zigzag(x));
  }
}
