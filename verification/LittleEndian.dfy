/** Fixed-width little-endian integers, as `binary.LittleEndian` lays them out. */
module LittleEndian {
  import opened Bytes

  /** The low n bytes of x, least significant first. */
  function ToBytes(x: nat, n: nat): (s: bytes)
    ensures |s| == n
  {
    if n == 0 then [] else [x % 256] + ToBytes(x / 256, n - 1)
  }

  function FromBytes(s: bytes): nat {
    if |s| == 0 then 0 else s[0] + 256 * FromBytes(s[1..])
  }

  function Pow256(n: nat): nat {
    if n == 0 then 1 else 256 * Pow256(n - 1)
  }

  lemma {:induction false} RoundTrip(x: nat, n: nat)
    requires x < Pow256(n)
    ensures FromBytes(ToBytes(x, n)) == x
  {
    if n > 0 {
      assert ToBytes(x, n)[1..] == ToBytes(x / 256, n - 1);
      RoundTrip(x / 256, n - 1);
    }
  }

  lemma {:induction false} Widths()
    ensures Pow256(4) == 0x1_0000_0000
    ensures Pow256(8) == 0x1_0000_0000_0000_0000
  {
    assert Pow256(2) == 256 * 256;
    assert Pow256(4) == 256 * 256 * Pow256(2);
    assert Pow256(6) == 256 * 256 * Pow256(4);
    assert Pow256(8) == 256 * 256 * Pow256(6);
  }

  lemma {:induction false} FromBytesBound(s: bytes)
    ensures FromBytes(s) < Pow256(|s|)
  {
    if |s| > 0 {
      FromBytesBound(s[1..]);
    }
  }

  /** What the bytes from an index on stand for, each by its place. */
  function Weighted(s: bytes, i: nat): nat
    requires i <= |s|
    decreases |s| - i
  {
    if i == |s| then 0 else s[i] * Pow256(i) + Weighted(s, i + 1)
  }

  lemma {:induction false} WeightedTail(s: bytes, i: nat)
    requires i <= |s|
    ensures Weighted(s, i) == Pow256(i) * FromBytes(s[i..])
    decreases |s| - i
  {
    if i < |s| {
      WeightedTail(s, i + 1);
      var rest := FromBytes(s[i + 1..]);
      assert s[i..][1..] == s[i + 1..];
      Distribute(Pow256(i), s[i], rest);
    }
  }

  lemma {:induction false} Distribute(p: nat, b: nat, rest: nat)
    ensures p * (b + 256 * rest) == b * p + (256 * p) * rest
  {
  }

  /** The first byte counts once, the next ones 256 times as much each. */
  lemma {:induction false} FromBytesIsWeighted(s: bytes)
    ensures FromBytes(s) == Weighted(s, 0)
  {
    WeightedTail(s, 0);
    assert s[0..] == s;
  }

  /** The bytes written for a number have that number as their weighted sum. */
  lemma {:induction false} ToBytesIsWeighted(x: nat, n: nat)
    requires x < Pow256(n)
    ensures Weighted(ToBytes(x, n), 0) == x
  {
    RoundTrip(x, n);
    FromBytesIsWeighted(ToBytes(x, n));
  }

  /** `PutUint32` and `PutUint64`: fills n bytes at index `at` and touches nothing else. */
  method PutUint(buf: array<byte>, at: nat, x: nat, n: nat)
    requires at + n <= buf.Length
    modifies buf
    ensures buf[at..at + n] == ToBytes(x, n)
    ensures buf[..at] == old(buf[..at]) && buf[at + n..] == old(buf[at + n..])
  {
    var v := x;
    for i := 0 to n
      invariant buf[at..at + i] + ToBytes(v, n - i) == ToBytes(x, n)
      invariant buf[..at] == old(buf[..at]) && buf[at + n..] == old(buf[at + n..])
    {
      ghost var written, tail := buf[at..at + i], buf[at + i + 1..];
      assert buf[at + n..] == tail[n - i - 1..];
      buf[at + i] := v % 256;
      assert buf[at..at + i + 1] == written + [v % 256];
      assert buf[at + i + 1..] == tail;
      assert buf[at + n..] == tail[n - i - 1..];
      v := v / 256;
    }
  }
}
