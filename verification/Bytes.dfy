/** Byte strings and their lexicographic order, as Go's `bytes` package compares them. */
module Bytes {

  type byte = x: int | 0 <= x < 256

  type bytes = seq<byte>

  /** `bytes.Compare`: -1, 0 or 1. */
  function Compare(a: bytes, b: bytes): (c: int)
    ensures -1 <= c <= 1
    ensures c == 0 <==> a == b
  {
    if |a| == 0 then (if |b| == 0 then 0 else -1)
    else if |b| == 0 then 1
    else if a[0] < b[0] then -1
    else if a[0] > b[0] then 1
    else
      var c := Compare(a[1..], b[1..]);
      assert a == [a[0]] + a[1..] && b == [b[0]] + b[1..];
      c
  }

  /** Each string once and in ascending order. */
  predicate Ascending(list: seq<bytes>) {
    forall i, j :: 0 <= i < j < |list| ==> Compare(list[i], list[j]) < 0
  }

  predicate HasPrefix(s: bytes, prefix: bytes) {
    |prefix| <= |s| && s[..|prefix|] == prefix
  }

  /** a comes before b: they agree up to some place, and there a ends or has the smaller byte. */
  predicate Smaller(a: bytes, b: bytes) {
    exists n: nat :: n <= |a| && n <= |b| && a[..n] == b[..n] && FirstDifference(a, b, n)
  }

  predicate FirstDifference(a: bytes, b: bytes, n: nat) {
    (n == |a| && n < |b|) || (n < |a| && n < |b| && a[n] < b[n])
  }

  /** The strings of a list, each before all that follow it. */
  predicate InByteOrder(list: seq<bytes>) {
    forall i, j :: 0 <= i < j < |list| ==> Smaller(list[i], list[j])
  }

  /** The comparison is the lexicographic order of unsigned bytes. */
  lemma {:induction false} CompareIsSmaller(a: bytes, b: bytes)
    ensures Compare(a, b) < 0 <==> Smaller(a, b)
  {
    if |a| > 0 && |b| > 0 && a[0] == b[0] {
      CompareIsSmaller(a[1..], b[1..]);
      if Smaller(a[1..], b[1..]) {
        var c, d := a[1..], b[1..];
        var n: nat :| n <= |c| && n <= |d| && c[..n] == d[..n] && FirstDifference(c, d, n);
        assert a[..n + 1] == [a[0]] + c[..n] && b[..n + 1] == [b[0]] + d[..n];
        assert FirstDifference(a, b, n + 1);
      }
      if Smaller(a, b) {
        var n: nat :| n <= |a| && n <= |b| && a[..n] == b[..n] && FirstDifference(a, b, n);
        assert a[1..][..n - 1] == a[..n][1..] && b[1..][..n - 1] == b[..n][1..];
        assert FirstDifference(a[1..], b[1..], n - 1);
      }
    } else {
      FirstByte(a, b);
    }
  }

  /** Strings that do not begin with the same byte. */
  lemma {:induction false} FirstByte(a: bytes, b: bytes)
    requires |a| == 0 || |b| == 0 || a[0] != b[0]
    ensures Smaller(a, b) <==> FirstDifference(a, b, 0)
  {
    if FirstDifference(a, b, 0) {
      assert a[..0] == b[..0];
    }
    if Smaller(a, b) {
      var n: nat :| n <= |a| && n <= |b| && a[..n] == b[..n] && FirstDifference(a, b, n);
      assert n > 0 ==> a[..n][0] == b[..n][0];
    }
  }

  /** Ascending lists are those in byte order. */
  lemma {:induction false} AscendingIsByteOrder(list: seq<bytes>)
    ensures Ascending(list) <==> InByteOrder(list)
  {
    hide Compare, Smaller;
    forall i, j | 0 <= i < j < |list| ensures Compare(list[i], list[j]) < 0 <==> Smaller(list[i], list[j]) {
      CompareIsSmaller(list[i], list[j]);
    }
  }

  lemma {:induction false} CompareFlips(a: bytes, b: bytes)
    ensures Compare(b, a) == -Compare(a, b)
  {
    if |a| == 0 || |b| == 0 {
    } else {
      CompareFlips(a[1..], b[1..]);
    }
  }

  lemma {:induction false} CompareTransitive(a: bytes, b: bytes, c: bytes)
    requires Compare(a, b) <= 0 && Compare(b, c) <= 0
    ensures Compare(a, c) <= 0
    ensures Compare(a, b) < 0 || Compare(b, c) < 0 ==> Compare(a, c) < 0
  {
    if |a| == 0 || |b| == 0 || |c| == 0 {
    } else if a[0] == b[0] == c[0] {
      CompareTransitive(a[1..], b[1..], c[1..]);
    }
  }

  /** A prefix sorts at or before everything it begins. */
  lemma {:induction false} PrefixSortsFirst(p: bytes, s: bytes)
    requires HasPrefix(s, p)
    ensures Compare(p, s) <= 0
  {
    if |p| == 0 {
    } else {
      assert s[1..][..|p| - 1] == p[1..];
      PrefixSortsFirst(p[1..], s[1..]);
    }
  }

  /**
   * The strings that begin with p form an interval of the order: nothing without the prefix sorts between two of
   * them.
   */
  lemma {:induction false} PrefixIsConvex(p: bytes, s: bytes, m: bytes)
    requires HasPrefix(s, p)
    requires Compare(p, m) <= 0 && Compare(m, s) <= 0
    ensures HasPrefix(m, p)
  {
    if |p| == 0 {
    } else {
      assert s[1..][..|p| - 1] == p[1..];
      assert |m| > 0 && m[0] == p[0];
      PrefixIsConvex(p[1..], s[1..], m[1..]);
      assert m[..|p|] == [m[0]] + m[1..][..|p| - 1];
    }
  }
}
