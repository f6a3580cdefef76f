/** Sets of byte strings listed in ascending order. */
module Listings {
  import opened Bytes

  predicate IsLeast(s: set<bytes>, least: bytes) {
    least in s && forall x :: x in s && x != least ==> Compare(least, x) < 0
  }

  lemma {:induction false} LeastExists(s: set<bytes>)
    requires s != {}
    ensures exists least :: IsLeast(s, least)
  {
    hide Compare;
    var y :| y in s;
    var rest := s - {y};
    assert s == rest + {y};
    if rest == {} {
      assert IsLeast(s, y);
    } else {
      LeastExists(rest);
      var z :| IsLeast(rest, z);
      CompareFlips(y, z);
      if Compare(y, z) < 0 {
        forall x | x in s && x != y ensures Compare(y, x) < 0 {
          if x != z {
            CompareTransitive(y, z, x);
          }
        }
        assert IsLeast(s, y);
      } else {
        assert IsLeast(s, z);
      }
    }
  }

  ghost function Least(s: set<bytes>): (least: bytes)
    requires s != {}
    ensures IsLeast(s, least)
  {
    LeastExists(s);
    var least :| IsLeast(s, least);
    least
  }

  /** The members of a set, each once and in ascending order. */
  ghost function Listed(s: set<bytes>): (list: seq<bytes>)
    ensures |list| == |s|
  {
    if s == {} then []
    else
      var least := Least(s);
      assert |s - {least}| == |s| - 1;
      [least] + Listed(s - {least})
  }

  /** There is one such list. */
  lemma {:induction false} ListedIs(s: set<bytes>, list: seq<bytes>)
    requires Ascending(list) && forall x :: x in list <==> x in s
    ensures list == Listed(s)
  {
    hide Compare;
    assert |list| > 0 ==> list[0] in list;
    if s != {} {
      var least := Least(s);
      LeastIsFirst(s, list, least);
      var rest := list[1..];
      forall x ensures x in rest <==> x in s - {least} {
        LaterIsOther(list, x);
      }
      forall i, j | 0 <= i < j < |rest| ensures Compare(rest[i], rest[j]) < 0 {
        assert Compare(list[i + 1], list[j + 1]) < 0;
      }
      ListedIs(s - {least}, rest);
    }
  }

  lemma {:induction false} LeastIsFirst(s: set<bytes>, list: seq<bytes>, least: bytes)
    requires Ascending(list) && (forall x :: x in list <==> x in s) && IsLeast(s, least)
    ensures |list| > 0 && list[0] == least
  {
    hide Compare;
    assert list[0] in list;
    var i :| 0 <= i < |list| && list[i] == least;
    if i > 0 {
      assert Compare(list[0], list[i]) < 0;
      CompareFlips(list[0], least);
    }
  }

  lemma {:induction false} LaterIsOther(list: seq<bytes>, x: bytes)
    requires Ascending(list) && |list| > 0
    ensures x in list[1..] <==> x in list && x != list[0]
  {
    if x in list[1..] {
      var i :| 0 <= i < |list| - 1 && list[1..][i] == x;
      assert Compare(list[0], list[i + 1]) < 0;
    }
    assert list == [list[0]] + list[1..];
  }
}
