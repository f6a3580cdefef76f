/** Ordered iteration over an index snapshot: index/btree.go and the prefix filter of iterator.go. */
module Iterators {
  import opened Bytes
  import opened LogRecords
  import opened Wrappers

  datatype Item = Item(key: bytes, pos: Pos)

  /** a comes before b in the direction of travel. */
  predicate Precedes(a: bytes, b: bytes, reverse: bool) {
    if reverse then Compare(a, b) > 0 else Compare(a, b) < 0
  }

  /** Strictly sorted in the direction of travel: no key twice. */
  predicate Sorted(items: seq<Item>, reverse: bool) {
    forall i, j :: 0 <= i < j < |items| ==> Precedes(items[i].key, items[j].key, reverse)
  }

  /** The key lies at or beyond the seek key. */
  predicate AtOrBeyond(key: bytes, from: bytes, reverse: bool) {
    if reverse then Compare(key, from) <= 0 else Compare(key, from) >= 0
  }

  predicate Wanted(item: Item, prefix: bytes, from: Option<bytes>, reverse: bool) {
    HasPrefix(item.key, prefix) && (from.Some? ==> AtOrBeyond(item.key, from.value, reverse))
  }

  /** The items a traversal has to visit, in order. */
  function Select(items: seq<Item>, prefix: bytes, from: Option<bytes>, reverse: bool): seq<Item> {
    if |items| == 0 then []
    else
      var rest := Select(items[1..], prefix, from, reverse);
      if Wanted(items[0], prefix, from, reverse) then [items[0]] + rest else rest
  }

  /** A selection has exactly the wanted items, in the order of travel and each once. */
  lemma {:induction false} SelectIsExact(items: seq<Item>, prefix: bytes, from: Option<bytes>, reverse: bool)
    requires Sorted(items, reverse)
    ensures Sorted(Select(items, prefix, from, reverse), reverse)
    ensures forall x :: x in Select(items, prefix, from, reverse) <==> x in items && Wanted(x, prefix, from, reverse)
  {
    if |items| > 0 {
      var rest := items[1..];
      forall i, j | 0 <= i < j < |rest| ensures Precedes(rest[i].key, rest[j].key, reverse) {
        assert Precedes(items[i + 1].key, items[j + 1].key, reverse);
      }
      SelectIsExact(rest, prefix, from, reverse);
      var chosen := Select(rest, prefix, from, reverse);
      forall i | 0 <= i < |chosen| ensures Precedes(items[0].key, chosen[i].key, reverse) {
        assert chosen[i] in rest;
        var j :| 0 <= j < |rest| && rest[j] == chosen[i];
        assert Precedes(items[0].key, items[j + 1].key, reverse);
      }
      assert items == [items[0]] + rest;
    }
  }

  /** The key is not on the far side of the seek key: at or above it on the way up, at or below it on the way down. */
  lemma {:induction false} SeekIsExact(items: seq<Item>, prefix: bytes, from: bytes, reverse: bool)
    requires Sorted(items, reverse)
    ensures forall x :: x in Select(items, prefix, Some(from), reverse) <==>
      && x in items && HasPrefix(x.key, prefix)
      && (if reverse then Compare(x.key, from) <= 0 else Compare(x.key, from) >= 0)
  {
    hide Select, Sorted;
    SelectIsExact(items, prefix, Some(from), reverse);
  }

  /**
   * A seek without prefix begins at the item with the key sought, if there is one, and otherwise at its nearest
   * neighbour in the direction of travel; it finds nothing if and only if all items lie behind.
   */
  lemma {:induction false} SeekBeginsNearest(items: seq<Item>, from: bytes, reverse: bool)
    requires Sorted(items, reverse)
    ensures
      var found := Select(items, [], Some(from), reverse);
      && (found == [] <==> forall x :: x in items ==> Precedes(x.key, from, reverse))
      && (found != [] ==>
            && found[0] in items && !Precedes(found[0].key, from, reverse)
            && forall x :: x in items && x != found[0] ==>
              Precedes(x.key, from, reverse) || Precedes(found[0].key, x.key, reverse))
    ensures forall x :: x in items && x.key == from ==>
      |Select(items, [], Some(from), reverse)| > 0 && Select(items, [], Some(from), reverse)[0].key == from
  {
    hide Select, Compare;
    var found := Select(items, [], Some(from), reverse);
    SelectIsExact(items, [], Some(from), reverse);
    forall x | x in items ensures x in found <==> !Precedes(x.key, from, reverse) {
      CompareFlips(x.key, from);
    }
    forall x | x in items && x in found && x != found[0] ensures Precedes(found[0].key, x.key, reverse) {
      var i :| 0 <= i < |found| && found[i] == x;
    }
    forall x | x in items && x.key == from ensures |found| > 0 && found[0].key == from {
      assert x in found;
    }
  }

  /** The two directions from one key meet in that key alone and leave nothing out. */
  lemma {:induction false} SeekBothWays(items: seq<Item>, prefix: bytes, from: bytes, x: Item)
    requires Sorted(items, false)
    ensures
      var up, down := Select(items, prefix, Some(from), false), Select(Reversed(items), prefix, Some(from), true);
      && (x in up || x in down <==> x in items && HasPrefix(x.key, prefix))
      && (x in up && x in down <==> x in items && HasPrefix(x.key, prefix) && x.key == from)
  {
    hide Select, Compare;
    ReversedIsSorted(items);
    SeekIsExact(items, prefix, from, false);
    SeekIsExact(Reversed(items), prefix, from, true);
    ReversedHasSame(items, x);
  }

  lemma {:induction false} ReversedHasSame(items: seq<Item>, x: Item)
    ensures x in Reversed(items) <==> x in items
  {
    var r, n := Reversed(items), |items|;
    if x in items {
      var i :| 0 <= i < n && items[i] == x;
      assert r[n - 1 - i] == x;
    }
  }

  /** Skipping an unwanted item skips nothing of the selection. */
  lemma {:induction false} SelectFrom(items: seq<Item>, i: nat, prefix: bytes)
    requires i < |items|
    ensures Select(items[i..], prefix, None, false) ==
      if HasPrefix(items[i].key, prefix) then [items[i]] + Select(items[i + 1..], prefix, None, false)
      else Select(items[i + 1..], prefix, None, false)
  {
    assert items[i..][1..] == items[i + 1..];
  }

  /** Without a seek key the direction does not matter. */
  lemma {:induction false} SelectAnyDirection(items: seq<Item>, prefix: bytes, reverse: bool)
    ensures Select(items, prefix, None, reverse) == Select(items, prefix, None, false)
  {
    if |items| > 0 {
      SelectAnyDirection(items[1..], prefix, reverse);
    }
  }

  /** What lies from a split point on is what lies at or beyond the seek key. */
  lemma {:induction false} SelectAfterSplit(items: seq<Item>, i: nat, prefix: bytes, from: bytes, reverse: bool)
    requires i <= |items|
    requires forall x :: 0 <= x < i ==> !AtOrBeyond(items[x].key, from, reverse)
    requires forall x :: i <= x < |items| ==> AtOrBeyond(items[x].key, from, reverse)
    ensures Select(items[i..], prefix, None, false) == Select(items, prefix, Some(from), reverse)
    decreases |items|
  {
    if |items| == 0 {
    } else if i > 0 {
      assert items[1..][i - 1..] == items[i..];
      SelectAfterSplit(items[1..], i - 1, prefix, from, reverse);
    } else {
      assert items[0..] == items;
      assert items[1..][0..] == items[1..];
      SelectAfterSplit(items[1..], 0, prefix, from, reverse);
    }
  }

  function Reversed(items: seq<Item>): (r: seq<Item>)
    ensures |r| == |items|
    ensures forall i :: 0 <= i < |items| ==> r[i] == items[|items| - 1 - i]
  {
    if |items| == 0 then [] else [items[|items| - 1]] + Reversed(items[..|items| - 1])
  }

  lemma {:induction false} ReversedIsSorted(items: seq<Item>)
    requires Sorted(items, false)
    ensures Sorted(Reversed(items), true)
  {
    var r, n := Reversed(items), |items|;
    forall i, j | 0 <= i < j < n ensures Precedes(r[i].key, r[j].key, true) {
      assert Precedes(items[n - 1 - j].key, items[n - 1 - i].key, false);
      CompareFlips(items[n - 1 - j].key, items[n - 1 - i].key);
    }
  }

  /** In a sorted snapshot the keys at or beyond a seek key form a tail. */
  lemma {:induction false} TailIsBeyond(items: seq<Item>, reverse: bool, x: nat, y: nat, from: bytes)
    requires Sorted(items, reverse) && x <= y < |items|
    requires AtOrBeyond(items[x].key, from, reverse)
    ensures AtOrBeyond(items[y].key, from, reverse)
  {
    if x < y {
      var a, b := items[x].key, items[y].key;
      assert Precedes(a, b, reverse);
      CompareFlips(a, b);
      CompareFlips(a, from);
      CompareFlips(b, from);
      if reverse {
        CompareTransitive(b, a, from);
      } else {
        CompareTransitive(from, a, b);
      }
    }
  }

  /** The snapshot is filled item by item while the tree is walked up or down. */
  method SaveValues(tree: seq<Item>, reverse: bool) returns (values: array<Item>)
    ensures fresh(values)
    ensures values[..] == if reverse then Reversed(tree) else tree
  {
    var walk := if reverse then Reversed(tree) else tree;
    values := new Item[|tree|](_ => Item([], Pos(0, 0, 0)));
    for idx := 0 to |tree|
      invariant values[..idx] == walk[..idx]
    {
      values[idx] := walk[idx];
    }
    assert walk[..|tree|] == walk;
  }

  /** `btreeIterator`: a snapshot of the tree as an array, and a cursor. */
  class BTreeIterator {
    var currIndex: nat
    const reverse: bool
    var values: array<Item>

    ghost predicate Valid()
      reads this, values
    {
      Sorted(values[..], reverse)
    }

    /** `newBtreeIterator` over a tree whose items in ascending order are `tree`. */
    constructor (tree: seq<Item>, reverse: bool)
      requires Sorted(tree, false)
      ensures Valid() && fresh(values)
      ensures this.reverse == reverse && currIndex == 0
      ensures values[..] == if reverse then Reversed(tree) else tree
    {
      this.reverse := reverse;
      this.currIndex := 0;
      var filled := SaveValues(tree, reverse);
      this.values := filled;
      ReversedIsSorted(tree);
    }

    method Rewind()
      modifies this`currIndex
      ensures currIndex == 0
    {
      currIndex := 0;
    }

    /** `Seek`: the binary search of `sort.Search` for the first key at or beyond the given one. */
    method Seek(key: bytes)
      requires Valid()
      modifies this`currIndex
      ensures currIndex <= values.Length
      ensures forall x :: 0 <= x < currIndex ==> !AtOrBeyond(values[x].key, key, reverse)
      ensures forall x :: currIndex <= x < values.Length ==> AtOrBeyond(values[x].key, key, reverse)
      ensures forall x :: 0 <= x < values.Length ==>
        (x < currIndex <==> if reverse then Compare(values[x].key, key) > 0 else Compare(values[x].key, key) < 0)
    {
      var i, j := 0, values.Length;
      while i < j
        invariant 0 <= i <= j <= values.Length
        invariant forall x :: 0 <= x < i ==> !AtOrBeyond(values[x].key, key, reverse)
        invariant forall x :: j <= x < values.Length ==> AtOrBeyond(values[x].key, key, reverse)
      {
        var h := (i + j) / 2;
        if !AtOrBeyond(values[h].key, key, reverse) {
          forall x | 0 <= x <= h ensures !AtOrBeyond(values[x].key, key, reverse) {
            if AtOrBeyond(values[x].key, key, reverse) {
              TailIsBeyond(values[..], reverse, x, h, key);
            }
          }
          i := h + 1;
        } else {
          forall x | h <= x < values.Length ensures AtOrBeyond(values[x].key, key, reverse) {
            TailIsBeyond(values[..], reverse, h, x, key);
          }
          j := h;
        }
      }
      currIndex := i;
    }

    method Next()
      modifies this`currIndex
      ensures currIndex == old(currIndex) + 1
    {
      currIndex := currIndex + 1;
    }

    predicate HasCurrent()
      reads this
    {
      currIndex < values.Length
    }

    function Current(): Item
      requires HasCurrent()
      reads this, values
    {
      values[currIndex]
    }

    /** `Close` drops the snapshot. */
    method Close()
      modifies this`values
      ensures Valid() && !HasCurrent()
    {
      values := new Item[0];
    }
  }

  /** `Iterator` of iterator.go: visits only the keys with the given prefix. */
  class Iterator {
    const indexIter: BTreeIterator
    const prefix: bytes

    ghost predicate Valid()
      reads this, indexIter, indexIter.values
    {
      indexIter.Valid() &&
      (indexIter.HasCurrent() ==> HasPrefix(indexIter.Current().key, prefix))
    }

    /** What is still to be visited, the current item included. */
    ghost function Rest(): seq<Item>
      reads this, indexIter, indexIter.values
    {
      if indexIter.HasCurrent() then Select(indexIter.values[indexIter.currIndex..], prefix, None, false) else []
    }

    constructor (indexIter: BTreeIterator, prefix: bytes)
      requires indexIter.Valid()
      ensures this.indexIter == indexIter && this.prefix == prefix
    {
      this.indexIter := indexIter;
      this.prefix := prefix;
    }

    /** `skipToNext`: moves on to the next key with the prefix, if any. */
    method SkipToNext()
      requires indexIter.Valid()
      modifies indexIter`currIndex
      ensures Valid() && Rest() == old(Rest())
    {
      if |prefix| == 0 {
        return;
      }
      while indexIter.HasCurrent()
        invariant indexIter.Valid() && Rest() == old(Rest())
        decreases indexIter.values.Length - indexIter.currIndex
      {
        var key := indexIter.Current().key;
        SelectFrom(indexIter.values[..], indexIter.currIndex, prefix);
        assert indexIter.values[..][indexIter.currIndex..] == indexIter.values[indexIter.currIndex..];
        assert indexIter.values[..][indexIter.currIndex + 1..] == indexIter.values[indexIter.currIndex + 1..];
        if |prefix| <= |key| && prefix == key[..|prefix|] {
          break;
        }
        indexIter.Next();
      }
    }

    method Rewind()
      requires indexIter.Valid()
      modifies indexIter`currIndex
      ensures Valid()
      ensures Rest() == Select(indexIter.values[..], prefix, None, indexIter.reverse)
    {
      indexIter.Rewind();
      assert indexIter.values[0..] == indexIter.values[..];
      SelectAnyDirection(indexIter.values[..], prefix, indexIter.reverse);
      SkipToNext();
    }

    /** After `Seek`, what is to be visited is every key with the prefix on the right side of the seek key. */
    method Seek(key: bytes)
      requires indexIter.Valid()
      modifies indexIter`currIndex
      ensures Valid()
      ensures Rest() == Select(indexIter.values[..], prefix, Some(key), indexIter.reverse)
      ensures forall x :: x in Rest() <==>
        && x in indexIter.values[..] && HasPrefix(x.key, prefix)
        && (if indexIter.reverse then Compare(x.key, key) <= 0 else Compare(x.key, key) >= 0)
    {
      SeekIsExact(indexIter.values[..], prefix, key, indexIter.reverse);
      indexIter.Seek(key);
      assert indexIter.values[..][indexIter.currIndex..] == indexIter.values[indexIter.currIndex..];
      SelectAfterSplit(indexIter.values[..], indexIter.currIndex, prefix, key, indexIter.reverse);
      SkipToNext();
    }

    /** `Next` leaves exactly what came after the current item. */
    method Next()
      requires Valid()
      modifies indexIter`currIndex
      ensures Valid()
      ensures Rest() == if |old(Rest())| == 0 then [] else old(Rest())[1..]
    {
      if indexIter.HasCurrent() {
        SelectFrom(indexIter.values[..], indexIter.currIndex, prefix);
        assert indexIter.values[..][indexIter.currIndex..] == indexIter.values[indexIter.currIndex..];
        assert indexIter.values[..][indexIter.currIndex + 1..] == indexIter.values[indexIter.currIndex + 1..];
      }
      indexIter.Next();
      SkipToNext();
    }

    /** The iterator is valid exactly while something is left to visit. */
    method HasCurrent() returns (b: bool)
      requires Valid()
      ensures b <==> |Rest()| > 0
    {
      b := indexIter.HasCurrent();
      if b {
        SelectFrom(indexIter.values[..], indexIter.currIndex, prefix);
        assert indexIter.values[..][indexIter.currIndex..] == indexIter.values[indexIter.currIndex..];
      }
    }

    method Current() returns (item: Item)
      requires Valid() && |Rest()| > 0
      ensures item == Rest()[0]
    {
      SelectFrom(indexIter.values[..], indexIter.currIndex, prefix);
      assert indexIter.values[..][indexIter.currIndex..] == indexIter.values[indexIter.currIndex..];
      item := indexIter.Current();
    }

    /** After `Close` nothing is left to visit. */
    method Close()
      modifies indexIter`values
      ensures Valid() && Rest() == []
    {
      indexIter.Close();
    }
  }

  lemma {:induction false} HeadAndTail(items: seq<Item>, rest: seq<Item>)
    requires |rest| > 0
    ensures items + [rest[0]] + rest[1..] == items + rest
  {
  }

  /** The loop every caller writes: from the current item on, `Next` until the iterator is no longer valid. */
  method Collect(it: Iterator) returns (items: seq<Item>)
    requires it.Valid()
    modifies it.indexIter`currIndex
    ensures items == old(it.Rest()) && it.Rest() == []
  {
    hide Select, Sorted, HasPrefix;
    hide it.Valid, it.Rest;
    items := [];
    ghost var all := it.Rest();
    var more := it.HasCurrent();
    while more
      invariant it.Valid() && (more <==> |it.Rest()| > 0)
      invariant items + it.Rest() == all
      decreases |it.Rest()|
    {
      ghost var rest := it.Rest();
      var item := it.Current();
      HeadAndTail(items, rest);
      items := items + [item];
      it.Next();
      more := it.HasCurrent();
    }
  }
}
