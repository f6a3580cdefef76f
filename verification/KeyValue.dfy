/**
 * The engine as its clients see it, by the contract proved for it: a map whose values are read at positions
 * of an append-only log, batches applied at once, and sorted snapshots of the index.
 */
module KeyValue {
  import opened Bytes
  import opened Wrappers
  import opened LogRecords
  import opened Log
  import opened Engine
  import opened Staging
  import opened Iterators
  import Preservation

  datatype KeyError = KeyIsEmpty | KeyNotFound

  /** A sorted listing of an index: each key once, with its position. */
  predicate Lists(tree: seq<Item>, index: map<Key, Pos>) {
    && Sorted(tree, false)
    && (forall item :: item in tree ==> item.key in index && index[item.key] == item.pos)
    && (forall k :: k in index ==> Item(k, index[k]) in tree)
  }

  /** The listing with one more key. */
  function Insert(tree: seq<Item>, item: Item): seq<Item> {
    if |tree| == 0 then [item]
    else if Compare(item.key, tree[0].key) < 0 then [item] + tree
    else [tree[0]] + Insert(tree[1..], item)
  }

  lemma {:induction false} InsertIsSorted(tree: seq<Item>, item: Item)
    requires Sorted(tree, false) && forall x :: x in tree ==> x.key != item.key
    ensures Sorted(Insert(tree, item), false)
    ensures forall x :: x in Insert(tree, item) <==> x in tree || x == item
  {
    hide Compare;
    if |tree| > 0 {
      var first, rest := tree[0], tree[1..];
      assert tree == [first] + rest;
      assert first in tree;
      if Compare(item.key, first.key) < 0 {
        forall j | 0 <= j < |tree| ensures Precedes(item.key, tree[j].key, false) {
          if j > 0 {
            assert Precedes(first.key, tree[j].key, false);
            CompareTransitive(item.key, first.key, tree[j].key);
          }
        }
      } else {
        forall i, j | 0 <= i < j < |rest| ensures Precedes(rest[i].key, rest[j].key, false) {
          assert Precedes(tree[i + 1].key, tree[j + 1].key, false);
        }
        forall x | x in rest ensures x in tree && Precedes(first.key, x.key, false) {
          var j :| 0 <= j < |rest| && rest[j] == x;
          assert Precedes(first.key, tree[j + 1].key, false);
        }
        InsertIsSorted(rest, item);
        CompareFlips(item.key, first.key);
        var r := Insert(rest, item);
        forall j | 0 <= j < |r| ensures Precedes(first.key, r[j].key, false) {
          assert r[j] in r;
        }
      }
    }
  }

  function Except<V>(m: map<Key, V>, rest: set<Key>): map<Key, V> {
    map k | k in m && k !in rest :: m[k]
  }

  lemma {:induction false} ListsMore(tree: seq<Item>, index: map<Key, Pos>, rest: set<Key>, key: Key)
    requires Lists(tree, Except(index, rest)) && key in rest && key in index
    ensures Lists(Insert(tree, Item(key, index[key])), Except(index, rest - {key}))
  {
    var item, before, after := Item(key, index[key]), Except(index, rest), Except(index, rest - {key});
    forall x | x in tree ensures x.key != key {
      assert x.key in before;
    }
    InsertIsSorted(tree, item);
    forall k | k in after ensures Item(k, after[k]) in Insert(tree, item) {
      assert k == key || Item(k, before[k]) in tree;
    }
    forall x | x in Insert(tree, item) ensures x.key in after && after[x.key] == x.pos {
      assert x == item || x in tree;
    }
  }

  /** The tree's walk in ascending order. */
  method Listing(index: map<Key, Pos>) returns (tree: seq<Item>)
    ensures Lists(tree, index)
  {
    hide Lists;
    tree := [];
    var rest := index.Keys;
    NothingListed(index);
    while rest != {}
      invariant rest <= index.Keys && Lists(tree, Except(index, rest))
    {
      var key :| key in rest;
      ListsMore(tree, index, rest, key);
      tree := Insert(tree, Item(key, index[key]));
      rest := rest - {key};
    }
    assert Except(index, {}) == index;
  }

  lemma {:induction false} NothingListed(index: map<Key, Pos>)
    ensures Lists([], Except(index, index.Keys))
  {
  }

  // ---------------------------------------------------------------- batches

  /** A map after the staged writes of a batch, all at once. */
  function Applied(m: map<Key, Value>, pending: Pending): map<Key, Value> {
    map k | k in m.Keys + pending.Keys && (k in pending ==> pending[k].kind != Deleted) ::
      if k in pending then pending[k].value else m[k]
  }

  /** It is the engine's commit of those writes, in whatever order they are listed. */
  lemma {:induction false} AppliedIsCommit(m: map<Key, Value>, pending: Pending, batch: seq<Staged>)
    requires WellStaged(pending) && Enumerates(batch, pending)
    ensures Preservation.BatchView(m, batch) == Applied(m, pending)
  {
    hide Preservation.BatchView;
    var committed, applied := Preservation.BatchView(m, batch), Applied(m, pending);
    forall k ensures (k in committed <==> k in applied)
      && (k in committed && k in applied ==> committed[k] == applied[k]) {
      BatchViewAt(m, batch, k);
      if k in pending {
        var i :| 0 <= i < |batch| && batch[i] == pending[k];
        assert batch[i].key == k;
      } else {
        assert forall i :: 0 <= i < |batch| ==> batch[i].key != k;
      }
    }
  }

  lemma {:induction false} NothingApplied(m: map<Key, Value>, pending: Pending)
    ensures Applied(m, Except(pending, pending.Keys)) == m
  {
  }

  lemma {:induction false} AppliedMore(m: map<Key, Value>, pending: Pending, rest: set<Key>, key: Key)
    requires key in rest && key in pending
    ensures Applied(Applied(m, Except(pending, rest)), map[key := pending[key]])
         == Applied(m, Except(pending, rest - {key}))
  {
    var done, more := Except(pending, rest), Except(pending, rest - {key});
    assert more == done[key := pending[key]];
    forall k ensures k in Applied(Applied(m, done), map[key := pending[key]]) <==> k in Applied(m, more) {
    }
  }

  // ---------------------------------------------------------------- runs of keys with a prefix

  /** The leading items that have the prefix: what a loop that stops at the first other key visits. */
  function PrefixRun(items: seq<Item>, prefix: bytes): seq<Item> {
    if |items| == 0 || !HasPrefix(items[0].key, prefix) then [] else [items[0]] + PrefixRun(items[1..], prefix)
  }

  /** Keys with a common prefix form one contiguous run from the first key at or above the prefix. */
  lemma {:induction false} RunIsContiguous(items: seq<Item>, prefix: bytes)
    requires Sorted(items, false) && forall i :: 0 <= i < |items| ==> Compare(items[i].key, prefix) >= 0
    ensures forall x :: x in PrefixRun(items, prefix) <==> x in items && HasPrefix(x.key, prefix)
    ensures Sorted(PrefixRun(items, prefix), false)
  {
    hide Compare;
    if |items| > 0 {
      var first, rest := items[0], items[1..];
      assert items == [first] + rest;
      forall i, j | 0 <= i < j < |rest| ensures Precedes(rest[i].key, rest[j].key, false) {
        assert Precedes(items[i + 1].key, items[j + 1].key, false);
      }
      forall x | x in rest ensures Compare(first.key, x.key) < 0 && Compare(x.key, prefix) >= 0 {
        var j :| 0 <= j < |rest| && rest[j] == x;
        assert Precedes(items[0].key, items[j + 1].key, false);
        assert rest[j] == items[j + 1];
      }
      RunIsContiguous(rest, prefix);
      if HasPrefix(first.key, prefix) {
        var run := PrefixRun(rest, prefix);
        forall j | 0 <= j < |run| ensures Precedes(first.key, run[j].key, false) {
          assert run[j] in run;
        }
      } else {
        CompareFlips(first.key, prefix);
        forall x | x in items ensures !HasPrefix(x.key, prefix) {
          if HasPrefix(x.key, prefix) {
            assert x in rest;
            PrefixIsConvex(prefix, x.key, first.key);
          }
        }
      }
    }
  }

  /** After `Seek(prefix)` the run at the front holds every key with the prefix, in order. */
  lemma {:induction false} SeekFindsRun(tree: seq<Item>, prefix: bytes)
    requires Sorted(tree, false)
    ensures
      var run := PrefixRun(Select(tree, [], Some(prefix), false), prefix);
      Sorted(run, false) && forall x :: x in run <==> x in tree && HasPrefix(x.key, prefix)
  {
    SelectIsExact(tree, [], Some(prefix), false);
    var chosen := Select(tree, [], Some(prefix), false);
    forall i | 0 <= i < |chosen| ensures Compare(chosen[i].key, prefix) >= 0 {
      assert chosen[i] in chosen;
    }
    RunIsContiguous(chosen, prefix);
    forall x | x in tree && HasPrefix(x.key, prefix) ensures x in chosen {
      PrefixSortsFirst(prefix, x.key);
      CompareFlips(prefix, x.key);
    }
  }

  class Store {
    var index: map<Key, Pos>
    /** Every value ever written, in order. */
    var written: seq<Value>

    ghost predicate Valid()
      reads this
    {
      forall k :: k in index ==> k != [] && index[k].offset < |written|
    }

    /** The client's map. */
    ghost function Map(): map<Key, Value>
      reads this
      requires Valid()
    {
      map k | k in index :: written[index[k].offset]
    }

    constructor ()
      ensures Valid() && Map() == map[]
    {
      index := map[];
      written := [];
    }

    method Get(key: Key) returns (r: Result<Value, KeyError>)
      requires Valid()
      ensures r == if key == [] then Err(KeyIsEmpty) else if key in Map() then Ok(Map()[key]) else Err(KeyNotFound)
    {
      if |key| == 0 {
        return Err(KeyIsEmpty);
      }
      if key !in index {
        return Err(KeyNotFound);
      }
      return Ok(written[index[key].offset]);
    }

    method Put(key: Key, value: Value) returns (r: Option<KeyError>)
      requires Valid()
      modifies this
      ensures Valid()
      ensures if key == [] then r == Some(KeyIsEmpty) && Map() == old(Map())
        else r == None && Map() == old(Map())[key := value]
    {
      if |key| == 0 {
        return Some(KeyIsEmpty);
      }
      index := index[key := Pos(0, |written|, 1)];
      written := written + [value];
      return None;
    }

    method Delete(key: Key) returns (r: Option<KeyError>)
      requires Valid()
      modifies this
      ensures Valid()
      ensures if key == [] then r == Some(KeyIsEmpty) && Map() == old(Map())
        else r == None && Map() == old(Map()) - {key}
    {
      if |key| == 0 {
        return Some(KeyIsEmpty);
      }
      index := index - {key};
      return None;
    }

    /** One staged write: a put sets the key, a deletion removes it. */
    method Write(key: Key, w: Staged)
      requires Valid() && key != []
      modifies this
      ensures Valid() && Map() == Applied(old(Map()), map[key := w])
    {
      if w.kind == Deleted {
        index := index - {key};
      } else {
        index := index[key := Pos(0, |written|, 1)];
        written := written + [w.value];
      }
    }

    /** `Commit` of a batch of staged writes. */
    method Commit(pending: Pending)
      requires Valid() && [] !in pending
      modifies this
      ensures Valid() && Map() == Applied(old(Map()), pending)
    {
      hide Valid, Applied;
      var rest := pending.Keys;
      NothingApplied(Map(), pending);
      while rest != {}
        invariant Valid() && rest <= pending.Keys && Map() == Applied(old(Map()), Except(pending, rest))
      {
        var key :| key in rest;
        AppliedMore(old(Map()), pending, rest, key);
        Write(key, pending[key]);
        rest := rest - {key};
      }
      assert Except(pending, {}) == pending;
    }

    /** A sorted snapshot of the index with a cursor, as the tree's iterator takes it. */
    method NewIterator() returns (it: Iterator)
      requires Valid()
      ensures fresh(it) && fresh(it.indexIter) && fresh(it.indexIter.values) && it.indexIter.Valid() && it.prefix == []
      ensures !it.indexIter.reverse && Lists(it.indexIter.values[..], index)
    {
      var tree := Listing(index);
      var indexIter := new BTreeIterator(tree, false);
      it := new Iterator(indexIter, []);
    }

    /** `Iterator.Value`: what lies at a position of the snapshot. */
    method ValueAt(pos: Pos) returns (value: Value)
      requires pos.offset < |written|
      ensures value == written[pos.offset]
    {
      value := written[pos.offset];
    }
  }

  /** Staging writes on a store: `NewWriteBatch`, `Put`, `Delete`. */
  class Batch {
    const db: Store
    var pending: Pending

    constructor (db: Store)
      ensures this.db == db && pending == map[]
    {
      this.db := db;
      this.pending := map[];
    }

    method Put(key: Key, value: Value) returns (r: Option<KeyError>)
      modifies this
      ensures if key == [] then r == Some(KeyIsEmpty) && pending == old(pending)
        else r == None && pending == StagePut(old(pending), key, value)
    {
      if |key| == 0 {
        return Some(KeyIsEmpty);
      }
      pending := pending[key := Staged(key, value, Normal)];
      return None;
    }

    method Delete(key: Key) returns (r: Option<KeyError>)
      modifies this
      ensures if key == [] then r == Some(KeyIsEmpty) && pending == old(pending)
              else r == None && pending == StageDelete(old(pending), key, key in db.index)
    {
      if |key| == 0 {
        return Some(KeyIsEmpty);
      }
      if key in db.index {
        pending := pending[key := Staged(key, [], Deleted)];
      } else {
        pending := pending - {key};
      }
      return None;
    }

    /** `Commit`: the staged writes take effect together. */
    method Commit()
      requires db.Valid() && [] !in pending
      modifies this, db
      ensures db.Valid() && db.Map() == Applied(old(db.Map()), old(pending)) && pending == map[]
    {
      db.Commit(pending);
      pending := map[];
    }
  }
}
