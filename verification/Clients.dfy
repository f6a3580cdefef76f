/** A database as its clients see it: the map contract on objects, key listings, and iterators over a snapshot. */
module Clients {
  import opened Bytes
  import opened Wrappers
  import opened LogRecords
  import opened Storage
  import opened Log
  import opened Engine
  import opened Invariant
  import opened Preservation
  import opened Staging
  import opened Iterators
  import opened Database
  import opened Batches
  import Runs
  import History
  import KeyValue

  /** A database in a state that some run reaches. */
  ghost predicate Sane(db: DB)
    reads db, db.activeFile, db.olderFiles.Values
  {
    db.Valid() && Inv(db.cfg, db.Core())
  }

  /** The client's map. */
  ghost function Map(db: DB): map<Key, Value>
    reads db, db.activeFile
  {
    View(db.Core().index)
  }

  method Put(db: DB, key: Key, value: Value) returns (r: Outcome)
    requires Sane(db) && (key != [] ==> Storable(Record(0, key, value, Normal)))
    modifies db, db.activeFile
    ensures Sane(db)
    ensures if key == [] then r == Failed(KeyIsEmpty) && Map(db) == old(Map(db))
      else r == Done && Map(db) == old(Map(db))[key := value]
  {
    hide Inv, PutStep, View, Storable;
    hide DB.Valid, DB.Core;
    if |key| > 0 {
      PutKeepsInv(db.cfg, db.Core(), key, value);
    }
    r := db.Put(key, value);
  }

  method Delete(db: DB, key: Key) returns (r: Outcome)
    requires Sane(db) && (key != [] ==> Storable(Record(0, key, [], Deleted)))
    modifies db, db.activeFile
    ensures Sane(db)
    ensures if key == [] then r == Failed(KeyIsEmpty) && Map(db) == old(Map(db))
      else r == Done && Map(db) == old(Map(db)) - {key}
  {
    hide Inv, DeleteStep, View, Storable;
    hide DB.Valid, DB.Core;
    if |key| > 0 {
      DeleteKeepsInv(db.cfg, db.Core(), key);
    }
    r := db.Delete(key);
  }

  /** A commit applies all staged writes or, when an append fails, none. */
  method Commit(wb: WriteBatch, fault: Option<nat>) returns (r: Outcome)
    requires Sane(wb.db) && wb.Ready(wb.db.seqNo + 1)
    modifies wb`pendingWrites, wb.db, wb.db.activeFile
    ensures Sane(wb.db) && (r == Done || r == Failed(WriteFailed) || r == Failed(ExceedMaxBatchNum))
    ensures r == Failed(ExceedMaxBatchNum) <==>
      old(wb.pendingWrites) != map[] && |old(wb.pendingWrites)| > wb.maxBatchNum
    ensures r == Failed(WriteFailed) ==> fault.Some?
    ensures wb.pendingWrites == if r == Done then map[] else old(wb.pendingWrites)
    ensures Map(wb.db) == if r == Done then KeyValue.Applied(old(Map(wb.db)), old(wb.pendingWrites))
      else old(Map(wb.db))
  {
    hide Inv, CommitStep, AbortStep, View, Permutation, Enumerates, KeyValue.Applied, BatchView;
    hide DB.Valid, DB.Core, WriteBatch.Ready;
    ghost var s, pending, cfg := wb.db.Core(), wb.pendingWrites, wb.db.cfg;
    NoEmptyKeys(wb);
    ghost var batch, order;
    r, batch, order := wb.Commit(fault);
    if pending == map[] {
      NothingStaged(View(s.index));
    } else if |pending| <= wb.maxBatchNum {
      EnumeratesIsValid(batch, pending);
      if r == Done {
        CommitKeepsInv(cfg, s, batch, order, wb.syncWrites);
        KeyValue.AppliedIsCommit(View(s.index), pending, batch);
      } else if r == Failed(WriteFailed) {
        AbortKeepsInv(cfg, s, batch, fault.value);
      }
    }
  }

  lemma {:induction false} NoEmptyKeys(wb: WriteBatch)
    requires wb.Ready(wb.db.seqNo + 1)
    ensures [] !in wb.pendingWrites && WellStaged(wb.pendingWrites)
  {
  }

  lemma {:induction false} NothingStaged(m: map<Key, Value>)
    ensures KeyValue.Applied(m, map[]) == m
  {
  }

  lemma {:induction false} EnumeratesIsValid(batch: seq<Staged>, pending: Pending)
    requires Enumerates(batch, pending) && WellStaged(pending) && [] !in pending && pending != map[]
    ensures ValidBatch(batch)
  {
    var k :| k in pending;
    assert pending[k] in batch;
  }

  // ---------------------------------------------------------------- iterators

  /** `Iterator` of a database: a cursor over a snapshot of the index, and the database to read values from. */
  class DBIterator {
    const db: DB
    const it: Iterator
    /** The index in ascending order and what it pointed at when the snapshot was taken. */
    ghost const tree: seq<Item>
    ghost const snapshot: map<Key, Entry>

    ghost predicate Valid()
      reads this, it, it.indexIter, it.indexIter.values
    {
      && it.indexIter.values[..] == (if it.indexIter.reverse then Reversed(tree) else tree)
      && KeyValue.Lists(tree, Positions(snapshot))
      && forall k :: k in snapshot ==> snapshot[k].rec.kind == Normal && snapshot[k].rec.key == k
    }

    /** `NewIterator`. */
    constructor (db: DB, prefix: bytes, reverse: bool)
      requires db.Valid()
      ensures this.db == db && fresh(it) && fresh(it.indexIter) && fresh(it.indexIter.values)
      ensures it.prefix == prefix && it.indexIter.reverse == reverse && it.indexIter.Valid()
      ensures Valid() && snapshot == db.live && forall k :: k in snapshot ==> snapshot[k] in db.Entries()
    {
      hide KeyValue.Lists, Flatten, Positions;
      hide DB.Entries;
      db.SameKeys();
      IndexIsPositions(db);
      var items := KeyValue.Listing(db.index);
      ListingSorted(items, db.index);
      var indexIter := new BTreeIterator(items, reverse);
      this.db := db;
      this.it := new Iterator(indexIter, prefix);
      this.tree := items;
      this.snapshot := db.live;
    }

    /**
     * `Value`: the value the key had when the snapshot was taken, whatever has been written since,
     * as long as the log still holds what it held then.
     */
    method Value() returns (r: Result<Value, Error>)
      requires Valid() && it.Valid() && |it.Rest()| > 0
      requires db.Valid() && forall k :: k in snapshot ==> snapshot[k] in db.Entries()
      ensures it.Rest()[0].key in snapshot && r == Ok(snapshot[it.Rest()[0].key].rec.value)
    {
      hide Flatten, Select, Sorted;
      hide DB.Entries, DB.Valid, Iterator.Valid;
      ghost var item := RestIsListed(it);
      ListedItem(tree, it.indexIter.reverse, it.indexIter.values[..], snapshot, item);
      var current := it.Current();
      ghost var e := snapshot[current.key];
      HasFile(db, e);
      r := db.GetValueByPosition(current.pos, e);
    }
  }

  lemma {:induction false} IndexIsPositions(db: DB)
    requires db.Valid()
    ensures db.index == Positions(db.live)
  {
  }

  lemma {:induction false} ListingSorted(items: seq<Item>, index: map<Key, Pos>)
    requires KeyValue.Lists(items, index)
    ensures Sorted(items, false)
  {
  }

  lemma {:induction false} HasFile(db: DB, e: Entry)
    requires db.Valid() && e in db.Entries()
    ensures db.FilesValid() && db.activeFile != null && e.pos.fid in db.ids
  {
    hide Flatten, Holds, HoldAll;
    var j := FindEntry(db.ids, db.recs, e);
  }

  /** The current item comes from the snapshot. */
  lemma {:induction false} RestIsListed(it: Iterator) returns (item: Item)
    requires it.Valid() && |it.Rest()| > 0
    ensures item == it.Rest()[0] && item in it.indexIter.values[..]
  {
    SelectFrom(it.indexIter.values[..], it.indexIter.currIndex, it.prefix);
    assert it.indexIter.values[..][it.indexIter.currIndex..] == it.indexIter.values[it.indexIter.currIndex..];
    item := it.Rest()[0];
  }

  lemma {:induction false} ListedItem(tree: seq<Item>, reverse: bool, values: seq<Item>, snapshot: map<Key, Entry>,
    item: Item)
    requires KeyValue.Lists(tree, Positions(snapshot)) && values == (if reverse then Reversed(tree) else tree)
      && item in values
    ensures item.key in snapshot && snapshot[item.key].pos == item.pos
  {
    var i :| 0 <= i < |values| && values[i] == item;
    assert item in tree by {
      if reverse {
        assert tree[|tree| - 1 - i] == item;
      }
    }
  }

  // ---------------------------------------------------------------- whole databases

  function KeysOf(items: seq<Item>): (keys: seq<Key>)
    ensures |keys| == |items|
  {
    seq(|items|, i requires 0 <= i < |items| => items[i].key)
  }

  lemma {:induction false} ListedKeys(items: seq<Item>, index: map<Key, Pos>)
    requires KeyValue.Lists(items, index)
    ensures Ascending(KeysOf(items)) && forall k :: k in KeysOf(items) <==> k in index
  {
    hide Compare;
    var keys := KeysOf(items);
    forall i, j | 0 <= i < j < |keys| ensures Compare(keys[i], keys[j]) < 0 {
      assert Precedes(items[i].key, items[j].key, false);
    }
    forall k | k in keys ensures k in index {
      var i :| 0 <= i < |keys| && keys[i] == k;
      assert items[i] in items;
    }
    forall k | k in index ensures k in keys {
      var i :| 0 <= i < |items| && items[i] == Item(k, index[k]);
      assert keys[i] == k;
    }
  }

  /** `ListKeys`: every key of the map once, in ascending order. */
  method ListKeys(db: DB) returns (keys: seq<Key>)
    requires db.Valid()
    ensures Ascending(keys) && InByteOrder(keys) && forall k :: k in keys <==> k in Map(db)
  {
    hide KeyValue.Lists, Positions;
    hide DB.Valid, DB.Entries;
    var items := KeyValue.Listing(db.index);
    ListingSorted(items, db.index);
    ListedKeys(items, db.index);
    db.SameKeys();
    var indexIter := new BTreeIterator(items, false);
    keys := [];
    indexIter.Rewind();
    while indexIter.HasCurrent()
      invariant indexIter.values[..] == items && indexIter.currIndex <= |items|
      invariant keys == KeysOf(items)[..indexIter.currIndex]
      decreases |items| - indexIter.currIndex
    {
      keys := keys + [indexIter.Current().key];
      indexIter.Next();
    }
    indexIter.Close();
    AscendingIsByteOrder(keys);
  }

  /**
   * `Fold`: calls `fn` on every key with its value, in ascending order, until it returns false.
   * `visited` are the calls made.
   */
  method Fold(db: DB, fn: (Key, Value) -> bool) returns (r: Outcome, visited: seq<(Key, Value)>, ghost keys: seq<Key>)
    requires db.Valid()
    ensures r == Done && Ascending(keys) && InByteOrder(keys) && forall k :: k in keys <==> k in Map(db)
    ensures |visited| <= |keys|
    ensures forall i :: 0 <= i < |visited| ==> keys[i] in Map(db) && visited[i] == (keys[i], Map(db)[keys[i]])
    ensures forall i :: 0 <= i < |visited| - 1 ==> fn(visited[i].0, visited[i].1)
    ensures |visited| < |keys| ==> |visited| > 0 && !fn(visited[|visited| - 1].0, visited[|visited| - 1].1)
  {
    hide KeyValue.Lists, Ascending, KeysOf, Map;
    hide DB.Valid;
    var items := KeyValue.Listing(db.index);
    ListingSorted(items, db.index);
    ListedKeys(items, db.index);
    KeysOfMap(db);
    var indexIter := new BTreeIterator(items, false);
    keys := KeysOf(items);
    indexIter.Rewind();
    visited := FoldItems(db, indexIter, items, fn);
    indexIter.Close();
    AscendingIsByteOrder(keys);
    r := Done;
  }

  /** The loop of `Fold`. */
  method FoldItems(db: DB, indexIter: BTreeIterator, ghost items: seq<Item>, fn: (Key, Value) -> bool)
    returns (visited: seq<(Key, Value)>)
    requires db.Valid() && KeyValue.Lists(items, db.index) && indexIter.values[..] == items && indexIter.currIndex == 0
    modifies indexIter`currIndex
    ensures |visited| <= |items|
    ensures forall i :: 0 <= i < |visited| ==>
      KeysOf(items)[i] in Map(db) && visited[i] == (KeysOf(items)[i], Map(db)[KeysOf(items)[i]])
    ensures forall i :: 0 <= i < |visited| - 1 ==> fn(visited[i].0, visited[i].1)
    ensures |visited| < |items| ==> |visited| > 0 && !fn(visited[|visited| - 1].0, visited[|visited| - 1].1)
  {
    hide KeyValue.Lists, KeysOf, Map;
    hide DB.Valid;
    visited := [];
    ghost var keys, m := KeysOf(items), Map(db);
    while indexIter.HasCurrent()
      invariant indexIter.values[..] == items && indexIter.currIndex == |visited| <= |items| && Map(db) == m
      invariant forall i :: 0 <= i < |visited| ==> keys[i] in m && visited[i] == (keys[i], m[keys[i]])
      invariant forall i :: 0 <= i < |visited| ==> fn(visited[i].0, visited[i].1)
      decreases |items| - |visited|
    {
      ItemAt(items, db.index, |visited|);
      var item := indexIter.Current();
      var value := ValueOfItem(db, item);
      visited := visited + [(item.key, value)];
      if !fn(item.key, value) {
        break;
      }
      indexIter.Next();
    }
  }

  /** The value of a key of the index; reading it cannot fail. */
  method ValueOfItem(db: DB, item: Item) returns (value: Value)
    requires db.Valid() && item.key in db.index && db.index[item.key] == item.pos
    ensures item.key in Map(db) && value == Map(db)[item.key]
  {
    hide DB.Valid, DB.Entries;
    db.SameKeys();
    HasFile(db, db.live[item.key]);
    var read := db.GetValueByPosition(item.pos, db.live[item.key]);
    value := read.value;
  }

  lemma {:induction false} KeysOfMap(db: DB)
    requires db.Valid()
    ensures forall k :: k in Map(db) <==> k in db.index
  {
    hide DB.Valid, DB.Entries;
    db.SameKeys();
  }

  lemma {:induction false} ItemAt(items: seq<Item>, index: map<Key, Pos>, i: nat)
    requires KeyValue.Lists(items, index) && i < |items|
    ensures KeysOf(items)[i] == items[i].key && items[i].key in index && index[items[i].key] == items[i].pos
  {
    assert items[i] in items;
  }

  // ---------------------------------------------------------------- snapshots through runs

  /** The store after some steps from any store. */
  function From(cfg: Config, s: Store, ls: seq<Label>): Option<Store> {
    if |ls| == 0 then Some(s)
    else
      var before := From(cfg, s, ls[..|ls| - 1]);
      if before.Some? && Enabled(before.value, ls[|ls| - 1]) then Some(Step(cfg, before.value, ls[|ls| - 1])) else None
  }

  /**
   * Until the directory is opened again, every entry the log ever held stays where it is, through rotation and
   * merge.
   */
  lemma {:induction false} LogOnlyGrows(cfg: Config, s: Store, ls: seq<Label>)
    requires Inv(cfg, s) && From(cfg, s, ls).Some? && forall i :: 0 <= i < |ls| ==> !ls[i].Restart? && !ls[i].Crash?
    ensures Inv(cfg, From(cfg, s, ls).value)
    ensures |s.log| <= |From(cfg, s, ls).value.log| && From(cfg, s, ls).value.log[..|s.log|] == s.log
  {
    hide Inv, Step, Enabled;
    if |ls| > 0 {
      var front, l := ls[..|ls| - 1], ls[|ls| - 1];
      LogOnlyGrows(cfg, s, front);
      var mid := From(cfg, s, front).value;
      Runs.StepKeepsInv(cfg, mid, l);
      History.StepAppends(cfg, mid, l);
      var after := Step(cfg, mid, l);
      assert after.log[..|s.log|] == after.log[..|mid.log|][..|s.log|];
    }
  }

  /** A position read from the index denotes the same record after any such run: what an open iterator relies on. */
  lemma {:induction false} SnapshotSurvives(cfg: Config, s: Store, ls: seq<Label>, k: Key)
    requires Inv(cfg, s) && From(cfg, s, ls).Some? && forall i :: 0 <= i < |ls| ==> !ls[i].Restart? && !ls[i].Crash?
    requires k in s.index
    ensures s.index[k] in From(cfg, s, ls).value.log && s.index[k].rec.kind == Normal
      && s.index[k].rec.value == View(s.index)[k]
    ensures forall e :: e in From(cfg, s, ls).value.log && e.pos == s.index[k].pos ==> e == s.index[k]
  {
    hide FilesOk, IndexOk, HintOk, JobOk, DirOk;
    LogOnlyGrows(cfg, s, ls);
    var t := From(cfg, s, ls).value;
    IndexEntries(cfg, s);
    var i :| 0 <= i < |s.log| && s.log[i] == s.index[k];
    assert t.log[i] == t.log[..|s.log|][i];
    PositionsDistinct(cfg, t, i);
  }

  lemma {:induction false} IndexEntries(cfg: Config, s: Store)
    requires Inv(cfg, s)
    ensures IndexSound(s.index, s.log)
  {
    hide HintOk, JobOk, DirOk, Replay;
    ReplaySound(s.log);
  }

  lemma {:induction false} PositionsDistinct(cfg: Config, t: Store, i: nat)
    requires Inv(cfg, t) && i < |t.log|
    ensures forall e :: e in t.log && e.pos == t.log[i].pos ==> e == t.log[i]
  {
    hide HintOk, JobOk, DirOk, IndexOk, WfEntry;
    forall e | e in t.log && e.pos == t.log[i].pos ensures e == t.log[i] {
      var j :| 0 <= j < |t.log| && t.log[j] == e;
      assert i < j ==> Before(t.log[i].pos, t.log[j].pos);
      assert j < i ==> Before(t.log[j].pos, t.log[i].pos);
    }
  }
}
