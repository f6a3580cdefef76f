/** The plain key-value store beside the engine: the same calls give the same answers and the same map. */
module Refinement {
  import opened Bytes
  import opened Wrappers
  import opened Storage
  import opened Log
  import opened Iterators
  import opened Database
  import opened Batches
  import opened Listings
  import Clients
  import KeyValue

  /** Engine and plain store hold the same map. */
  ghost predicate Agree(db: DB, kv: KeyValue.Store)
    reads db, db.activeFile, db.olderFiles.Values, kv
  {
    Clients.Sane(db) && kv.Valid() && Clients.Map(db) == kv.Map()
  }

  function ErrorOf(e: KeyValue.KeyError): Error {
    match e
    case KeyIsEmpty => KeyIsEmpty
    case KeyNotFound => KeyNotFound
  }

  function OutcomeOf(r: Option<KeyValue.KeyError>): Outcome {
    match r
    case None => Done
    case Some(e) => Failed(ErrorOf(e))
  }

  method Get(db: DB, kv: KeyValue.Store, key: Key)
    returns (r: Result<Value, Error>, q: Result<Value, KeyValue.KeyError>)
    requires Agree(db, kv)
    ensures r == match q case Ok(value) => Ok(value) case Err(e) => Err(ErrorOf(e))
  {
    hide DB.Valid, DB.Core, View;
    r := db.Get(key);
    q := kv.Get(key);
  }

  method Put(db: DB, kv: KeyValue.Store, key: Key, value: Value) returns (r: Outcome, q: Option<KeyValue.KeyError>)
    requires Agree(db, kv) && (key != [] ==> Storable(Record(0, key, value, Normal)))
    modifies db, db.activeFile, kv
    ensures Agree(db, kv) && r == OutcomeOf(q)
  {
    hide Clients.Sane, Clients.Map, KeyValue.Store.Valid, KeyValue.Store.Map, Storable;
    r := Clients.Put(db, key, value);
    q := kv.Put(key, value);
  }

  method Delete(db: DB, kv: KeyValue.Store, key: Key) returns (r: Outcome, q: Option<KeyValue.KeyError>)
    requires Agree(db, kv) && (key != [] ==> Storable(Record(0, key, [], Deleted)))
    modifies db, db.activeFile, kv
    ensures Agree(db, kv) && r == OutcomeOf(q)
  {
    hide Clients.Sane, Clients.Map, KeyValue.Store.Valid, KeyValue.Store.Map, Storable;
    r := Clients.Delete(db, key);
    q := kv.Delete(key);
  }

  /** Batches that have staged the same writes on stores that agree. */
  ghost predicate AgreeStaged(wb: WriteBatch, b: KeyValue.Batch)
    reads wb, b, wb.db, wb.db.activeFile, wb.db.olderFiles.Values, b.db
  {
    Agree(wb.db, b.db) && wb.pendingWrites == b.pending
  }

  method StagePut(wb: WriteBatch, b: KeyValue.Batch, key: Key, value: Value)
    returns (r: Outcome, q: Option<KeyValue.KeyError>)
    requires AgreeStaged(wb, b)
    modifies wb`pendingWrites, b
    ensures AgreeStaged(wb, b) && r == OutcomeOf(q)
  {
    hide Agree;
    r := wb.Put(key, value);
    q := b.Put(key, value);
  }

  /** Deletions stage alike because the two indexes hold the same keys. */
  method StageDelete(wb: WriteBatch, b: KeyValue.Batch, key: Key) returns (r: Outcome, q: Option<KeyValue.KeyError>)
    requires AgreeStaged(wb, b)
    modifies wb`pendingWrites, b
    ensures AgreeStaged(wb, b) && r == OutcomeOf(q)
  {
    hide Agree;
    SaneIsValid(wb.db, b.db);
    r := wb.Delete(key);
    q := b.Delete(key);
  }

  lemma {:induction false} SaneIsValid(db: DB, kv: KeyValue.Store)
    requires Agree(db, kv)
    ensures db.Valid() && forall k :: k in db.Core().index <==> k in kv.index
  {
    hide DB.Valid, DB.Core;
    forall k ensures k in db.Core().index <==> k in kv.index {
      assert k in Clients.Map(db) <==> k in kv.Map();
    }
  }

  /**
   * A commit that succeeds does the same to both; one that fails leaves the engine's map, and the plain store with
   * it.
   */
  method Commit(wb: WriteBatch, b: KeyValue.Batch, fault: Option<nat>) returns (r: Outcome)
    requires AgreeStaged(wb, b) && wb.Ready(wb.db.seqNo + 1)
    modifies wb`pendingWrites, wb.db, wb.db.activeFile, b, b.db
    ensures AgreeStaged(wb, b)
    ensures if r == Done then b.pending == map[] else b.pending == old(b.pending) && b.db.Map() == old(b.db.Map())
  {
    hide Clients.Sane, Clients.Map, KeyValue.Store.Valid, KeyValue.Store.Map, WriteBatch.Ready, KeyValue.Applied;
    Clients.NoEmptyKeys(wb);
    r := Clients.Commit(wb, fault);
    if r == Done {
      b.Commit();
    }
  }

  /** Both list the same keys in the same order. */
  method List(db: DB, kv: KeyValue.Store) returns (keys: seq<Key>, it: Iterator)
    requires Agree(db, kv)
    ensures fresh(it) && keys == Clients.KeysOf(it.indexIter.values[..])
  {
    hide DB.Valid, DB.Core, Clients.KeysOf, KeyValue.Lists, Ascending, View;
    keys := Clients.ListKeys(db);
    it := kv.NewIterator();
    ghost var items := it.indexIter.values[..];
    Clients.ListedKeys(items, kv.index);
    SameKeysListed(keys, Clients.KeysOf(items), kv.Map().Keys);
  }

  lemma {:induction false} SameKeysListed(keys: seq<Key>, others: seq<Key>, s: set<Key>)
    requires Ascending(keys) && Ascending(others)
    requires (forall k :: k in keys <==> k in s) && forall k :: k in others <==> k in s
    ensures keys == others
  {
    hide Ascending;
    ListedIs(s, keys);
    ListedIs(s, others);
  }
}
