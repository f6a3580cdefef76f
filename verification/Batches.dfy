/** `WriteBatch` as an object: batch.go, its staged writes and the two walks over them in a commit. */
module Batches {
  import opened Varints
  import opened Wrappers
  import opened LogRecords
  import opened Storage
  import opened Log
  import opened Engine
  import opened Staging
  import opened Database

  lemma {:induction false} AppendAllMore(cfg: Config, s: Store, recs: seq<Record>, r: Record)
    ensures AppendAll(cfg, s, recs + [r]) == Append(cfg, AppendAll(cfg, s, recs), r)
  {
    assert (recs + [r])[..|recs|] == recs;
  }

  lemma {:induction false} RecordsOfMore(batch: seq<Staged>, w: Staged, seqNo: nat)
    ensures RecordsOf(batch + [w], seqNo) == RecordsOf(batch, seqNo) + [BatchRecord(w, seqNo)]
  {
  }

  /** `part` lists some of the staged writes, each once; `rest` are the keys it leaves. */
  predicate PartOf(part: seq<Staged>, pending: Pending, rest: set<Key>) {
    && (forall i :: 0 <= i < |part| ==>
      part[i].key in pending && pending[part[i].key] == part[i] && part[i].key !in rest)
    && (forall i, j :: 0 <= i < j < |part| ==> part[i].key != part[j].key)
    && (forall k :: k in pending ==> k in rest || pending[k] in part)
    && rest <= pending.Keys
  }

  lemma {:induction false} PartGrows(part: seq<Staged>, pending: Pending, rest: set<Key>, k: Key)
    requires PartOf(part, pending, rest) && WellStaged(pending) && k in rest
    ensures PartOf(part + [pending[k]], pending, rest - {k})
  {
  }

  /** Appending one more record of the batch. */
  lemma {:induction false} BatchGrows(cfg: Config, s: Store, part: seq<Staged>, w: Staged, seqNo: nat)
    ensures AppendAll(cfg, s, RecordsOf(part + [w], seqNo))
         == Append(cfg, AppendAll(cfg, s, RecordsOf(part, seqNo)), BatchRecord(w, seqNo))
  {
    RecordsOfMore(part, w, seqNo);
    AppendAllMore(cfg, s, RecordsOf(part, seqNo), BatchRecord(w, seqNo));
  }

  /** The positions that the appended records of a batch got, by key. */
  ghost predicate Placements(positions: map<Key, Pos>, part: seq<Staged>, log: seq<Entry>, from: nat)
    requires from + |part| <= |log|
  {
    forall i :: 0 <= i < |part| ==> part[i].key in positions && positions[part[i].key] == log[from + i].pos
  }

  lemma {:induction false} PlacementsGrow(positions: map<Key, Pos>, part: seq<Staged>, log: seq<Entry>, from: nat,
    w: Staged, longer: seq<Entry>)
    requires from + |part| == |log| && Placements(positions, part, log, from)
    requires |longer| == |log| + 1 && longer[..|log|] == log
    requires forall i :: 0 <= i < |part| ==> part[i].key != w.key
    ensures Placements(positions[w.key := longer[|log|].pos], part + [w], longer, from)
  {
    forall j | 0 <= j < |log| ensures longer[j] == log[j] {
      assert longer[..|log|][j] == longer[j];
    }
  }

  lemma {:induction false} LogKept(cfg: Config, s: Store, recs: seq<Record>)
    ensures |AppendAll(cfg, s, recs).log| == |s.log| + |recs| && AppendAll(cfg, s, recs).log[..|s.log|] == s.log
    ensures forall i :: 0 <= i < |recs| ==> AppendAll(cfg, s, recs).log[|s.log| + i].rec == recs[i]
    ensures AppendAll(cfg, s, recs).index == s.index && AppendAll(cfg, s, recs).reclaim == s.reclaim
  {
    hide Size, Target;
    if |recs| > 0 {
      LogKept(cfg, s, recs[..|recs| - 1]);
    }
  }

  // ---------------------------------------------------------------- the second walk

  /** `order` lists the places in the batch of all keys but those in `rest`. */
  predicate OrderOf(order: seq<nat>, batch: seq<Staged>, rest: set<Key>) {
    && (forall i :: 0 <= i < |order| ==> order[i] < |batch| && batch[order[i]].key !in rest)
    && (forall i, j :: 0 <= i < j < |order| ==> order[i] != order[j])
    && (forall j :: 0 <= j < |batch| ==> batch[j].key in rest || j in order)
    && |order| + |rest| == |batch|
  }

  lemma {:induction false} OrderGrows(order: seq<nat>, batch: seq<Staged>, pending: Pending, rest: set<Key>, j: nat)
    requires OrderOf(order, batch, rest) && j < |batch| && batch[j].key in rest && PartOf(batch, pending, {})
    ensures OrderOf(order + [j], batch, rest - {batch[j].key})
  {
  }

  lemma {:induction false} NothingOrdered(batch: seq<Staged>, pending: Pending)
    requires PartOf(batch, pending, {}) && |batch| == |pending|
    ensures OrderOf([], batch, pending.Keys)
  {
  }

  predicate InBatch(order: seq<nat>, es: seq<Entry>) {
    forall i :: 0 <= i < |order| ==> order[i] < |es|
  }

  /** Where the record of a staged key is in the batch, in the log and among the positions. */
  lemma {:induction false} StagedPlace(batch: seq<Staged>, pending: Pending, es: seq<Entry>, positions: map<Key, Pos>,
    log: seq<Entry>, key: Key)
    returns (j: nat)
    requires PartOf(batch, pending, {}) && WellStaged(pending) && Lies(batch, es, positions, log) && key in pending
    ensures j < |batch| == |es| && batch[j] == pending[key] && batch[j].key == key && key in positions
    ensures es[j] in log && es[j].pos == positions[key] && es[j].rec.key == key
    ensures es[j].rec.kind == pending[key].kind != TxnFinished
  {
    j :| 0 <= j < |batch| && batch[j] == pending[key];
  }

  lemma {:induction false} OrderDone(order: seq<nat>, batch: seq<Staged>)
    requires OrderOf(order, batch, {})
    ensures Permutation(order, |batch|)
  {
  }

  /** The entries of the batch in the order of the second walk so far. */
  function Picked(es: seq<Entry>, order: seq<nat>): (picked: seq<Entry>)
    requires InBatch(order, es)
    ensures |picked| == |order|
  {
    seq(|order|, i requires 0 <= i < |order| => es[order[i]])
  }

  lemma {:induction false} PickedMore(index: map<Key, Entry>, es: seq<Entry>, order: seq<nat>, j: nat)
    requires InBatch(order, es) && j < |es|
    ensures InBatch(order + [j], es)
    ensures
      var now, next := Picked(es, order), Picked(es, order + [j]);
      && ApplyAll(index, next) == ApplyEntry(ApplyAll(index, now), es[j])
      && Freed(index, next) == Freed(index, now) + OldSize(ApplyAll(index, now), es[j].rec.key)
  {
    assert Picked(es, order + [j])[..|order|] == Picked(es, order);
  }

  lemma {:induction false} PickedAll(es: seq<Entry>, order: seq<nat>)
    requires InBatch(order, es) && Permutation(order, |es|)
    ensures Picked(es, order) == Reorder(es, order)
  {
  }

  /** The batch as it lies in the log, and where each key's record went. */
  ghost predicate Lies(batch: seq<Staged>, es: seq<Entry>, positions: map<Key, Pos>, log: seq<Entry>) {
    |es| == |batch| &&
    forall i :: 0 <= i < |batch| ==>
      && es[i] in log && batch[i].key in positions && positions[batch[i].key] == es[i].pos
      && es[i].rec.key == batch[i].key && es[i].rec.kind == batch[i].kind
  }

  class WriteBatch {
    const db: DB
    const maxBatchNum: nat
    const syncWrites: bool
    var pendingWrites: Pending

    /** Every staged write, given this sequence number, is within the bounds of the format. */
    ghost predicate Ready(seqNo: nat)
      reads this`pendingWrites
    {
      && WellStaged(pendingWrites) && seqNo < TWO_64
      && (forall k :: k in pendingWrites ==> Storable(BatchRecord(pendingWrites[k], seqNo)))
    }

    constructor (db: DB, maxBatchNum: nat, syncWrites: bool)
      ensures this.db == db && this.maxBatchNum == maxBatchNum && this.syncWrites == syncWrites
      ensures pendingWrites == map[]
    {
      this.db := db;
      this.maxBatchNum := maxBatchNum;
      this.syncWrites := syncWrites;
      this.pendingWrites := map[];
    }

    /** `WriteBatch.Put`. */
    method Put(key: Key, value: Value) returns (r: Outcome)
      modifies this`pendingWrites
      ensures key == [] ==> r == Failed(KeyIsEmpty) && pendingWrites == old(pendingWrites)
      ensures key != [] ==> r == Done && pendingWrites == StagePut(old(pendingWrites), key, value)
    {
      if |key| == 0 {
        return Failed(KeyIsEmpty);
      }
      pendingWrites := pendingWrites[key := Staged(key, value, Normal)];
      return Done;
    }

    /** `WriteBatch.Delete`: what it stages depends on whether the index holds the key now. */
    method Delete(key: Key) returns (r: Outcome)
      requires db.Valid()
      modifies this`pendingWrites
      ensures key == [] ==> r == Failed(KeyIsEmpty) && pendingWrites == old(pendingWrites)
      ensures key != [] ==> r == Done && pendingWrites == StageDelete(old(pendingWrites), key, key in db.Core().index)
    {
      if |key| == 0 {
        return Failed(KeyIsEmpty);
      }
      db.SameKey(key);
      if key !in db.index {
        if key in pendingWrites {
          pendingWrites := pendingWrites - {key};
        }
        return Done;
      }
      pendingWrites := pendingWrites[key := Staged(key, [], Deleted)];
      return Done;
    }

    /** The records in `part` are appended to the store `s`, those of the keys in `rest` are not. */
    ghost predicate Appending(s: Store, seqNo: nat, positions: map<Key, Pos>, rest: set<Key>, part: seq<Staged>)
      reads this, db, db.activeFile, db.olderFiles.Values
    {
      && db.Valid() && PartOf(part, pendingWrites, rest) && |part| + |rest| == |pendingWrites|
      && db.Core() == AppendAll(db.cfg, s, RecordsOf(part, seqNo)) && |db.Entries()| == |s.log| + |part|
      && Placements(positions, part, db.Entries(), |s.log|)
    }

    /** One turn of the first walk. */
    method AppendNext(seqNo: nat, positions: map<Key, Pos>, key: Key, ghost s: Store, ghost rest: set<Key>,
      ghost part: seq<Staged>)
      returns (next: map<Key, Pos>)
      requires Appending(s, seqNo, positions, rest, part) && key in rest
      requires Ready(seqNo)
      modifies db, db.activeFile
      ensures key in pendingWrites && Appending(s, seqNo, next, rest - {key}, part + [pendingWrites[key]])
      ensures (db.activeFile == old(db.activeFile) || fresh(db.activeFile))
      ensures forall f :: f in db.Files() ==> f in old(db.Files()) || fresh(f)
    {
      hide Append, AppendAll, RecordsOf, PartOf, Placements, Storable, WellStaged;
      hide db.Valid, db.Entries, db.Files;
      PartKeys(part, pendingWrites, rest, key);
      var record := pendingWrites[key];
      ghost var before := db.Core();
      AppendedEntry(db.cfg, before, BatchRecord(record, seqNo));
      BatchGrows(db.cfg, s, part, record, seqNo);
      var pos := db.AppendLogRecord(Record(seqNo, record.key, record.value, record.kind));
      PlacementsGrow(positions, part, before.log, |s.log|, record, db.Entries());
      PartGrows(part, pendingWrites, rest, key);
      next := positions[record.key := pos];
    }

    /** The first walk of `Commit`, in any order; `fault`: the number of appends that succeed before one fails. */
    method AppendPending(seqNo: nat, fault: Option<nat>, ghost s: Store)
      returns (positions: map<Key, Pos>, rest: set<Key>, ghost part: seq<Staged>)
      requires db.Valid() && db.Core() == s
      requires Ready(seqNo)
      modifies db, db.activeFile
      ensures (db.activeFile == old(db.activeFile) || fresh(db.activeFile))
      ensures forall f :: f in db.Files() ==> f in old(db.Files()) || fresh(f)
      ensures Appending(s, seqNo, positions, rest, part)
      ensures if fault.Some? && fault.value <= |pendingWrites| then |part| == fault.value else rest == {}
    {
      hide Append, AppendAll, RecordsOf, PartOf;
      hide db.Valid, db.Entries, Appending, Ready;
      positions := map[];
      rest := pendingWrites.Keys;
      part := [];
      Begin(s, seqNo);
      while rest != {} && (fault.None? || |pendingWrites| - |rest| != fault.value)
        invariant (db.activeFile == old(db.activeFile) || fresh(db.activeFile))
        invariant forall f :: f in db.Files() ==> f in old(db.Files()) || fresh(f)
        invariant Appending(s, seqNo, positions, rest, part)
        invariant |part| + |rest| == |pendingWrites| && (fault.Some? ==> |part| <= fault.value)
        decreases |rest|
      {
        var key :| key in rest;
        positions := AppendNext(seqNo, positions, key, s, rest, part);
        part := part + [pendingWrites[key]];
        rest := rest - {key};
      }
    }

    lemma {:induction false} Begin(s: Store, seqNo: nat)
      requires db.Valid() && db.Core() == s
      ensures Appending(s, seqNo, map[], pendingWrites.Keys, [])
      ensures Ready(seqNo) ==> WellStaged(pendingWrites) && seqNo < TWO_64
    {
      hide db.Valid;
      EmptyPart(pendingWrites);
      NoRecords(db.cfg, s, seqNo);
    }

    /**
     * One turn of the second walk: a put sets the index, a deletion removes from it; the bytes of the old record
     * are freed.
     */
    method IndexNext(record: Staged, pos: Pos, ghost e: Entry)
      requires db.Valid() && e in db.Entries() && e.pos == pos && e.rec.key == record.key && e.rec.kind == record.kind
      requires record.kind != TxnFinished
      modifies db`index, db`live, db`reclaimSize
      ensures db.Valid() && db.live == ApplyEntry(old(db.live), e)
      ensures db.reclaimSize == old(db.reclaimSize) + OldSize(old(db.live), record.key)
    {
      hide db.Valid, db.Entries, db.Files;
      hide OldSize;
      var oldPos: Option<Pos> := None;
      if record.kind == Normal {
        oldPos := db.IndexPut(record.key, pos, e);
      }
      if record.kind == Deleted {
        oldPos := db.IndexDelete(record.key);
      }
      if oldPos.Some? {
        db.reclaimSize := db.reclaimSize + oldPos.value.size;
      }
    }

    /** The second walk of `Commit`, again in any order. */
    method UpdateIndexes(positions: map<Key, Pos>, ghost batch: seq<Staged>, ghost es: seq<Entry>)
      returns (ghost order: seq<nat>)
      requires db.Valid() && WellStaged(pendingWrites) && PartOf(batch, pendingWrites, {}) && |batch| == |pendingWrites|
      requires Lies(batch, es, positions, db.Entries()) && |es| == |batch|
      modifies db`index, db`live, db`reclaimSize
      ensures db.Valid() && Permutation(order, |batch|)
      ensures db.live == ApplyAll(old(db.live), Reorder(es, order))
      ensures db.reclaimSize == old(db.reclaimSize) + Freed(old(db.live), Reorder(es, order))
    {
      hide db.Valid, db.Entries, db.Files;
      hide ApplyEntry, OldSize, Freed, ApplyAll, Permutation, OrderOf, PartOf, Lies, WellStaged, Picked;
      var rest := pendingWrites.Keys;
      order := [];
      NothingPicked(db.live, es);
      NothingOrdered(batch, pendingWrites);
      while rest != {}
        invariant db.Valid() && rest <= pendingWrites.Keys && OrderOf(order, batch, rest) && InBatch(order, es)
        invariant db.live == ApplyAll(old(db.live), Picked(es, order))
        invariant db.reclaimSize == old(db.reclaimSize) + Freed(old(db.live), Picked(es, order))
      {
        var key :| key in rest;
        ghost var j := StagedPlace(batch, pendingWrites, es, positions, db.Entries(), key);
        PickedMore(old(db.live), es, order, j);
        OrderGrows(order, batch, pendingWrites, rest, j);
        IndexNext(pendingWrites[key], positions[key], es[j]);
        order := order + [j];
        rest := rest - {key};
      }
      OrderDone(order, batch);
      PickedAll(es, order);
    }

    /** Inside `Commit`, after the first walk: the finish marker, and the sync if the batch asks for one. */
    method Finish(seqNo: nat, ghost s: Store)
      requires db.Valid() && db.Core() == s && 0 < seqNo < TWO_64
      modifies db, db.activeFile
      ensures db.Valid() && (db.activeFile == old(db.activeFile) || fresh(db.activeFile))
      ensures forall f :: f in db.Files() ==> f in old(db.Files()) || fresh(f)
      ensures
        var t := Append(db.cfg, s, FinishRecord(seqNo));
        db.Core() == t.(synced := if syncWrites then |t.log| else t.synced)
    {
      hide Append;
      hide db.Valid, db.Entries, db.Files;
      MarkerIsStorable(seqNo);
      var _ := db.AppendLogRecord(Record(seqNo, TXN_FIN_KEY, [], TxnFinished));
      if syncWrites && db.activeFile != null {
        db.Sync();
      }
    }

    /** `Commit` of a batch that is neither empty nor too large. */
    method CommitPending(fault: Option<nat>) returns (r: Outcome, ghost batch: seq<Staged>, ghost order: seq<nat>)
      requires db.Valid() && Ready(db.seqNo + 1)
      modifies this`pendingWrites, db, db.activeFile
      ensures db.Valid() && (db.activeFile == old(db.activeFile) || fresh(db.activeFile))
      ensures forall f :: f in db.Files() ==> f in old(db.Files()) || fresh(f)
      ensures fault.Some? && fault.value <= |old(pendingWrites)| ==>
        && r == Failed(WriteFailed) && pendingWrites == old(pendingWrites)
        && Enumerates(batch, old(pendingWrites)) && fault.value <= |batch|
        && db.Core() == AbortStep(db.cfg, old(db.Core()), batch, fault.value)
      ensures fault.None? || fault.value > |old(pendingWrites)| ==>
        && r == Done && pendingWrites == map[]
        && Enumerates(batch, old(pendingWrites)) && Permutation(order, |batch|)
        && db.Core() == CommitStep(db.cfg, old(db.Core()), batch, order, syncWrites)
    {
      hide AppendAll, Append, RecordsOf, PartOf, Placements, Enumerates, Permutation, CommitStep, AbortStep;
      hide Appending, Ready;
      hide db.Valid, db.Entries, db.Files;
      order := [];
      ghost var s := db.Core();
      var seqNo := db.seqNo + 1;
      db.seqNo := seqNo;
      var positions, rest;
      positions, rest, batch := AppendPending(seqNo, fault, s.(seqNo := seqNo));
      if fault.Some? && fault.value <= |pendingWrites| {
        batch := Aborted(s, positions, rest, batch);
        return Failed(WriteFailed), batch, order;
      }
      order := CommitAppended(seqNo, positions, s, batch);
      pendingWrites := map[];
      return Done, batch, order;
    }

    lemma {:induction false} Aborted(s: Store, positions: map<Key, Pos>, rest: set<Key>, part: seq<Staged>)
      returns (batch: seq<Staged>)
      requires Appending(s.(seqNo := s.seqNo + 1), s.seqNo + 1, positions, rest, part) && Ready(s.seqNo + 1)
      ensures db.Valid() && Enumerates(batch, pendingWrites) && |part| <= |batch|
      ensures db.Core() == AbortStep(db.cfg, s, batch, |part|)
    {
      hide Append, AppendAll, RecordsOf;
      hide db.Valid, db.Entries, db.Files;
      batch := Complete(part, pendingWrites, rest);
    }

    lemma {:induction false} Appended(s: Store, seqNo: nat, positions: map<Key, Pos>, part: seq<Staged>)
      requires Appending(s, seqNo, positions, {}, part)
      ensures db.Valid() && PartOf(part, pendingWrites, {}) && |part| == |pendingWrites|
        && Enumerates(part, pendingWrites)
      ensures db.Core() == AppendAll(db.cfg, s, RecordsOf(part, seqNo)) && |db.Entries()| == |s.log| + |part|
      ensures Placements(positions, part, db.Core().log, |s.log|)
    {
      hide db.Valid, db.Entries, db.Files;
    }

    /** The rest of a commit whose records are all appended: finish marker, sync, index. */
    method CommitAppended(seqNo: nat, positions: map<Key, Pos>, ghost s: Store, ghost batch: seq<Staged>)
      returns (ghost order: seq<nat>)
      requires seqNo == s.seqNo + 1 && Ready(seqNo)
      requires Appending(s.(seqNo := seqNo), seqNo, positions, {}, batch)
      modifies db, db.activeFile
      ensures db.Valid() && (db.activeFile == old(db.activeFile) || fresh(db.activeFile))
      ensures forall f :: f in db.Files() ==> f in old(db.Files()) || fresh(f)
      ensures Enumerates(batch, pendingWrites) && Permutation(order, |batch|)
      ensures db.Core() == CommitStep(db.cfg, s, batch, order, syncWrites)
    {
      hide AppendAll, Append, RecordsOf, PartOf, Placements, Enumerates, Permutation, FinishRecord, BatchEntries;
      hide ApplyAll, Freed, Reorder, Lies, WellStaged, Appending, CommitLog, CommitStep;
      hide db.Valid, db.Entries, db.Files, db.Synced, db.ActiveState;
      Appended(s.(seqNo := seqNo), seqNo, positions, batch);
      ghost var es := BatchLies(db.cfg, s, batch, positions);
      ghost var t := db.Core();
      Finish(seqNo, t);
      order := UpdateIndexes(positions, batch, es);
      CommitIs(db.cfg, s, batch, order, syncWrites, es, db.Core());
    }

    /**
     * `Commit`. `batch` and `order` are the two orders in which Go happened to walk the staged writes.
     * When an append fails, the sequence number is spent and what was written stays.
     */
    method Commit(fault: Option<nat>) returns (r: Outcome, ghost batch: seq<Staged>, ghost order: seq<nat>)
      requires db.Valid() && Ready(db.seqNo + 1)
      modifies this`pendingWrites, db, db.activeFile
      ensures db.Valid() && (db.activeFile == old(db.activeFile) || fresh(db.activeFile))
      ensures forall f :: f in db.Files() ==> f in old(db.Files()) || fresh(f)
      ensures old(pendingWrites) == map[] ==> r == Done && db.Core() == old(db.Core()) && pendingWrites == map[]
      ensures old(pendingWrites) != map[] && |old(pendingWrites)| > maxBatchNum ==>
        r == Failed(ExceedMaxBatchNum) && db.Core() == old(db.Core()) && pendingWrites == old(pendingWrites)
      ensures 0 < |old(pendingWrites)| <= maxBatchNum && fault.Some? && fault.value <= |old(pendingWrites)| ==>
        && r == Failed(WriteFailed) && pendingWrites == old(pendingWrites)
        && Enumerates(batch, old(pendingWrites)) && fault.value <= |batch|
        && db.Core() == AbortStep(db.cfg, old(db.Core()), batch, fault.value)
      ensures 0 < |old(pendingWrites)| <= maxBatchNum && (fault.Some? ==> fault.value > |old(pendingWrites)|) ==>
        && r == Done && pendingWrites == map[]
        && Enumerates(batch, old(pendingWrites)) && Permutation(order, |batch|)
        && db.Core() == CommitStep(db.cfg, old(db.Core()), batch, order, syncWrites)
    {
      hide db.Valid, db.Entries, db.Files;
      batch, order := [], [];
      if |pendingWrites| == 0 {
        return Done, batch, order;
      }
      if |pendingWrites| > maxBatchNum {
        return Failed(ExceedMaxBatchNum), batch, order;
      }
      r, batch, order := CommitPending(fault);
    }
  }

  /** A partial walk can be completed to a list of all staged writes. */
  lemma {:induction false} Complete(part: seq<Staged>, pending: Pending, rest: set<Key>) returns (batch: seq<Staged>)
    requires PartOf(part, pending, rest) && WellStaged(pending)
    ensures Enumerates(batch, pending) && |batch| == |part| + |rest| && batch[..|part|] == part
    decreases |rest|
  {
    if rest == {} {
      batch := part;
    } else {
      var key :| key in rest;
      PartGrows(part, pending, rest, key);
      batch := Complete(part + [pending[key]], pending, rest - {key});
      assert batch[..|part|] == batch[..|part| + 1][..|part|];
    }
  }

  lemma {:induction false} RecordAt(batch: seq<Staged>, seqNo: nat, i: nat)
    requires i < |batch|
    ensures RecordsOf(batch, seqNo)[i] == BatchRecord(batch[i], seqNo)
  {
  }

  /** The steps of a commit put together. */
  lemma {:induction false} CommitIs(cfg: Config, s: Store, batch: seq<Staged>, order: seq<nat>, sync: bool,
    es: seq<Entry>, v: Store)
    requires Permutation(order, |batch|) && es == BatchEntries(cfg, s, batch)
    requires
      var t := CommitLog(cfg, s, batch);
      v == t.(synced := if sync then |t.log| else t.synced,
              index := ApplyAll(s.index, Reorder(es, order)), reclaim := s.reclaim + Freed(s.index, Reorder(es, order)))
    ensures v == CommitStep(cfg, s, batch, order, sync)
  {
    hide CommitLog, Reorder, Freed, ApplyAll, BatchEntries, Permutation;
  }

  /** After the first walk and the finish marker, the batch lies in the log where its positions say. */
  lemma {:induction false} BatchLies(cfg: Config, s: Store, batch: seq<Staged>, positions: map<Key, Pos>)
    returns (es: seq<Entry>)
    requires
      var t := AppendAll(cfg, s.(seqNo := s.seqNo + 1), RecordsOf(batch, s.seqNo + 1));
      |s.log| + |batch| == |t.log| && Placements(positions, batch, t.log, |s.log|)
    ensures es == BatchEntries(cfg, s, batch) && Lies(batch, es, positions, CommitLog(cfg, s, batch).log)
    ensures
      var t := AppendAll(cfg, s.(seqNo := s.seqNo + 1), RecordsOf(batch, s.seqNo + 1));
      && CommitLog(cfg, s, batch) == Append(cfg, t, FinishRecord(s.seqNo + 1))
      && CommitLog(cfg, s, batch).index == t.index == s.index
        && CommitLog(cfg, s, batch).reclaim == t.reclaim == s.reclaim
  {
    hide Append, AppendAll, FinishRecord, RecordsOf;
    var s1, recs := s.(seqNo := s.seqNo + 1), RecordsOf(batch, s.seqNo + 1);
    var t, u := AppendAll(cfg, s1, recs), CommitLog(cfg, s, batch);
    LogKept(cfg, s1, recs);
    AppendedEntry(cfg, t, FinishRecord(s.seqNo + 1));
    es := BatchEntries(cfg, s, batch);
    forall i | 0 <= i < |batch|
      ensures es[i] in u.log && es[i] == t.log[|s.log| + i] && es[i].rec == BatchRecord(batch[i], s.seqNo + 1)
    {
      RecordAt(batch, s.seqNo + 1, i);
      assert u.log[|s.log| + i] == u.log[..|t.log|][|s.log| + i];
    }
  }

  lemma {:induction false} MarkerIsStorable(seqNo: nat)
    requires 0 < seqNo < TWO_64
    ensures Storable(FinishRecord(seqNo))
  {
    hide UvarintBytes;
    UvarintFits64(seqNo);
    VarintFits32(|UvarintBytes(seqNo)| + |TXN_FIN_KEY|);
    VarintFits32(0);
  }

  lemma {:induction false} NothingPicked(index: map<Key, Entry>, es: seq<Entry>)
    ensures InBatch([], es) && ApplyAll(index, Picked(es, [])) == index && Freed(index, Picked(es, [])) == 0
  {
  }

  lemma {:induction false} EmptyPart(pending: Pending)
    ensures PartOf([], pending, pending.Keys)
  {
  }

  lemma {:induction false} NoRecords(cfg: Config, s: Store, seqNo: nat)
    ensures AppendAll(cfg, s, RecordsOf([], seqNo)) == s
  {
  }

  /** A key that is left belongs to no record appended so far. */
  lemma {:induction false} PartKeys(part: seq<Staged>, pending: Pending, rest: set<Key>, key: Key)
    requires PartOf(part, pending, rest) && key in rest && WellStaged(pending)
    ensures key in pending && pending[key].key == key
    ensures forall i :: 0 <= i < |part| ==> part[i].key != key
  {
  }
}
