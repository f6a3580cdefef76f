/** Staging writes in a batch and committing them: batch.go against its operations applied one by one. */
module Staging {
  import opened Log
  import opened Engine
  import opened Invariant
  import opened Preservation

  type Pending = map<Key, Staged>

  /** `WriteBatch.Put`: the last write of a key replaces what was staged for it. */
  function StagePut(pending: Pending, key: Key, value: Value): Pending {
    pending[key := Staged(key, value, Normal)]
  }

  /** `WriteBatch.Delete`: a key that the index does not hold at this moment is only taken out of the staged writes. */
  function StageDelete(pending: Pending, key: Key, present: bool): Pending {
    if present then pending[key := Staged(key, [], Deleted)] else pending - {key}
  }

  /** A call on a batch; `present` is whether the index held the key when a deletion was staged. */
  datatype Call = PutCall(key: Key, value: Value) | DeleteCall(key: Key, present: bool)

  function StageAll(calls: seq<Call>): Pending {
    if |calls| == 0 then map[]
    else
      var front := StageAll(calls[..|calls| - 1]);
      match calls[|calls| - 1]
      case PutCall(key, value) => StagePut(front, key, value)
      case DeleteCall(key, present) => StageDelete(front, key, present)
  }

  /** The same calls made directly, one by one. */
  function ApplyCalls(m: map<Key, Value>, calls: seq<Call>): map<Key, Value> {
    if |calls| == 0 then m
    else
      var front := ApplyCalls(m, calls[..|calls| - 1]);
      match calls[|calls| - 1]
      case PutCall(key, value) => front[key := value]
      case DeleteCall(key, _) => front - {key}
  }

  /** A list of all staged writes, in any order. */
  predicate Enumerates(batch: seq<Staged>, pending: Pending) {
    && (forall i :: 0 <= i < |batch| ==> batch[i].key in pending && pending[batch[i].key] == batch[i])
    && (forall i, j :: 0 <= i < j < |batch| ==> batch[i].key != batch[j].key)
    && (forall k :: k in pending ==> pending[k] in batch)
  }

  predicate WellStaged(pending: Pending) {
    forall k :: k in pending ==> pending[k].key == k && pending[k].kind != TxnFinished
  }

  lemma {:induction false} StagedIsWell(calls: seq<Call>)
    ensures WellStaged(StageAll(calls))
  {
    if |calls| > 0 {
      StagedIsWell(calls[..|calls| - 1]);
    }
  }

  /** What a commit makes of one key, whatever the order of the batch. */
  lemma {:induction false} BatchViewAt(m: map<Key, Value>, batch: seq<Staged>, k: Key)
    requires forall i, j :: 0 <= i < j < |batch| ==> batch[i].key != batch[j].key
    ensures (forall i :: 0 <= i < |batch| ==> batch[i].key != k) ==>
              (k in BatchView(m, batch) <==> k in m) && (k in m ==> BatchView(m, batch)[k] == m[k])
    ensures forall i :: 0 <= i < |batch| && batch[i].key == k ==>
              if batch[i].kind == Deleted then k !in BatchView(m, batch)
              else k in BatchView(m, batch) && BatchView(m, batch)[k] == batch[i].value
  {
    if |batch| > 0 {
      var front := batch[..|batch| - 1];
      BatchViewAt(m, front, k);
      assert forall i :: 0 <= i < |front| ==> front[i] == batch[i];
    }
  }

  /** The last call on a key was a deletion that was dropped, because the key was absent when it was staged. */
  predicate Dropped(calls: seq<Call>, k: Key) {
    |calls| > 0 &&
    var last := calls[|calls| - 1];
    if last.key == k then last.DeleteCall? && !last.present else Dropped(calls[..|calls| - 1], k)
  }

  /**
   * Key by key: committing agrees with the direct calls unless the deletion was dropped, which leaves the key as it
   * was.
   */
  lemma {:induction false} StagedAt(m: map<Key, Value>, calls: seq<Call>, k: Key)
    ensures
      var staged, direct := StageAll(calls), ApplyCalls(m, calls);
      if Dropped(calls, k) then k !in staged && k !in direct
      else if k in staged then
        (staged[k].kind == Deleted ==> k !in direct) &&
        (staged[k].kind != Deleted ==> k in direct && direct[k] == staged[k].value)
      else (k in direct <==> k in m) && (k in m ==> direct[k] == m[k])
  {
    if |calls| > 0 {
      StagedAt(m, calls[..|calls| - 1], k);
    }
  }

  lemma {:induction false} CommitAt(m: map<Key, Value>, calls: seq<Call>, batch: seq<Staged>, k: Key)
    requires Enumerates(batch, StageAll(calls))
    ensures
      var staged, committed := StageAll(calls), BatchView(m, batch);
      if k in staged then
        (staged[k].kind == Deleted ==> k !in committed) &&
        (staged[k].kind != Deleted ==> k in committed && committed[k] == staged[k].value)
      else (k in committed <==> k in m) && (k in m ==> committed[k] == m[k])
  {
    var staged := StageAll(calls);
    StagedIsWell(calls);
    BatchViewAt(m, batch, k);
    if k in staged {
      var i :| 0 <= i < |batch| && batch[i] == staged[k];
    }
  }

  /**
   * A batch committed on a map m equals its calls made one by one on m if and only if
   * no deletion was dropped at staging for a key that m holds at the commit.
   */
  lemma {:induction false} BatchEqualsCalls(m: map<Key, Value>, calls: seq<Call>, batch: seq<Staged>)
    requires Enumerates(batch, StageAll(calls))
    ensures BatchView(m, batch) == ApplyCalls(m, calls) <==> forall k :: k in m ==> !Dropped(calls, k)
  {
    hide BatchView, ApplyCalls, StageAll, Dropped;
    var committed, direct := BatchView(m, batch), ApplyCalls(m, calls);
    forall k
      ensures (k in committed <==> k in direct) && (k in committed ==> committed[k] == direct[k])
         <==> !(k in m && Dropped(calls, k))
    {
      StagedAt(m, calls, k);
      CommitAt(m, calls, batch, k);
    }
    if forall k :: k in m ==> !Dropped(calls, k) {
      assert committed == direct;
    }
  }

  /** Nobody else wrote between staging and commit: every deletion saw the keys that are there at the commit. */
  predicate Undisturbed(m: map<Key, Value>, calls: seq<Call>) {
    forall i :: 0 <= i < |calls| && calls[i].DeleteCall? ==> (calls[i].present <==> calls[i].key in m)
  }

  lemma {:induction false} UndisturbedDropsNothing(m: map<Key, Value>, calls: seq<Call>, k: Key)
    requires Undisturbed(m, calls) && k in m
    ensures !Dropped(calls, k)
  {
    if |calls| > 0 {
      UndisturbedDropsNothing(m, calls[..|calls| - 1], k);
    }
  }

  /**
   * A batch is its operations in sequence: with no other writer between staging and commit, the store's map after the
   * commit is the map with the staged calls applied one by one, in whatever orders Go walks the staged writes.
   */
  lemma {:induction false} BatchIsItsCalls(cfg: Config, s: Store, calls: seq<Call>, batch: seq<Staged>,
    order: seq<nat>, sync: bool)
    requires Inv(cfg, s) && Undisturbed(View(s.index), calls)
    requires Enumerates(batch, StageAll(calls)) && ValidBatch(batch) && Permutation(order, |batch|)
    ensures View(CommitStep(cfg, s, batch, order, sync).index) == ApplyCalls(View(s.index), calls)
  {
    hide Inv, CommitStep, BatchView, ApplyCalls, StageAll, Dropped, View, Undisturbed, Enumerates;
    var m := View(s.index);
    CommitKeepsInv(cfg, s, batch, order, sync);
    forall k | k in m ensures !Dropped(calls, k) {
      UndisturbedDropsNothing(m, calls, k);
    }
    BatchEqualsCalls(m, calls, batch);
  }

  /**
   * A batch in which nothing is left to write changes nothing, and its calls made directly would change nothing
   * either.
   */
  lemma {:induction false} EmptyBatchIsNothing(m: map<Key, Value>, calls: seq<Call>)
    requires StageAll(calls) == map[] && Undisturbed(m, calls)
    ensures ApplyCalls(m, calls) == m
  {
    forall k | k in m ensures !Dropped(calls, k) {
      UndisturbedDropsNothing(m, calls, k);
    }
    BatchEqualsCalls(m, calls, []);
  }

  /**
   * With another writer the claim fails: a deletion staged while its key was absent is forgotten,
   * and the key that someone put before the commit survives the batch.
   */
  lemma {:induction false} DroppedDeletionIsLost()
    ensures
      var calls := [DeleteCall([1], false)];
      var m: map<Key, Value> := map[[1] := [7]];
      StageAll(calls) == map[] && Enumerates([], StageAll(calls)) &&
      BatchView(m, []) == m && ApplyCalls(m, calls) == map[]
  {
    var calls := [DeleteCall([1], false)];
    assert calls[..0] == [];
    assert StageAll(calls[..0]) == map[];
  }
}
