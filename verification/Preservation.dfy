/** Every step keeps the invariant and has the effect on the client's map that its operation promises. */
module Preservation {
  import opened LogRecords
  import opened Log
  import opened Engine
  import opened Invariant

  // ---------------------------------------------------------------- growth of the log

  /**
   * `t` has the entries of `s` and newer ones, written to files from the active one on, with fresh sequence
   * numbers.
   */
  predicate Grown(s: Store, t: Store) {
    && |s.log| <= |t.log| && t.log[..|s.log|] == s.log
    && (forall i :: |s.log| <= i < |t.log| ==> t.log[i].pos.fid >= ActiveFid(s.active))
    && (forall i :: |s.log| <= i < |t.log| ==> t.log[i].rec.seqNo == 0 || t.log[i].rec.seqNo > s.seqNo)
    && ActiveFid(t.active) >= ActiveFid(s.active) && (s.active.Active? ==> t.active.Active?)
    && t.hint == s.hint && t.barrier == s.barrier
    && (forall k :: k in t.index ==> t.index[k] in t.log[|s.log|..] || (k in s.index && t.index[k] == s.index[k]))
  }

  lemma {:induction false} FrozenPartStays(s: Store, t: Store, barrier: nat)
    requires Grown(s, t) && barrier <= ActiveFid(s.active)
    ensures Below(t.log, barrier) == Below(s.log, barrier)
    ensures forall n :: 0 <= n <= |s.log| ==> t.log[..n] == s.log[..n]
  {
    var es := t.log[|s.log|..];
    assert t.log == s.log + es;
    forall e | e in es ensures e.pos.fid >= barrier {
      var i :| 0 <= i < |es| && es[i] == e;
      assert t.log[|s.log| + i] == e;
    }
    BelowConcat(s.log, es, barrier);
    forall n | 0 <= n <= |s.log| ensures t.log[..n] == s.log[..n] {
      assert t.log[..n] == t.log[..|s.log|][..n];
    }
  }

  lemma {:induction false} CutStays(s: Store, t: Store, barrier: nat)
    requires Grown(s, t) && barrier <= ActiveFid(s.active)
    requires CutOk(s.log, barrier) && SeqBounded(s.log, s.seqNo)
    ensures CutOk(t.log, barrier)
  {
    forall x, y | x in t.log && y in t.log && x.pos.fid < barrier <= y.pos.fid
      ensures y.rec.seqNo == 0 || x.rec.seqNo < y.rec.seqNo
    {
      var i :| 0 <= i < |t.log| && t.log[i] == x;
      var j :| 0 <= j < |t.log| && t.log[j] == y;
      assert t.log[i] == t.log[..|s.log|][i];
      assert x in s.log;
      if j < |s.log| {
        assert t.log[j] == t.log[..|s.log|][j];
        assert y in s.log;
      }
    }
  }

  /** A position that has left the index below the barrier does not come back. */
  lemma {:induction false} OldPositionsWereThere(s: Store, t: Store, barrier: nat, k: Key)
    requires Grown(s, t) && barrier <= ActiveFid(s.active)
    requires k in t.index && t.index[k].pos.fid < barrier
    ensures k in s.index && s.index[k] == t.index[k]
  {
    var es := t.log[|s.log|..];
    forall e | e in es ensures e.pos.fid >= barrier {
      var i :| 0 <= i < |es| && es[i] == e;
      assert t.log[|s.log| + i] == e;
    }
  }

  lemma {:induction false} CopiedStays(s: Store, t: Store, barrier: nat, scanned: nat, out: Output)
    requires Grown(s, t) && Ordered(s.log) && barrier <= ActiveFid(s.active) && scanned <= Below(s.log, barrier)
    requires forall k :: k in s.index && s.index[k] in s.log[..scanned] ==> Copied(out, k)
    ensures forall k :: k in t.index && t.index[k] in t.log[..scanned] ==> Copied(out, k)
  {
    hide Copied;
    FrozenPartStays(s, t, barrier);
    BelowSplits(s.log, barrier);
    forall k | k in t.index && t.index[k] in t.log[..scanned]
      ensures Copied(out, k)
    {
      var i :| 0 <= i < scanned && s.log[..scanned][i] == t.index[k];
      assert s.log[i].pos.fid < barrier;
      OldPositionsWereThere(s, t, barrier, k);
    }
  }

  lemma {:induction false} GrowthKeepsJob(cfg: Config, s: Store, t: Store)
    requires Grown(s, t) && Ordered(s.log) && SeqBounded(s.log, s.seqNo)
    requires JobOk(cfg, s) && t.job == s.job
    ensures JobOk(cfg, t)
  {
    hide Replay, Merged, NotAhead, Below, CutOk, Copied;
    if !s.job.Idle? {
      var b := s.job.barrier;
      FrozenPartStays(s, t, b);
      CutStays(s, t, b);
      if s.job.Scanning? {
        OutStays(cfg, s, t, b, s.job.scanned, s.job.out);
        CopiedStays(s, t, b, s.job.scanned, s.job.out);
      }
    }
  }

  lemma {:induction false} OutStays(cfg: Config, s: Store, t: Store, barrier: nat, scanned: nat, out: Output)
    requires Grown(s, t) && barrier <= ActiveFid(s.active) && scanned <= Below(s.log, barrier)
    requires OutOk(cfg, s.log, barrier, scanned, out)
    ensures scanned <= |t.log| && OutOk(cfg, t.log, barrier, scanned, out)
  {
    hide Replay, WfLog, AtEnd, Merged;
    FrozenPartStays(s, t, barrier);
    assert t.log[..Below(t.log, barrier)] == s.log[..Below(s.log, barrier)];
    if scanned > 0 {
      assert t.log[scanned - 1] == t.log[..scanned][scanned - 1] == s.log[..scanned][scanned - 1];
    }
  }

  lemma {:induction false} GrowthKeepsDir(cfg: Config, s: Store, t: Store)
    requires Grown(s, t) && SeqBounded(s.log, s.seqNo)
    requires DirOk(cfg, s) && t.dir == s.dir
    ensures DirOk(cfg, t)
  {
    hide Replay, WfLog, AtEnd, Merged, NotAhead, OutOk;
    if s.dir.Finished? {
      var b, out := s.dir.barrier, s.dir.out;
      FrozenPartStays(s, t, b);
      CutStays(s, t, b);
      OutStays(cfg, s, t, b, Below(s.log, b), out);
      forall k | k in t.index && t.index[k].pos.fid < b
        ensures Copied(out, k)
      {
        OldPositionsWereThere(s, t, b, k);
      }
    }
  }

  lemma {:induction false} GrowthKeepsHint(s: Store, t: Store)
    requires Grown(s, t) && HintOk(s)
    ensures HintOk(t)
  {
    hide Merged;
    FrozenPartStays(s, t, s.barrier);
  }

  lemma {:induction false} Growth(cfg: Config, s: Store, t: Store)
    requires Inv(cfg, s) && Grown(s, t) && FilesOk(cfg, t) && IndexOk(t)
    requires t.job == s.job && t.dir == s.dir
    ensures Inv(cfg, t)
  {
    hide Grown, HintOk, JobOk, DirOk, Replay, WfEntry;
    GrowthKeepsJob(cfg, s, t);
    GrowthKeepsDir(cfg, s, t);
    GrowthKeepsHint(s, t);
  }

  // ---------------------------------------------------------------- client operations

  lemma {:induction false} SeqBoundedAppend(log: seq<Entry>, e: Entry, maxSeq: nat, newMax: nat)
    requires SeqBounded(log, maxSeq) && maxSeq <= newMax && e.rec.seqNo <= newMax
    ensures SeqBounded(log + [e], newMax)
  {
  }

  lemma {:induction false} ViewPut(index: map<Key, Entry>, key: Key, e: Entry)
    ensures View(index[key := e]) == View(index)[key := e.rec.value]
    ensures View(index - {key}) == View(index) - {key}
  {
  }

  lemma {:induction false} PutKeepsInv(cfg: Config, s: Store, key: Key, value: Value)
    requires Inv(cfg, s)
    ensures Inv(cfg, PutStep(cfg, s, key, value))
    ensures View(PutStep(cfg, s, key, value).index) == View(s.index)[key := value]
  {
    hide Append, FilesOk, HintOk, JobOk, DirOk, View;
    var rec := Record(0, key, value, Normal);
    AppendOk(cfg, s, rec);
    var t := PutStep(cfg, s, key, value);
    var e := t.log[|s.log|];
    ViewPut(s.index, key, e);
    assert t.log == s.log + [e];
    assert e.rec == [rec][0];
    ReplayAppend(s.log, e);
    SeqBoundedAppend(s.log, e, s.seqNo, s.seqNo);
    assert e in t.log[|s.log|..];
    FilesOkDependsOnFiles(cfg, Append(cfg, s, rec), t);
    Growth(cfg, s, t);
  }

  lemma {:induction false} FilesOkDependsOnFiles(cfg: Config, s: Store, t: Store)
    requires FilesOk(cfg, s) && t.log == s.log && t.active == s.active && t.synced == s.synced
    ensures FilesOk(cfg, t)
  {
  }

  lemma {:induction false} DeleteKeepsInv(cfg: Config, s: Store, key: Key)
    requires Inv(cfg, s)
    ensures Inv(cfg, DeleteStep(cfg, s, key))
    ensures View(DeleteStep(cfg, s, key).index) == View(s.index) - {key}
  {
    hide Append, FilesOk, HintOk, JobOk, DirOk, View;
    ViewPut(s.index, key, Entry(Pos(0, 0, 0), Record(0, [], [], Normal)));
    if key !in s.index {
      assert s.index - {key} == s.index;
    } else {
      var rec := Record(0, key, [], Deleted);
      AppendOk(cfg, s, rec);
      var t := DeleteStep(cfg, s, key);
      var e := t.log[|s.log|];
      assert t.log == s.log + [e];
      assert e.rec == [rec][0];
      ReplayAppend(s.log, e);
      SeqBoundedAppend(s.log, e, s.seqNo, s.seqNo);
      FilesOkDependsOnFiles(cfg, Append(cfg, s, rec), t);
      Growth(cfg, s, t);
    }
  }

  // ---------------------------------------------------------------- batches

  /** The client's map after the staged writes, one by one. */
  function BatchView(m: map<Key, Value>, batch: seq<Staged>): map<Key, Value> {
    if |batch| == 0 then m
    else
      var front, last := BatchView(m, batch[..|batch| - 1]), batch[|batch| - 1];
      if last.kind == Deleted then front - {last.key} else front[last.key := last.value]
  }

  /** The entries written for a batch, in the order of the batch. */
  predicate EntriesFor(es: seq<Entry>, batch: seq<Staged>, seqNo: nat) {
    |es| == |batch| && forall i :: 0 <= i < |es| ==> es[i].rec == BatchRecord(batch[i], seqNo)
  }

  lemma {:induction false} ApplyAllView(index: map<Key, Entry>, es: seq<Entry>, batch: seq<Staged>, seqNo: nat)
    requires EntriesFor(es, batch, seqNo)
    ensures View(ApplyAll(index, es)) == BatchView(View(index), batch)
  {
    if |es| > 0 {
      ApplyAllView(index, es[..|es| - 1], batch[..|batch| - 1], seqNo);
    }
  }

  lemma {:induction false} BatchEntriesAreBatch(es: seq<Entry>, batch: seq<Staged>, seqNo: nat)
    requires EntriesFor(es, batch, seqNo) && ValidBatch(batch) && seqNo > 0
    ensures BatchRecords(es, seqNo) && DistinctKeys(es)
  {
  }

  lemma {:induction false} ReorderSame(index: map<Key, Entry>, es: seq<Entry>, order: seq<nat>)
    requires DistinctKeys(es) && Permutation(order, |es|)
    ensures ApplyAll(index, Reorder(es, order)) == ApplyAll(index, es)
  {
    var fs := Reorder(es, order);
    forall e ensures e in es <==> e in fs {
      if e in es {
        var i :| 0 <= i < |es| && es[i] == e;
        assert i in order;
        var j :| 0 <= j < |order| && order[j] == i;
        assert fs[j] == e;
      }
    }
    forall i, j | 0 <= i < j < |fs| ensures fs[i].rec.key != fs[j].rec.key {
      var a, b := order[i], order[j];
      if a < b {
        assert es[a].rec.key != es[b].rec.key;
      } else {
        assert es[b].rec.key != es[a].rec.key;
      }
    }
    ApplyAllEffect(index, es);
    ApplyAllEffect(index, fs);
    BatchEffectUnique(index, es, fs, ApplyAll(index, es), ApplyAll(index, fs));
  }

  lemma {:induction false} FreshSeqNo(log: seq<Entry>, seqNo: nat)
    requires MarkersNumbered(log) && SeqBounded(log, seqNo)
    ensures seqNo + 1 !in Replay(log).pending
  {
    ReplaySound(log);
    var pending := Replay(log).pending;
    forall s | s in pending ensures s <= seqNo {
      assert pending[s][0] in pending[s];
    }
  }

  /** What a run of appends left in the log. */
  lemma {:induction false} AppendedEntries(cfg: Config, s: Store, t: Store, batch: seq<Staged>, seqNo: nat,
    more: seq<Record>)
    requires Appended(cfg, s, t, RecordsOf(batch, seqNo) + more)
    ensures
      var es := t.log[|s.log|..|s.log| + |batch|];
      EntriesFor(es, batch, seqNo) && t.log[..|s.log|] + es == t.log[..|s.log| + |batch|]
  {
    hide FilesOk;
    var recs := RecordsOf(batch, seqNo) + more;
    forall i | 0 <= i < |batch|
      ensures t.log[|s.log|..|s.log| + |batch|][i].rec == BatchRecord(batch[i], seqNo)
    {
      assert t.log[|s.log| + i].rec == recs[i];
    }
  }

  lemma {:induction false} CommitAppends(cfg: Config, s: Store, batch: seq<Staged>)
    requires FilesOk(cfg, s) && ValidBatch(batch)
    ensures
      var seqNo := s.seqNo + 1;
      Appended(cfg, s.(seqNo := seqNo), CommitLog(cfg, s, batch), RecordsOf(batch, seqNo) + [FinishRecord(seqNo)])
  {
    var seqNo := s.seqNo + 1;
    var s0, recs := s.(seqNo := seqNo), RecordsOf(batch, seqNo);
    FilesOkDependsOnFiles(cfg, s, s0);
    AppendAllOk(cfg, s0, recs);
    var mid := AppendAll(cfg, s0, recs);
    AppendOk(cfg, mid, FinishRecord(seqNo));
    AppendedChain(cfg, s0, mid, CommitLog(cfg, s, batch), recs, FinishRecord(seqNo));
  }

  /** The entries of a commit: the batch, then the marker. */
  lemma {:induction false} CommitEntries(cfg: Config, s: Store, batch: seq<Staged>)
    requires FilesOk(cfg, s) && ValidBatch(batch)
    ensures
      var es := BatchEntries(cfg, s, batch);
      var t := CommitLog(cfg, s, batch);
      EntriesFor(es, batch, s.seqNo + 1) && |t.log| == |s.log| + |batch| + 1 &&
      t.log == s.log + (es + [t.log[|s.log| + |batch|]]) &&
      t.log[|s.log| + |batch|].rec == FinishRecord(s.seqNo + 1)
  {
    hide FilesOk, CommitLog;
    var seqNo := s.seqNo + 1;
    var t, fin := CommitLog(cfg, s, batch), FinishRecord(seqNo);
    CommitAppends(cfg, s, batch);
    AppendedEntries(cfg, s.(seqNo := seqNo), t, batch, seqNo, [fin]);
    assert (RecordsOf(batch, seqNo) + [fin])[|batch|] == fin;
    assert t.log == t.log[..|s.log| + |batch|] + [t.log[|s.log| + |batch|]];
  }

  /** Replaying a committed batch builds the index that the commit built live, in whatever order it walked the batch. */
  lemma {:induction false} CommitIndex(cfg: Config, s: Store, batch: seq<Staged>, order: seq<nat>)
    requires FilesOk(cfg, s) && IndexOk(s) && ValidBatch(batch) && Permutation(order, |batch|)
    ensures
      var es := BatchEntries(cfg, s, batch);
      Replay(CommitLog(cfg, s, batch).log).index == ApplyAll(s.index, Reorder(es, order)) == ApplyAll(s.index, es)
  {
    hide CommitLog, BatchEntries, UpdateAll, ApplyAll;
    var seqNo := s.seqNo + 1;
    var t, es := CommitLog(cfg, s, batch), BatchEntries(cfg, s, batch);
    CommitEntries(cfg, s, batch);
    var fin := t.log[|s.log| + |batch|];
    BatchEntriesAreBatch(es, batch, seqNo);
    FreshSeqNo(s.log, s.seqNo);
    ReplayConcat(EMPTY, s.log, es + [fin]);
    FinishedBatchApplies(Replay(s.log), es, fin, seqNo);
    UpdateAllIndex(Replay(s.log), es);
    ReorderSame(s.index, es, order);
  }

  lemma {:induction false} CommitGrows(cfg: Config, s: Store, batch: seq<Staged>, order: seq<nat>, sync: bool)
    requires FilesOk(cfg, s) && IndexOk(s) && ValidBatch(batch) && Permutation(order, |batch|)
    ensures Grown(s, CommitStep(cfg, s, batch, order, sync))
  {
    hide CommitLog, BatchEntries, FilesOk;
    var t, es := CommitStep(cfg, s, batch, order, sync), BatchEntries(cfg, s, batch);
    CommitAppends(cfg, s, batch);
    CommitEntries(cfg, s, batch);
    CommitIndex(cfg, s, batch, order);
    var fs := Reorder(es, order);
    assert t.index == ApplyAll(s.index, es);
    forall i | |s.log| <= i < |t.log| ensures t.log[i].rec.seqNo == s.seqNo + 1 {
      if i < |s.log| + |batch| {
        assert t.log[i] == es[i - |s.log|];
      }
    }
    forall k | k in t.index
      ensures t.index[k] in t.log[|s.log|..] || (k in s.index && t.index[k] == s.index[k])
    {
      ApplyAllFrom(s.index, es, k);
      if t.index[k] in es {
        var i :| 0 <= i < |es| && es[i] == t.index[k];
        assert t.log[|s.log|..][i] == es[i];
      }
    }
  }

  lemma {:induction false} ApplyAllFrom(index: map<Key, Entry>, es: seq<Entry>, k: Key)
    ensures k in ApplyAll(index, es) ==>
      ApplyAll(index, es)[k] in es || (k in index && ApplyAll(index, es)[k] == index[k])
  {
    if |es| > 0 {
      ApplyAllFrom(index, es[..|es| - 1], k);
      assert es[|es| - 1] in es;
    }
  }

  lemma {:induction false} SeqBoundedConcat(log: seq<Entry>, es: seq<Entry>, maxSeq: nat, newMax: nat)
    requires SeqBounded(log, maxSeq) && maxSeq <= newMax && SeqBounded(es, newMax)
    ensures SeqBounded(log + es, newMax)
  {
  }

  lemma {:induction false} SyncKeepsFiles(cfg: Config, s: Store, t: Store)
    requires FilesOk(cfg, s) && t.log == s.log && t.active == s.active && s.synced <= t.synced <= |t.log|
    ensures FilesOk(cfg, t)
  {
  }

  /** A committed batch is applied as a whole: the map becomes the staged writes applied one by one. */
  lemma {:induction false} CommitKeepsInv(cfg: Config, s: Store, batch: seq<Staged>, order: seq<nat>, sync: bool)
    requires Inv(cfg, s) && ValidBatch(batch) && Permutation(order, |batch|)
    ensures Inv(cfg, CommitStep(cfg, s, batch, order, sync))
    ensures View(CommitStep(cfg, s, batch, order, sync).index) == BatchView(View(s.index), batch)
  {
    hide CommitLog, BatchEntries, HintOk, JobOk, DirOk, Grown, WfLog, AtEnd, Replay;
    var t, es := CommitStep(cfg, s, batch, order, sync), BatchEntries(cfg, s, batch);
    CommitAppends(cfg, s, batch);
    CommitEntries(cfg, s, batch);
    CommitIndex(cfg, s, batch, order);
    CommitGrows(cfg, s, batch, order, sync);
    ApplyAllView(s.index, es, batch, s.seqNo + 1);
    SeqBoundedConcat(s.log, es + [t.log[|s.log| + |batch|]], s.seqNo, t.seqNo);
    SyncKeepsFiles(cfg, CommitLog(cfg, s, batch), t);
    Growth(cfg, s, t);
  }

  lemma {:induction false} AbortAppends(cfg: Config, s: Store, batch: seq<Staged>, written: nat)
    requires FilesOk(cfg, s) && ValidBatch(batch) && written <= |batch|
    ensures
      var seqNo := s.seqNo + 1;
      var t := AbortStep(cfg, s, batch, written);
      && Appended(cfg, s.(seqNo := seqNo), t, RecordsOf(batch[..written], seqNo))
      && EntriesFor(t.log[|s.log|..], batch[..written], seqNo)
      && t.log == s.log + t.log[|s.log|..]
  {
    hide FilesOk, AppendAll, EntriesFor;
    var seqNo := s.seqNo + 1;
    var s0, recs := s.(seqNo := seqNo), RecordsOf(batch[..written], seqNo);
    FilesOkDependsOnFiles(cfg, s, s0);
    AppendAllOk(cfg, s0, recs);
    var t := AbortStep(cfg, s, batch, written);
    assert recs + [] == recs;
    AppendedEntries(cfg, s0, t, batch[..written], seqNo, []);
    assert t.log[|s.log|..|s.log| + written] == t.log[|s.log|..];
  }

  /** The records of a batch that was not finished leave the index of a replay where it was. */
  lemma {:induction false} OrphansWait(log: seq<Entry>, es: seq<Entry>, batch: seq<Staged>, seqNo: nat)
    requires MarkersNumbered(log) && SeqBounded(log, seqNo)
    requires EntriesFor(es, batch, seqNo + 1) && (forall i :: 0 <= i < |batch| ==> batch[i].kind != TxnFinished)
    ensures Replay(log + es).index == Replay(log).index
    ensures Replay(log + es).reclaim == Replay(log).reclaim
  {
    ReplayConcat(EMPTY, log, es);
    if |es| > 0 {
      FreshSeqNo(log, seqNo);
      UnfinishedBatchWaits(Replay(log), es, seqNo + 1);
    }
  }

  lemma {:induction false} AbortGrows(cfg: Config, s: Store, batch: seq<Staged>, written: nat)
    requires FilesOk(cfg, s) && ValidBatch(batch) && written <= |batch|
    ensures Grown(s, AbortStep(cfg, s, batch, written))
  {
    hide AppendAll, FilesOk;
    AbortAppends(cfg, s, batch, written);
    var t := AbortStep(cfg, s, batch, written);
    var es := t.log[|s.log|..];
    forall i | |s.log| <= i < |t.log| ensures t.log[i].rec.seqNo == s.seqNo + 1 {
      assert t.log[i] == es[i - |s.log|];
    }
  }

  lemma {:induction false} AbortKeepsInv(cfg: Config, s: Store, batch: seq<Staged>, written: nat)
    requires Inv(cfg, s) && ValidBatch(batch) && written <= |batch|
    ensures Inv(cfg, AbortStep(cfg, s, batch, written))
    ensures AbortStep(cfg, s, batch, written).index == s.index
  {
    hide AppendAll, HintOk, JobOk, DirOk, AtEnd, Replay, Ordered, WfEntry, Grown, Below;
    var t := AbortStep(cfg, s, batch, written);
    AbortAppends(cfg, s, batch, written);
    var es := t.log[|s.log|..];
    OrphansWait(s.log, es, batch[..written], s.seqNo);
    SeqBoundedConcat(s.log, es, s.seqNo, t.seqNo);
    AbortGrows(cfg, s, batch, written);
    Growth(cfg, s, t);
  }

  lemma {:induction false} SyncKeepsInv(cfg: Config, s: Store)
    requires Inv(cfg, s)
    ensures Inv(cfg, s.(synced := |s.log|))
  {
    hide HintOk, JobOk, DirOk, Replay;
    var t := s.(synced := |s.log|);
    SyncKeepsFiles(cfg, s, t);
    assert t.log[..|s.log|] == s.log;
    Growth(cfg, s, t);
  }
}
