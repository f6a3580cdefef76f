/** When a data file is full: db.go:386-405. */
module Rotation {
  import opened LogRecords
  import opened Log
  import opened Engine
  import opened Invariant
  import opened Runs
  import Reopening

  /** An append puts its record at the end of the active file if it fits there, else at the start of the next. */
  lemma {:induction false} AppendPlace(cfg: Config, s: Store, rec: Record)
    ensures
      var t, fid, fill := Append(cfg, s, rec), ActiveFid(s.active), if s.active.NoFile? then 0 else s.active.fill;
      && |t.log| == |s.log| + 1 && t.log[|s.log|].rec == rec
      && t.log[|s.log|].pos
         == (if fill + Size(rec) <= cfg.maxFile then Pos(fid, fill, Size(rec)) else Pos(fid + 1, 0, Size(rec)))
  {
    hide Size;
  }

  /** A record starts a new file only if it would not have fitted behind the one before it. */
  predicate Tight(maxFile: nat, log: seq<Entry>) {
    forall i :: 0 < i < |log| && log[i - 1].pos.fid < log[i].pos.fid ==>
      log[i - 1].pos.offset + log[i - 1].pos.size + log[i].pos.size > maxFile
  }

  /** No merge has touched the files, the log is tight, and the active file ends with its last record. */
  predicate Packed(cfg: Config, s: Store) {
    && s.job.Idle? && !s.dir.Finished? && Tight(cfg.maxFile, s.log)
    && (|s.log| > 0 ==>
          var last := s.log[|s.log| - 1].pos;
          s.active == Active(last.fid, last.offset + last.size))
    && (|s.log| == 0 ==> s.active.NoFile?)
  }

  lemma {:induction false} AppendPacked(cfg: Config, s: Store, rec: Record)
    requires Packed(cfg, s)
    ensures Packed(cfg, Append(cfg, s, rec))
  {
    hide Size;
    var t := Append(cfg, s, rec);
    forall i | 0 < i < |t.log| && t.log[i - 1].pos.fid < t.log[i].pos.fid
      ensures t.log[i - 1].pos.offset + t.log[i - 1].pos.size + t.log[i].pos.size > cfg.maxFile
    {
      if i < |s.log| {
        assert t.log[i - 1] == s.log[i - 1] && t.log[i] == s.log[i];
      }
    }
  }

  lemma {:induction false} AppendAllPacked(cfg: Config, s: Store, recs: seq<Record>)
    requires Packed(cfg, s)
    ensures Packed(cfg, AppendAll(cfg, s, recs))
  {
    hide Append, Packed;
    if |recs| > 0 {
      AppendAllPacked(cfg, s, recs[..|recs| - 1]);
      AppendPacked(cfg, AppendAll(cfg, s, recs[..|recs| - 1]), recs[|recs| - 1]);
    }
  }

  lemma {:induction false} SamePacked(cfg: Config, s: Store, t: Store)
    requires Packed(cfg, s) && t.log == s.log && t.active == s.active && t.job == s.job && !t.dir.Finished?
    ensures Packed(cfg, t)
  {
  }

  lemma {:induction false} BatchPacked(cfg: Config, s: Store, recs: seq<Record>)
    requires Packed(cfg, s)
    ensures Packed(cfg, AppendAll(cfg, s.(seqNo := s.seqNo + 1), recs))
  {
    hide AppendAll;
    SamePacked(cfg, s, s.(seqNo := s.seqNo + 1));
    AppendAllPacked(cfg, s.(seqNo := s.seqNo + 1), recs);
  }

  lemma {:induction false} NotMerging(cfg: Config, s: Store)
    requires Packed(cfg, s)
    ensures s.job.Idle? && !s.dir.Finished?
  {
  }

  /** Steps that neither freeze the active file nor cut it. */
  predicate KeepsPacking(l: Label) {
    !l.MergeBegin? && !l.Crash?
  }

  lemma {:induction false} PutPacked(cfg: Config, s: Store, key: Key, value: Value)
    requires Packed(cfg, s)
    ensures Packed(cfg, PutStep(cfg, s, key, value))
  {
    NotMerging(cfg, s);
    AppendPacked(cfg, s, Record(0, key, value, Normal));
    hide Packed;
    SamePacked(cfg, Append(cfg, s, Record(0, key, value, Normal)), PutStep(cfg, s, key, value));
  }

  lemma {:induction false} DeletePacked(cfg: Config, s: Store, key: Key)
    requires Packed(cfg, s)
    ensures Packed(cfg, DeleteStep(cfg, s, key))
  {
    if key in s.index {
      NotMerging(cfg, s);
      AppendPacked(cfg, s, Record(0, key, [], Deleted));
      hide Packed;
      SamePacked(cfg, Append(cfg, s, Record(0, key, [], Deleted)), DeleteStep(cfg, s, key));
    }
  }

  lemma {:induction false} CommitPacked(cfg: Config, s: Store, batch: seq<Staged>, order: seq<nat>, sync: bool)
    requires Packed(cfg, s) && Permutation(order, |batch|)
    ensures Packed(cfg, CommitStep(cfg, s, batch, order, sync))
  {
    hide Packed, Append, AppendAll, RecordsOf, ApplyAll, Freed, Permutation, BatchEntries, Reorder;
    BatchPacked(cfg, s, RecordsOf(batch, s.seqNo + 1));
    AppendPacked(cfg, AppendAll(cfg, s.(seqNo := s.seqNo + 1), RecordsOf(batch, s.seqNo + 1)),
                 FinishRecord(s.seqNo + 1));
    NotMerging(cfg, CommitLog(cfg, s, batch));
    SamePacked(cfg, CommitLog(cfg, s, batch), CommitStep(cfg, s, batch, order, sync));
  }

  lemma {:induction false} AbortPacked(cfg: Config, s: Store, batch: seq<Staged>, written: nat)
    requires Packed(cfg, s) && written <= |batch|
    ensures Packed(cfg, AbortStep(cfg, s, batch, written))
  {
    hide Packed, AppendAll, RecordsOf;
    BatchPacked(cfg, s, RecordsOf(batch[..written], s.seqNo + 1));
  }

  lemma {:induction false} SyncPacked(cfg: Config, s: Store)
    requires Packed(cfg, s)
    ensures Packed(cfg, s.(synced := |s.log|))
  {
  }

  lemma {:induction false} RestartPacked(cfg: Config, s: Store)
    requires Inv(cfg, s) && Packed(cfg, s)
    ensures Packed(cfg, ReopenStep(s, |s.log|))
  {
    NotMerging(cfg, s);
    hide Inv, Packed, LoadIndex;
    Reopening.RestartFindsLiveIndex(cfg, s);
    SamePacked(cfg, s, ReopenStep(s, |s.log|));
  }

  lemma {:induction false} StepPacked(cfg: Config, s: Store, l: Label)
    requires Inv(cfg, s) && Packed(cfg, s) && Enabled(s, l) && KeepsPacking(l)
    ensures Packed(cfg, Step(cfg, s, l))
  {
    NotMerging(cfg, s);
    hide Inv, Packed, Permutation, ValidBatch, PutStep, DeleteStep, CommitStep, AbortStep, ReopenStep;
    hide MergeBeginStep, MergeOpenStep, MergeScanStep, MergeFinishStep;
    match l
    case Put(key, value) => PutPacked(cfg, s, key, value);
    case Delete(key) => DeletePacked(cfg, s, key);
    case Commit(batch, order, sync) => CommitPacked(cfg, s, batch, order, sync);
    case AbortedCommit(batch, written) => AbortPacked(cfg, s, batch, written);
    case Sync => SyncPacked(cfg, s);
    case Restart => RestartPacked(cfg, s);
    case MergeBegin =>
    case MergeOpen =>
    case MergeScan =>
    case MergeFinish =>
    case MergeAbort =>
    case Crash(_) =>
  }

  predicate NoFreeze(ls: seq<Label>) {
    forall i :: 0 <= i < |ls| ==> KeepsPacking(ls[i])
  }

  /**
   * After any run without merges and crashes, restarts included, a data file is followed by another one only if the
   * record that begins there would not have fitted any more.
   */
  lemma {:induction false} NoEarlyRotation(cfg: Config, ls: seq<Label>)
    requires Exec(cfg, ls).Some? && NoFreeze(ls)
    ensures Packed(cfg, Exec(cfg, ls).value) && Tight(cfg.maxFile, Exec(cfg, ls).value.log)
  {
    hide Inv, Step, Enabled, Packed, Tight, KeepsPacking;
    if |ls| == 0 {
      NothingPacked(cfg);
    } else {
      var front := ls[..|ls| - 1];
      assert forall i :: 0 <= i < |front| ==> front[i] == ls[i];
      NoEarlyRotation(cfg, front);
      ReachableOk(cfg, front);
      StepPacked(cfg, Exec(cfg, front).value, ls[|ls| - 1]);
    }
    PackedIsTight(cfg, Exec(cfg, ls).value);
  }

  lemma {:induction false} NothingPacked(cfg: Config)
    ensures Packed(cfg, NEW_STORE)
  {
  }

  lemma {:induction false} PackedIsTight(cfg: Config, s: Store)
    requires Packed(cfg, s)
    ensures Tight(cfg.maxFile, s.log)
  {
  }
}
