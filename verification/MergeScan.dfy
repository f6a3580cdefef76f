/** The steps of a running merge: freezing, scanning beside the writers, finishing (merge.go). */
module MergeScan {
  import opened Log
  import opened Engine
  import opened Invariant

  // ---------------------------------------------------------------- positions that left the index stay away

  lemma {:induction false} ApplyAllKeepsOld(index: map<Key, Entry>, es: seq<Entry>, barrier: nat, k: Key)
    requires forall e :: e in es ==> e.pos.fid >= barrier
    requires k in ApplyAll(index, es) && ApplyAll(index, es)[k].pos.fid < barrier
    ensures k in index && index[k] == ApplyAll(index, es)[k]
  {
    if |es| > 0 {
      var front, last := es[..|es| - 1], es[|es| - 1];
      assert last in es;
      ApplyAllKeepsOld(index, front, barrier, k);
    }
  }

  /** A step of the replay at a newer file can only drop old positions, never bring one back. */
  lemma {:induction false} StepKeepsOld(log: seq<Entry>, e: Entry, barrier: nat, k: Key)
    requires MarkersNumbered(log) && CutOk(log + [e], barrier) && e.pos.fid >= barrier
    requires k in Replay(log + [e]).index && Replay(log + [e]).index[k].pos.fid < barrier
    ensures k in Replay(log).index && Replay(log).index[k] == Replay(log + [e]).index[k]
  {
    hide UpdateAll;
    ReplayAppend(log, e);
    var st := Replay(log);
    if e.rec.seqNo > 0 && e.rec.kind == TxnFinished {
      var es := PendingOf(st, e.rec.seqNo);
      ReplaySound(log);
      forall x | x in es ensures x.pos.fid >= barrier {
        assert x in log + [e] && e in log + [e];
      }
      UpdateAllIndex(st, es);
      ApplyAllKeepsOld(st.index, es, barrier, k);
    }
  }

  /** An index entry below the barrier has been there since the freeze. */
  lemma {:induction false} OldEntryWasFrozen(log: seq<Entry>, barrier: nat, k: Key)
    requires Ordered(log) && MarkersNumbered(log) && CutOk(log, barrier)
    requires k in Replay(log).index && Replay(log).index[k].pos.fid < barrier
    ensures k in FrozenIndex(log, barrier) && FrozenIndex(log, barrier)[k] == Replay(log).index[k]
    decreases |log|
  {
    hide ReplayStep, Ordered, CutOk, MarkersNumbered;
    if Below(log, barrier) == |log| {
      assert log[..|log|] == log;
    } else {
      var front, last := log[..|log| - 1], log[|log| - 1];
      Shorter(log, barrier);
      assert front + [last] == log;
      StepKeepsOld(front, last, barrier, k);
      OldEntryWasFrozen(front, barrier, k);
      assert log[..Below(log, barrier)] == front[..Below(front, barrier)];
    }
  }

  lemma {:induction false} Shorter(log: seq<Entry>, barrier: nat)
    requires Ordered(log) && MarkersNumbered(log) && CutOk(log, barrier) && Below(log, barrier) < |log|
    ensures
      var front := log[..|log| - 1];
      && Ordered(front) && MarkersNumbered(front) && CutOk(front, barrier)
      && Below(front, barrier) == Below(log, barrier)
      && log[|log| - 1].pos.fid >= barrier
  {
    BelowSplits(log, barrier);
    var front := log[..|log| - 1];
    forall e | e in front ensures e in log {
    }
  }

  // ---------------------------------------------------------------- the merge instance never gets ahead

  /**
   * Packing in order never overtakes: appending a copy that is no longer than its original
   * ends no later, file by file and byte by byte, than the original does.
   */
  lemma {:induction false} PackingStaysBehind(cfg: Config, log: seq<Entry>, scanned: nat, out: Output, size: nat)
    requires WfLog(cfg, log) && scanned < |log| && NotAhead(out, log, scanned)
    requires 0 < size <= log[scanned].pos.size
    requires out.active.Active? ==> out.active.fill > 0
    ensures
      var end := Advance(Target(cfg.maxFile, out.active, size), size);
      var p := log[scanned].pos;
      end.fid < p.fid || (end.fid == p.fid && end.fill <= p.offset + p.size)
  {
    hide Size;
    assert WfEntry(cfg, log[scanned]) by {
      assert log[scanned] in log;
    }
    if scanned > 0 {
      assert Before(log[scanned - 1].pos, log[scanned].pos);
    }
  }

  lemma {:induction false} NotAheadNext(cfg: Config, log: seq<Entry>, scanned: nat, out: Output)
    requires WfLog(cfg, log) && scanned < |log| && NotAhead(out, log, scanned)
    ensures NotAhead(out, log, scanned + 1)
  {
    if scanned > 0 {
      assert Before(log[scanned - 1].pos, log[scanned].pos);
    }
  }

  // ---------------------------------------------------------------- one turn of the scan loop

  lemma {:induction false} LiveMeansIndexed(s: Store, e: Entry)
    requires Ordered(s.log) && MarkersNumbered(s.log) && IndexOk(s) && e in s.log
    ensures IsLive(s.index, e) ==> s.index[e.rec.key] == e && e.rec.kind == Normal
    ensures e.rec.key in s.index && s.index[e.rec.key] == e ==> IsLive(s.index, e)
  {
    hide Replay;
    ReplaySound(s.log);
    if IsLive(s.index, e) {
      var f := s.index[e.rec.key];
      var i :| 0 <= i < |s.log| && s.log[i] == e;
      var j :| 0 <= j < |s.log| && s.log[j] == f;
      SamePlace(s.log, i, j);
    }
  }

  lemma {:induction false} SamePlace(log: seq<Entry>, i: nat, j: nat)
    requires Ordered(log) && i < |log| && j < |log|
    requires log[i].pos.fid == log[j].pos.fid && log[i].pos.offset == log[j].pos.offset
    ensures i == j
  {
    assert i < j ==> Before(log[i].pos, log[j].pos);
    assert j < i ==> Before(log[j].pos, log[i].pos);
  }

  lemma {:induction false} CopyOkNext(log: seq<Entry>, barrier: nat, scanned: nat, e: Entry)
    requires scanned < |log| && CopyOk(log, barrier, scanned, e)
    ensures CopyOk(log, barrier, scanned + 1, e)
  {
    hide Replay;
    var f := FrozenIndex(log, barrier)[e.rec.key];
    var i :| 0 <= i < scanned && log[..scanned][i] == f;
    assert log[..scanned + 1][i] == f;
  }

  /** A live entry has not been copied before: its key's frozen position is this very one. */
  lemma {:induction false} NotCopiedYet(cfg: Config, s: Store, barrier: nat, scanned: nat, out: Output)
    requires FilesOk(cfg, s) && IndexOk(s) && BarrierOk(s, barrier) && scanned < Below(s.log, barrier)
    requires OutOk(cfg, s.log, barrier, scanned, out)
    requires IsLive(s.index, s.log[scanned])
    ensures !Copied(out, s.log[scanned].rec.key)
    ensures CopyOk(s.log, barrier, scanned + 1, s.log[scanned])
    ensures s.log[scanned].rec.kind == Normal
  {
    hide Replay, WfEntry, AtEnd, NotAhead, Merged;
    var e := s.log[scanned];
    BelowSplits(s.log, barrier);
    LiveMeansIndexed(s, e);
    OldEntryWasFrozen(s.log, barrier, e.rec.key);
    assert FrozenIndex(s.log, barrier)[e.rec.key] == e;
    assert s.log[..scanned + 1][scanned] == e;
    forall i | 0 <= i < scanned ensures s.log[..scanned][i] != e {
      assert Before(s.log[i].pos, e.pos);
    }
    forall x | x in out.entries ensures x.rec.key != e.rec.key {
      assert CopyOk(s.log, barrier, scanned, x);
    }
  }

  lemma {:induction false} MergedAppend(log: seq<Entry>, e: Entry)
    requires Merged(log) && e.rec.kind == Normal && e.rec.seqNo == 0
    requires forall x :: x in log ==> x.rec.key != e.rec.key
    ensures Merged(log + [e])
  {
    forall i | 0 <= i < |log| ensures log[i].rec.key != e.rec.key {
      assert log[i] in log;
    }
  }

  lemma {:induction false} RewriteOk(cfg: Config, s: Store, barrier: nat, scanned: nat, out: Output)
    requires FilesOk(cfg, s) && IndexOk(s) && BarrierOk(s, barrier) && scanned < Below(s.log, barrier)
    requires OutOk(cfg, s.log, barrier, scanned, out)
    requires IsLive(s.index, s.log[scanned])
    ensures OutOk(cfg, s.log, barrier, scanned + 1, Rewrite(cfg, out, s.log[scanned]))
  {
    hide Replay, Size, Below, Target, FrozenIndex, CutOk, Ordered, Stable;
    var e, next := s.log[scanned], Rewrite(cfg, out, s.log[scanned]);
    var rec := e.rec.(seqNo := 0);
    var copy := next.entries[|out.entries|];
    NotCopiedYet(cfg, s, barrier, scanned, out);
    PlaceOk(cfg, out.entries, out.active, rec);
    MergedAppend(out.entries, copy);
    RewriteIsNoLonger(e.rec);
    FilledActive(cfg, out);
    assert WfEntry(cfg, e) by {
      assert e in s.log;
    }
    PackingStaysBehind(cfg, s.log, scanned, out, Size(rec));
    forall x | x in next.entries ensures CopyOk(s.log, barrier, scanned + 1, x) {
      if x in out.entries {
        CopyOkNext(s.log, barrier, scanned, x);
      }
    }
  }

  lemma {:induction false} FilledActive(cfg: Config, out: Output)
    requires WfLog(cfg, out.entries) && AtEnd(out.entries, out.active) && LastIsActive(out)
    ensures out.active.Active? ==> out.active.fill > 0
  {
    hide WfEntry;
  }

  lemma {:induction false} SkipOk(cfg: Config, log: seq<Entry>, barrier: nat, scanned: nat, out: Output)
    requires WfLog(cfg, log) && scanned < |log| && OutOk(cfg, log, barrier, scanned, out)
    ensures OutOk(cfg, log, barrier, scanned + 1, out)
  {
    hide WfLog, AtEnd, Merged, CopyOk;
    NotAheadNext(cfg, log, scanned, out);
    forall x | x in out.entries ensures CopyOk(log, barrier, scanned + 1, x) {
      CopyOkNext(log, barrier, scanned, x);
    }
  }

  lemma {:induction false} ScanCoverage(cfg: Config, s: Store)
    requires FilesOk(cfg, s) && IndexOk(s) && JobOk(cfg, s) && Enabled(s, MergeScan)
    ensures
      var n := s.job.scanned;
      var out := MergeScanStep(cfg, s).job.out;
      forall k :: k in s.index && s.index[k] in s.log[..n + 1] ==> Copied(out, k)
  {
    hide Replay, WfEntry, OutOk, BarrierOk, AtEnd, Stable;
    var n := s.job.scanned;
    var e, out := s.log[n], MergeScanStep(cfg, s).job.out;
    ReplaySound(s.log);
    forall k | k in s.index && s.index[k] in s.log[..n + 1] ensures Copied(out, k) {
      if s.index[k] == e {
        LiveMeansIndexed(s, e);
        assert out.entries[|s.job.out.entries|].rec.key == k;
      } else {
        var i :| 0 <= i < n + 1 && s.log[..n + 1][i] == s.index[k];
        assert s.log[..n][i] == s.index[k];
        var x :| x in s.job.out.entries && x.rec.key == k;
        assert x in out.entries;
      }
    }
  }

  lemma {:induction false} MergeScanKeepsInv(cfg: Config, s: Store)
    requires Inv(cfg, s) && Enabled(s, MergeScan)
    ensures Inv(cfg, MergeScanStep(cfg, s))
  {
    hide Replay, WfEntry, OutOk, BarrierOk, Ordered, HintOk, CopyOk;
    ScanCoverage(cfg, s);
    var b, n, out := s.job.barrier, s.job.scanned, s.job.out;
    if IsLive(s.index, s.log[n]) {
      RewriteOk(cfg, s, b, n, out);
    } else {
      SkipOk(cfg, s.log, b, n, out);
    }
    var t := MergeScanStep(cfg, s);
    assert BarrierOk(t, b) by {
      BarrierDepends(s, t, b);
    }
    DirDepends(cfg, s, t);
    HintDepends(s, t);
  }

  lemma {:induction false} BarrierDepends(s: Store, t: Store, barrier: nat)
    requires BarrierOk(s, barrier) && t.log == s.log && t.active == s.active
    ensures BarrierOk(t, barrier)
  {
  }

  lemma {:induction false} DirDepends(cfg: Config, s: Store, t: Store)
    requires DirOk(cfg, s) && t.log == s.log && t.active == s.active && t.index == s.index && t.dir == s.dir
    ensures DirOk(cfg, t)
  {
    hide OutOk, CutOk;
  }

  lemma {:induction false} HintDepends(s: Store, t: Store)
    requires HintOk(s) && t.log == s.log && t.hint == s.hint && t.barrier == s.barrier
    requires s.active.Active? ==> t.active.Active? && t.active.fid >= s.active.fid
    ensures HintOk(t)
  {
  }

  // ---------------------------------------------------------------- begin, open, finish

  /** Freezing under the lock: no record lies at or above the new barrier, so no batch can straddle it. */
  lemma {:induction false} MergeBeginKeepsInv(cfg: Config, s: Store)
    requires Inv(cfg, s) && Enabled(s, MergeBegin)
    ensures Inv(cfg, MergeBeginStep(s))
  {
    hide Replay, WfEntry, OutOk, Ordered;
    var t := MergeBeginStep(s);
    if |s.log| > 0 {
      assert s.log[|s.log| - 1] in s.log;
    }
    assert CutOk(t.log, t.job.barrier);
    HintDepends(s, t);
  }

  lemma {:induction false} MergeOpenKeepsInv(cfg: Config, s: Store)
    requires Inv(cfg, s) && Enabled(s, MergeOpen)
    ensures Inv(cfg, MergeOpenStep(s))
  {
    hide Replay, CutOk, HintOk;
    var t := MergeOpenStep(s);
    HintDepends(s, t);
    BarrierDepends(s, t, s.job.barrier);
  }

  lemma {:induction false} MergeFinishKeepsInv(cfg: Config, s: Store)
    requires Inv(cfg, s) && Enabled(s, MergeFinish)
    ensures Inv(cfg, MergeFinishStep(s))
  {
    hide Replay, WfEntry, OutOk, CutOk, HintOk;
    var t, b := MergeFinishStep(s), s.job.barrier;
    BelowSplits(s.log, b);
    ReplaySound(s.log);
    forall k | k in s.index && s.index[k].pos.fid < b ensures Copied(s.job.out, k) {
      var i :| 0 <= i < |s.log| && s.log[i] == s.index[k];
      assert s.log[..s.job.scanned][i] == s.index[k];
    }
    HintDepends(s, t);
    BarrierDepends(s, t, b);
  }

  lemma {:induction false} MergeAbortKeepsInv(cfg: Config, s: Store)
    requires Inv(cfg, s)
    ensures Inv(cfg, s.(job := Idle))
  {
    hide Replay, WfEntry, OutOk, CutOk, HintOk;
    var t := s.(job := Idle);
    HintDepends(s, t);
    DirDepends(cfg, s, t);
  }

  /**
   * The merged files fit under the barrier: no file the merge writes has an id at or above it,
   * so moving them into the data directory overwrites no newer file.
   */
  lemma {:induction false} MergedFilesFit(cfg: Config, s: Store)
    requires Inv(cfg, s)
    ensures s.job.Scanning? && s.job.out.active.Active? ==> s.job.out.active.fid < s.job.barrier
    ensures s.job.Scanning? ==> forall e :: e in s.job.out.entries ==> e.pos.fid < s.job.barrier
    ensures s.dir.Finished? && s.dir.out.active.Active? ==> s.dir.out.active.fid < s.dir.barrier
    ensures s.dir.Finished? ==> forall e :: e in s.dir.out.entries ==> e.pos.fid < s.dir.barrier
  {
    hide Replay, WfEntry, CutOk, HintOk;
    if s.job.Scanning? {
      BelowSplits(s.log, s.job.barrier);
    }
    if s.dir.Finished? {
      BelowSplits(s.log, s.dir.barrier);
    }
  }
}
