/** `Open` as a step of the store: the invariant is kept and the client's map is found again. */
module Reopening {
  import opened Log
  import opened Engine
  import opened Invariant
  import opened MergeScan
  import opened Recovery

  /** The directory as `Open` finds it after a crash that kept the first `kept` entries. */
  function Survived(s: Store, kept: nat): Store
    requires kept <= |s.log|
  {
    s.(log := s.log[..kept], synced := if s.synced < kept then s.synced else kept, job := Idle)
  }

  /** The log `Open` reads after moving in merged files, if there are any. */
  function ReopenedLog(s: Store, kept: nat): seq<Entry>
    requires kept <= |s.log|
  {
    if s.dir.Finished? then Swapped(s.log[..kept], s.dir.barrier, s.dir.out) else s.log[..kept]
  }

  lemma {:induction false} WfConcat(cfg: Config, a: seq<Entry>, b: seq<Entry>, log: seq<Entry>)
    requires WfLog(cfg, a) && WfLog(cfg, log) && Ordered(a + b)
    requires forall e :: e in b ==> e in log
    ensures WfLog(cfg, a + b)
  {
    hide WfEntry, Ordered;
  }

  lemma {:induction false} NewerEntries(s: Store, kept: nat, barrier: nat)
    requires Ordered(s.log) && Below(s.log, barrier) <= kept <= |s.log|
    ensures
      var frozen := Below(s.log, barrier);
      var newer := s.log[..kept][frozen..];
      && |newer| == kept - frozen
      && (forall i :: 0 <= i < |newer| ==> newer[i] == s.log[frozen + i] && newer[i].pos.fid >= barrier)
      && (forall e :: e in newer ==> e in s.log)
  {
    hide Ordered, Below;
    BelowSplits(s.log, barrier);
  }

  lemma {:induction false} SwappedOk(cfg: Config, s: Store, kept: nat)
    requires Inv(cfg, s) && s.synced <= kept <= |s.log| && s.dir.Finished?
    ensures
      var log, n := ReopenedLog(s, kept), |s.dir.out.entries|;
      && WfLog(cfg, log) && Below(log, s.dir.barrier) == n && log[..n] == s.dir.out.entries
      && (forall e :: e in log ==> e.pos.fid <= s.active.fid)
      && Below(log, s.active.fid) - n <= Below(s.log, s.active.fid) - Below(s.log, s.dir.barrier) <= |log| - n
      && Below(s.log, s.dir.barrier) <= s.synced
  {
    hide Inv, WfLog, Stable, AtEnd, Ordered, Below;
    var b, copies := s.dir.barrier, s.dir.out.entries;
    FinishedParts(cfg, s);
    MergedFilesFit(cfg, s);
    FrozenIsStable(s, b);
    var frozen := Below(s.log, b);
    var newer := s.log[..kept][frozen..];
    var log := copies + newer;
    SwappedWf(cfg, s, kept);
    NewerEntries(s, kept, b);
    BelowIs(log, b, |copies|);
    CountNewer(log, s, |copies|, frozen, kept, b);
    NewerFids(s, kept, frozen);
  }

  lemma {:induction false} FinishedParts(cfg: Config, s: Store)
    requires Inv(cfg, s) && s.dir.Finished?
    ensures WfLog(cfg, s.log) && Ordered(s.log) && Stable(s) && AtEnd(s.log, s.active)
    ensures WfLog(cfg, s.dir.out.entries) && Ordered(s.dir.out.entries)
    ensures s.active.Active? && s.dir.barrier <= s.active.fid
  {
    hide Replay, WfEntry, CutOk, CopyOk, HintOk, JobOk, NotAhead, Merged, Ordered, IndexOk;
  }

  /** The log after the move is well formed. */
  lemma {:induction false} SwappedWf(cfg: Config, s: Store, kept: nat)
    requires Inv(cfg, s) && s.synced <= kept <= |s.log| && s.dir.Finished?
    ensures Below(s.log, s.dir.barrier) <= kept && Below(s.log[..kept], s.dir.barrier) == Below(s.log, s.dir.barrier)
    ensures WfLog(cfg, ReopenedLog(s, kept)) && Ordered(ReopenedLog(s, kept))
  {
    hide Inv, WfEntry, Ordered, Stable, AtEnd, Below;
    var b, copies := s.dir.barrier, s.dir.out.entries;
    FinishedParts(cfg, s);
    MergedFilesFit(cfg, s);
    FrozenIsStable(s, b);
    CutLog(cfg, s.log, kept, b);
    var newer := s.log[..kept][Below(s.log, b)..];
    NewerEntries(s, kept, b);
    SwappedOrdered(copies, newer, s.log[..kept], Below(s.log, b), b);
    WfConcat(cfg, copies, newer, s.log);
  }

  lemma {:induction false} NewerFids(s: Store, kept: nat, frozen: nat)
    requires AtEnd(s.log, s.active) && s.active.Active? && frozen <= kept <= |s.log|
    ensures forall e :: e in s.log[..kept][frozen..] ==> e.pos.fid <= s.active.fid
  {
    forall e | e in s.log[..kept][frozen..] ensures e in s.log {
    }
  }

  lemma {:induction false} SwappedOrdered(copies: seq<Entry>, newer: seq<Entry>, log: seq<Entry>, frozen: nat,
    barrier: nat)
    requires Ordered(copies) && Ordered(log) && frozen <= |log| && newer == log[frozen..]
    requires forall e :: e in copies ==> e.pos.fid < barrier
    requires forall i :: 0 <= i < |newer| ==> newer[i].pos.fid >= barrier
    ensures Ordered(copies + newer)
  {
    var all := copies + newer;
    forall i, j | 0 <= i < j < |all| ensures Before(all[i].pos, all[j].pos) {
      if j < |copies| {
        assert Before(copies[i].pos, copies[j].pos);
      } else if i < |copies| {
        assert copies[i] in copies;
      } else {
        assert Before(log[frozen + i - |copies|].pos, log[frozen + j - |copies|].pos);
      }
    }
    forall i | 0 <= i < |all| ensures all[i].pos.size > 0 {
      if i >= |copies| {
        assert all[i] == log[frozen + i - |copies|];
      }
    }
  }

  /** The entries of older files than the active one are as many after the swap, counted from the barrier. */
  lemma {:induction false} CountNewer(log: seq<Entry>, s: Store, n: nat, frozen: nat, kept: nat, barrier: nat)
    requires Ordered(s.log) && Ordered(log) && Stable(s) && s.synced <= kept <= |s.log|
    requires s.active.Active? && barrier <= s.active.fid && frozen == Below(s.log, barrier) <= kept
    requires |log| == n + kept - frozen
    requires forall i :: 0 <= i < n ==> log[i].pos.fid < barrier
    requires forall i :: n <= i < |log| ==> log[i] == s.log[frozen + i - n]
    ensures Below(log, s.active.fid) - n <= Below(s.log, s.active.fid) - frozen <= |log| - n
    ensures frozen <= Below(s.log, s.active.fid)
  {
    var a := Below(s.log, s.active.fid);
    BelowSplits(s.log, barrier);
    BelowSplits(s.log, s.active.fid);
    assert a < |s.log| ==> s.log[a].pos.fid >= s.active.fid;
    forall i | n <= i < |log| ensures log[i].pos.fid < s.active.fid <==> frozen + i - n < a {
      assert log[i] == s.log[frozen + i - n];
    }
    BelowIs(log, s.active.fid, n + a - frozen);
  }

  /** What `Open` reads is well formed, whichever case applies, and its index is the replay of the log it reads. */
  lemma {:induction false} ReopenedFiles(cfg: Config, s: Store, kept: nat)
    requires Inv(cfg, s) && s.synced <= kept <= |s.log|
    ensures
      var t := ReopenStep(s, kept);
      && t.log == ReopenedLog(s, kept) && FilesOk(cfg, t) && HintOk(t)
      && LoadIndex(LoadMergeFiles(Survived(s, kept))) == Replay(t.log)
  {
    hide Inv, FilesOk, HintOk, ReopenedLog, Replay, Merged, Below, LoadIndex;
    var d, t := LoadMergeFiles(Survived(s, kept)), ReopenStep(s, kept);
    if s.dir.Finished? {
      MovedFilesOk(cfg, s, kept);
    } else {
      KeptFilesOk(cfg, s, kept);
    }
    HintParts(t);
    LoadIsReplay(d);
  }

  lemma {:induction false} HintParts(t: Store)
    requires HintOk(t)
    ensures t.hint == t.log[..Below(t.log, t.barrier)] && Merged(t.hint)
  {
  }

  lemma {:induction false} MovedFilesOk(cfg: Config, s: Store, kept: nat)
    requires Inv(cfg, s) && s.synced <= kept <= |s.log| && s.dir.Finished?
    ensures
      var t := ReopenStep(s, kept);
      t.log == ReopenedLog(s, kept) && FilesOk(cfg, t) && HintOk(t)
  {
    hide Replay, WfEntry, CutOk, CopyOk, JobOk, IndexOk, Ordered, Merged, LoadIndex, Below, MarkersNumbered, NotAhead;
    FrozenIsStable(s, s.dir.barrier);
    CutLog(cfg, s.log, kept, s.dir.barrier);
    SwappedOk(cfg, s, kept);
  }

  lemma {:induction false} KeptFilesOk(cfg: Config, s: Store, kept: nat)
    requires Inv(cfg, s) && s.synced <= kept <= |s.log| && !s.dir.Finished?
    ensures
      var t := ReopenStep(s, kept);
      t.log == ReopenedLog(s, kept) && FilesOk(cfg, t) && HintOk(t)
  {
    hide Replay, WfEntry, CutOk, JobOk, IndexOk, DirOk, Ordered, Merged, LoadIndex, Below, MarkersNumbered;
    FrozenIsStable(s, s.barrier);
    CutLog(cfg, s.log, kept, s.barrier);
    CutLog(cfg, s.log, kept, ActiveFid(s.active));
  }

  lemma {:induction false} ReopenKeepsInv(cfg: Config, s: Store, kept: nat)
    requires Inv(cfg, s) && s.synced <= kept <= |s.log|
    ensures Inv(cfg, ReopenStep(s, kept))
    ensures ReopenStep(s, kept).log == ReopenedLog(s, kept)
    ensures ReopenStep(s, kept).reclaim == Replay(ReopenedLog(s, kept)).reclaim
  {
    hide Replay, FilesOk, HintOk, LoadIndex, LoadMergeFiles, DirOk, ReplayFrom, ReopenedLog;
    ReopenedFiles(cfg, s, kept);
    var t := ReopenStep(s, kept);
    NothingUnnumbered(cfg, t);
    ReplaySound(t.log);
    DirEmpty(cfg, s, kept);
  }

  lemma {:induction false} NothingUnnumbered(cfg: Config, t: Store)
    requires FilesOk(cfg, t)
    ensures MarkersNumbered(t.log)
  {
  }

  lemma {:induction false} DirEmpty(cfg: Config, s: Store, kept: nat)
    requires kept <= |s.log|
    ensures DirOk(cfg, ReopenStep(s, kept)) && JobOk(cfg, ReopenStep(s, kept))
  {
    hide LoadIndex;
  }

  /**
   * Recovered index equals live index: a restart without a finished merge finds exactly the live
   * key-to-position map, and a write offset equal to the active file's length.
   */
  lemma {:induction false} RestartFindsLiveIndex(cfg: Config, s: Store)
    requires Inv(cfg, s) && !s.dir.Finished?
    ensures
      var t := ReopenStep(s, |s.log|);
      t.index == s.index && t.log == s.log && t.active == s.active && t.hint == s.hint && t.barrier == s.barrier
  {
    hide Replay, HintOk, JobOk, LoadIndex, WfEntry, Ordered;
    ReopenedFiles(cfg, s, |s.log|);
    assert s.log[..|s.log|] == s.log;
  }

  /**
   * A crash or restart with a finished merge: the map of the surviving log is found again
   * if and only if the merge copied every frozen position that the surviving log still uses.
   */
  lemma {:induction false} MergeThenCrash(cfg: Config, s: Store, kept: nat)
    requires Inv(cfg, s) && s.synced <= kept <= |s.log| && s.dir.Finished?
    ensures View(ReopenStep(s, kept).index) == View(Replay(s.log[..kept]).index)
       <==> AllCopied(Replay(s.log[..kept]).index, s.dir.barrier, s.dir.out)
  {
    hide Replay, HintOk, JobOk, LoadIndex, WfEntry, Ordered, CutOk, OutOk, View;
    FrozenIsStable(s, s.dir.barrier);
    CutLog(cfg, s.log, kept, s.dir.barrier);
    CutOut(cfg, s.log, kept, s.dir.barrier, s.dir.out);
    MergeRecovery(cfg, s.log[..kept], s.dir.barrier, s.dir.out);
    ReopenedFiles(cfg, s, kept);
  }

  /**
   * Merge is invisible: after a restart the client's map is the one of the live store just before,
   * whether a merge finished, did not finish, or never ran, and whatever was written while it scanned.
   */
  lemma {:induction false} RestartKeepsView(cfg: Config, s: Store)
    requires Inv(cfg, s)
    ensures View(ReopenStep(s, |s.log|).index) == View(s.index)
  {
    hide Replay, HintOk, JobOk, LoadIndex, OutOk, View, ReopenStep, BarrierOk;
    if s.dir.Finished? {
      MergeThenCrash(cfg, s, |s.log|);
      assert s.log[..|s.log|] == s.log;
    } else {
      RestartFindsLiveIndex(cfg, s);
    }
  }
}
