/** Which crashes a finished merge survives, and that acknowledged operations stay through any later run. */
module Durability {
  import opened Log
  import opened Engine
  import opened Invariant
  import opened Recovery
  import opened Reopening
  import opened Runs
  import opened History

  // ---------------------------------------------------------------- crashes after a finished merge

  /**
   * After a finished merge every crash leaves the map of the log that survives it, if and only if the copies
   * cover what the synced part of the log uses: a condition on the store before the crash.
   */
  lemma {:induction false} MergeSafeForCrashes(cfg: Config, s: Store)
    requires Inv(cfg, s) && s.dir.Finished?
    ensures (forall kept :: s.synced <= kept <= |s.log| ==>
               View(ReopenStep(s, kept).index) == View(Replay(s.log[..kept]).index))
       <==> AllCopied(Replay(s.log[..s.synced]).index, s.dir.barrier, s.dir.out)
  {
    hide Replay, View, ReopenStep, AllCopied, WfLog, CutOk, Stable, Below;
    FinishedFrozen(cfg, s);
    var synced := s.synced;
    MergeThenCrash(cfg, s, synced);
    forall kept | synced <= kept <= |s.log| && AllCopied(Replay(s.log[..synced]).index, s.dir.barrier, s.dir.out)
      ensures View(ReopenStep(s, kept).index) == View(Replay(s.log[..kept]).index)
    {
      CoverageAtLongerLogs(cfg, s.log, s.dir.barrier, s.dir.out, synced, kept);
      MergeThenCrash(cfg, s, kept);
    }
  }

  lemma {:induction false} FinishedFrozen(cfg: Config, s: Store)
    requires Inv(cfg, s) && s.dir.Finished?
    ensures WfLog(cfg, s.log) && CutOk(s.log, s.dir.barrier)
    ensures Below(s.log, s.dir.barrier) <= s.synced <= |s.log|
    ensures AllCopied(Replay(s.log).index, s.dir.barrier, s.dir.out)
  {
    hide Replay, WfEntry, HintOk, JobOk, OutOk, IndexOk, CutOk, Below, AllCopied;
    NewlyFinished(cfg, s);
    FrozenIsStable(s, s.dir.barrier);
  }

  /** In particular when everything written while the merge ran has been synced. */
  lemma {:induction false} SyncedStoreIsSafe(cfg: Config, s: Store, kept: nat)
    requires Inv(cfg, s) && s.dir.Finished? && s.synced <= kept <= |s.log|
    requires s.synced == |s.log|
    ensures View(ReopenStep(s, kept).index) == View(s.index)
  {
    hide Inv, View, ReopenStep;
    RestartKeepsView(cfg, s);
  }

  /**
   * The floor that a merge sets is exact: a crash right after it is covered if and only if
   * it leaves the map of the log that survives.
   */
  lemma {:induction false} FloorIsExact(cfg: Config, h: Tracked, kept: nat)
    requires TrackedOk(cfg, h) && Enabled(h.store, MergeFinish) && h.floor <= h.store.synced <= kept <= |h.store.log|
    ensures TrackedStep(cfg, h, MergeFinish).store.log == h.store.log
    ensures
      var next := TrackedStep(cfg, h, MergeFinish);
      CrashCovered(next, Crash(kept)) <==>
        View(ReopenStep(next.store, kept).index) == View(Replay(next.store.log[..kept]).index)
  {
    hide Replay, View, ReopenStep, AllCopied, WfLog, CutOk, Below, Inv, EndsOk, PrefixConsistent;
    var next := TrackedStep(cfg, h, MergeFinish);
    TrackedStepOk(cfg, h, MergeFinish);
    FinishSetsDir(cfg, h.store);
    FinishedFrozen(cfg, next.store);
    MergeThenCrash(cfg, next.store, kept);
    if next.floor <= kept {
      CoverageAtLongerLogs(cfg, next.store.log, next.store.dir.barrier, next.store.dir.out, next.floor, kept);
    } else {
      assert !AllCopied(Replay(h.store.log[..kept]).index, h.store.job.barrier, h.store.job.out);
    }
  }

  // ---------------------------------------------------------------- acknowledged operations

  /** The first i operations are out of reach of every crash that the history covers. */
  predicate Durable(h: Tracked, i: nat) {
    i <= |h.ops| && |h.ends| == |h.ops| + 1 && (h.ends[i] <= h.store.synced || h.ends[i] <= h.floor)
  }

  lemma {:induction false} DurableGrows(cfg: Config, h: Tracked, l: Label, i: nat)
    requires TrackedOk(cfg, h) && Enabled(h.store, l) && !l.Restart? && !l.Crash? && Durable(h, i)
    ensures
      var next := TrackedStep(cfg, h, l);
      Durable(next, i) && next.ops[..i] == h.ops[..i]
  {
    hide Step, Inv, PrefixConsistent, MergeCovered, EndsOk;
    StepAppends(cfg, h.store, l);
  }

  lemma {:induction false} DurableReopened(cfg: Config, h: Tracked, kept: nat, i: nat)
    requires TrackedOk(cfg, h) && h.store.synced <= kept <= |h.store.log| && h.floor <= kept && Durable(h, i)
    ensures
      var next := Reopened(cfg, h, kept);
      Durable(next, i) && next.ops[..i] == h.ops[..i]
  {
    hide Inv, PrefixConsistent, AllCopied, Below, Done, LoadIndex;
    DoneIsLargest(h.ends, kept);
    assert i <= Done(h.ends, kept);
    if h.store.dir.Finished? {
      ShiftedLength(cfg, h.store, kept);
      FinishedFrozen(cfg, h.store);
    }
  }

  /** One step keeps the durable operations, in the history and durable. */
  lemma {:induction false} DurableStep(cfg: Config, h: Tracked, l: Label, i: nat)
    requires TrackedOk(cfg, h) && Enabled(h.store, l) && CrashCovered(h, l) && Durable(h, i)
    ensures
      var next := TrackedStep(cfg, h, l);
      Durable(next, i) && next.ops[..i] == h.ops[..i]
  {
    hide TrackedOk, Durable, Step, Reopened;
    if l.Restart? || l.Crash? {
      var kept := if l.Crash? then l.kept else |h.store.log|;
      TrackedParts(cfg, h);
      DurableReopened(cfg, h, kept, i);
    } else {
      DurableGrows(cfg, h, l, i);
    }
  }

  lemma {:induction false} TrackedParts(cfg: Config, h: Tracked)
    requires TrackedOk(cfg, h)
    ensures h.store.synced <= |h.store.log| && EndsOk(h)
  {
    hide PrefixConsistent, MergeCovered, EndsOk;
    KeptAll(cfg, h.store);
  }

  /**
   * Durability over whole runs: what is durable at some point of a run stays in the history through
   * everything that follows, restarts, merges and covered crashes included.
   */
  lemma {:induction false} DurableForever(cfg: Config, ls: seq<Label>, ms: seq<Label>, i: nat)
    requires Track(cfg, ls).Some? && Track(cfg, ls + ms).Some? && Durable(Track(cfg, ls).value, i)
    ensures Durable(Track(cfg, ls + ms).value, i)
    ensures Track(cfg, ls + ms).value.ops[..i] == Track(cfg, ls).value.ops[..i]
    decreases |ms|
  {
    hide TrackedOk, Durable, TrackedStep, Enabled, CrashCovered;
    if |ms| == 0 {
      assert ls + ms == ls;
    } else {
      var front, l := ms[..|ms| - 1], ms[|ms| - 1];
      assert (ls + ms)[..|ls + ms| - 1] == ls + front && (ls + ms)[|ls + ms| - 1] == l;
      DurableForever(cfg, ls, front, i);
      DurableStep(cfg, Track(cfg, ls + front).value, l, i);
      TakesWithin(Track(cfg, ls + front).value, i);
    }
  }

  lemma {:induction false} TakesWithin(h: Tracked, i: nat)
    requires Durable(h, i)
    ensures i <= |h.ops|
  {
  }

  /** A step that acknowledges with a sync: an explicit one, a synced commit, or any write under `SyncWrites`. */
  predicate Syncs(cfg: Config, s: Store, l: Label) {
    l.Sync? || (l.Commit? && l.sync) || (cfg.syncWrites && (l.Put? || (l.Delete? && l.key in s.index)))
  }

  /**
   * Every operation acknowledged before or with a syncing step is in every later history, and
   * what a client sees later is the map of those operations followed by the others of that history.
   */
  lemma {:induction false} AcknowledgedForever(cfg: Config, ls: seq<Label>, l: Label, ms: seq<Label>)
    requires Track(cfg, ls).Some? && Track(cfg, ls + [l]).Some? && Track(cfg, ls + [l] + ms).Some?
    requires Syncs(cfg, Track(cfg, ls).value.store, l)
    ensures
      var acked, later := Track(cfg, ls + [l]).value, Track(cfg, ls + [l] + ms).value;
      && acked.ops == Track(cfg, ls).value.ops + (if OpOf(l).Some? then [OpOf(l).value] else [])
      && acked.ops <= later.ops && View(later.store.index) == Spec(later.ops)
  {
    hide TrackedOk, Enabled, CrashCovered, Track, View, Spec;
    TrackOk(cfg, ls + [l]);
    AllDurable(cfg, ls, l);
    var acked := Track(cfg, ls + [l]).value;
    DurableForever(cfg, ls + [l], ms, |acked.ops|);
    CrashesLeaveAHistory(cfg, ls + [l] + ms);
    assert acked.ops[..|acked.ops|] == acked.ops;
  }

  lemma {:induction false} AllDurable(cfg: Config, ls: seq<Label>, l: Label)
    requires Track(cfg, ls).Some? && Track(cfg, ls + [l]).Some? && Syncs(cfg, Track(cfg, ls).value.store, l)
    ensures
      var before, acked := Track(cfg, ls).value, Track(cfg, ls + [l]).value;
      && acked.ops == before.ops + (if OpOf(l).Some? then [OpOf(l).value] else []) && Durable(acked, |acked.ops|)
  {
    hide Inv, PrefixConsistent, MergeCovered, Step, Done, CrashCovered;
    assert (ls + [l])[..|ls|] == ls;
    TrackOk(cfg, ls);
    TrackOk(cfg, ls + [l]);
    SyncedOperation(cfg, Track(cfg, ls).value.store, l);
  }
}
