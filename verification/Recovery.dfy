/** Opening a directory again: what the index rebuilt from hint and data files is, with and without a finished merge. */
module Recovery {
  import opened Log
  import opened Engine
  import opened Invariant
  import opened MergeScan

  // ---------------------------------------------------------------- hint and data files together

  /** Hint file plus newer data files give what replaying every data file from the first record on gives. */
  lemma {:induction false} LoadIsReplay(d: Store)
    requires d.hint == d.log[..Below(d.log, d.barrier)] && Merged(d.hint)
    ensures LoadIndex(d) == Replay(d.log)
  {
    hide ReplayStep, Merged;
    var m := Below(d.log, d.barrier);
    HintIsReplay(d.hint);
    ReplayConcat(EMPTY, d.hint, d.log[m..]);
    assert d.hint + d.log[m..] == d.log;
  }

  // ---------------------------------------------------------------- swapping frozen files for their copies

  /** The index with every position below the barrier replaced by its copy, or dropped if there is none. */
  function Mirror(index: map<Key, Entry>, barrier: nat, copies: map<Key, Entry>): map<Key, Entry> {
    map k | k in index && (index[k].pos.fid >= barrier || k in copies) ::
      if index[k].pos.fid >= barrier then index[k] else copies[k]
  }

  lemma {:induction false} MirrorApplyAll(index: map<Key, Entry>, es: seq<Entry>, barrier: nat, copies: map<Key, Entry>)
    requires forall e :: e in es ==> e.pos.fid >= barrier
    ensures Mirror(ApplyAll(index, es), barrier, copies) == ApplyAll(Mirror(index, barrier, copies), es)
  {
    if |es| > 0 {
      var front, last := es[..|es| - 1], es[|es| - 1];
      assert last in es;
      MirrorApplyAll(index, front, barrier, copies);
      MirrorApplyEntry(ApplyAll(index, front), last, barrier, copies);
    }
  }

  lemma {:induction false} MirrorApplyEntry(index: map<Key, Entry>, e: Entry, barrier: nat, copies: map<Key, Entry>)
    requires e.pos.fid >= barrier
    ensures Mirror(ApplyEntry(index, e), barrier, copies) == ApplyEntry(Mirror(index, barrier, copies), e)
  {
  }

  /** A sequence number above all those below the barrier. */
  predicate Newer(log: seq<Entry>, barrier: nat, seqNo: nat) {
    forall x :: x in log && x.pos.fid < barrier ==> x.rec.seqNo < seqNo
  }

  /** Replay over the copies mirrors replay over the originals; batches newer than the barrier wait alike in both. */
  ghost predicate Mirrors(log: seq<Entry>, barrier: nat, copies: map<Key, Entry>, st: ReplayState,
    swapped: ReplayState)
  {
    && swapped.index == Mirror(st.index, barrier, copies)
    && (forall s :: Newer(log, barrier, s) ==> PendingOf(swapped, s) == PendingOf(st, s))
  }

  lemma {:induction false} MirrorsStep(log: seq<Entry>, seen: seq<Entry>, barrier: nat, copies: map<Key, Entry>,
                                       st: ReplayState, swapped: ReplayState, e: Entry)
    requires CutOk(log, barrier) && e in log && e.pos.fid >= barrier
    requires PendingSound(st.pending, seen) && (forall x :: x in seen ==> x in log)
    requires Mirrors(log, barrier, copies, st, swapped)
    ensures Mirrors(log, barrier, copies, ReplayStep(st, e), ReplayStep(swapped, e))
  {
    hide Mirror, UpdateAll, ApplyAll;
    var s := e.rec.seqNo;
    if s == 0 {
      MirrorApplyEntry(st.index, e, barrier, copies);
    } else {
      assert Newer(log, barrier, s);
      if e.rec.kind == TxnFinished {
        var es := PendingOf(st, s);
        forall x | x in es ensures x.pos.fid >= barrier {
          assert x in log;
        }
        UpdateAllIndex(st, es);
        UpdateAllIndex(swapped, es);
        UpdateAllKeepsRest(st, es);
        UpdateAllKeepsRest(swapped, es);
        MirrorApplyAll(st.index, es, barrier, copies);
      }
    }
  }

  lemma {:induction false} FrozenEntries(log: seq<Entry>, barrier: nat)
    requires Ordered(log)
    ensures forall x :: x in log[..Below(log, barrier)] ==> x in log && x.pos.fid < barrier
  {
    BelowSplits(log, barrier);
    var frozen := log[..Below(log, barrier)];
    forall x | x in frozen ensures x in log && x.pos.fid < barrier {
      var i :| 0 <= i < |frozen| && frozen[i] == x;
      assert log[i] == x;
    }
  }

  /** At the freeze, no batch that is still waiting has a sequence number that a newer one could use. */
  lemma {:induction false} NothingNewerWaits(log: seq<Entry>, frozen: seq<Entry>, barrier: nat,
    pending: map<nat, seq<Entry>>)
    requires PendingSound(pending, frozen)
    requires forall x :: x in frozen ==> x in log && x.pos.fid < barrier
    ensures forall s :: s in pending ==> !Newer(log, barrier, s)
  {
    forall s | s in pending ensures !Newer(log, barrier, s) {
      var x := pending[s][0];
      assert x in pending[s];
      assert x in log && x.pos.fid < barrier && x.rec.seqNo == s;
    }
  }

  lemma {:induction false} MirrorAtFreeze(index: map<Key, Entry>, barrier: nat, copies: map<Key, Entry>)
    requires forall k :: k in index ==> index[k].pos.fid < barrier
    requires forall k :: k in copies ==> k in index
    ensures Mirror(index, barrier, copies) == copies
  {
  }

  lemma {:induction false} MirrorsAtFreeze(log: seq<Entry>, barrier: nat, copies: seq<Entry>)
    requires Ordered(log) && MarkersNumbered(log) && Merged(copies)
    requires forall e :: e in copies ==> e.rec.key in FrozenIndex(log, barrier)
    ensures Mirrors(log, barrier, LoadHint(copies), Replay(log[..Below(log, barrier)]), Replay(copies))
  {
    hide ReplayFrom, Newer, Mirror, Merged, Ordered, Below, LoadHint;
    var frozen := log[..Below(log, barrier)];
    var st, hint := Replay(frozen), LoadHint(copies);
    FrozenEntries(log, barrier);
    HintIsReplay(copies);
    ReplaySound(frozen);
    forall k | k in hint ensures k in st.index {
      LoadHintKeys(copies, k);
    }
    MirrorAtFreeze(st.index, barrier, hint);
    NothingNewerWaits(log, frozen, barrier, st.pending);
  }

  /**
   * The merge simulation: replaying the merged files followed by the newer files
   * mirrors, at every length, replaying the original files.
   */
  lemma {:induction false} MergeSimulation(log: seq<Entry>, barrier: nat, copies: seq<Entry>, n: nat)
    requires Ordered(log) && MarkersNumbered(log) && CutOk(log, barrier) && Merged(copies)
    requires forall e :: e in copies ==> e.rec.key in FrozenIndex(log, barrier)
    requires Below(log, barrier) <= n <= |log|
    ensures Mirrors(log, barrier, LoadHint(copies), Replay(log[..n]), Replay(copies + log[Below(log, barrier)..n]))
    decreases n
  {
    hide ReplayStep, Mirrors, CutOk, Merged, FrozenIndex, Ordered, LoadHint, Below;
    var frozen := Below(log, barrier);
    if n == frozen {
      MirrorsAtFreeze(log, barrier, copies);
      assert copies + log[frozen..n] == copies;
    } else {
      var e, seen := log[n - 1], log[..n - 1];
      MergeSimulation(log, barrier, copies, n - 1);
      BelowSplits(log, barrier);
      forall x | x in seen ensures x in log {
      }
      ReplaySound(seen);
      MirrorsStep(log, seen, barrier, LoadHint(copies), Replay(seen), Replay(copies + log[frozen..n - 1]), e);
      assert log[..n] == seen + [e];
      assert copies + log[frozen..n] == (copies + log[frozen..n - 1]) + [e];
      ReplayAppend(seen, e);
      ReplayAppend(copies + log[frozen..n - 1], e);
    }
  }

  /** The positions of the files below the barrier that still serve a key, each with a copy. */
  predicate AllCopied(index: map<Key, Entry>, barrier: nat, out: Output) {
    forall k :: k in index && index[k].pos.fid < barrier ==> Copied(out, k)
  }

  /** The copies of a merge agree with the frozen positions that an index still uses. */
  predicate CopiesAgree(index: map<Key, Entry>, barrier: nat, copies: map<Key, Entry>) {
    forall k :: k in index && index[k].pos.fid < barrier && k in copies ==> copies[k].rec.value == index[k].rec.value
  }

  /** After the swap a client sees the same map if and only if every frozen position still in use was copied. */
  lemma {:induction false} MirrorView(index: map<Key, Entry>, barrier: nat, copies: map<Key, Entry>)
    requires CopiesAgree(index, barrier, copies)
    ensures View(Mirror(index, barrier, copies)) == View(index)
       <==> forall k :: k in index && index[k].pos.fid < barrier ==> k in copies
  {
    var swapped := Mirror(index, barrier, copies);
    if forall k :: k in index && index[k].pos.fid < barrier ==> k in copies {
      assert View(swapped) == View(index);
    } else {
      var k :| k in index && index[k].pos.fid < barrier && k !in copies;
      assert k in View(index) && k !in View(swapped);
    }
  }

  lemma {:induction false} OutAgrees(cfg: Config, log: seq<Entry>, barrier: nat, out: Output)
    requires WfLog(cfg, log) && CutOk(log, barrier)
    requires OutOk(cfg, log, barrier, Below(log, barrier), out)
    ensures CopiesAgree(Replay(log).index, barrier, LoadHint(out.entries))
    ensures forall k :: k in LoadHint(out.entries) <==> Copied(out, k)
  {
    hide Replay, CutOk, Ordered, WfEntry, FrozenIndex, NotAhead, AtEnd, Merged;
    var index, copies := Replay(log).index, LoadHint(out.entries);
    forall k ensures k in copies <==> Copied(out, k) {
      LoadHintKeys(out.entries, k);
    }
    forall k | k in index && index[k].pos.fid < barrier && k in copies
      ensures copies[k].rec.value == index[k].rec.value
    {
      LoadHintKeys(out.entries, k);
      assert CopyOk(log, barrier, Below(log, barrier), copies[k]);
      OldEntryWasFrozen(log, barrier, k);
    }
  }

  // ---------------------------------------------------------------- a log cut by a crash

  /** The files below any barrier are on stable storage. */
  lemma {:induction false} FrozenIsStable(s: Store, barrier: nat)
    requires Ordered(s.log) && Stable(s) && barrier <= ActiveFid(s.active)
    ensures Below(s.log, barrier) <= Below(s.log, ActiveFid(s.active)) <= s.synced <= |s.log|
  {
    BelowSplits(s.log, barrier);
    BelowSplits(s.log, ActiveFid(s.active));
    var a := Below(s.log, ActiveFid(s.active));
    assert a < |s.log| ==> s.log[a].pos.fid >= barrier;
  }

  lemma {:induction false} CutLog(cfg: Config, log: seq<Entry>, kept: nat, barrier: nat)
    requires WfLog(cfg, log) && Below(log, barrier) <= kept <= |log|
    ensures
      var cut := log[..kept];
      && WfLog(cfg, cut) && Below(cut, barrier) == Below(log, barrier)
      && cut[..Below(cut, barrier)] == log[..Below(log, barrier)]
      && (forall e :: e in cut ==> e in log)
  {
    hide WfEntry;
    var cut := log[..kept];
    forall i | 0 <= i < kept ensures cut[i] in log {
    }
    BelowSplits(log, barrier);
    BelowIs(cut, barrier, Below(log, barrier));
  }

  lemma {:induction false} CutOut(cfg: Config, log: seq<Entry>, kept: nat, barrier: nat, out: Output)
    requires WfLog(cfg, log) && Below(log, barrier) <= kept <= |log| && CutOk(log, barrier)
    requires OutOk(cfg, log, barrier, Below(log, barrier), out)
    ensures
      var cut := log[..kept];
      CutOk(cut, barrier) && OutOk(cfg, cut, barrier, Below(cut, barrier), out)
  {
    hide Replay, WfEntry, Ordered, AtEnd, Merged;
    CutLog(cfg, log, kept, barrier);
    var cut, n := log[..kept], Below(log, barrier);
    assert FrozenIndex(cut, barrier) == FrozenIndex(log, barrier);
    assert n > 0 ==> cut[n - 1] == log[n - 1];
    forall e | e in out.entries ensures CopyOk(cut, barrier, n, e) {
      assert CopyOk(log, barrier, n, e);
    }
  }

  /** The log after the merged files were moved in. */
  function Swapped(log: seq<Entry>, barrier: nat, out: Output): seq<Entry> {
    out.entries + log[Below(log, barrier)..]
  }

  /**
   * What is recovered after a finished merge from a log of which any part beyond the frozen files survived:
   * the map that the surviving log alone would give, if and only if every frozen position
   * which that log still uses was copied.
   */
  lemma {:induction false} MergeRecovery(cfg: Config, log: seq<Entry>, barrier: nat, out: Output)
    requires WfLog(cfg, log) && CutOk(log, barrier)
    requires OutOk(cfg, log, barrier, Below(log, barrier), out)
    ensures View(Replay(Swapped(log, barrier, out)).index) == View(Replay(log).index)
       <==> AllCopied(Replay(log).index, barrier, out)
  {
    hide Replay, View, Mirror, CutOk, Ordered, WfEntry, NotAhead, AtEnd, Merged, LoadHint, CopiesAgree;
    forall e | e in out.entries ensures e.rec.key in FrozenIndex(log, barrier) {
      assert CopyOk(log, barrier, Below(log, barrier), e);
    }
    MergeSimulation(log, barrier, out.entries, |log|);
    assert log[..|log|] == log;
    OutAgrees(cfg, log, barrier, out);
    MirrorView(Replay(log).index, barrier, LoadHint(out.entries));
  }
}
