/** Prefix consistency: what any number of crashes leaves of the operation history. */
module History {
  import opened Wrappers
  import opened Log
  import opened Engine
  import opened Invariant
  import opened Preservation
  import opened MergeScan
  import opened Recovery
  import opened Reopening
  import opened Runs

  /**
   * A store with the history of the operations whose effects it holds.
   * ends[i]: the length of the log when the first i operations were complete.
   * floor: crashes are covered from this length on. A finished merge raises it to the shortest log that its copies
   * cover: merge drops a frozen value whose newer version need not be on stable storage (see LostTailAfterMerge).
   */
  datatype Tracked = Tracked(store: Store, ops: seq<Op>, ends: seq<nat>, floor: nat)

  const NEW_TRACKED: Tracked := Tracked(NEW_STORE, [], [0], 0)

  /** How many operations were complete at a log length. */
  function Done(ends: seq<nat>, n: nat): (d: nat)
    ensures |ends| > 0 ==> d < |ends|
    ensures |ends| == 0 ==> d == 0
  {
    if |ends| <= 1 then 0
    else if ends[|ends| - 1] <= n then |ends| - 1
    else Done(ends[..|ends| - 1], n)
  }

  predicate Nondecreasing(ends: seq<nat>) {
    forall i, j :: 0 <= i <= j < |ends| ==> ends[i] <= ends[j]
  }

  /** Done is the largest number of operations that fit. */
  lemma {:induction false} DoneIsLargest(ends: seq<nat>, n: nat)
    requires |ends| > 0 && Nondecreasing(ends) && ends[0] <= n
    ensures ends[Done(ends, n)] <= n
    ensures forall i :: 0 <= i < |ends| && ends[i] <= n ==> i <= Done(ends, n)
    ensures forall i :: Done(ends, n) < i < |ends| ==> ends[i] > n
  {
    if |ends| > 1 && ends[|ends| - 1] > n {
      var front := ends[..|ends| - 1];
      DoneIsLargest(front, n);
      forall i | 0 <= i < |ends| && ends[i] <= n ensures i <= Done(ends, n) {
        assert front[i] == ends[i];
      }
      forall i | Done(ends, n) < i < |ends| ensures ends[i] > n {
        if i < |ends| - 1 {
          assert front[i] == ends[i];
        }
      }
    }
  }

  lemma {:induction false} DoneIs(ends: seq<nat>, n: nat, d: nat)
    requires Nondecreasing(ends) && d < |ends| && ends[d] <= n
    requires d + 1 < |ends| ==> ends[d + 1] > n
    ensures Done(ends, n) == d
  {
    assert ends[0] <= ends[d];
    DoneIsLargest(ends, n);
    var e := Done(ends, n);
    assert forall i :: d + 1 <= i < |ends| ==> ends[d + 1] <= ends[i];
  }

  /** The map recovered from the first n entries of a log. */
  function ViewAt(log: seq<Entry>, n: nat): map<Key, Value>
    requires n <= |log|
  {
    View(Replay(log[..n]).index)
  }

  /** The directory after merged files were moved in: every length past the barrier shifts by the same amount. */
  function Shifted(ends: seq<nat>, floor: nat, frozen: nat, copies: nat): (r: seq<nat>)
    requires frozen <= floor
    ensures |r| == |ends|
  {
    seq(|ends|, i requires 0 <= i < |ends| => Max(ends[i], floor) - frozen + copies)
  }

  function Reopened(cfg: Config, h: Tracked, kept: nat): Tracked
    requires kept <= |h.store.log| && |h.ends| == |h.ops| + 1
    requires h.store.dir.Finished? ==> Below(h.store.log, h.store.dir.barrier) <= h.floor
  {
    var done := Done(h.ends, kept);
    var ops, ends := h.ops[..done], h.ends[..done + 1];
    var t := ReopenStep(h.store, kept);
    if h.store.dir.Finished? then
      var frozen, copies := Below(h.store.log, h.store.dir.barrier), |h.store.dir.out.entries|;
      Tracked(t, ops, Shifted(ends, h.floor, frozen, copies), h.floor - frozen + copies)
    else Tracked(t, ops, ends, h.floor)
  }

  predicate CrashCovered(h: Tracked, l: Label) {
    l.Crash? ==> l.kept >= h.floor
  }

  /** The shortest length, from the given one on, at which the copies of a merge cover what the log still uses. */
  function CoveredFrom(log: seq<Entry>, from: nat, barrier: nat, out: Output): (n: nat)
    requires from <= |log|
    ensures from <= n <= |log|
    ensures AllCopied(Replay(log).index, barrier, out) ==> AllCopied(Replay(log[..n]).index, barrier, out)
    ensures forall m :: from <= m < n ==> !AllCopied(Replay(log[..m]).index, barrier, out)
    decreases |log| - from
  {
    assert log[..|log|] == log;
    if from == |log| || AllCopied(Replay(log[..from]).index, barrier, out) then from
    else CoveredFrom(log, from + 1, barrier, out)
  }

  function FinishFloor(h: Tracked): (floor: nat)
    requires h.store.job.Scanning? && h.floor <= |h.store.log|
    ensures h.floor <= floor <= |h.store.log| && Below(h.store.log, h.store.job.barrier) <= floor
  {
    var frozen := Below(h.store.log, h.store.job.barrier);
    CoveredFrom(h.store.log, Max(h.floor, frozen), h.store.job.barrier, h.store.job.out)
  }

  /** One step of the store, with the history kept beside it: a crash drops the operations that did not survive. */
  function TrackedStep(cfg: Config, h: Tracked, l: Label): Tracked
    requires Enabled(h.store, l) && TrackedOk(cfg, h)
  {
    var t := Step(cfg, h.store, l);
    if OpOf(l).Some? then Tracked(t, h.ops + [OpOf(l).value], h.ends + [|t.log|], h.floor)
    else
      match l
      case MergeFinish => h.(store := t, floor := FinishFloor(h))
      case Restart => Reopened(cfg, h, |h.store.log|)
      case Crash(kept) => Reopened(cfg, h, kept)
      case _ => h.(store := t)
  }

  /**
   * Every surviving length of the log, from the floor on, gives the map after the operations complete at that
   * length.
   */
  predicate PrefixConsistent(h: Tracked)
    requires |h.ends| == |h.ops| + 1
  {
    forall n :: h.floor <= n <= |h.store.log| ==> ViewAt(h.store.log, n) == Spec(h.ops[..Done(h.ends, n)])
  }

  predicate EndsOk(h: Tracked) {
    && |h.ends| == |h.ops| + 1 && Nondecreasing(h.ends)
    && h.ends[0] <= h.floor <= |h.store.log| && h.ends[|h.ops|] <= |h.store.log|
  }

  predicate MergeCovered(h: Tracked) {
    h.store.dir.Finished? ==>
      && Below(h.store.log, h.store.dir.barrier) <= h.floor <= |h.store.log|
      && AllCopied(Replay(h.store.log[..h.floor]).index, h.store.dir.barrier, h.store.dir.out)
  }

  predicate TrackedOk(cfg: Config, h: Tracked) {
    Inv(cfg, h.store) && EndsOk(h) && MergeCovered(h) && PrefixConsistent(h)
  }

  // ---------------------------------------------------------------- client operations

  /** An operation appends a block of records, and no proper prefix of the block has any effect. */
  lemma {:induction false} PartialBlock(cfg: Config, s: Store, l: Label, n: nat)
    requires Inv(cfg, s) && Enabled(s, l) && !l.Restart? && !l.Crash?
    requires |s.log| <= n <= |Step(cfg, s, l).log|
    requires OpOf(l).Some? ==> n < |Step(cfg, s, l).log|
    ensures Replay(Step(cfg, s, l).log[..n]).index == s.index
  {
    hide HintOk, JobOk, DirOk, Append, CommitStep, AbortStep, ReopenStep, Permutation, Replay, AtEnd, WfLog;
    var t := Step(cfg, s, l);
    assert s.log[..|s.log|] == s.log;
    assert t.log == s.log ==> t.log[..n] == s.log;
    match l
    case Put(key, value) =>
      AppendOk(cfg, s, Record(0, key, value, Normal));
      assert t.log[..n] == s.log;
    case Delete(key) =>
      if key in s.index {
        AppendOk(cfg, s, Record(0, key, [], Deleted));
        assert t.log[..n] == s.log;
      }
    case Commit(batch, order, sync) => PartialCommit(cfg, s, batch, order, sync, n);
    case AbortedCommit(batch, written) => PartialAbort(cfg, s, batch, written, n);
    case _ =>
  }

  lemma {:induction false} PartialCommit(cfg: Config, s: Store, batch: seq<Staged>, order: seq<nat>, sync: bool, n: nat)
    requires Inv(cfg, s) && ValidBatch(batch) && Permutation(order, |batch|)
    requires |s.log| <= n < |CommitStep(cfg, s, batch, order, sync).log|
    ensures Replay(CommitStep(cfg, s, batch, order, sync).log[..n]).index == s.index
  {
    hide HintOk, JobOk, DirOk, BatchEntries, CommitLog, Permutation, Replay, AtEnd, Ordered, WfEntry, Stable;
    hide EntriesFor;
    var t, es, part := CommitStep(cfg, s, batch, order, sync), BatchEntries(cfg, s, batch), n - |s.log|;
    CommitEntries(cfg, s, batch);
    assert t.log[..n] == s.log + es[..part];
    PrefixWaits(s, es, batch, part);
  }

  lemma {:induction false} PartialAbort(cfg: Config, s: Store, batch: seq<Staged>, written: nat, n: nat)
    requires Inv(cfg, s) && ValidBatch(batch) && written <= |batch|
    requires |s.log| <= n <= |AbortStep(cfg, s, batch, written).log|
    ensures Replay(AbortStep(cfg, s, batch, written).log[..n]).index == s.index
  {
    hide HintOk, JobOk, DirOk, AbortStep, Replay, AtEnd, Ordered, WfEntry, Stable, Appended, EntriesFor, RecordsOf;
    var t := AbortStep(cfg, s, batch, written);
    AbortAppends(cfg, s, batch, written);
    var es, part := t.log[|s.log|..], n - |s.log|;
    assert t.log[..n] == s.log + es[..part];
    PrefixWaits(s, es, batch[..written], part);
  }

  lemma {:induction false} PrefixWaits(s: Store, es: seq<Entry>, batch: seq<Staged>, part: nat)
    requires MarkersNumbered(s.log) && IndexOk(s) && EntriesFor(es, batch, s.seqNo + 1) && part <= |es|
    requires forall i :: 0 <= i < |batch| ==> batch[i].kind != TxnFinished
    ensures Replay(s.log + es[..part]).index == s.index
  {
    hide Replay;
    OrphansWait(s.log, es[..part], batch[..part], s.seqNo);
  }

  /** Steps other than opening only append. */
  lemma {:induction false} StepAppends(cfg: Config, s: Store, l: Label)
    requires Inv(cfg, s) && Enabled(s, l) && !l.Restart? && !l.Crash?
    ensures
      var t := Step(cfg, s, l);
      |s.log| <= |t.log| && t.log[..|s.log|] == s.log && s.synced <= t.synced
  {
    hide HintOk, JobOk, DirOk, Append, AppendAll, CommitLog, ValidBatch, Permutation, IndexOk, AtEnd, BatchEntries;
    match l
    case Put(key, value) => AppendOk(cfg, s, Record(0, key, value, Normal));
    case Delete(key) => AppendOk(cfg, s, Record(0, key, [], Deleted));
    case Commit(batch, order, sync) => CommitAppends(cfg, s, batch);
    case AbortedCommit(batch, written) => AbortAppends(cfg, s, batch, written);
    case _ =>
  }

  lemma {:induction false} PutGrows(cfg: Config, s: Store, rec: Record, t: Store)
    requires FilesOk(cfg, s) && rec.seqNo == 0 && rec.kind != TxnFinished
    requires t.log == Append(cfg, s, rec).log && t.active == Append(cfg, s, rec).active
    requires t.hint == s.hint && t.barrier == s.barrier
    requires forall k :: k in t.index ==> t.index[k] == t.log[|s.log|] || (k in s.index && t.index[k] == s.index[k])
    ensures Grown(s, t)
  {
    hide Append, FilesOk;
    AppendOk(cfg, s, rec);
    assert t.log[|s.log| + 0].rec == [rec][0];
    assert t.log[|s.log|..][0] == t.log[|s.log|];
  }

  /** Between two openings the store only grows. */
  lemma {:induction false} StepGrows(cfg: Config, s: Store, l: Label)
    requires Inv(cfg, s) && Enabled(s, l) && !l.Restart? && !l.Crash?
    ensures Grown(s, Step(cfg, s, l))
  {
    hide HintOk, JobOk, DirOk, Append, AppendAll, CommitLog, ValidBatch, Permutation, AtEnd, BatchEntries, Replay;
    hide WfLog;
    var t := Step(cfg, s, l);
    assert t.log == s.log ==> t.log[..|s.log|] == s.log;
    match l
    case Put(key, value) =>
      AppendOk(cfg, s, Record(0, key, value, Normal));
      PutGrows(cfg, s, Record(0, key, value, Normal), t);
    case Delete(key) =>
      if key in s.index {
        AppendOk(cfg, s, Record(0, key, [], Deleted));
        PutGrows(cfg, s, Record(0, key, [], Deleted), t);
      }
    case Commit(batch, order, sync) => CommitGrows(cfg, s, batch, order, sync);
    case AbortedCommit(batch, written) => AbortGrows(cfg, s, batch, written);
    case _ =>
  }

  // ---------------------------------------------------------------- the invariant of histories

  lemma {:induction false} PrefixOfPrefix(a: seq<Entry>, b: seq<Entry>, n: nat)
    requires |a| <= |b| && b[..|a|] == a && n <= |a|
    ensures b[..n] == a[..n]
  {
    assert b[..n] == b[..|a|][..n];
  }

  lemma {:induction false} CoverageGrows(cfg: Config, h: Tracked, l: Label)
    requires TrackedOk(cfg, h) && Enabled(h.store, l) && !l.Restart? && !l.Crash?
    ensures MergeCovered(TrackedStep(cfg, h, l))
  {
    hide Step, FilesOk, IndexOk, HintOk, JobOk, OutOk, CutOk, PrefixConsistent, Replay, Grown;
    var s, t := h.store, Step(cfg, h.store, l);
    StepKeepsInv(cfg, s, l);
    StepGrows(cfg, s, l);
    StepAppends(cfg, s, l);
    if l.MergeFinish? {
      FinishSetsDir(cfg, s);
      NewlyFinished(cfg, t);
    } else if t.dir.Finished? {
      DirUntouched(cfg, s, l);
      FrozenPartStays(s, t, s.dir.barrier);
      PrefixOfPrefix(s.log, t.log, h.floor);
    }
  }

  lemma {:induction false} FinishSetsDir(cfg: Config, s: Store)
    requires Enabled(s, MergeFinish)
    ensures Step(cfg, s, MergeFinish).dir == Finished(s.job.barrier, s.job.out)
      && Step(cfg, s, MergeFinish).log == s.log
  {
  }

  lemma {:induction false} NewlyFinished(cfg: Config, t: Store)
    requires Inv(cfg, t) && t.dir.Finished?
    ensures AllCopied(Replay(t.log).index, t.dir.barrier, t.dir.out)
  {
    hide Replay, FilesOk, HintOk, JobOk, OutOk, BarrierOk;
  }

  lemma {:induction false} DirUntouched(cfg: Config, s: Store, l: Label)
    requires Enabled(s, l) && !l.Restart? && !l.Crash? && !l.MergeFinish?
    ensures Step(cfg, s, l).dir.Finished? ==> Step(cfg, s, l).dir == s.dir
  {
    hide Append, BatchEntries, CommitLog, Rewrite, ValidBatch, Permutation;
    if l.AbortedCommit? {
      AppendAllKeepsDir(cfg, s.(seqNo := s.seqNo + 1), RecordsOf(l.batch[..l.written], s.seqNo + 1));
    } else if l.Commit? {
      CommitLogKeepsDir(cfg, s, l.batch);
    } else {
      AppendKeepsDir(cfg, s);
    }
  }

  lemma {:induction false} AppendKeepsDir(cfg: Config, s: Store)
    ensures forall rec :: Append(cfg, s, rec).dir == s.dir
  {
  }

  lemma {:induction false} AppendAllKeepsDir(cfg: Config, s: Store, recs: seq<Record>)
    ensures AppendAll(cfg, s, recs).dir == s.dir
  {
    if |recs| > 0 {
      AppendAllKeepsDir(cfg, s, recs[..|recs| - 1]);
    }
  }

  lemma {:induction false} CommitLogKeepsDir(cfg: Config, s: Store, batch: seq<Staged>)
    ensures CommitLog(cfg, s, batch).dir == s.dir
  {
    AppendAllKeepsDir(cfg, s.(seqNo := s.seqNo + 1), RecordsOf(batch, s.seqNo + 1));
  }

  /** All operations are complete at the full length. */
  lemma {:induction false} AllDone(h: Tracked, n: nat)
    requires EndsOk(h) && n >= |h.store.log|
    ensures Done(h.ends, n) == |h.ops|
  {
    DoneIs(h.ends, n, |h.ops|);
  }

  lemma {:induction false} WholeView(cfg: Config, h: Tracked)
    requires TrackedOk(cfg, h)
    ensures View(h.store.index) == Spec(h.ops)
  {
    hide View, Replay, FilesOk, HintOk, JobOk, DirOk, MergeCovered;
    AllDone(h, |h.store.log|);
    assert h.store.log[..|h.store.log|] == h.store.log;
    assert h.ops[..|h.ops|] == h.ops;
  }

  lemma {:induction false} EndsGrow(cfg: Config, h: Tracked, l: Label)
    requires TrackedOk(cfg, h) && Enabled(h.store, l) && !l.Restart? && !l.Crash?
    ensures EndsOk(TrackedStep(cfg, h, l))
  {
    hide Step, Inv, PrefixConsistent, MergeCovered;
    StepAppends(cfg, h.store, l);
    var next := TrackedStep(cfg, h, l);
    if OpOf(l).Some? {
      forall i, j | 0 <= i <= j < |next.ends| ensures next.ends[i] <= next.ends[j] {
        assert i < |h.ends| ==> h.ends[i] <= h.ends[|h.ops|];
      }
    }
  }

  lemma {:induction false} ConsistencyGrows(cfg: Config, h: Tracked, l: Label, n: nat)
    requires TrackedOk(cfg, h) && Enabled(h.store, l) && !l.Restart? && !l.Crash?
    ensures
      var next := TrackedStep(cfg, h, l);
      |next.ends| == |next.ops| + 1 &&
      (next.floor <= n <= |next.store.log| ==> ViewAt(next.store.log, n) == Spec(next.ops[..Done(next.ends, n)]))
  {
    hide Step, Inv, Spec, Replay, View, MergeCovered, ApplyOp, Enabled;
    var s, t, next := h.store, Step(cfg, h.store, l), TrackedStep(cfg, h, l);
    StepAppends(cfg, s, l);
    EndsGrow(cfg, h, l);
    if next.floor <= n <= |t.log| {
      if n < |s.log| || (n == |s.log| && n < |t.log|) {
        PrefixOfPrefix(s.log, t.log, n);
        DoneUnchanged(h, next, l, n);
      } else if n < |t.log| || OpOf(l).None? {
        PartialBlock(cfg, s, l, n);
        WholeView(cfg, h);
        AllDone(h, n);
        DoneUnchanged(h, next, l, n);
        assert h.ops[..|h.ops|] == h.ops;
      } else {
        StepRefinesWhole(cfg, h, l);
        AllDone(next, n);
        assert t.log[..n] == t.log;
        assert next.ops[..|next.ops|] == next.ops;
      }
    }
  }

  lemma {:induction false} DoneUnchanged(h: Tracked, next: Tracked, l: Label, n: nat)
    requires EndsOk(h) && EndsOk(next) && h.floor <= n <= |next.store.log|
    requires if OpOf(l).Some? then next.ops == h.ops + [OpOf(l).value] && next.ends == h.ends + [|next.store.log|]
      && n < |next.store.log|
             else next.ops == h.ops && next.ends == h.ends
    ensures Done(next.ends, n) == Done(h.ends, n) && next.ops[..Done(next.ends, n)] == h.ops[..Done(h.ends, n)]
  {
    if OpOf(l).Some? {
      assert next.ends[..|next.ends| - 1] == h.ends;
    }
  }

  lemma {:induction false} StepRefinesWhole(cfg: Config, h: Tracked, l: Label)
    requires TrackedOk(cfg, h) && Enabled(h.store, l) && OpOf(l).Some?
    ensures
      var t := Step(cfg, h.store, l);
      View(Replay(t.log).index) == Spec(h.ops + [OpOf(l).value])
  {
    hide Step, View, Replay, FilesOk, HintOk, JobOk, DirOk, MergeCovered, PrefixConsistent, ApplyOp, Enabled;
    StepRefines(cfg, h.store, l);
    StepKeepsInv(cfg, h.store, l);
    WholeView(cfg, h);
    SpecAppend(h.ops, OpOf(l).value);
  }

  // ---------------------------------------------------------------- crashes

  /** What was copied when the merge finished covers every longer log: old positions do not come back. */
  lemma {:induction false} CoverageAtLongerLogs(cfg: Config, log: seq<Entry>, barrier: nat, out: Output, floor: nat,
    n: nat)
    requires WfLog(cfg, log) && CutOk(log, barrier)
    requires Below(log, barrier) <= floor <= n <= |log|
    requires AllCopied(Replay(log[..floor]).index, barrier, out)
    ensures AllCopied(Replay(log[..n]).index, barrier, out)
    decreases n
  {
    hide Replay, ReplayStep, WfEntry, Copied;
    if n > floor {
      CoverageAtLongerLogs(cfg, log, barrier, out, floor, n - 1);
      var front, e := log[..n - 1], log[n - 1];
      assert log[..n] == front + [e];
      BelowSplits(log, barrier);
      forall x | x in front + [e] ensures x in log {
      }
      forall k | k in Replay(log[..n]).index && Replay(log[..n]).index[k].pos.fid < barrier
        ensures Copied(out, k)
      {
        StepKeepsOld(front, e, barrier, k);
      }
    }
  }

  /** After moving in the merged files, each length gives the map that the same length gave before. */
  lemma {:induction false} SwappedView(cfg: Config, h: Tracked, kept: nat, n: nat)
    requires TrackedOk(cfg, h) && h.store.dir.Finished?
    requires h.floor <= n <= kept <= |h.store.log|
    ensures
      var b, out := h.store.dir.barrier, h.store.dir.out;
      var swapped := ReopenedLog(h.store, kept);
      var m := n - Below(h.store.log, b) + |out.entries|;
      m <= |swapped| && ViewAt(swapped, m) == ViewAt(h.store.log, n)
  {
    hide Replay, View, FilesOk, IndexOk, HintOk, JobOk, OutOk, CutOk, PrefixConsistent, WfLog, AllCopied;
    var s := h.store;
    var b, out := s.dir.barrier, s.dir.out;
    var frozen := Below(s.log, b);
    LogOk(cfg, s);
    CutLog(cfg, s.log, kept, b);
    CutLog(cfg, s.log, n, b);
    CutOut(cfg, s.log, n, b, out);
    CoverageAtLongerLogs(cfg, s.log, b, out, h.floor, n);
    MergeRecovery(cfg, s.log[..n], b, out);
    var swapped := ReopenedLog(s, kept);
    var m := n - frozen + |out.entries|;
    assert swapped[..m] == Swapped(s.log[..n], b, out);
  }

  lemma {:induction false} LogOk(cfg: Config, s: Store)
    requires Inv(cfg, s)
    ensures WfLog(cfg, s.log)
  {
  }

  lemma {:induction false} DoneOfPrefix(ends: seq<nat>, kept: nat, n: nat)
    requires |ends| > 0 && Nondecreasing(ends) && ends[0] <= n <= kept
    ensures
      var cut := ends[..Done(ends, kept) + 1];
      Done(ends, n) <= Done(ends, kept) && Done(cut, n) == Done(ends, n)
  {
    DoneIsLargest(ends, n);
    DoneIsLargest(ends, kept);
    var d := Done(ends, n);
    assert ends[d] <= kept;
    DoneIs(ends[..Done(ends, kept) + 1], n, d);
  }

  lemma {:induction false} DoneOfShifted(ends: seq<nat>, floor: nat, frozen: nat, copies: nat, n: nat)
    requires |ends| > 0 && Nondecreasing(ends) && ends[0] <= floor <= n && frozen <= floor
    ensures Nondecreasing(Shifted(ends, floor, frozen, copies))
    ensures Done(Shifted(ends, floor, frozen, copies), n - frozen + copies) == Done(ends, n)
  {
    DoneIsLargest(ends, n);
    DoneIs(Shifted(ends, floor, frozen, copies), n - frozen + copies, Done(ends, n));
  }

  lemma {:induction false} CutEnds(h: Tracked, kept: nat)
    requires EndsOk(h) && h.floor <= kept <= |h.store.log|
    ensures
      var cut := h.ends[..Done(h.ends, kept) + 1];
      Nondecreasing(cut) && cut[0] == h.ends[0] && cut[|cut| - 1] <= kept
  {
    DoneIsLargest(h.ends, kept);
  }

  lemma {:induction false} ReopenedEnds(cfg: Config, h: Tracked, kept: nat)
    requires TrackedOk(cfg, h) && h.store.synced <= kept <= |h.store.log| && h.floor <= kept
    ensures EndsOk(Reopened(cfg, h, kept))
  {
    hide Inv, PrefixConsistent, ReopenStep, AllCopied, Below;
    CutEnds(h, kept);
    ReopenKeepsInv(cfg, h.store, kept);
    if h.store.dir.Finished? {
      ShiftedLength(cfg, h.store, kept);
      var cut := h.ends[..Done(h.ends, kept) + 1];
      DoneOfShifted(cut, h.floor, Below(h.store.log, h.store.dir.barrier), |h.store.dir.out.entries|, h.floor);
    }
  }

  lemma {:induction false} ShiftedLength(cfg: Config, s: Store, kept: nat)
    requires Inv(cfg, s) && s.synced <= kept <= |s.log| && s.dir.Finished?
    ensures Below(s.log, s.dir.barrier) <= kept
    ensures |ReopenedLog(s, kept)| == |s.dir.out.entries| + kept - Below(s.log, s.dir.barrier)
  {
    hide Replay, WfEntry, HintOk, JobOk, OutOk;
    FrozenIsStable(s, s.dir.barrier);
    CutLog(cfg, s.log, kept, s.dir.barrier);
  }

  lemma {:induction false} SwappedConsistent(cfg: Config, h: Tracked, kept: nat, m: nat)
    requires TrackedOk(cfg, h) && h.store.synced <= kept <= |h.store.log| && h.floor <= kept
    requires h.store.dir.Finished?
    requires Reopened(cfg, h, kept).floor <= m <= |ReopenedLog(h.store, kept)|
    ensures
      var next := Reopened(cfg, h, kept);
      |next.ends| == |next.ops| + 1 &&
      ViewAt(ReopenedLog(h.store, kept), m) == Spec(next.ops[..Done(next.ends, m)])
  {
    hide Inv, ReopenStep, AllCopied, Below, ViewAt, Spec, ReopenedLog, Shifted, Done;
    var next, s := Reopened(cfg, h, kept), h.store;
    ShiftedLength(cfg, s, kept);
    CutEnds(h, kept);
    var frozen, copies := Below(s.log, s.dir.barrier), |s.dir.out.entries|;
    var n := m + frozen - copies;
    SwappedView(cfg, h, kept, n);
    DoneOfPrefix(h.ends, kept, n);
    DoneOfShifted(h.ends[..Done(h.ends, kept) + 1], h.floor, frozen, copies, n);
    assert h.ops[..Done(h.ends, kept)][..Done(h.ends, n)] == h.ops[..Done(h.ends, n)];
  }

  lemma {:induction false} CutConsistent(cfg: Config, h: Tracked, kept: nat, m: nat)
    requires TrackedOk(cfg, h) && h.store.synced <= kept <= |h.store.log| && h.floor <= kept
    requires !h.store.dir.Finished? && h.floor <= m <= kept
    ensures
      var next := Reopened(cfg, h, kept);
      |next.ends| == |next.ops| + 1 && m <= |ReopenedLog(h.store, kept)| &&
      ViewAt(ReopenedLog(h.store, kept), m) == Spec(next.ops[..Done(next.ends, m)])
  {
    hide Inv, ReopenStep, Replay, View, Spec, Done;
    DoneOfPrefix(h.ends, kept, m);
    assert h.store.log[..kept][..m] == h.store.log[..m];
    assert h.ops[..Done(h.ends, kept)][..Done(h.ends, m)] == h.ops[..Done(h.ends, m)];
  }

  lemma {:induction false} ReopenedOk(cfg: Config, h: Tracked, kept: nat)
    requires TrackedOk(cfg, h) && h.store.synced <= kept <= |h.store.log| && h.floor <= kept
    ensures TrackedOk(cfg, Reopened(cfg, h, kept))
  {
    hide Inv, ViewAt, Spec, AllCopied, Below, ReopenStep;
    var next := Reopened(cfg, h, kept);
    ReopenKeepsInv(cfg, h.store, kept);
    ReopenedEnds(cfg, h, kept);
    forall m | next.floor <= m <= |next.store.log|
      ensures ViewAt(next.store.log, m) == Spec(next.ops[..Done(next.ends, m)])
    {
      if h.store.dir.Finished? {
        SwappedConsistent(cfg, h, kept, m);
      } else {
        CutConsistent(cfg, h, kept, m);
      }
    }
    ReopenedDir(cfg, h, kept);
  }

  lemma {:induction false} ReopenedDir(cfg: Config, h: Tracked, kept: nat)
    requires TrackedOk(cfg, h) && kept <= |h.store.log|
    ensures MergeCovered(Reopened(cfg, h, kept))
  {
    hide Inv, PrefixConsistent, AllCopied, LoadIndex;
  }

  lemma {:induction false} TrackedStepOk(cfg: Config, h: Tracked, l: Label)
    requires TrackedOk(cfg, h) && Enabled(h.store, l) && CrashCovered(h, l)
    ensures TrackedOk(cfg, TrackedStep(cfg, h, l))
  {
    hide Inv, EndsOk, ViewAt, Spec, MergeCovered, Step, Reopened;
    var next := TrackedStep(cfg, h, l);
    if l.Restart? || l.Crash? {
      var kept := if l.Crash? then l.kept else |h.store.log|;
      KeptAll(cfg, h.store);
      OpenEnabled(h, l, kept);
      ReopenedOk(cfg, h, kept);
    } else {
      StepKeepsInv(cfg, h.store, l);
      EndsGrow(cfg, h, l);
      CoverageGrows(cfg, h, l);
      ConsistencyGrows(cfg, h, l, 0);
      forall n | next.floor <= n <= |next.store.log|
        ensures ViewAt(next.store.log, n) == Spec(next.ops[..Done(next.ends, n)])
      {
        ConsistencyGrows(cfg, h, l, n);
      }
    }
  }

  lemma {:induction false} OpenEnabled(h: Tracked, l: Label, kept: nat)
    requires EndsOk(h) && Enabled(h.store, l) && CrashCovered(h, l) && h.store.synced <= |h.store.log|
    requires l.Restart? || l.Crash?
    requires kept == if l.Crash? then l.kept else |h.store.log|
    ensures h.store.synced <= kept <= |h.store.log| && h.floor <= kept
  {
  }

  // ---------------------------------------------------------------- whole runs with crashes

  /**
   * A run of steps, crashes included, from a new directory; a crash must keep what the last finished merge relied
   * on.
   */
  ghost function Track(cfg: Config, ls: seq<Label>): Option<Tracked> {
    if |ls| == 0 then Some(NEW_TRACKED)
    else
      var before, l := Track(cfg, ls[..|ls| - 1]), ls[|ls| - 1];
      if before.Some? && TrackedOk(cfg, before.value) && Enabled(before.value.store, l) && CrashCovered(before.value, l)
      then Some(TrackedStep(cfg, before.value, l)) else None
  }

  lemma {:induction false} NewTrackedOk(cfg: Config)
    ensures TrackedOk(cfg, NEW_TRACKED)
  {
    NewStoreOk(cfg);
  }

  lemma {:induction false} TrackOk(cfg: Config, ls: seq<Label>)
    requires Track(cfg, ls).Some?
    ensures TrackedOk(cfg, Track(cfg, ls).value)
  {
    hide TrackedOk, TrackedStep, Enabled, CrashCovered;
    if |ls| == 0 {
      NewTrackedOk(cfg);
    } else {
      TrackedStepOk(cfg, Track(cfg, ls[..|ls| - 1]).value, ls[|ls| - 1]);
    }
  }

  /** Tracking never gets stuck: it goes on with every step that the store allows and the floor covers. */
  lemma {:induction false} TrackGoesOn(cfg: Config, ls: seq<Label>, l: Label)
    requires Track(cfg, ls).Some?
    requires Enabled(Track(cfg, ls).value.store, l) && CrashCovered(Track(cfg, ls).value, l)
    ensures Track(cfg, ls + [l]).Some?
    ensures Track(cfg, ls + [l]).value.store == Step(cfg, Track(cfg, ls).value.store, l)
  {
    hide TrackedOk, Step, Enabled, CrashCovered;
    TrackOk(cfg, ls);
    assert (ls + [l])[..|ls|] == ls;
    TrackedStoreIsStep(cfg, Track(cfg, ls).value, l);
  }

  lemma {:induction false} TrackedStoreIsStep(cfg: Config, h: Tracked, l: Label)
    requires Enabled(h.store, l) && TrackedOk(cfg, h)
    ensures TrackedStep(cfg, h, l).store == Step(cfg, h.store, l)
  {
    hide TrackedOk, PutStep, DeleteStep, CommitStep, AbortStep, MergeScanStep, ReopenStep, Permutation, ValidBatch;
  }

  /**
   * Prefix consistency over whole runs: after any steps, aborted batches, merges, restarts and crashes,
   * the client sees the map of the operations in the history, applied in order and each as a whole.
   */
  lemma {:induction false} CrashesLeaveAHistory(cfg: Config, ls: seq<Label>)
    requires Track(cfg, ls).Some?
    ensures View(Track(cfg, ls).value.store.index) == Spec(Track(cfg, ls).value.ops)
  {
    hide Track, TrackedOk;
    TrackOk(cfg, ls);
    WholeView(cfg, Track(cfg, ls).value);
  }

  /**
   * A crash shortens the history to a prefix that has every operation complete within the synced part of the log,
   * and what is recovered is the map of that prefix.
   */
  lemma {:induction false} CrashKeepsSyncedOps(cfg: Config, h: Tracked, kept: nat)
    requires TrackedOk(cfg, h) && Enabled(h.store, Crash(kept)) && h.floor <= kept
    ensures
      var next := TrackedStep(cfg, h, Crash(kept));
      && next.ops <= h.ops
      && (forall i :: 0 <= i <= |h.ops| && h.ends[i] <= h.store.synced ==> i <= |next.ops|)
      && View(next.store.index) == Spec(next.ops)
  {
    hide Inv, PrefixConsistent, MergeCovered, ReopenStep, View, Spec, Shifted;
    DoneIsLargest(h.ends, kept);
    TrackedStepOk(cfg, h, Crash(kept));
    WholeView(cfg, TrackedStep(cfg, h, Crash(kept)));
  }

  /** An operation that was acknowledged with a sync lies within the synced part of the log. */
  lemma {:induction false} SyncedOperation(cfg: Config, s: Store, l: Label)
    requires Inv(cfg, s) && Enabled(s, l)
    requires l.Sync? || (l.Commit? && l.sync) || (cfg.syncWrites && (l.Put? || (l.Delete? && l.key in s.index)))
    ensures Step(cfg, s, l).synced == |Step(cfg, s, l).log|
  {
    hide CommitLog, BatchEntries, ApplyAll, Size, Target;
  }

  /** Until a merge finishes, the history covers every crash that a synced log allows. */
  lemma {:induction false} EveryCrashIsCovered(cfg: Config, ls: seq<Label>)
    requires Track(cfg, ls).Some? && forall i :: 0 <= i < |ls| ==> !ls[i].MergeFinish?
    ensures Track(cfg, ls).value.floor == 0 && !Track(cfg, ls).value.store.dir.Finished?
    ensures forall kept :: CrashCovered(Track(cfg, ls).value, Crash(kept))
  {
    hide TrackedOk, Enabled, Step, Reopened;
    if |ls| > 0 {
      var front, l := ls[..|ls| - 1], ls[|ls| - 1];
      EveryCrashIsCovered(cfg, front);
      FloorStays(cfg, Track(cfg, front).value, l);
    }
  }

  lemma {:induction false} FloorStays(cfg: Config, h: Tracked, l: Label)
    requires Enabled(h.store, l) && TrackedOk(cfg, h) && !l.MergeFinish? && !h.store.dir.Finished?
    ensures TrackedStep(cfg, h, l).floor == h.floor && !TrackedStep(cfg, h, l).store.dir.Finished?
  {
    hide Inv, PrefixConsistent, PutStep, DeleteStep, CommitStep, AbortStep, MergeScanStep, LoadIndex, Permutation;
    hide ValidBatch;
    if !l.Restart? && !l.Crash? {
      DirUntouched(cfg, h.store, l);
    }
  }
}
