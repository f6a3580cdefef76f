/** Where the bytes of the data files are: indexed, reclaimable, or in markers and orphaned batches. */
module Space {
  import opened Log
  import opened Engine
  import opened Invariant
  import opened Preservation
  import opened Reopening
  import opened Runs

  ghost function MapSum<K(!new)>(m: map<K, nat>): nat {
    if m == map[] then 0
    else
      var k :| k in m;
      m[k] + MapSum(m - {k})
  }

  lemma {:induction false} MapSumRemove<K(!new)>(m: map<K, nat>, k: K)
    requires k in m
    ensures MapSum(m) == m[k] + MapSum(m - {k})
    decreases |m|
  {
    var j :| j in m && MapSum(m) == m[j] + MapSum(m - {j});
    if j != k {
      MapSumRemove(m - {j}, k);
      MapSumRemove(m - {k}, j);
      assert m - {j} - {k} == m - {k} - {j};
    }
  }

  lemma {:induction false} MapSumUpdate<K(!new)>(m: map<K, nat>, k: K, n: nat)
    ensures MapSum(m[k := n]) == MapSum(m - {k}) + n
  {
    MapSumRemove(m[k := n], k);
    assert m[k := n] - {k} == m - {k};
  }

  function SizeMap(index: map<Key, Entry>): map<Key, nat> {
    map k | k in index :: index[k].pos.size
  }

  /** The sum of the sizes of all indexed positions. */
  ghost function IndexedBytes(index: map<Key, Entry>): nat {
    MapSum(SizeMap(index))
  }

  function TotalBytes(log: seq<Entry>): nat {
    if |log| == 0 then 0 else TotalBytes(log[..|log| - 1]) + log[|log| - 1].pos.size
  }

  /** The bytes of the finish markers of a log. */
  function MarkerBytes(log: seq<Entry>): nat {
    if |log| == 0 then 0
    else
      var last := log[|log| - 1];
      MarkerBytes(log[..|log| - 1]) + if last.rec.kind == TxnFinished then last.pos.size else 0
  }

  function PendingMap(pending: map<nat, seq<Entry>>): map<nat, nat> {
    map s | s in pending :: TotalBytes(pending[s])
  }

  /** The bytes of the batches that never got their marker. */
  ghost function OrphanBytes(log: seq<Entry>): nat {
    MapSum(PendingMap(Replay(log).pending))
  }

  function TombstoneBytes(es: seq<Entry>): nat {
    if |es| == 0 then 0
    else
      var last := es[|es| - 1];
      TombstoneBytes(es[..|es| - 1]) + if last.rec.kind == Deleted then last.pos.size else 0
  }

  // ---------------------------------------------------------------- the index

  lemma {:induction false} ApplyEntryBytes(index: map<Key, Entry>, e: Entry)
    ensures IndexedBytes(ApplyEntry(index, e)) + OldSize(index, e.rec.key)
         == IndexedBytes(index) + if e.rec.kind == Deleted then 0 else e.pos.size
  {
    var k, sizes := e.rec.key, SizeMap(index);
    if k in index {
      MapSumRemove(sizes, k);
    } else {
      assert sizes - {k} == sizes;
    }
    if e.rec.kind == Deleted {
      assert SizeMap(index - {k}) == sizes - {k};
    } else {
      MapSumUpdate(sizes, k, e.pos.size);
      assert SizeMap(index[k := e]) == sizes[k := e.pos.size];
    }
  }

  /** Bytes that enter an index are the bytes of its batch but for the tombstones; bytes that leave it are freed. */
  lemma {:induction false} ApplyAllBytes(index: map<Key, Entry>, es: seq<Entry>)
    ensures IndexedBytes(ApplyAll(index, es)) + Freed(index, es) + TombstoneBytes(es)
         == IndexedBytes(index) + TotalBytes(es)
  {
    if |es| > 0 {
      var front, last := es[..|es| - 1], es[|es| - 1];
      ApplyAllBytes(index, front);
      ApplyEntryBytes(ApplyAll(index, front), last);
    }
  }

  lemma {:induction false} UpdateAllReclaim(st: ReplayState, es: seq<Entry>)
    ensures UpdateAll(st, es).reclaim == st.reclaim + Freed(st.index, es) + TombstoneBytes(es)
  {
    if |es| > 0 {
      UpdateAllReclaim(st, es[..|es| - 1]);
      UpdateAllIndex(st, es[..|es| - 1]);
    }
  }

  // ---------------------------------------------------------------- replay

  lemma {:induction false} TotalAppend(log: seq<Entry>, e: Entry)
    ensures TotalBytes(log + [e]) == TotalBytes(log) + e.pos.size
    ensures MarkerBytes(log + [e]) == MarkerBytes(log) + if e.rec.kind == TxnFinished then e.pos.size else 0
  {
    assert (log + [e])[..|log|] == log;
  }

  ghost function Accounted(st: ReplayState): nat {
    IndexedBytes(st.index) + st.reclaim + MapSum(PendingMap(st.pending))
  }

  lemma {:induction false} ReleaseAccounts(st: ReplayState, s: nat)
    ensures
      var released := UpdateAll(st, PendingOf(st, s));
      Accounted(released.(pending := released.pending - {s})) == Accounted(st)
  {
    hide IndexedBytes, UpdateAll, ApplyAll, TombstoneBytes, Freed;
    var es, waiting := PendingOf(st, s), PendingMap(st.pending);
    UpdateAllIndex(st, es);
    UpdateAllReclaim(st, es);
    UpdateAllKeepsRest(st, es);
    ApplyAllBytes(st.index, es);
    assert PendingMap(st.pending - {s}) == waiting - {s};
    if s in st.pending {
      MapSumRemove(waiting, s);
    } else {
      assert waiting - {s} == waiting;
    }
  }

  lemma {:induction false} WaitAccounts(st: ReplayState, s: nat, e: Entry)
    ensures Accounted(st.(pending := st.pending[s := PendingOf(st, s) + [e]])) == Accounted(st) + e.pos.size
  {
    hide IndexedBytes;
    var es, waiting := PendingOf(st, s), PendingMap(st.pending);
    TotalAppend(es, e);
    MapSumUpdate(waiting, s, TotalBytes(es + [e]));
    assert PendingMap(st.pending[s := es + [e]]) == waiting[s := TotalBytes(es + [e])];
    if s in st.pending {
      MapSumRemove(waiting, s);
    } else {
      assert waiting - {s} == waiting;
    }
  }

  lemma {:induction false} StepAccounts(st: ReplayState, e: Entry)
    requires e.rec.kind == TxnFinished ==> e.rec.seqNo > 0
    ensures Accounted(ReplayStep(st, e)) == Accounted(st) + if e.rec.kind == TxnFinished then 0 else e.pos.size
  {
    hide IndexedBytes, ApplyEntry, UpdateAll, MapSum, PendingMap, PendingOf;
    if e.rec.seqNo == 0 {
      ApplyEntryBytes(st.index, e);
    } else if e.rec.kind == TxnFinished {
      ReleaseAccounts(st, e.rec.seqNo);
    } else {
      WaitAccounts(st, e.rec.seqNo, e);
    }
  }

  /** After a replay every byte of the log is indexed, reclaimable, or in a marker or an orphaned batch. */
  lemma {:induction false} ReplayAccounts(log: seq<Entry>)
    requires MarkersNumbered(log)
    ensures TotalBytes(log)
         == IndexedBytes(Replay(log).index) + Replay(log).reclaim + MarkerBytes(log) + OrphanBytes(log)
  {
    hide IndexedBytes, ReplayStep;
    if |log| == 0 {
      EmptyAccounts();
    } else {
      var front, e := log[..|log| - 1], log[|log| - 1];
      assert log == front + [e];
      forall x | x in front ensures x in log {
      }
      ReplayAccounts(front);
      StepAccounts(Replay(front), e);
    }
  }

  lemma {:induction false} EmptyAccounts()
    ensures IndexedBytes(map[]) == 0 && MapSum(PendingMap(map[])) == 0
  {
    assert SizeMap(map[]) == map[];
    assert PendingMap(map[]) == map[];
  }

  // ---------------------------------------------------------------- the live counter

  /** In a batch every key is new to the batch, so an empty index frees nothing. */
  lemma {:induction false} NothingFreed(es: seq<Entry>)
    requires DistinctKeys(es)
    ensures Freed(map[], es) == 0
  {
    if |es| > 0 {
      var front, last := es[..|es| - 1], es[|es| - 1];
      NothingFreed(front);
      ApplyAllFrom(map[], front, last.rec.key);
      ApplyAllEffect(map[], front);
      forall e | e in front ensures e.rec.key != last.rec.key {
        var i :| 0 <= i < |front| && front[i] == e;
        assert es[i].rec.key != es[|es| - 1].rec.key;
      }
    }
  }

  /** The order in which a commit walks its batch does not change how many bytes it frees. */
  lemma {:induction false} FreedInAnyOrder(index: map<Key, Entry>, es: seq<Entry>, order: seq<nat>)
    requires DistinctKeys(es) && Permutation(order, |es|)
    ensures Freed(index, Reorder(es, order)) == Freed(index, es)
  {
    hide IndexedBytes, ApplyAll, Freed, TombstoneBytes, TotalBytes;
    var fs := Reorder(es, order);
    ReorderSame(index, es, order);
    ReorderSame(map[], es, order);
    ApplyAllBytes(index, es);
    ApplyAllBytes(index, fs);
    ApplyAllBytes(map[], es);
    ApplyAllBytes(map[], fs);
    NothingFreed(es);
    ReorderDistinct(es, order);
    NothingFreed(fs);
  }

  lemma {:induction false} ReorderDistinct(es: seq<Entry>, order: seq<nat>)
    requires DistinctKeys(es) && Permutation(order, |es|)
    ensures DistinctKeys(Reorder(es, order))
  {
    forall i, j | 0 <= i < j < |es| ensures es[order[i]].rec.key != es[order[j]].rec.key {
      var a, b := order[i], order[j];
      assert a < b ==> es[a].rec.key != es[b].rec.key;
      assert b < a ==> es[b].rec.key != es[a].rec.key;
    }
  }

  /** The tombstones a step adds that the live counter leaves out: those of a committed batch. */
  function Uncounted(cfg: Config, s: Store, l: Label): nat
    requires Enabled(s, l)
  {
    if l.Commit? then TombstoneBytes(BatchEntries(cfg, s, l.batch)) else 0
  }

  lemma {:induction false} CommitReclaim(cfg: Config, s: Store, batch: seq<Staged>, order: seq<nat>, sync: bool)
    requires Inv(cfg, s) && ValidBatch(batch) && Permutation(order, |batch|)
    ensures
      var t := CommitStep(cfg, s, batch, order, sync);
      Replay(t.log).reclaim - t.reclaim ==
        Replay(s.log).reclaim - s.reclaim + TombstoneBytes(BatchEntries(cfg, s, batch))
  {
    hide HintOk, JobOk, DirOk, CommitLog, BatchEntries, UpdateAll, ApplyAll, Freed, TombstoneBytes, Ordered, WfEntry;
    hide AtEnd;
    var seqNo, es := s.seqNo + 1, BatchEntries(cfg, s, batch);
    var t := CommitLog(cfg, s, batch);
    CommitEntries(cfg, s, batch);
    var fin := t.log[|s.log| + |batch|];
    BatchEntriesAreBatch(es, batch, seqNo);
    FreshSeqNo(s.log, s.seqNo);
    ReplayConcat(EMPTY, s.log, es + [fin]);
    FinishedBatchApplies(Replay(s.log), es, fin, seqNo);
    UpdateAllReclaim(Replay(s.log), es);
    FreedInAnyOrder(s.index, es, order);
  }

  lemma {:induction false} StepReclaim(cfg: Config, s: Store, l: Label)
    requires Inv(cfg, s) && Enabled(s, l) && !l.Restart? && !l.Crash?
    ensures
      var t := Step(cfg, s, l);
      Replay(t.log).reclaim - t.reclaim == Replay(s.log).reclaim - s.reclaim + Uncounted(cfg, s, l)
  {
    hide Inv, PutStep, DeleteStep, CommitStep, AbortStep, BatchEntries, TombstoneBytes, Permutation, ValidBatch, Replay;
    match l
    case Put(key, value) => PutReclaim(cfg, s, key, value);
    case Delete(key) => DeleteReclaim(cfg, s, key);
    case Commit(batch, order, sync) => CommitReclaim(cfg, s, batch, order, sync);
    case AbortedCommit(batch, written) => AbortReclaim(cfg, s, batch, written);
    case _ =>
  }

  lemma {:induction false} PutReclaim(cfg: Config, s: Store, key: Key, value: Value)
    requires Inv(cfg, s)
    ensures
      var t := PutStep(cfg, s, key, value);
      Replay(t.log).reclaim - t.reclaim == Replay(s.log).reclaim - s.reclaim
  {
    hide HintOk, JobOk, DirOk, Append, AtEnd, Ordered, WfEntry;
    var rec, t := Record(0, key, value, Normal), PutStep(cfg, s, key, value);
    AppendOk(cfg, s, rec);
    assert t.log[|s.log| + 0].rec == [rec][0];
    assert t.log == s.log + [t.log[|s.log|]];
    ReplayAppend(s.log, t.log[|s.log|]);
  }

  lemma {:induction false} DeleteReclaim(cfg: Config, s: Store, key: Key)
    requires Inv(cfg, s)
    ensures
      var t := DeleteStep(cfg, s, key);
      Replay(t.log).reclaim - t.reclaim == Replay(s.log).reclaim - s.reclaim
  {
    hide HintOk, JobOk, DirOk, Append, AtEnd, Ordered, WfEntry;
    if key in s.index {
      var rec, t := Record(0, key, [], Deleted), DeleteStep(cfg, s, key);
      AppendOk(cfg, s, rec);
      assert t.log[|s.log| + 0].rec == [rec][0];
      assert t.log == s.log + [t.log[|s.log|]];
      ReplayAppend(s.log, t.log[|s.log|]);
    }
  }

  lemma {:induction false} AbortReclaim(cfg: Config, s: Store, batch: seq<Staged>, written: nat)
    requires Inv(cfg, s) && ValidBatch(batch) && written <= |batch|
    ensures
      var t := AbortStep(cfg, s, batch, written);
      Replay(t.log).reclaim - t.reclaim == Replay(s.log).reclaim - s.reclaim
  {
    hide HintOk, JobOk, DirOk, Append, AppendAll, AtEnd, Ordered, WfEntry;
    var t := AbortStep(cfg, s, batch, written);
    AbortAppends(cfg, s, batch, written);
    OrphansWait(s.log, t.log[|s.log|..], batch[..written], s.seqNo);
    AppendAllKeepsReclaim(cfg, s.(seqNo := s.seqNo + 1), RecordsOf(batch[..written], s.seqNo + 1));
  }

  lemma {:induction false} AppendAllKeepsReclaim(cfg: Config, s: Store, recs: seq<Record>)
    ensures AppendAll(cfg, s, recs).reclaim == s.reclaim
  {
    if |recs| > 0 {
      AppendAllKeepsReclaim(cfg, s, recs[..|recs| - 1]);
    }
  }

  /** Bytes of batch tombstones committed since the directory was last opened. */
  function SessionTombstones(cfg: Config, ls: seq<Label>): nat {
    if |ls| == 0 then 0
    else
      var front, l := ls[..|ls| - 1], ls[|ls| - 1];
      var s := Exec(cfg, front);
      if l.Restart? || l.Crash? || s.None? || !Enabled(s.value, l) then 0
      else SessionTombstones(cfg, front) + Uncounted(cfg, s.value, l)
  }

  lemma {:induction false} LiveReclaim(cfg: Config, ls: seq<Label>)
    requires Exec(cfg, ls).Some?
    ensures
      var s := Exec(cfg, ls).value;
      Replay(s.log).reclaim == s.reclaim + SessionTombstones(cfg, ls)
  {
    hide Inv, Step, Enabled, Replay, Uncounted;
    if |ls| == 0 {
      EmptyReplay();
    } else {
      var front, l := ls[..|ls| - 1], ls[|ls| - 1];
      var s := Exec(cfg, front).value;
      LiveReclaim(cfg, front);
      ReachableOk(cfg, front);
      if l.Restart? || l.Crash? {
        OpenReclaim(cfg, s, l);
      } else {
        StepReclaim(cfg, s, l);
      }
    }
  }

  lemma {:induction false} EmptyReplay()
    ensures Replay(NEW_STORE.log).reclaim == NEW_STORE.reclaim
  {
  }

  lemma {:induction false} OpenReclaim(cfg: Config, s: Store, l: Label)
    requires Inv(cfg, s) && Enabled(s, l) && (l.Restart? || l.Crash?)
    ensures Replay(Step(cfg, s, l).log).reclaim == Step(cfg, s, l).reclaim
  {
    hide Inv, ReopenStep;
    KeptAll(cfg, s);
    ReopenKeepsInv(cfg, s, if l.Crash? then l.kept else |s.log|);
  }

  /**
   * Space conservation in every reachable state: the bytes of the data files are the indexed bytes, the reclaimable
   * bytes, the finish markers, the orphaned batch records, and the batch tombstones committed since the last opening.
   */
  lemma {:induction false} SpaceConservation(cfg: Config, ls: seq<Label>)
    requires Exec(cfg, ls).Some?
    ensures
      var s := Exec(cfg, ls).value;
      TotalBytes(s.log)
        == IndexedBytes(s.index) + s.reclaim + SessionTombstones(cfg, ls) + MarkerBytes(s.log) + OrphanBytes(s.log)
  {
    hide Exec, Replay, HintOk, JobOk, DirOk, IndexedBytes, SessionTombstones, OrphanBytes;
    ReachableOk(cfg, ls);
    LiveReclaim(cfg, ls);
    ReplayAccounts(Exec(cfg, ls).value.log);
  }

  // ---------------------------------------------------------------- without batches

  predicate NoBatches(ls: seq<Label>) {
    forall i :: 0 <= i < |ls| ==> !ls[i].Commit? && !ls[i].AbortedCommit?
  }

  predicate Unnumbered(log: seq<Entry>) {
    forall e :: e in log ==> e.rec.seqNo == 0 && e.rec.kind != TxnFinished
  }

  lemma {:induction false} UnnumberedBytes(log: seq<Entry>)
    requires Unnumbered(log)
    ensures MarkerBytes(log) == 0 && Replay(log).pending == map[]
  {
    if |log| > 0 {
      var front, e := log[..|log| - 1], log[|log| - 1];
      assert e in log;
      forall x | x in front ensures x in log {
      }
      UnnumberedBytes(front);
    }
  }

  lemma {:induction false} StaysUnnumbered(cfg: Config, s: Store, l: Label)
    requires Inv(cfg, s) && Enabled(s, l) && Unnumbered(s.log) && !l.Commit? && !l.AbortedCommit?
    ensures Unnumbered(Step(cfg, s, l).log)
  {
    hide Append, Replay, LoadIndex, HintOk, JobOk, WfLog, CopyOk, NotAhead, IndexOk, Below, AtEnd;
    match l
    case Put(key, value) =>
      AppendOk(cfg, s, Record(0, key, value, Normal));
      OneMore(s.log, Step(cfg, s, l).log, Record(0, key, value, Normal));
    case Delete(key) =>
      AppendOk(cfg, s, Record(0, key, [], Deleted));
      if key in s.index {
        OneMore(s.log, Step(cfg, s, l).log, Record(0, key, [], Deleted));
      }
    case Restart =>
      assert s.log[..|s.log|] == s.log;
    case _ =>
  }

  lemma {:induction false} OneMore(log: seq<Entry>, longer: seq<Entry>, rec: Record)
    requires Unnumbered(log) && rec.seqNo == 0 && rec.kind != TxnFinished
    requires |longer| == |log| + 1 && longer[..|log|] == log && longer[|log| + 0].rec == [rec][0]
    ensures Unnumbered(longer)
  {
    assert longer == log + [longer[|log|]];
  }

  lemma {:induction false} PlainRun(cfg: Config, ls: seq<Label>)
    requires Exec(cfg, ls).Some? && NoBatches(ls)
    ensures Unnumbered(Exec(cfg, ls).value.log) && SessionTombstones(cfg, ls) == 0
  {
    hide Inv, Step, Enabled;
    if |ls| > 0 {
      var front, l := ls[..|ls| - 1], ls[|ls| - 1];
      PlainRun(cfg, front);
      ReachableOk(cfg, front);
      StaysUnnumbered(cfg, Exec(cfg, front).value, l);
    }
  }

  /**
   * Without batches nothing is lost to the books: indexed plus reclaimable bytes are all bytes, live and after any
   * opening.
   */
  lemma {:induction false} PlainSpaceConservation(cfg: Config, ls: seq<Label>)
    requires Exec(cfg, ls).Some? && NoBatches(ls)
    ensures TotalBytes(Exec(cfg, ls).value.log) == IndexedBytes(Exec(cfg, ls).value.index) + Exec(cfg, ls).value.reclaim
  {
    hide Exec, IndexedBytes, SessionTombstones, TotalBytes, MarkerBytes;
    var s := Exec(cfg, ls).value;
    SpaceConservation(cfg, ls);
    PlainRun(cfg, ls);
    UnnumberedBytes(s.log);
    EmptyAccounts();
  }
}
