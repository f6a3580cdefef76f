/** Whole runs of the engine against the abstract map, without and with crashes. */
module Runs {
  import opened Wrappers
  import opened Log
  import opened Engine
  import opened Invariant
  import opened Preservation
  import opened MergeScan
  import opened Reopening

  /** What a client asks for. */
  datatype Op = PutOp(key: Key, value: Value) | DeleteOp(key: Key) | BatchOp(batch: seq<Staged>)

  /** The client operation a step performs, if it performs one: merge steps, syncs and restarts do not. */
  function OpOf(l: Label): Option<Op> {
    match l
    case Put(key, value) => Some(PutOp(key, value))
    case Delete(key) => Some(DeleteOp(key))
    case Commit(batch, _, _) => Some(BatchOp(batch))
    case _ => None
  }

  function ApplyOp(m: map<Key, Value>, op: Op): map<Key, Value> {
    match op
    case PutOp(key, value) => m[key := value]
    case DeleteOp(key) => m - {key}
    case BatchOp(batch) => BatchView(m, batch)
  }

  /** The specification: a map to which the operations are applied in order. */
  function Spec(ops: seq<Op>): map<Key, Value> {
    if |ops| == 0 then map[] else ApplyOp(Spec(ops[..|ops| - 1]), ops[|ops| - 1])
  }

  function ApplyLabel(m: map<Key, Value>, l: Label): map<Key, Value> {
    if OpOf(l).Some? then ApplyOp(m, OpOf(l).value) else m
  }

  lemma {:induction false} NewStoreOk(cfg: Config)
    ensures Inv(cfg, NEW_STORE)
  {
  }

  lemma {:induction false} StepKeepsInv(cfg: Config, s: Store, l: Label)
    requires Inv(cfg, s) && Enabled(s, l)
    ensures Inv(cfg, Step(cfg, s, l))
  {
    hide Inv, PutStep, DeleteStep, CommitStep, AbortStep, MergeBeginStep, MergeOpenStep, MergeScanStep;
    hide MergeFinishStep, ReopenStep;
    hide ValidBatch, Permutation;
    match l
    case Put(key, value) => PutKeepsInv(cfg, s, key, value);
    case Delete(key) => DeleteKeepsInv(cfg, s, key);
    case Commit(batch, order, sync) => CommitKeepsInv(cfg, s, batch, order, sync);
    case AbortedCommit(batch, written) => AbortKeepsInv(cfg, s, batch, written);
    case Sync => SyncKeepsInv(cfg, s);
    case MergeBegin => MergeBeginKeepsInv(cfg, s);
    case MergeOpen => MergeOpenKeepsInv(cfg, s);
    case MergeScan => MergeScanKeepsInv(cfg, s);
    case MergeFinish => MergeFinishKeepsInv(cfg, s);
    case MergeAbort => MergeAbortKeepsInv(cfg, s);
    case Restart => KeptAll(cfg, s); ReopenKeepsInv(cfg, s, |s.log|);
    case Crash(kept) => ReopenKeepsInv(cfg, s, kept);
  }

  lemma {:induction false} KeptAll(cfg: Config, s: Store)
    requires Inv(cfg, s)
    ensures s.synced <= |s.log|
  {
  }

  /** Every step but a crash has exactly the effect of its operation on the client's map. */
  lemma {:induction false} StepRefines(cfg: Config, s: Store, l: Label)
    requires Inv(cfg, s) && Enabled(s, l) && !l.Crash?
    ensures View(Step(cfg, s, l).index) == ApplyLabel(View(s.index), l)
  {
    hide Inv, PutStep, DeleteStep, CommitStep, AbortStep, ReopenStep, ValidBatch, Permutation, View;
    match l
    case Put(key, value) => PutKeepsInv(cfg, s, key, value);
    case Delete(key) => DeleteKeepsInv(cfg, s, key);
    case Commit(batch, order, sync) => CommitKeepsInv(cfg, s, batch, order, sync);
    case AbortedCommit(batch, written) => AbortKeepsInv(cfg, s, batch, written);
    case Restart => RestartKeepsView(cfg, s);
    case _ =>
  }

  // ---------------------------------------------------------------- runs without loss

  /** The store after a run of steps from a new directory, if every step was possible. */
  function Exec(cfg: Config, ls: seq<Label>): Option<Store> {
    if |ls| == 0 then Some(NEW_STORE)
    else
      var before := Exec(cfg, ls[..|ls| - 1]);
      if before.Some? && Enabled(before.value, ls[|ls| - 1]) then Some(Step(cfg, before.value, ls[|ls| - 1])) else None
  }

  /** The client operations of a run, in order. */
  function Ops(ls: seq<Label>): seq<Op> {
    if |ls| == 0 then []
    else
      var front, last := Ops(ls[..|ls| - 1]), OpOf(ls[|ls| - 1]);
      if last.Some? then front + [last.value] else front
  }

  predicate NoCrash(ls: seq<Label>) {
    forall i :: 0 <= i < |ls| ==> !ls[i].Crash?
  }

  /** The invariant holds in every reachable state, after any interleaving and any crashes. */
  lemma {:induction false} ReachableOk(cfg: Config, ls: seq<Label>)
    requires Exec(cfg, ls).Some?
    ensures Inv(cfg, Exec(cfg, ls).value)
  {
    hide Inv, Step, Enabled;
    if |ls| == 0 {
      NewStoreOk(cfg);
    } else {
      ReachableOk(cfg, ls[..|ls| - 1]);
      StepKeepsInv(cfg, Exec(cfg, ls[..|ls| - 1]).value, ls[|ls| - 1]);
    }
  }

  lemma {:induction false} SpecAppend(ops: seq<Op>, op: Op)
    ensures Spec(ops + [op]) == ApplyOp(Spec(ops), op)
  {
    assert (ops + [op])[..|ops|] == ops;
  }

  /**
   * The engine refines a map in every state reachable without losing unsynced data: whatever batches were aborted, and
   * however merge steps and restarts were interleaved, the client sees its own operations in order and nothing else.
   */
  lemma {:induction false} EngineRefinesMap(cfg: Config, ls: seq<Label>)
    requires Exec(cfg, ls).Some? && NoCrash(ls)
    ensures View(Exec(cfg, ls).value.index) == Spec(Ops(ls))
  {
    hide Inv, Step, Enabled, View, ApplyOp;
    if |ls| == 0 {
      EmptyView();
    } else {
      var front, l := ls[..|ls| - 1], ls[|ls| - 1];
      var s := Exec(cfg, front).value;
      EngineRefinesMap(cfg, front);
      ReachableOk(cfg, front);
      StepRefines(cfg, s, l);
      if OpOf(l).Some? {
        SpecAppend(Ops(front), OpOf(l).value);
      }
    }
  }

  lemma {:induction false} EmptyView()
    ensures View(map[]) == map[]
  {
  }

  /**
   * Merge and restart leave no trace: two runs with the same client operations give the same map,
   * whether a merge ran in one of them to the end, was cut short at any step, or never began.
   */
  lemma {:induction false} MergeLeavesNoTrace(cfg: Config, ls: seq<Label>, ms: seq<Label>)
    requires Exec(cfg, ls).Some? && Exec(cfg, ms).Some?
    requires NoCrash(ls) && NoCrash(ms) && Ops(ls) == Ops(ms)
    ensures View(Exec(cfg, ls).value.index) == View(Exec(cfg, ms).value.index)
  {
    hide Exec, Spec, Ops, View;
    EngineRefinesMap(cfg, ls);
    EngineRefinesMap(cfg, ms);
  }

  /** A restart at any reachable point, with a merge anywhere in its course, gives back the live map. */
  lemma {:induction false} RestartAnywhere(cfg: Config, ls: seq<Label>)
    requires Exec(cfg, ls).Some?
    ensures View(ReopenStep(Exec(cfg, ls).value, |Exec(cfg, ls).value.log|).index) == View(Exec(cfg, ls).value.index)
  {
    hide Exec, ReopenStep, View, Inv;
    ReachableOk(cfg, ls);
    RestartKeepsView(cfg, Exec(cfg, ls).value);
  }

  /** Sequence freshness: no record that a replay may ever read carries the number the next batch will use. */
  lemma {:induction false} NextSeqNoIsFresh(cfg: Config, ls: seq<Label>)
    requires Exec(cfg, ls).Some?
    ensures
      var s := Exec(cfg, ls).value;
      (forall e :: e in s.log ==> e.rec.seqNo < s.seqNo + 1) && s.seqNo + 1 !in Replay(s.log).pending
  {
    hide Exec, Replay, HintOk, JobOk, DirOk;
    ReachableOk(cfg, ls);
    var s := Exec(cfg, ls).value;
    FreshSeqNo(s.log, s.seqNo);
  }
}
