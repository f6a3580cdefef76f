/** What every reachable store satisfies. */
module Invariant {
  import opened Log
  import opened Engine

  /** A record fits its file, or is larger than any file and starts one that rotation opened. */
  predicate WfEntry(cfg: Config, e: Entry) {
    && e.pos.size == Size(e.rec)
    && (e.pos.offset + e.pos.size <= cfg.maxFile || (e.pos.offset == 0 && e.pos.fid >= 1))
  }

  predicate WfLog(cfg: Config, log: seq<Entry>) {
    && Ordered(log)
    && MarkersNumbered(log)
    && (forall e :: e in log ==> WfEntry(cfg, e))
  }

  /** The active file is the last one and `WriteOff` is its length. */
  predicate AtEnd(log: seq<Entry>, active: Active) {
    match active
    case NoFile => log == []
    case Active(fid, fill) => fill == FillOf(log, fid) && forall e :: e in log ==> e.pos.fid <= fid
  }

  function ActiveFid(active: Active): nat {
    if active.NoFile? then 0 else active.fid
  }

  /** Everything outside the active file is on stable storage. */
  predicate Stable(s: Store) {
    s.synced <= |s.log| && Below(s.log, ActiveFid(s.active)) <= s.synced
  }

  /** The hint file lists exactly the entries of the files below the barrier, and those came from a merge. */
  predicate HintOk(s: Store) {
    var merged := s.log[..Below(s.log, s.barrier)];
    s.hint == merged && Merged(merged) && (s.barrier > 0 ==> s.active.Active? && s.barrier <= s.active.fid)
  }

  /** No batch reaches across the barrier: newer sequence numbers exceed all older ones. */
  predicate CutOk(log: seq<Entry>, barrier: nat) {
    forall x, y :: x in log && y in log && x.pos.fid < barrier <= y.pos.fid ==>
      y.rec.seqNo == 0 || x.rec.seqNo < y.rec.seqNo
  }

  predicate BarrierOk(s: Store, barrier: nat) {
    barrier >= 1 && s.active.Active? && barrier <= s.active.fid && CutOk(s.log, barrier)
  }

  /** The index as it was when the files below the barrier were frozen. */
  function FrozenIndex(log: seq<Entry>, barrier: nat): map<Key, Entry> {
    Replay(log[..Below(log, barrier)]).index
  }

  predicate Copied(out: Output, k: Key) {
    exists e :: e in out.entries && e.rec.key == k
  }

  /** A copy carries the key and value that one of the first `scanned` entries had in the frozen index. */
  predicate CopyOk(log: seq<Entry>, barrier: nat, scanned: nat, e: Entry)
    requires scanned <= |log|
  {
    var frozen := FrozenIndex(log, barrier);
    e.rec.key in frozen && frozen[e.rec.key] in log[..scanned] && e.rec.value == frozen[e.rec.key].rec.value
  }

  /** The end of the merge's output is not past the end of the last scanned entry. */
  predicate NotAhead(out: Output, log: seq<Entry>, scanned: nat)
    requires scanned <= |log|
  {
    out.active.NoFile? ||
    (scanned > 0 &&
     var p := log[scanned - 1].pos;
     out.active.fid < p.fid || (out.active.fid == p.fid && out.active.fill <= p.offset + p.size))
  }

  /** The merge instance has an active file only if that file holds its last entry. */
  predicate LastIsActive(out: Output) {
    out.active.Active? ==> |out.entries| > 0 && out.entries[|out.entries| - 1].pos.fid == out.active.fid
  }

  predicate OutOk(cfg: Config, log: seq<Entry>, barrier: nat, scanned: nat, out: Output)
    requires scanned <= |log|
  {
    && WfLog(cfg, out.entries) && AtEnd(out.entries, out.active) && Merged(out.entries)
    && out.hint == out.entries
    && LastIsActive(out) && NotAhead(out, log, scanned)
    && (forall e :: e in out.entries ==> CopyOk(log, barrier, scanned, e))
  }

  predicate JobOk(cfg: Config, s: Store) {
    match s.job
    case Idle => true
    case Frozen(barrier) => BarrierOk(s, barrier)
    case Scanning(barrier, scanned, out) =>
      && BarrierOk(s, barrier)
      && scanned <= Below(s.log, barrier)
      && OutOk(cfg, s.log, barrier, scanned, out)
      && (forall k :: k in s.index && s.index[k] in s.log[..scanned] ==> Copied(out, k))
  }

  predicate DirOk(cfg: Config, s: Store) {
    match s.dir
    case NoMerge => true
    case Unfinished => true
    case Finished(barrier, out) =>
      && BarrierOk(s, barrier)
      && OutOk(cfg, s.log, barrier, Below(s.log, barrier), out)
      && (forall k :: k in s.index && s.index[k].pos.fid < barrier ==> Copied(out, k))
  }

  /** The parts that speak of the files alone. */
  predicate FilesOk(cfg: Config, s: Store) {
    WfLog(cfg, s.log) && AtEnd(s.log, s.active) && Stable(s)
  }

  /**
   * The live index is the index a replay of the whole log would build,
   * and no record carries a sequence number above the live counter.
   */
  predicate IndexOk(s: Store) {
    s.index == Replay(s.log).index && SeqBounded(s.log, s.seqNo)
  }

  predicate Inv(cfg: Config, s: Store) {
    FilesOk(cfg, s) && IndexOk(s) && HintOk(s) && JobOk(cfg, s) && DirOk(cfg, s)
  }

  // ---------------------------------------------------------------- appending

  lemma {:induction false} FillBounds(log: seq<Entry>, active: Active, e: Entry)
    requires Ordered(log) && AtEnd(log, active) && active.Active? && e in log
    ensures e.pos.fid < active.fid || (e.pos.fid == active.fid && e.pos.offset + e.pos.size <= active.fill)
  {
    var i :| 0 <= i < |log| && log[i] == e;
    var last := log[|log| - 1];
    if i < |log| - 1 {
      assert Before(log[i].pos, last.pos);
    }
    assert last in log;
  }

  lemma {:induction false} PlaceOk(cfg: Config, log: seq<Entry>, active: Active, rec: Record)
    requires WfLog(cfg, log) && AtEnd(log, active)
    requires rec.kind == TxnFinished ==> rec.seqNo > 0
    ensures
      var t := Target(cfg.maxFile, active, Size(rec));
      var e := Placed(t, rec);
      && WfLog(cfg, log + [e]) && AtEnd(log + [e], Advance(t, Size(rec)))
      && (active.Active? ==> t.fid >= active.fid)
  {
    hide Size;
    var t := Target(cfg.maxFile, active, Size(rec));
    var e := Placed(t, rec);
    var longer := log + [e];
    forall i | 0 <= i < |log|
      ensures Before(log[i].pos, e.pos) && log[i].pos.fid <= t.fid
    {
      FillBounds(log, active, log[i]);
    }
    forall i, j | 0 <= i < j < |longer|
      ensures Before(longer[i].pos, longer[j].pos)
    {
      if j < |log| {
        assert Before(log[i].pos, log[j].pos);
      }
    }
  }

  lemma {:induction false} BelowAppend(log: seq<Entry>, e: Entry, fid: nat)
    requires e.pos.fid >= fid
    ensures Below(log + [e], fid) == Below(log, fid)
  {
    assert (log + [e])[..|log|] == log;
  }

  lemma {:induction false} BelowConcat(log: seq<Entry>, es: seq<Entry>, fid: nat)
    requires forall e :: e in es ==> e.pos.fid >= fid
    ensures Below(log + es, fid) == Below(log, fid)
  {
    if |es| == 0 {
      assert log + es == log;
    } else {
      var front, last := es[..|es| - 1], es[|es| - 1];
      assert last in es;
      forall e | e in front ensures e in es {
      }
      BelowConcat(log, front, fid);
      BelowAppend(log + front, last, fid);
      assert log + es == (log + front) + [last];
    }
  }

  /**
   * `t` is `s` with entries appended and nothing else decided: files stay well formed, the active file only moves
   * forward.
   */
  predicate Appended(cfg: Config, s: Store, t: Store, recs: seq<Record>) {
    && FilesOk(cfg, t)
    && |t.log| == |s.log| + |recs| && t.log[..|s.log|] == s.log
    && (forall i :: 0 <= i < |recs| ==> t.log[|s.log| + i].rec == recs[i])
    && (forall i :: |s.log| <= i < |t.log| ==> t.log[i].pos.fid >= ActiveFid(s.active))
    && ActiveFid(t.active) >= ActiveFid(s.active)
    && (s.active.Active? || |recs| > 0 ==> t.active.Active?)
    && s.synced <= t.synced
    && t == s.(log := t.log, active := t.active, bytesWrite := t.bytesWrite, synced := t.synced)
  }

  lemma {:induction false} StableAfterAppend(s: Store, t: Store, e: Entry)
    requires Ordered(t.log) && Stable(s) && t.log == s.log + [e]
    requires t.active.Active? && e.pos.fid == t.active.fid >= ActiveFid(s.active)
    requires s.active.NoFile? ==> s.log == []
    requires s.synced <= t.synced <= |t.log|
    requires s.active.Active? && t.active.fid != s.active.fid ==> t.synced >= |s.log|
    ensures Stable(t)
  {
    BelowAppend(s.log, e, t.active.fid);
  }

  lemma {:induction false} AppendOk(cfg: Config, s: Store, rec: Record)
    requires FilesOk(cfg, s)
    requires rec.kind == TxnFinished ==> rec.seqNo > 0
    ensures Appended(cfg, s, Append(cfg, s, rec), [rec])
  {
    hide Size, WfEntry, Below, Ordered, Target;
    PlaceOk(cfg, s.log, s.active, rec);
    var t := Append(cfg, s, rec);
    var e := t.log[|s.log|];
    assert t.log == s.log + [e];
    StableAfterAppend(s, t, e);
  }

  lemma {:induction false} AppendAllOk(cfg: Config, s: Store, recs: seq<Record>)
    requires FilesOk(cfg, s)
    requires forall i :: 0 <= i < |recs| ==> recs[i].kind == TxnFinished ==> recs[i].seqNo > 0
    ensures Appended(cfg, s, AppendAll(cfg, s, recs), recs)
  {
    hide Append, FilesOk;
    if |recs| == 0 {
      assert s.log[..|s.log|] == s.log;
    } else {
      var front, last := recs[..|recs| - 1], recs[|recs| - 1];
      AppendAllOk(cfg, s, front);
      var mid := AppendAll(cfg, s, front);
      AppendOk(cfg, mid, last);
      AppendedChain(cfg, s, mid, Append(cfg, mid, last), front, last);
      assert front + [last] == recs;
    }
  }

  lemma {:induction false} AppendedChain(cfg: Config, s: Store, mid: Store, t: Store, recs: seq<Record>, last: Record)
    requires Appended(cfg, s, mid, recs) && Appended(cfg, mid, t, [last])
    ensures Appended(cfg, s, t, recs + [last])
  {
    hide FilesOk;
    assert t.log[..|s.log|] == t.log[..|mid.log|][..|s.log|];
    forall i | 0 <= i < |recs| + 1
      ensures t.log[|s.log| + i].rec == (recs + [last])[i]
    {
      if i < |recs| {
        assert t.log[|s.log| + i] == t.log[..|mid.log|][|s.log| + i] == mid.log[|s.log| + i];
      } else {
        assert t.log[|mid.log| + 0].rec == [last][0];
      }
    }
    forall i | |s.log| <= i < |t.log|
      ensures t.log[i].pos.fid >= ActiveFid(s.active)
    {
      if i < |mid.log| {
        assert t.log[i] == t.log[..|mid.log|][i] == mid.log[i];
      }
    }
  }
}
