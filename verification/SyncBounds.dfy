/** What the option to sync after so many bytes buys: how much a crash of the machine can lose at most. */
module SyncBounds {
  import opened Wrappers
  import opened LogRecords
  import opened Log
  import opened Engine
  import opened Invariant
  import opened Runs
  import opened Space
  import opened LostTail
  import Reopening

  /** The bytes of the log behind its n-th entry. */
  function BytesFrom(log: seq<Entry>, n: nat): nat
    requires n <= |log|
  {
    TotalBytes(log[n..])
  }

  /** What is neither synced nor older than the last opening is counted, and the counter is below the option. */
  predicate Bounded(cfg: Config, s: Store, since: nat) {
    && since <= |s.log| && s.synced <= |s.log|
    && BytesFrom(s.log, Max(s.synced, since)) <= s.bytesWrite
    && (cfg.bytesPerSync > 0 ==> s.bytesWrite < cfg.bytesPerSync)
  }

  lemma {:induction false} AppendBounded(cfg: Config, s: Store, rec: Record, since: nat)
    requires Bounded(cfg, s, since)
    ensures Bounded(cfg, Append(cfg, s, rec), since)
  {
    hide Size, Target, TotalBytes;
    var t := Append(cfg, s, rec);
    var e := t.log[|s.log|];
    var n := Max(s.synced, since);
    OneMore(s.log, e, n);
    OneMore(s.log, e, |s.log|);
    NoneLeft(s.log);
    NoneLeft(t.log);
  }

  lemma {:induction false} OneMore(log: seq<Entry>, e: Entry, n: nat)
    requires n <= |log|
    ensures BytesFrom(log + [e], n) == BytesFrom(log, n) + e.pos.size
  {
    hide TotalBytes;
    assert (log + [e])[n..] == log[n..] + [e];
    TotalAppend(log[n..], e);
  }

  lemma {:induction false} NoneLeft(log: seq<Entry>)
    ensures BytesFrom(log, |log|) == 0
  {
    assert log[|log|..] == [];
  }

  lemma {:induction false} AppendAllBounded(cfg: Config, s: Store, recs: seq<Record>, since: nat)
    requires Bounded(cfg, s, since)
    ensures Bounded(cfg, AppendAll(cfg, s, recs), since)
  {
    hide Append, Bounded;
    if |recs| > 0 {
      AppendAllBounded(cfg, s, recs[..|recs| - 1], since);
      AppendBounded(cfg, AppendAll(cfg, s, recs[..|recs| - 1]), recs[|recs| - 1], since);
    }
  }

  lemma {:induction false} SyncedAll(cfg: Config, s: Store, t: Store, since: nat)
    requires Bounded(cfg, s, since) && t.log == s.log && t.bytesWrite == s.bytesWrite
    requires t.synced == s.synced || t.synced == |s.log|
    ensures Bounded(cfg, t, since)
  {
    assert s.log[|s.log|..] == [];
  }

  /** Every step but an opening. */
  lemma {:induction false} StepBounded(cfg: Config, s: Store, l: Label, since: nat)
    requires Bounded(cfg, s, since) && Enabled(s, l) && !l.Restart? && !l.Crash?
    ensures Bounded(cfg, Step(cfg, s, l), since)
  {
    hide Bounded, Append, AppendAll, RecordsOf, ApplyAll, Freed, BatchEntries, Permutation, ValidBatch, Rewrite;
    match l
    case Put(key, value) =>
      AppendBounded(cfg, s, Record(0, key, value, Normal), since);
      SyncedAll(cfg, Append(cfg, s, Record(0, key, value, Normal)), PutStep(cfg, s, key, value), since);
    case Delete(key) =>
      if key in s.index {
        AppendBounded(cfg, s, Record(0, key, [], Deleted), since);
        SyncedAll(cfg, Append(cfg, s, Record(0, key, [], Deleted)), DeleteStep(cfg, s, key), since);
      }
    case Commit(batch, order, sync) =>
      var s1 := s.(seqNo := s.seqNo + 1);
      SyncedAll(cfg, s, s1, since);
      AppendAllBounded(cfg, s1, RecordsOf(batch, s1.seqNo), since);
      AppendBounded(cfg, AppendAll(cfg, s1, RecordsOf(batch, s1.seqNo)), FinishRecord(s1.seqNo), since);
      SyncedAll(cfg, CommitLog(cfg, s, batch), CommitStep(cfg, s, batch, order, sync), since);
    case AbortedCommit(batch, written) =>
      var s1 := s.(seqNo := s.seqNo + 1);
      SyncedAll(cfg, s, s1, since);
      AppendAllBounded(cfg, s1, RecordsOf(batch[..written], s1.seqNo), since);
    case Sync | MergeBegin | MergeOpen | MergeScan | MergeFinish | MergeAbort =>
      SyncedAll(cfg, s, Step(cfg, s, l), since);
    case Restart =>
    case Crash(_) =>
  }

  /** How long the log was when the directory was last opened. */
  function OpenedAt(cfg: Config, ls: seq<Label>): nat {
    if |ls| == 0 then 0
    else if !ls[|ls| - 1].Restart? && !ls[|ls| - 1].Crash? then OpenedAt(cfg, ls[..|ls| - 1])
    else if Exec(cfg, ls).Some? then |Exec(cfg, ls).value.log| else 0
  }

  /** A directory just opened: the counter starts again. */
  lemma {:induction false} OpeningBounded(cfg: Config, s: Store, kept: nat)
    requires Inv(cfg, s) && s.synced <= kept <= |s.log|
    ensures Bounded(cfg, ReopenStep(s, kept), |ReopenStep(s, kept).log|)
  {
    var t := ReopenStep(s, kept);
    Reopening.ReopenKeepsInv(cfg, s, kept);
    NoMoreSynced(cfg, t);
    hide Inv, LoadIndex;
    assert t.log[|t.log|..] == [];
  }

  lemma {:induction false} NoMoreSynced(cfg: Config, t: Store)
    requires Inv(cfg, t)
    ensures t.synced <= |t.log|
  {
  }

  /**
   * In every reachable state: of what was written since the last opening, less than the option says is not yet on
   * stable storage, whatever files were rotated, whatever was synced on request and whatever merges ran.
   */
  lemma {:induction false} UnsyncedSinceOpening(cfg: Config, ls: seq<Label>)
    requires Exec(cfg, ls).Some?
    ensures Bounded(cfg, Exec(cfg, ls).value, OpenedAt(cfg, ls))
  {
    hide Inv, Step, Enabled, Bounded;
    if |ls| == 0 {
      NothingWritten(cfg);
    } else {
      var front, l := ls[..|ls| - 1], ls[|ls| - 1];
      var s := Exec(cfg, front).value;
      UnsyncedSinceOpening(cfg, front);
      ReachableOk(cfg, front);
      if l.Restart? || l.Crash? {
        Opens(cfg, s, l);
      } else {
        StepBounded(cfg, s, l, OpenedAt(cfg, front));
      }
    }
  }

  lemma {:induction false} Opens(cfg: Config, s: Store, l: Label)
    requires Inv(cfg, s) && Enabled(s, l) && (l.Restart? || l.Crash?)
    ensures Bounded(cfg, Step(cfg, s, l), |Step(cfg, s, l).log|)
  {
    hide Inv, ReopenStep, Bounded;
    NoMoreSynced(cfg, s);
    OpeningBounded(cfg, s, if l.Restart? then |s.log| else l.kept);
  }

  lemma {:induction false} NothingWritten(cfg: Config)
    ensures Bounded(cfg, NEW_STORE, 0)
  {
  }

  lemma {:induction false} TotalConcat(a: seq<Entry>, b: seq<Entry>)
    ensures TotalBytes(a + b) == TotalBytes(a) + TotalBytes(b)
    decreases |b|
  {
    if |b| == 0 {
      assert a + b == a;
    } else {
      assert (a + b)[..|a + b| - 1] == a + b[..|b| - 1];
      TotalConcat(a, b[..|b| - 1]);
    }
  }

  /**
   * So what is unsynced is less than the option says, not counting what was unsynced already when the directory was
   * last opened and has not been synced since.
   */
  lemma {:induction false} UnsyncedIsBounded(cfg: Config, ls: seq<Label>)
    requires Exec(cfg, ls).Some? && cfg.bytesPerSync > 0
    ensures
      var s, since := Exec(cfg, ls).value, OpenedAt(cfg, ls);
      && s.synced <= |s.log| && since <= |s.log|
      && BytesFrom(s.log, s.synced)
         < cfg.bytesPerSync + (if s.synced < since then TotalBytes(s.log[s.synced..since]) else 0)
  {
    hide Exec, OpenedAt, TotalBytes;
    UnsyncedSinceOpening(cfg, ls);
    var s, since := Exec(cfg, ls).value, OpenedAt(cfg, ls);
    if s.synced < since {
      TotalConcat(s.log[s.synced..since], s.log[since..]);
      assert s.log[s.synced..since] + s.log[since..] == s.log[s.synced..];
    }
  }

  // ---------------------------------------------------------------- an opening forgets

  /** Syncing once two records of that size have been written. */
  function Every(): Config {
    Config(1000, false, Size(R1) + 1)
  }

  const REOPENED: seq<Label> := [Put(K1, [10]), Restart, Put(K2, [20])]

  /** A put that is not due for a sync. */
  lemma {:induction false} PutNotDue(s: Store, key: Key, value: Value, fid: nat, fill: nat)
    requires s.active == Active(fid, fill) || (s.active.NoFile? && fid == 0 && fill == 0)
    requires fill + Size(Record(0, key, value, Normal)) <= 1000
    requires s.bytesWrite + Size(Record(0, key, value, Normal)) < Every().bytesPerSync
    ensures
      var r := Record(0, key, value, Normal);
      var t := PutStep(Every(), s, key, value);
      t.log == s.log + [Entry(Pos(fid, fill, Size(r)), r)] && t.synced == s.synced && t.active.Active?
      && t.active == Active(fid, fill + Size(r))
  {
    hide Size;
  }

  lemma {:induction false} SameSize()
    ensures Size(R1) == Size(R2)
  {
  }

  /**
   * The counter starts again when a directory is opened, but nothing is synced by closing or opening it: two records
   * with a restart between them are both unsynced, although together they are more than the option says.
   */
  lemma {:induction false} RestartForgetsUnsynced()
    ensures Exec(Every(), REOPENED).Some?
    ensures
      var s := Exec(Every(), REOPENED).value;
      s.synced == 0 && BytesFrom(s.log, 0) >= Every().bytesPerSync > 0
  {
    hide PutStep, Size, ReopenStep, Exec;
    SmallSize(R1);
    SameSize();
    assert REOPENED[..0] == [];
    NothingRun();
    Next(0, NEW_STORE);
    PutNotDue(NEW_STORE, K1, [10], 0, 0);
    var s := PutStep(Every(), NEW_STORE, K1, [10]);
    Next(1, s);
    ReachableOk(Every(), REOPENED[..1]);
    FreshFromPut(s);
    var t := ReopenStep(s, |s.log|);
    Next(2, t);
    PutNotDue(t, K2, [20], 0, Size(R1));
    assert REOPENED[..3] == REOPENED;
    TotalAppend([], E1());
    TotalAppend([E1()], E2());
    var u := PutStep(Every(), t, K2, [20]);
    assert u.log == [E1()] + [E2()] && [] + [E1()] == [E1()] && u.log[0..] == u.log;
  }

  lemma {:induction false} NothingRun()
    ensures Exec(Every(), []) == Some(NEW_STORE)
  {
  }

  lemma {:induction false} Next(n: nat, s: Store)
    requires n < |REOPENED| && Exec(Every(), REOPENED[..n]) == Some(s) && Enabled(s, REOPENED[n])
    ensures Exec(Every(), REOPENED[..n + 1]) == Some(Step(Every(), s, REOPENED[n]))
  {
    hide Step, Enabled;
    assert REOPENED[..n + 1][..n] == REOPENED[..n];
  }

  /** What the restart makes of the first record. */
  lemma {:induction false} FreshFromPut(s: Store)
    requires Inv(Every(), s) && s.synced == 0 && !s.dir.Finished?
    ensures
      var t := ReopenStep(s, |s.log|);
      t.log == s.log && t.active == s.active && t.synced == 0 && t.bytesWrite == 0
  {
    hide Inv, LoadIndex;
    Reopening.RestartFindsLiveIndex(Every(), s);
  }
}
