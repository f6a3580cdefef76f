/**
 * Where the code falls short: a merge that ran beside a writer, then a crash that loses the writer's unsynced record.
 * Merge drops the frozen value because the live index has a newer one; the crash drops the newer one.
 * Reopening.MergeThenCrash says exactly when this cannot happen.
 */
module LostTail {
  import opened Wrappers
  import opened Varints
  import opened LogRecords
  import opened Log
  import opened Engine
  import opened Runs

  const CFG: Config := Config(1000, false, 0)
  const K1: Key := [1]
  const K2: Key := [2]
  const R1: Record := Record(0, K1, [10], Normal)
  const R2: Record := Record(0, K2, [20], Normal)
  const R3: Record := Record(0, K1, [30], Normal)

  /** A small limit on small records. */
  lemma {:induction false} SmallSize(r: Record)
    requires r.seqNo == 0 && |r.key| == 1 && |r.value| == 1
    ensures Size(r) <= 100
  {
    VarintFits32(2);
    VarintFits32(1);
    assert UvarintBytes(0) == [0];
  }

  function E1(): Entry { Entry(Pos(0, 0, Size(R1)), R1) }

  function E2(): Entry { Entry(Pos(0, Size(R1), Size(R2)), R2) }

  function E3(): Entry { Entry(Pos(1, 0, Size(R3)), R3) }

  /** The copy of the second record; the first is not copied. */
  function C2(): Entry { Entry(Pos(0, 0, Size(R2)), R2) }

  function Written(): Store {
    Store([E1(), E2()], Active(0, Size(R1) + Size(R2)), 0, Size(R1) + Size(R2), map[K1 := E1(), K2 := E2()],
          0, 0, [], 0, Idle, NoMerge)
  }

  /** A write that needs no rotation and no sync. */
  lemma {:induction false} PlainPut(s: Store, key: Key, value: Value, fid: nat, fill: nat)
    requires s.active == Active(fid, fill) || (s.active.NoFile? && fid == 0 && fill == 0)
    requires fill + Size(Record(0, key, value, Normal)) <= 1000
    ensures
      var r := Record(0, key, value, Normal);
      var e := Entry(Pos(fid, fill, Size(r)), r);
      PutStep(CFG, s, key, value) ==
        s.(log := s.log + [e], active := Active(fid, fill + Size(r)), bytesWrite := s.bytesWrite + Size(r),
           index := s.index[key := e], reclaim := s.reclaim + OldSize(s.index, key))
  {
    hide Size;
  }

  function WrittenOnce(): Store {
    Store([E1()], Active(0, Size(R1)), 0, Size(R1), map[K1 := E1()], 0, 0, [], 0, Idle, NoMerge)
  }

  lemma {:induction false} FirstPut()
    ensures PutStep(CFG, NEW_STORE, K1, [10]) == WrittenOnce()
  {
    hide Size, PutStep;
    SmallSize(R1);
    PlainPut(NEW_STORE, K1, [10], 0, 0);
    assert [] + [E1()] == [E1()];
  }

  lemma {:induction false} SecondPut()
    ensures PutStep(CFG, WrittenOnce(), K2, [20]) == Written()
  {
    hide Size, PutStep;
    SmallSize(R1);
    SmallSize(R2);
    PlainPut(WrittenOnce(), K2, [20], 0, Size(R1));
    assert [E1()] + [E2()] == [E1(), E2()];
    assert map[K1 := E1()][K2 := E2()] == map[K1 := E1(), K2 := E2()];
  }

  /** Freeze, prepare the directory, and a client overwrites the first key. */
  function Overwritten(): Store {
    Store([E1(), E2(), E3()], Active(1, Size(R3)), 2, Size(R1) + Size(R2) + Size(R3), map[K1 := E3(), K2 := E2()],
          0, Size(R1), [], 0, Scanning(1, 0, Output([], [], NoFile)), Unfinished)
  }

  lemma {:induction false} MergeStarts()
    ensures PutStep(CFG, MergeOpenStep(MergeBeginStep(Written())), K1, [30]) == Overwritten()
  {
    hide Size, PutStep;
    SmallSize(R3);
    var s := MergeOpenStep(MergeBeginStep(Written()));
    PlainPut(s, K1, [30], 1, 0);
    assert [E1(), E2()] + [E3()] == [E1(), E2(), E3()];
    assert map[K1 := E1(), K2 := E2()][K1 := E3()] == map[K1 := E3(), K2 := E2()];
  }

  /** The scan skips the first record, copies the second and finishes. */
  function Merged(): Store {
    Overwritten().(job := Idle, dir := Finished(1, Output([C2()], [C2()], Active(0, Size(R2)))))
  }

  lemma {:induction false} MergeRuns()
    ensures MergeFinishStep(MergeScanStep(CFG, MergeScanStep(CFG, Overwritten()))) == Merged()
  {
    hide Size;
    SmallSize(R2);
    var s := MergeScanStep(CFG, Overwritten());
    assert s.job == Scanning(1, 1, Output([], [], NoFile));
    var t := MergeScanStep(CFG, s);
    assert t.job.out.entries == [C2()];
    assert t.job.out.hint == [C2()];
  }

  /** The crash keeps the two synced records of three, and the next opening finds the copy alone. */
  lemma {:induction false} CrashLosesBoth()
    ensures Merged().synced == 2
    ensures View(ReopenStep(Merged(), 2).index) == map[K2 := [20]]
  {
    hide Size;
    var s := Merged();
    var cut := s.log[..2];
    assert cut == [E1(), E2()];
    assert Below(cut, 1) == 2;
    assert [C2()] + cut[2..] == [C2()];
    var d := LoadMergeFiles(s.(log := cut, synced := 2, job := Idle));
    assert d.log == [C2()] && Below(d.log, 1) == 1;
    assert d.log[1..] == [];
    assert LoadHint([C2()]) == map[K2 := C2()] by {
      assert [C2()][..0] == [];
    }
    assert LoadIndex(d).index == map[K2 := C2()];
  }

  /** The history of the run. */
  const OPS: seq<Op> := [PutOp(K1, [10]), PutOp(K2, [20]), PutOp(K1, [30])]

  /** Two writes, a merge begun, a third write, the merge's scan and its finish. */
  const RUN: seq<Label> :=
    [Put(K1, [10]), Put(K2, [20]), MergeBegin, MergeOpen, Put(K1, [30]), MergeScan, MergeScan, MergeFinish]

  lemma {:induction false} ExecStep(run: seq<Label>, n: nat, s: Store)
    requires n < |run| && Exec(CFG, run[..n]) == Some(s) && Enabled(s, run[n])
    ensures Exec(CFG, run[..n + 1]) == Some(Step(CFG, s, run[n]))
  {
    hide Step, Enabled;
    assert run[..n + 1][..n] == run[..n];
  }

  lemma {:induction false} RunToWritten()
    ensures Exec(CFG, RUN[..2]) == Some(Written())
  {
    hide PutStep, Size;
    assert RUN[..0] == [];
    ExecStep(RUN, 0, NEW_STORE);
    FirstPut();
    ExecStep(RUN, 1, WrittenOnce());
    SecondPut();
  }

  lemma {:induction false} RunToOverwritten()
    ensures Exec(CFG, RUN[..5]) == Some(Overwritten())
  {
    hide PutStep, Size, Exec;
    RunToWritten();
    ExecStep(RUN, 2, Written());
    ExecStep(RUN, 3, MergeBeginStep(Written()));
    ExecStep(RUN, 4, MergeOpenStep(MergeBeginStep(Written())));
    MergeStarts();
  }

  lemma {:induction false} RunToMerged()
    ensures Exec(CFG, RUN) == Some(Merged())
  {
    hide Size, Exec, Rewrite;
    RunToOverwritten();
    assert Below(Overwritten().log, 1) == 2 by {
      assert Overwritten().log[..2] == [E1(), E2()];
    }
    ExecStep(RUN, 5, Overwritten());
    var s := MergeScanStep(CFG, Overwritten());
    ExecStep(RUN, 6, s);
    var t := MergeScanStep(CFG, s);
    ExecStep(RUN, 7, t);
    MergeRuns();
    assert RUN[..8] == RUN;
  }

  /**
   * The run followed by a crash that keeps everything synced: the recovered map is the map of no prefix
   * of the history, although the first two writes were synced. The first key has lost both its values.
   */
  lemma {:induction false} LostTailAfterMerge(n: nat)
    requires n <= 3
    ensures Ops(RUN) == OPS
    ensures Exec(CFG, RUN + [Crash(2)]).Some?
    ensures View(Exec(CFG, RUN + [Crash(2)]).value.index) != Spec(OPS[..n])
  {
    hide ReopenStep, Merged, Size, View;
    RunToMerged();
    CrashLosesBoth();
    CrashIsEnabled();
    assert (RUN + [Crash(2)])[..8] == RUN;
    OpsOfRun();
    PrefixMaps(n);
  }

  lemma {:induction false} CrashIsEnabled()
    ensures Enabled(Merged(), Crash(2))
  {
  }

  lemma {:induction false} OpsOfRun()
    ensures Ops(RUN) == OPS
  {
    assert RUN[..0] == [];
    forall i | 0 <= i < 8 ensures RUN[..i + 1][..i] == RUN[..i] {
    }
    assert Ops(RUN[..1]) == [OPS[0]];
    assert Ops(RUN[..2]) == [OPS[0], OPS[1]];
    assert Ops(RUN[..3]) == [OPS[0], OPS[1]];
    assert Ops(RUN[..4]) == [OPS[0], OPS[1]];
    assert Ops(RUN[..5]) == OPS;
    assert Ops(RUN[..6]) == OPS;
    assert Ops(RUN[..7]) == OPS;
    assert RUN[..8] == RUN;
  }

  lemma {:induction false} PrefixMaps(n: nat)
    requires n <= 3
    ensures Spec(OPS[..n]) != map[K2 := [20]]
  {
    assert OPS[..0] == [];
    SpecAppend([], OPS[0]);
    SpecAppend([OPS[0]], OPS[1]);
    SpecAppend([OPS[0], OPS[1]], OPS[2]);
    assert OPS[..1] == [] + [OPS[0]];
    assert OPS[..2] == [OPS[0]] + [OPS[1]];
    assert OPS[..3] == [OPS[0], OPS[1]] + [OPS[2]];
    assert K2 !in Spec(OPS[..1]);
    assert K1 in Spec(OPS[..2]) && K1 in Spec(OPS[..3]);
  }
}
