/**
 * Where the code falls short: a merge finished, nothing was reopened, and the next merge is stopped while it removes
 * the directory of the first (merge.go:101-105). With the finish marker left behind, the next opening removes data
 * files for which there is no copy any more. Leftovers.LeftoversServe says exactly when this does harm.
 */
module StoppedRemoval {
  import opened Wrappers
  import opened Log
  import opened Engine
  import opened Leftovers
  import opened LostTail
  import opened Runs

  /** One write, a whole merge, and the freeze of the next one. */
  const TWO_MERGES: seq<Label> := [Put(K1, [10]), MergeBegin, MergeOpen, MergeScan, MergeFinish, MergeBegin]

  /** What the first merge wrote: the one record, copied to the same place. */
  function Copies(): Output { Output([E1()], [E1()], Active(0, Size(R1))) }

  function Scanned(): Store {
    Store([E1()], Active(1, 0), 1, Size(R1), map[K1 := E1()], 0, 0, [], 0, Scanning(1, 1, Copies()), Unfinished)
  }

  /** Before the second merge removes the directory of the first. */
  function Removing(): Store {
    Scanned().(active := Active(2, 0), job := Frozen(2), dir := Finished(1, Copies()))
  }

  lemma {:induction false} OneScan()
    ensures MergeScanStep(CFG, MergeOpenStep(MergeBeginStep(WrittenOnce()))) == Scanned()
  {
    hide Size;
    SmallSize(R1);
    var s := MergeOpenStep(MergeBeginStep(WrittenOnce()));
    assert IsLive(s.index, E1());
    assert Rewrite(CFG, Output([], [], NoFile), E1()).entries == [E1()];
    assert Rewrite(CFG, Output([], [], NoFile), E1()).hint == [E1()];
  }

  lemma {:induction false} RunToRemoving()
    ensures Exec(CFG, TWO_MERGES) == Some(Removing())
  {
    hide PutStep, Size, Exec, Rewrite, MergeScanStep;
    assert Exec(CFG, TWO_MERGES[..0]) == Some(NEW_STORE) by {
      NoSteps();
    }
    ExecStep(TWO_MERGES, 0, NEW_STORE);
    FirstPut();
    ExecStep(TWO_MERGES, 1, WrittenOnce());
    var frozen := MergeBeginStep(WrittenOnce());
    ExecStep(TWO_MERGES, 2, frozen);
    var begun := MergeOpenStep(frozen);
    assert Below([E1()], 1) == 1;
    ExecStep(TWO_MERGES, 3, begun);
    OneScan();
    ExecStep(TWO_MERGES, 4, Scanned());
    ExecStep(TWO_MERGES, 5, MergeFinishStep(Scanned()));
    assert TWO_MERGES[..6] == TWO_MERGES;
  }

  lemma {:induction false} NoSteps()
    ensures Exec(CFG, TWO_MERGES[..0]) == Some(NEW_STORE)
  {
  }

  /**
   * A reachable store, and its next opening when the stop left the finish marker: without hint file the key is gone;
   * with the hint file but without its data file the key is listed and cannot be read; with both all is well.
   */
  lemma {:induction false} StoppedRemovalLoses()
    ensures Exec(CFG, TWO_MERGES) == Some(Removing()) && View(Removing().index) == map[K1 := [10]]
    ensures LeftIndex(Removing(), 1, []) == map[]
    ensures LeftIndex(Removing(), 1, [E1()]) == map[K1 := E1()]
    ensures !Serves(LeftLog(Removing(), 1, {}), LeftIndex(Removing(), 1, []), map[K1 := [10]])
    ensures !Serves(LeftLog(Removing(), 1, {}), LeftIndex(Removing(), 1, [E1()]), map[K1 := [10]])
    ensures Serves(LeftLog(Removing(), 1, {0}), LeftIndex(Removing(), 1, [E1()]), map[K1 := [10]])
  {
    hide Size, Exec;
    RunToRemoving();
    var s := Removing();
    assert s.log[..1] == [E1()] && Below([E1()], 1) == 1;
    assert NewerPart(s, 1) == [];
    assert Left([E1()], {0}) == [E1()] by {
      assert Left([E1()][..0], {0}) == [];
    }
    assert LeftLog(s, 1, {0}) == [E1()] && LeftLog(s, 1, {}) == [];
    assert LoadHint([E1()]) == map[K1 := E1()] by {
      assert [E1()][..0] == [];
    }
    assert E1() in LeftLog(s, 1, {0}) && K1 in map[K1 := [10]];
  }
}
