/**
 * A finished merge whose directory is only partly there: merge.go:102 was stopped while it removed the directory, or an
 * opening while it moved files out of it. The next opening still finds the marker, and what it gives is said here.
 */
module Leftovers {
  import opened LogRecords
  import opened Log
  import opened Engine
  import opened Invariant
  import opened MergeScan
  import opened Recovery
  import opened Reopening

  // ---------------------------------------------------------------- keys that newer files decide

  /** The keys that one record of a replay sets or removes. */
  function Touched(st: ReplayState, e: Entry): set<Key> {
    if e.rec.seqNo == 0 then {e.rec.key}
    else if e.rec.kind == TxnFinished then KeysOf(PendingOf(st, e.rec.seqNo))
    else {}
  }

  function KeysOf(es: seq<Entry>): set<Key> {
    if |es| == 0 then {} else KeysOf(es[..|es| - 1]) + {es[|es| - 1].rec.key}
  }

  /** The keys that a whole replay sets or removes. */
  function Decided(log: seq<Entry>): set<Key> {
    if |log| == 0 then {}
    else Decided(log[..|log| - 1]) + Touched(Replay(log[..|log| - 1]), log[|log| - 1])
  }

  /** What was there before shows where nothing newer decides. */
  function Overlaid(before: map<Key, Entry>, decided: set<Key>, newer: map<Key, Entry>): map<Key, Entry> {
    (before - decided) + newer
  }

  lemma {:induction false} OverlaidEntry(before: map<Key, Entry>, decided: set<Key>, newer: map<Key, Entry>, e: Entry)
    ensures ApplyEntry(Overlaid(before, decided, newer), e)
         == Overlaid(before, decided + {e.rec.key}, ApplyEntry(newer, e))
  {
  }

  lemma {:induction false} OverlaidAll(before: map<Key, Entry>, decided: set<Key>, newer: map<Key, Entry>,
    es: seq<Entry>)
    ensures ApplyAll(Overlaid(before, decided, newer), es)
         == Overlaid(before, decided + KeysOf(es), ApplyAll(newer, es))
  {
    hide Overlaid, ApplyEntry;
    if |es| == 0 {
      assert decided + KeysOf(es) == decided;
    } else {
      var front, last := es[..|es| - 1], es[|es| - 1];
      OverlaidAll(before, decided, newer, front);
      OverlaidEntry(before, decided + KeysOf(front), ApplyAll(newer, front), last);
      assert decided + KeysOf(es) == decided + KeysOf(front) + {last.rec.key};
    }
  }

  /** One record replayed over both: the batches it may release wait alike. */
  lemma {:induction false} OverlaidStep(before: map<Key, Entry>, decided: set<Key>, st: ReplayState, over: ReplayState,
    e: Entry)
    requires over.index == Overlaid(before, decided, st.index)
    requires e.rec.seqNo > 0 ==> PendingOf(over, e.rec.seqNo) == PendingOf(st, e.rec.seqNo)
    ensures ReplayStep(over, e).index == Overlaid(before, decided + Touched(st, e), ReplayStep(st, e).index)
  {
    hide Overlaid, UpdateAll, ApplyAll, ApplyEntry;
    var es := PendingOf(st, e.rec.seqNo);
    if e.rec.seqNo == 0 {
      OverlaidEntry(before, decided, st.index, e);
    } else if e.rec.kind == TxnFinished {
      UpdateAllIndex(st, es);
      UpdateAllIndex(over, es);
      UpdateAllKeepsRest(st, es);
      UpdateAllKeepsRest(over, es);
      OverlaidAll(before, decided, st.index, es);
    } else {
      assert decided + Touched(st, e) == decided;
    }
  }

  lemma {:induction false} SamePending(st: ReplayState, over: ReplayState, e: Entry)
    requires over.pending == st.pending
    ensures ReplayStep(over, e).pending == ReplayStep(st, e).pending
  {
    hide UpdateAll;
    UpdateAllKeepsRest(st, PendingOf(st, e.rec.seqNo));
    UpdateAllKeepsRest(over, PendingOf(st, e.rec.seqNo));
  }

  /** Newer files replayed over the index that a hint file gives. */
  lemma {:induction false} OverHint(before: map<Key, Entry>, newer: seq<Entry>)
    ensures
      var over := ReplayFrom(EMPTY.(index := before), newer);
      over.index == Overlaid(before, Decided(newer), Replay(newer).index) && over.pending == Replay(newer).pending
  {
    hide Overlaid, ReplayStep, Touched;
    if |newer| == 0 {
      assert Overlaid(before, {}, map[]) == before by {
        OverNothing(before);
      }
    } else {
      var front, e := newer[..|newer| - 1], newer[|newer| - 1];
      OverHint(before, front);
      OverlaidStep(before, Decided(front), Replay(front), ReplayFrom(EMPTY.(index := before), front), e);
      SamePending(Replay(front), ReplayFrom(EMPTY.(index := before), front), e);
    }
  }

  lemma {:induction false} OverNothing(before: map<Key, Entry>)
    ensures Overlaid(before, {}, map[]) == before
  {
  }

  /** The replay of the whole log is that of the newer files over the index at the freeze. */
  lemma {:induction false} OverFrozen(log: seq<Entry>, barrier: nat, n: nat)
    requires Ordered(log) && MarkersNumbered(log) && CutOk(log, barrier) && Below(log, barrier) <= n <= |log|
    ensures
      var newer := log[Below(log, barrier)..n];
      Replay(log[..n]).index == Overlaid(FrozenIndex(log, barrier), Decided(newer), Replay(newer).index)
    decreases n
  {
    hide Overlaid, ReplayStep, Touched, Ordered, CutOk, Below;
    var frozen := Below(log, barrier);
    if n == frozen {
      OverNothing(FrozenIndex(log, barrier));
      assert log[frozen..n] == [];
    } else {
      var e, front, newer := log[n - 1], log[..n - 1], log[frozen..n - 1];
      OverFrozen(log, barrier, n - 1);
      if e.rec.seqNo > 0 {
        NewerWaitsAlike(log, barrier, n - 1, e);
      }
      OverlaidStep(FrozenIndex(log, barrier), Decided(newer), Replay(newer), Replay(front), e);
      assert log[..n][..n - 1] == front && log[frozen..n][..n - 1 - frozen] == newer;
    }
  }

  /** A batch that a newer record may finish waits in the replay of the newer files as in the replay of all. */
  lemma {:induction false} NewerWaitsAlike(log: seq<Entry>, barrier: nat, n: nat, e: Entry)
    requires Ordered(log) && MarkersNumbered(log) && CutOk(log, barrier) && Below(log, barrier) <= n < |log|
    requires e == log[n] && e.rec.seqNo > 0
    ensures PendingOf(Replay(log[..n]), e.rec.seqNo) == PendingOf(Replay(log[Below(log, barrier)..n]), e.rec.seqNo)
  {
    hide Ordered, Replay, Below, Mirror;
    var newer := log[Below(log, barrier)..n];
    MergeSimulation(log, barrier, [], n);
    assert [] + newer == newer;
    BelowSplits(log, barrier);
    assert Newer(log, barrier, e.rec.seqNo);
  }

  // ---------------------------------------------------------------- what an opening finds

  /** The records of the files that are still there. */
  function Left(entries: seq<Entry>, files: set<nat>): seq<Entry> {
    if |entries| == 0 then []
    else
      var front, last := Left(entries[..|entries| - 1], files), entries[|entries| - 1];
      if last.pos.fid in files then front + [last] else front
  }

  lemma {:induction false} LeftAre(entries: seq<Entry>, files: set<nat>)
    ensures forall e :: e in Left(entries, files) <==> e in entries && e.pos.fid in files
  {
    if |entries| > 0 {
      var front, last := entries[..|entries| - 1], entries[|entries| - 1];
      assert entries == front + [last];
      LeftAre(front, files);
    }
  }

  /** The files below the barrier are removed, and of the merged ones those that are left are moved in. */
  function LeftLog(s: Store, kept: nat, files: set<nat>): seq<Entry>
    requires kept <= |s.log| && s.dir.Finished?
  {
    Left(s.dir.out.entries, files) + NewerPart(s, kept)
  }

  /** The newer files, as much of them as survived. */
  function NewerPart(s: Store, kept: nat): seq<Entry>
    requires kept <= |s.log| && s.dir.Finished?
  {
    s.log[..kept][Below(s.log[..kept], s.dir.barrier)..]
  }

  /** The index from the hint file that is in the data directory then, and from the newer files. */
  function LeftIndex(s: Store, kept: nat, hint: seq<Entry>): map<Key, Entry>
    requires kept <= |s.log| && s.dir.Finished?
  {
    ReplayFrom(EMPTY.(index := LoadHint(hint)), NewerPart(s, kept)).index
  }

  /** At this place lies a record with this value. */
  predicate ValueAt(log: seq<Entry>, p: Pos, value: Value) {
    exists e :: e in log
      && e.pos.fid == p.fid && e.pos.offset == p.offset && e.rec.kind != Deleted && e.rec.value == value
  }

  /** Exactly the keys of the map are listed, and every one is read with its value. */
  ghost predicate Serves(log: seq<Entry>, index: map<Key, Entry>, m: map<Key, Value>) {
    && (forall k :: k in index <==> k in m)
    && (forall k :: k in m && k in index ==> ValueAt(log, index[k].pos, m[k]))
  }

  /** Every frozen position in use has a hint that leads to its value. */
  ghost predicate HintsLead(index: map<Key, Entry>, barrier: nat, hinted: map<Key, Entry>, log: seq<Entry>) {
    forall k :: k in index && index[k].pos.fid < barrier ==>
      k in hinted && ValueAt(log, hinted[k].pos, index[k].rec.value)
  }

  /** Every hint for a key that is gone is overruled by a newer record. */
  ghost predicate NothingBack(index: map<Key, Entry>, hinted: map<Key, Entry>, decided: set<Key>) {
    forall k :: k in hinted && k !in index ==> k in decided
  }

  lemma {:induction false} ServesIff(before: map<Key, Entry>, hinted: map<Key, Entry>, decided: set<Key>,
    newer: map<Key, Entry>, barrier: nat, log: seq<Entry>)
    requires forall k :: k in before ==> before[k].pos.fid < barrier
    requires forall k :: k in newer ==> newer[k].pos.fid >= barrier && newer[k] in log && newer[k].rec.kind != Deleted
    ensures
      var index := Overlaid(before, decided, newer);
      Serves(log, Overlaid(hinted, decided, newer), View(index)) <==>
        HintsLead(index, barrier, hinted, log) && NothingBack(index, hinted, decided)
  {
    hide ValueAt;
    var index, found := Overlaid(before, decided, newer), Overlaid(hinted, decided, newer);
    forall k | k in newer ensures ValueAt(log, found[k].pos, index[k].rec.value) {
      ValueInLog(log, newer[k]);
    }
    OverlaidAt(before, decided, newer);
    OverlaidAt(hinted, decided, newer);
    hide Overlaid;
  }

  lemma {:induction false} OverlaidAt(before: map<Key, Entry>, decided: set<Key>, newer: map<Key, Entry>)
    ensures
      var over := Overlaid(before, decided, newer);
      && (forall k :: k in newer ==> k in over && over[k] == newer[k])
      && (forall k :: k !in newer ==> (k in over <==> k in before && k !in decided))
      && (forall k :: k !in newer && k in over ==> over[k] == before[k])
  {
  }

  lemma {:induction false} ValueInLog(log: seq<Entry>, e: Entry)
    requires e in log && e.rec.kind != Deleted
    ensures ValueAt(log, e.pos, e.rec.value)
  {
  }

  /** What the parts of a store with a finished merge are, once its log is cut. */
  lemma {:induction false} CutParts(cfg: Config, s: Store, kept: nat)
    requires Inv(cfg, s) && s.synced <= kept <= |s.log| && s.dir.Finished?
    ensures
      var cut := s.log[..kept];
      && WfLog(cfg, cut) && CutOk(cut, s.dir.barrier)
      && OutOk(cfg, cut, s.dir.barrier, Below(cut, s.dir.barrier), s.dir.out)
  {
    hide Replay, WfEntry, Ordered, CutOk, OutOk, HintOk, JobOk, IndexOk, AtEnd;
    FrozenIsStable(s, s.dir.barrier);
    CutLog(cfg, s.log, kept, s.dir.barrier);
    CutOut(cfg, s.log, kept, s.dir.barrier, s.dir.out);
  }

  lemma {:induction false} FrozenBelow(cfg: Config, log: seq<Entry>, barrier: nat)
    requires WfLog(cfg, log)
    ensures forall k :: k in FrozenIndex(log, barrier) ==> FrozenIndex(log, barrier)[k].pos.fid < barrier
  {
    hide Replay, Ordered, Below, WfEntry;
    var frozen := log[..Below(log, barrier)];
    FrozenEntries(log, barrier);
    ReplaySound(frozen);
  }

  lemma {:induction false} NewerIndexed(cfg: Config, log: seq<Entry>, barrier: nat)
    requires WfLog(cfg, log)
    ensures
      var newer := log[Below(log, barrier)..];
      forall k :: k in Replay(newer).index ==>
        var e := Replay(newer).index[k];
        e in newer && e.pos.fid >= barrier && e.rec.kind == Normal
  {
    hide Replay, Ordered, Below, WfEntry;
    var n := Below(log, barrier);
    var newer := log[n..];
    BelowSplits(log, barrier);
    forall i | 0 <= i < |newer| ensures newer[i] == log[n + i] && newer[i] in log && newer[i].pos.fid >= barrier {
    }
    ReplaySound(newer);
  }

  /**
   * The next opening after a stop inside the removal of a finished merge's directory or inside the move out of it, with
   * the marker still there, any merged files left, any hint file in the data directory and any part of the newer files
   * surviving: a client is served the map of the surviving log if and only if every frozen position in use has a hint
   * that leads to a record with its value, and no hint brings back a key that is gone.
   */
  lemma {:induction false} LeftoversServe(cfg: Config, s: Store, kept: nat, files: set<nat>, hint: seq<Entry>)
    requires Inv(cfg, s) && s.synced <= kept <= |s.log| && s.dir.Finished?
    ensures
      var index, hinted := Replay(s.log[..kept]).index, LoadHint(hint);
      Serves(LeftLog(s, kept, files), LeftIndex(s, kept, hint), View(index)) <==>
        && HintsLead(index, s.dir.barrier, hinted, LeftLog(s, kept, files))
        && NothingBack(index, hinted, Decided(NewerPart(s, kept)))
  {
    hide Inv, Replay, Overlaid, Decided, Serves, HintsLead, NothingBack, View, OutOk, CutOk, Below, LoadHint;
    hide ReplayFrom, WfEntry, Ordered;
    var cut, b := s.log[..kept], s.dir.barrier;
    var newer := NewerPart(s, kept);
    CutParts(cfg, s, kept);
    OverFrozen(cut, b, |cut|);
    assert cut[..|cut|] == cut && cut[Below(cut, b)..|cut|] == newer;
    OverHint(LoadHint(hint), newer);
    FrozenBelow(cfg, cut, b);
    NewerIndexed(cfg, cut, b);
    ServesIff(FrozenIndex(cut, b), LoadHint(hint), Decided(newer), Replay(newer).index, b, LeftLog(s, kept, files));
  }

  // ---------------------------------------------------------------- with the merge's own hint file, and with none

  /** The copy of every frozen position in use lies in a file that is still there. */
  predicate CopiesLeft(index: map<Key, Entry>, barrier: nat, out: Output, files: set<nat>) {
    forall k :: k in index && index[k].pos.fid < barrier ==>
      k in LoadHint(out.entries) && LoadHint(out.entries)[k].pos.fid in files
  }

  lemma {:induction false} OwnHintsLead(cfg: Config, s: Store, kept: nat, files: set<nat>)
    requires Inv(cfg, s) && s.synced <= kept <= |s.log| && s.dir.Finished?
    ensures
      var index := Replay(s.log[..kept]).index;
      HintsLead(index, s.dir.barrier, LoadHint(s.dir.out.entries), LeftLog(s, kept, files)) <==>
        CopiesLeft(index, s.dir.barrier, s.dir.out, files)
  {
    hide Inv, Replay, Below, LoadHint, Ordered, WfEntry, CutOk, NotAhead, AtEnd, Left;
    var cut, b, out := s.log[..kept], s.dir.barrier, s.dir.out;
    var index, hinted, log := Replay(cut).index, LoadHint(out.entries), LeftLog(s, kept, files);
    CutParts(cfg, s, kept);
    MergedFilesFit(cfg, s);
    OutAgrees(cfg, cut, b, out);
    LeftAre(out.entries, files);
    BelowSplits(cut, b);
    forall k | k in index && index[k].pos.fid < b && k in hinted
      ensures ValueAt(log, hinted[k].pos, index[k].rec.value) <==> hinted[k].pos.fid in files
    {
      LoadHintKeys(out.entries, k);
      if hinted[k].pos.fid in files {
        assert hinted[k] in Left(out.entries, files) && hinted[k] in log;
      }
      if ValueAt(log, hinted[k].pos, index[k].rec.value) {
        var e :| e in log && e.pos.fid == hinted[k].pos.fid && e.pos.offset == hinted[k].pos.offset;
        assert e !in NewerPart(s, kept);
      }
    }
  }

  lemma {:induction false} OwnHintsBringNothingBack(cfg: Config, s: Store, kept: nat)
    requires Inv(cfg, s) && s.synced <= kept <= |s.log| && s.dir.Finished?
    ensures NothingBack(Replay(s.log[..kept]).index, LoadHint(s.dir.out.entries), Decided(NewerPart(s, kept)))
  {
    hide Inv, Replay, Below, LoadHint, Ordered, WfEntry, CutOk, NotAhead, AtEnd, Decided, Merged;
    var cut, b, out := s.log[..kept], s.dir.barrier, s.dir.out;
    CutParts(cfg, s, kept);
    OverFrozen(cut, b, |cut|);
    assert cut[..|cut|] == cut && cut[Below(cut, b)..|cut|] == NewerPart(s, kept);
    forall k | k in LoadHint(out.entries) ensures k in FrozenIndex(cut, b) {
      LoadHintKeys(out.entries, k);
      assert CopyOk(cut, b, Below(cut, b), LoadHint(out.entries)[k]);
    }
  }

  /**
   * With the merge's own hint file in place: an opening that was stopped while it moved the merged files, or a removal
   * that left that file. The map is served if and only if the copy of every frozen position in use is in a file that
   * the merge directory still holds; what had been moved before the stop is removed as an old file.
   */
  lemma {:induction false} WithOwnHints(cfg: Config, s: Store, kept: nat, files: set<nat>)
    requires Inv(cfg, s) && s.synced <= kept <= |s.log| && s.dir.Finished?
    ensures
      var index := Replay(s.log[..kept]).index;
      Serves(LeftLog(s, kept, files), LeftIndex(s, kept, s.dir.out.hint), View(index)) <==>
        CopiesLeft(index, s.dir.barrier, s.dir.out, files)
  {
    hide Replay, Serves, HintsLead, NothingBack, CopiesLeft, View, LoadHint, Decided, LeftLog, LeftIndex, NewerPart;
    hide FilesOk, IndexOk, HintOk, JobOk, CutOk, WfLog, AtEnd, Merged, NotAhead;
    LeftoversServe(cfg, s, kept, files, s.dir.out.hint);
    OwnHintsLead(cfg, s, kept, files);
    OwnHintsBringNothingBack(cfg, s, kept);
  }

  /**
   * With no hint file in place: a removal that left the marker and any data files, in a directory that no earlier merge
   * was moved into. The map is served if and only if it lies wholly at or above the barrier.
   */
  lemma {:induction false} WithoutHints(cfg: Config, s: Store, kept: nat, files: set<nat>)
    requires Inv(cfg, s) && s.synced <= kept <= |s.log| && s.dir.Finished?
    ensures
      var index := Replay(s.log[..kept]).index;
      Serves(LeftLog(s, kept, files), LeftIndex(s, kept, []), View(index)) <==>
        forall k :: k in index ==> index[k].pos.fid >= s.dir.barrier
  {
    hide Inv, Replay, Serves, View, Decided, LeftLog, LeftIndex, NewerPart;
    LeftoversServe(cfg, s, kept, files, []);
  }

  /** The index then is the surviving one with every frozen position replaced by its copy, if there is one. */
  lemma {:induction false} OwnHintsMirror(cfg: Config, s: Store, kept: nat)
    requires Inv(cfg, s) && s.synced <= kept <= |s.log| && s.dir.Finished?
    ensures LeftIndex(s, kept, s.dir.out.hint)
         == Mirror(Replay(s.log[..kept]).index, s.dir.barrier, LoadHint(s.dir.out.entries))
  {
    hide Inv, Mirror, CutOk, Ordered, WfEntry, NotAhead, AtEnd, Merged, LoadHint, ReplayFrom, Below, FrozenIndex;
    var cut, b, copies := s.log[..kept], s.dir.barrier, s.dir.out.entries;
    CutParts(cfg, s, kept);
    forall e | e in copies ensures e.rec.key in FrozenIndex(cut, b) {
      assert CopyOk(cut, b, Below(cut, b), e);
    }
    MergeSimulation(cut, b, copies, |cut|);
    assert cut[..|cut|] == cut && cut[Below(cut, b)..|cut|] == NewerPart(s, kept);
    HintIsReplay(copies);
    ReplayConcat(EMPTY, copies, NewerPart(s, kept));
  }

  /** With the marker gone nothing is lost, whatever else is left: it is as if the merge had never finished. */
  lemma {:induction false} MarkerGone(cfg: Config, s: Store, kept: nat)
    requires Inv(cfg, s) && s.synced <= kept <= |s.log|
    ensures Inv(cfg, s.(dir := Unfinished))
    ensures View(ReopenStep(s.(dir := Unfinished), kept).index) == View(Replay(s.log[..kept]).index)
  {
    hide Replay, FilesOk, HintOk, LoadIndex, View, JobOk, CutOk, OutOk;
    var t := s.(dir := Unfinished);
    GivenUp(cfg, s);
    ReopenedFiles(cfg, t, kept);
  }

  lemma {:induction false} GivenUp(cfg: Config, s: Store)
    requires Inv(cfg, s)
    ensures Inv(cfg, s.(dir := Unfinished))
  {
    hide Replay, OutOk, CutOk, WfLog, Merged;
  }

  /** Nothing missing is the opening as the engine has it. */
  lemma {:induction false} NothingMissing(cfg: Config, s: Store, kept: nat, files: set<nat>)
    requires Inv(cfg, s) && s.synced <= kept <= |s.log| && s.dir.Finished?
    requires forall e :: e in s.dir.out.entries ==> e.pos.fid in files
    ensures LeftLog(s, kept, files) == ReopenStep(s, kept).log
    ensures LeftIndex(s, kept, s.dir.out.hint) == ReopenStep(s, kept).index
  {
    hide Inv, ReplayFrom, LoadHint, Below;
    AllLeft(s.dir.out.entries, files);
    SwappedOk(cfg, s, kept);
  }

  lemma {:induction false} AllLeft(entries: seq<Entry>, files: set<nat>)
    requires forall e :: e in entries ==> e.pos.fid in files
    ensures Left(entries, files) == entries
  {
    if |entries| > 0 {
      var front, last := entries[..|entries| - 1], entries[|entries| - 1];
      assert entries == front + [last];
      AllLeft(front, files);
    }
  }
}
