/** Directories of files, and what moving merged files into one leaves: `LoadMergeFiles` of merge.go. */
module Directories {
  import opened Wrappers
  import opened Storage
  import opened Log
  import opened Engine
  import opened Invariant
  import opened MergeScan
  import opened Reopening
  import opened Database
  import opened Merging
  import opened Loading

  /** A data directory or a merge directory: data files by id, hint file, finish marker. */
  class Directory {
    var files: map<nat, DataFile>
    var hintFile: DataFile?
    var mergeFinishedFile: DataFile?

    constructor (files: map<nat, DataFile>, hintFile: DataFile?, mergeFinishedFile: DataFile?)
      ensures this.files == files && this.hintFile == hintFile && this.mergeFinishedFile == mergeFinishedFile
    {
      this.files := files;
      this.hintFile := hintFile;
      this.mergeFinishedFile := mergeFinishedFile;
    }

    /** The directory holds these data files, this hint file and this marker (barrier 0: none). */
    ghost predicate Contains(ids: seq<nat>, recs: map<nat, seq<Record>>, hint: seq<Entry>, barrier: nat)
      reads this, files.Values, hintFile, mergeFinishedFile
    {
      && Increasing(ids) && HoldAll(files, ids, recs)
      && HintIs(hintFile, hint) && MarkerIs(mergeFinishedFile, barrier)
    }

    /** Nothing is left in it. */
    predicate Removed()
      reads this
    {
      files == map[] && hintFile == null && mergeFinishedFile == null
    }

    /** `os.RemoveAll`. */
    method RemoveAll()
      modifies this
      ensures Removed()
    {
      files, hintFile, mergeFinishedFile := map[], null, null;
    }
  }

  // ---------------------------------------------------------------- moving merged files in

  lemma {:induction false} FromIs(ids: seq<nat>, barrier: nat)
    requires Increasing(ids)
    ensures Increasing(From(ids, barrier))
    ensures forall id :: id in From(ids, barrier) <==> id in ids && id >= barrier
  {
    if |ids| > 0 {
      var front, last := ids[..|ids| - 1], ids[|ids| - 1];
      FromIs(front, barrier);
      assert ids == front + [last];
      var kept := From(front, barrier);
      forall i | 0 <= i < |kept| ensures kept[i] < last {
        assert kept[i] in front;
      }
    }
  }

  function MovedIds(mergeIds: seq<nat>, ids: seq<nat>, barrier: nat): seq<nat> {
    mergeIds + From(ids, barrier)
  }

  function MovedRecs(mergeIds: seq<nat>, mergeRecs: map<nat, seq<Record>>, recs: map<nat, seq<Record>>)
    : map<nat, seq<Record>>
  {
    map id | id in (set x | x in mergeIds) + recs.Keys :: RecordsIn(if id in mergeIds then mergeRecs else recs, id)
  }

  lemma {:induction false} FlattenSame(ids: seq<nat>, recs: map<nat, seq<Record>>, other: map<nat, seq<Record>>)
    requires forall id :: id in ids ==> RecordsIn(recs, id) == RecordsIn(other, id)
    ensures Flatten(ids, recs) == Flatten(ids, other)
  {
    hide EntriesOf;
    if |ids| > 0 {
      assert ids[|ids| - 1] in ids;
      FlattenSame(ids[..|ids| - 1], recs, other);
    }
  }

  lemma {:induction false} FlattenConcat(a: seq<nat>, b: seq<nat>, recs: map<nat, seq<Record>>)
    ensures Flatten(a + b, recs) == Flatten(a, recs) + Flatten(b, recs)
    decreases |b|
  {
    hide EntriesOf, RecordsIn;
    if |b| == 0 {
      assert a + b == a;
    } else {
      var front, last := b[..|b| - 1], EntriesOf(b[|b| - 1], RecordsIn(recs, b[|b| - 1]));
      assert (a + b)[..|a + b| - 1] == a + front;
      FlattenConcat(a, front, recs);
      assert Flatten(a + b, recs) == (Flatten(a, recs) + Flatten(front, recs)) + last;
      assert Flatten(b, recs) == Flatten(front, recs) + last;
    }
  }

  lemma {:induction false} EntriesHaveFid(fid: nat, records: seq<Record>)
    ensures forall e :: e in EntriesOf(fid, records) ==> e.pos.fid == fid
  {
    if |records| > 0 {
      EntriesHaveFid(fid, records[..|records| - 1]);
    }
  }

  lemma {:induction false} FlattenFids(ids: seq<nat>, recs: map<nat, seq<Record>>)
    ensures forall e :: e in Flatten(ids, recs) ==> e.pos.fid in ids
  {
    hide EntriesOf;
    if |ids| > 0 {
      var last := ids[|ids| - 1];
      FlattenFids(ids[..|ids| - 1], recs);
      EntriesHaveFid(last, RecordsIn(recs, last));
    }
  }

  /** The files that are not below the barrier hold the log from there on. */
  lemma {:induction false} FlattenFrom(ids: seq<nat>, recs: map<nat, seq<Record>>, barrier: nat)
    requires Increasing(ids) && Ordered(Flatten(ids, recs))
    ensures Flatten(From(ids, barrier), recs) == Flatten(ids, recs)[Below(Flatten(ids, recs), barrier)..]
  {
    hide EntriesOf, RecordsIn;
    var older, newer := Older(ids, barrier), From(ids, barrier);
    SplitIds(ids, barrier);
    FlattenConcat(older, newer, recs);
    FlattenFids(older, recs);
    FlattenFids(newer, recs);
    FromIs(ids, barrier);
    var log, n := Flatten(ids, recs), |Flatten(older, recs)|;
    forall i | 0 <= i < |log| ensures log[i].pos.fid < barrier <==> i < n {
      if i < n {
        assert log[i] in Flatten(older, recs);
      } else {
        assert log[i] in Flatten(newer, recs);
      }
    }
    BelowIs(log, barrier, n);
  }

  /** The ids below the barrier. */
  function Older(ids: seq<nat>, barrier: nat): seq<nat> {
    if |ids| == 0 then []
    else
      var front := Older(ids[..|ids| - 1], barrier);
      if ids[|ids| - 1] < barrier then front + [ids[|ids| - 1]] else front
  }

  lemma {:induction false} SplitIds(ids: seq<nat>, barrier: nat)
    requires Increasing(ids)
    ensures ids == Older(ids, barrier) + From(ids, barrier)
    ensures forall id :: id in Older(ids, barrier) ==> id < barrier
  {
    hide Increasing;
    if |ids| > 0 {
      var front, last := ids[..|ids| - 1], ids[|ids| - 1];
      WithoutLast(ids);
      LastIsNew(ids);
      SplitIds(front, barrier);
      FromIs(front, barrier);
      assert ids == front + [last];
      var older, kept := Older(front, barrier), From(front, barrier);
      assert |kept| > 0 ==> kept[0] in kept;
      forall id | id in kept ensures id <= last && id >= barrier {
        var i :| 0 <= i < |front| && front[i] == id;
        assert ids[i] in ids;
      }
      if last < barrier {
        assert older + kept == older;
        assert Older(ids, barrier) + From(ids, barrier) == older + [last];
      } else {
        assert older + (kept + [last]) == (older + kept) + [last];
      }
    }
  }

  lemma {:induction false} MovedFlatten(mergeIds: seq<nat>, mergeRecs: map<nat, seq<Record>>, ids: seq<nat>,
    recs: map<nat, seq<Record>>, barrier: nat)
    requires Increasing(ids) && (forall id :: id in mergeIds ==> id < barrier)
    ensures Flatten(MovedIds(mergeIds, ids, barrier), MovedRecs(mergeIds, mergeRecs, recs))
         == Flatten(mergeIds, mergeRecs) + Flatten(From(ids, barrier), recs)
  {
    hide MovedRecs, RecordsIn, EntriesOf, Flatten, Increasing;
    var moved := MovedRecs(mergeIds, mergeRecs, recs);
    FromIs(ids, barrier);
    forall id ensures RecordsIn(moved, id) == RecordsIn(if id in mergeIds then mergeRecs else recs, id) {
      MovedRecordsAt(mergeIds, mergeRecs, recs, id);
    }
    FlattenConcat(mergeIds, From(ids, barrier), moved);
    FlattenSame(mergeIds, moved, mergeRecs);
    FlattenSame(From(ids, barrier), moved, recs);
  }

  lemma {:induction false} MovedIncreasing(mergeIds: seq<nat>, ids: seq<nat>, barrier: nat)
    requires Increasing(mergeIds) && Increasing(ids) && (forall id :: id in mergeIds ==> id < barrier)
    ensures Increasing(MovedIds(mergeIds, ids, barrier))
  {
    FromIs(ids, barrier);
    var kept, all := From(ids, barrier), MovedIds(mergeIds, ids, barrier);
    forall i, j | 0 <= i < j < |all| ensures all[i] < all[j] {
      if i < |mergeIds| <= j {
        assert mergeIds[i] in mergeIds && kept[j - |mergeIds|] in kept;
      }
    }
  }

  /**
   * `LoadMergeFiles`, for any marker file: nothing happens without one or with one that cannot be read; otherwise
   * files below the barrier go and the merged ones come. The merge directory is removed in every case.
   */
  method LoadMergeFiles(dir: Directory, mergeDir: Directory?) returns (r: Outcome)
    requires dir != mergeDir
    modifies dir, mergeDir
    ensures mergeDir != null ==> mergeDir.Removed()
    ensures
      var fid := if mergeDir == null || old(mergeDir.mergeFinishedFile) == null then None
                 else Some(MarkerBarrier(old(mergeDir.mergeFinishedFile.content)));
      if fid.None? || fid.value.Err? then
        && r == (if fid.None? then Done else Failed(fid.value.error))
        && dir.files == old(dir.files) && dir.hintFile == old(dir.hintFile)
        && dir.mergeFinishedFile == old(dir.mergeFinishedFile)
      else
        && r == Done && dir.files == MovedFiles(old(dir.files), old(mergeDir.files), fid.value.value)
        && dir.hintFile == (if old(mergeDir.hintFile) == null then old(dir.hintFile) else old(mergeDir.hintFile))
        && dir.mergeFinishedFile == old(mergeDir.mergeFinishedFile)
  {
    if mergeDir == null {
      return Done;
    }
    if mergeDir.mergeFinishedFile == null {
      mergeDir.RemoveAll();
      return Done;
    }
    hide MarkerBarrier;
    var nonMergeFileId := GetNonMergeFileId(mergeDir.mergeFinishedFile);
    if nonMergeFileId.Err? {
      mergeDir.RemoveAll();
      return Failed(nonMergeFileId.error);
    }
    var kept := RemoveOld(dir.files, nonMergeFileId.value);
    dir.files := MoveIn(kept, mergeDir.files);
    if mergeDir.hintFile != null {
      dir.hintFile := mergeDir.hintFile;
    }
    dir.mergeFinishedFile := mergeDir.mergeFinishedFile;
    mergeDir.RemoveAll();
    return Done;
  }

  /** The first loop: every id below the barrier is tried. */
  method RemoveOld(files: map<nat, DataFile>, nonMergeFileId: nat) returns (kept: map<nat, DataFile>)
    ensures kept == map id | id in files && id >= nonMergeFileId :: files[id]
  {
    kept := files;
    for fileId := 0 to nonMergeFileId
      invariant kept == map id | id in files && id >= fileId :: files[id]
    {
      if fileId in kept {
        kept := kept - {fileId};
      }
    }
  }

  /** The second loop: each file of the merge directory is renamed into the data directory, in any order. */
  method MoveIn(files: map<nat, DataFile>, merged: map<nat, DataFile>) returns (moved: map<nat, DataFile>)
    ensures moved == files + merged
  {
    moved := files;
    var names := merged.Keys;
    while names != {}
      invariant names <= merged.Keys
      invariant moved + merged == files + merged
      invariant forall id :: id in merged && id !in names ==> id in moved && moved[id] == merged[id]
      invariant forall id :: id in moved ==> id in files || id in merged
    {
      var name :| name in names;
      moved := moved[name := merged[name]];
      names := names - {name};
    }
    assert moved == moved + merged;
  }

  /** The data files after the move, whatever order the directory listing had. */
  function MovedFiles(files: map<nat, DataFile>, merged: map<nat, DataFile>, barrier: nat): map<nat, DataFile> {
    (map id | id in files && id >= barrier :: files[id]) + merged
  }

  // ---------------------------------------------------------------- the moved directory

  lemma {:induction false} MovedHoldAll(files: map<nat, DataFile>, ids: seq<nat>, recs: map<nat, seq<Record>>,
                                        merged: map<nat, DataFile>,
                                        mergeIds: seq<nat>, mergeRecs: map<nat, seq<Record>>, barrier: nat)
    requires HoldAll(files, ids, recs) && HoldAll(merged, mergeIds, mergeRecs) && Increasing(ids)
    ensures HoldAll(MovedFiles(files, merged, barrier), MovedIds(mergeIds, ids, barrier),
                    MovedRecs(mergeIds, mergeRecs, recs))
  {
    hide Holds, MovedRecs, RecordsIn, Increasing;
    FromIs(ids, barrier);
    var after, moved := MovedFiles(files, merged, barrier), MovedRecs(mergeIds, mergeRecs, recs);
    forall id | id in after ensures Holds(after[id], id, RecordsIn(moved, id)) {
      MovedRecordsAt(mergeIds, mergeRecs, recs, id);
    }
  }

  lemma {:induction false} MovedRecordsAt(mergeIds: seq<nat>, mergeRecs: map<nat, seq<Record>>,
                                          recs: map<nat, seq<Record>>,
                                          id: nat)
    ensures RecordsIn(MovedRecs(mergeIds, mergeRecs, recs), id)
         == RecordsIn(if id in mergeIds then mergeRecs else recs, id)
  {
  }

  /** All files but the last are on stable storage, and of the log the first `n` entries. */
  ghost predicate DurableUpTo(files: map<nat, DataFile>, ids: seq<nat>, recs: map<nat, seq<Record>>, n: nat)
    reads files.Values
  {
    var k := |ids|;
    && (forall i :: 0 <= i < k - 1 ==> ids[i] in files && files[ids[i]].durable == |files[ids[i]].records|)
    && (if k == 0 then n == 0
        else ids[k - 1] in files && n == |Flatten(ids[..k - 1], recs)| + files[ids[k - 1]].durable)
  }

  /** What a directory and its merge directory hold of a store of which the first `kept` entries survived. */
  ghost predicate Survives(dir: Directory, mergeDir: Directory?, s: Store, kept: nat,
                           ids: seq<nat>, recs: map<nat, seq<Record>>,
                           mergeIds: seq<nat>, mergeRecs: map<nat, seq<Record>>)
    requires kept <= |s.log|
    reads dir, dir.files.Values, dir.hintFile, dir.mergeFinishedFile
    reads mergeDir, if mergeDir == null then {} else mergeDir.files.Values
    reads if mergeDir == null then null else mergeDir.hintFile
    reads if mergeDir == null then null else mergeDir.mergeFinishedFile
  {
    && dir.Contains(ids, recs, s.hint, s.barrier) && Flatten(ids, recs) == s.log[..kept]
    && LastIs(ids, s.active) && DurableUpTo(dir.files, ids, recs, s.synced) && mergeDir != dir
    && (if s.dir.Finished? then
          && mergeDir != null && mergeDir.mergeFinishedFile != null && mergeDir.hintFile != null
          && mergeDir.Contains(mergeIds, mergeRecs, s.dir.out.hint, s.dir.barrier)
          && Flatten(mergeIds, mergeRecs) == s.dir.out.entries && LastIs(mergeIds, s.dir.out.active)
          && AllDurable(mergeDir.files)
        else mergeDir == null || mergeDir.mergeFinishedFile == null)
  }

  /** The last of the files is the active one. */
  predicate LastIs(ids: seq<nat>, active: Active) {
    if |ids| == 0 then active.NoFile? else active.Active? && active.fid == ids[|ids| - 1]
  }

  lemma {:induction false} MergeIdsBelow(cfg: Config, s: Store, mergeIds: seq<nat>)
    requires Inv(cfg, s) && s.dir.Finished? && Increasing(mergeIds) && LastIs(mergeIds, s.dir.out.active)
    ensures forall id :: id in mergeIds ==> id < s.dir.barrier
  {
    hide Inv, OutOk;
    MergedFilesFit(cfg, s);
    DirFacts(cfg, s);
  }

  lemma {:induction false} DirFacts(cfg: Config, s: Store)
    requires Inv(cfg, s) && s.dir.Finished?
    ensures LastIsActive(s.dir.out) && s.active.Active? && 1 <= s.dir.barrier <= s.active.fid
  {
  }

  /** Ids, records, hint and barrier after `LoadMergeFiles`. */
  lemma {:induction false} MovedStore(cfg: Config, s: Store, kept: nat,
                                      ids: seq<nat>, recs: map<nat, seq<Record>>,
                                      mergeIds: seq<nat>, mergeRecs: map<nat, seq<Record>>)
    requires Inv(cfg, s) && s.synced <= kept <= |s.log| && Increasing(ids) && LastIs(ids, s.active)
      && Flatten(ids, recs) == s.log[..kept]
    requires s.dir.Finished? && Increasing(mergeIds) && LastIs(mergeIds, s.dir.out.active)
      && Flatten(mergeIds, mergeRecs) == s.dir.out.entries
    ensures
      var b := s.dir.barrier;
      && Increasing(MovedIds(mergeIds, ids, b)) && LastIs(MovedIds(mergeIds, ids, b), s.active)
      && Flatten(MovedIds(mergeIds, ids, b), MovedRecs(mergeIds, mergeRecs, recs)) == ReopenedLog(s, kept)
  {
    hide Inv, EntriesOf, RecordsIn, MovedRecs, Below, OutOk;
    var b := s.dir.barrier;
    MergeIdsBelow(cfg, s, mergeIds);
    DirFacts(cfg, s);
    MovedIncreasing(mergeIds, ids, b);
    MovedFlatten(mergeIds, mergeRecs, ids, recs, b);
    LogOrdered(cfg, s, kept);
    FlattenFrom(ids, recs, b);
    FromIs(ids, b);
    assert ids[|ids| - 1] in From(ids, b);
    LastFrom(ids, b);
  }

  /** What is durable after the move: all merged entries, and of the newer ones what was durable before. */
  lemma {:induction false} MovedDurable(files: map<nat, DataFile>, ids: seq<nat>, recs: map<nat, seq<Record>>,
                                        merged: map<nat, DataFile>,
                                        mergeIds: seq<nat>, mergeRecs: map<nat, seq<Record>>, barrier: nat, n: nat)
    requires (forall id :: id in mergeIds <==> id in merged) && AllDurable(merged)
      && (forall id :: id in mergeIds ==> id < barrier)
    requires Increasing(ids) && Ordered(Flatten(ids, recs))
    requires DurableUpTo(files, ids, recs, n) && |ids| > 0 && ids[|ids| - 1] >= barrier
      && n >= Below(Flatten(ids, recs), barrier)
    ensures DurableUpTo(MovedFiles(files, merged, barrier), MovedIds(mergeIds, ids, barrier),
                        MovedRecs(mergeIds, mergeRecs, recs),
                        |Flatten(mergeIds, mergeRecs)| + n - Below(Flatten(ids, recs), barrier))
  {
    hide EntriesOf, RecordsIn, Flatten, Ordered, Below, MovedRecs, MovedFiles, From, AllDurable, MovedIds;
    MovedAllDurable(files, ids, merged, mergeIds, barrier);
    MovedFront(mergeIds, mergeRecs, ids, recs, barrier);
    FrontBelow(ids, recs, barrier);
  }

  lemma {:induction false} MovedFront(mergeIds: seq<nat>, mergeRecs: map<nat, seq<Record>>, ids: seq<nat>,
    recs: map<nat, seq<Record>>, barrier: nat)
    requires Increasing(ids) && (forall id :: id in mergeIds ==> id < barrier) && |ids| > 0 && ids[|ids| - 1] >= barrier
    ensures
      var all := MovedIds(mergeIds, ids, barrier);
      |all| > 0 && Flatten(all[..|all| - 1], MovedRecs(mergeIds, mergeRecs, recs))
                   == Flatten(mergeIds, mergeRecs) + Flatten(From(ids[..|ids| - 1], barrier), recs)
  {
    hide EntriesOf, RecordsIn, Flatten, MovedRecs;
    var front, all := ids[..|ids| - 1], MovedIds(mergeIds, ids, barrier);
    LastFrom(ids, barrier);
    assert all[..|all| - 1] == MovedIds(mergeIds, front, barrier);
    MovedFlatten(mergeIds, mergeRecs, front, recs, barrier);
  }

  /** The files before the last hold as many entries below the barrier as all files. */
  lemma {:induction false} FrontBelow(ids: seq<nat>, recs: map<nat, seq<Record>>, barrier: nat)
    requires Increasing(ids) && Ordered(Flatten(ids, recs)) && |ids| > 0 && ids[|ids| - 1] >= barrier
    ensures
      var front := ids[..|ids| - 1];
      |Flatten(From(front, barrier), recs)| == |Flatten(front, recs)| - Below(Flatten(ids, recs), barrier)
  {
    hide EntriesOf, Ordered;
    var front, last := ids[..|ids| - 1], ids[|ids| - 1];
    FrontOrdered(Flatten(front, recs), EntriesOf(last, RecordsIn(recs, last)));
    FlattenFrom(front, recs, barrier);
    EntriesHaveFid(last, RecordsIn(recs, last));
    BelowConcat(Flatten(front, recs), EntriesOf(last, RecordsIn(recs, last)), barrier);
    BelowSplits(Flatten(front, recs), barrier);
  }

  lemma {:induction false} FrontOrdered(a: seq<Entry>, b: seq<Entry>)
    requires Ordered(a + b)
    ensures Ordered(a)
  {
    forall i | 0 <= i < |a| ensures a[i] == (a + b)[i] {
    }
  }

  lemma {:induction false} MovedAllDurable(files: map<nat, DataFile>, ids: seq<nat>, merged: map<nat, DataFile>,
    mergeIds: seq<nat>, barrier: nat)
    requires Increasing(ids) && |ids| > 0 && ids[|ids| - 1] >= barrier
      && (forall id :: id in mergeIds <==> id in merged)
    requires AllDurable(merged) && forall id :: id in mergeIds ==> id < barrier
    requires forall i :: 0 <= i < |ids| - 1 ==> ids[i] in files && files[ids[i]].durable == |files[ids[i]].records|
    requires ids[|ids| - 1] in files
    ensures
      var moved, all := MovedFiles(files, merged, barrier), MovedIds(mergeIds, ids, barrier);
      && |all| > 0 && all[|all| - 1] in moved && moved[all[|all| - 1]] == files[ids[|ids| - 1]]
      && forall i :: 0 <= i < |all| - 1 ==> all[i] in moved && moved[all[i]].durable == |moved[all[i]].records|
  {
    var moved, all := MovedFiles(files, merged, barrier), MovedIds(mergeIds, ids, barrier);
    var kept := From(ids[..|ids| - 1], barrier);
    LastFrom(ids, barrier);
    FromIs(ids[..|ids| - 1], barrier);
    forall i | 0 <= i < |all| - 1 ensures all[i] in moved && moved[all[i]].durable == |moved[all[i]].records| {
      if i < |mergeIds| {
        assert all[i] == mergeIds[i] && mergeIds[i] in mergeIds;
      } else {
        assert all[i] == kept[i - |mergeIds|] && kept[i - |mergeIds|] in kept;
        var j :| 0 <= j < |ids| - 1 && ids[j] == all[i];
      }
    }
  }

  lemma {:induction false} LastFrom(ids: seq<nat>, barrier: nat)
    requires |ids| > 0 && ids[|ids| - 1] >= barrier
    ensures |From(ids, barrier)| > 0 && From(ids, barrier)[|From(ids, barrier)| - 1] == ids[|ids| - 1]
  {
  }

  lemma {:induction false} LogOrdered(cfg: Config, s: Store, kept: nat)
    requires Inv(cfg, s) && kept <= |s.log|
    ensures Ordered(s.log[..kept])
  {
  }
}
