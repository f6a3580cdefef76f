/** `Open` on a directory of files: merged files moved in, data files opened, the index rebuilt. */
module Opening {
  import opened Wrappers
  import opened Storage
  import opened Log
  import opened Engine
  import opened Invariant
  import opened Recovery
  import opened Reopening
  import opened Database
  import opened Merging
  import opened Loading
  import opened Directories

  // ---------------------------------------------------------------- opening the data files

  /** The directory listing in increasing order, as `sort.Ints` leaves it. */
  method ListFiles(files: map<nat, DataFile>) returns (fileIds: seq<nat>)
    ensures Increasing(fileIds) && forall id :: id in fileIds <==> id in files
  {
    fileIds := [];
    var names := files.Keys;
    while names != {}
      invariant names <= files.Keys && Increasing(fileIds)
      invariant forall id :: id in fileIds <==> id in files && id !in names
    {
      var name :| name in names;
      fileIds := Inserted(fileIds, name);
      names := names - {name};
    }
  }

  function Inserted(ids: seq<nat>, id: nat): (r: seq<nat>)
    requires Increasing(ids) && id !in ids
    ensures Increasing(r) && forall x :: x in r <==> x in ids || x == id
  {
    if |ids| == 0 then [id]
    else
      var front, last := ids[..|ids| - 1], ids[|ids| - 1];
      assert ids == front + [last];
      if last < id then ids + [id]
      else
        var r := Inserted(front, id) + [last];
        assert forall i :: 0 <= i < |r| - 1 ==> r[i] in Inserted(front, id);
        r
  }

  /** Increasing lists of the same ids are equal. */
  lemma {:induction false} SameIds(a: seq<nat>, b: seq<nat>)
    requires Increasing(a) && Increasing(b) && forall x :: x in a <==> x in b
    ensures a == b
  {
    hide Increasing;
    assert |b| > 0 ==> b[0] in b;
    if |a| > 0 {
      WithoutLast(a);
      assert a[|a| - 1] in b;
      WithoutLast(b);
      assert b[|b| - 1] in a;
      var last, c, d := a[|a| - 1], a[..|a| - 1], b[..|b| - 1];
      assert last == b[|b| - 1];
      forall x | x in c || x in d ensures x in c && x in d {
        assert x in a && x in b && x != last;
      }
      SameIds(c, d);
      assert a == c + [last] && b == d + [last];
    }
  }

  /** `loadDataFiles`: a handle for each file; the last one is the active file. */
  method LoadDataFiles(db: DB, dir: Directory, fileIds: seq<nat>, ghost recs: map<nat, seq<Record>>, ghost n: nat)
    requires Increasing(fileIds) && HoldAll(dir.files, fileIds, recs) && DurableUpTo(dir.files, fileIds, recs, n)
    requires db.activeFile == null && db.olderFiles == map[]
    modifies db`activeFile, db`olderFiles, db`ids, db`recs
    ensures Opened(db) && db.ids == fileIds && db.recs == recs && db.Synced() == n
    ensures fresh(db.Files())
  {
    hide Holds, HoldAll, AllDurable, RecordsIn, Flatten, DurableUpTo, Increasing;
    var older, active := OpenHandles(dir, fileIds, recs, n);
    NothingDurable(dir.files, fileIds, recs, n);
    db.activeFile, db.olderFiles := active, older;
    db.ids, db.recs := fileIds, recs;
    assert fileIds[..0] == [];
  }

  /** The handles of the first i files: the last of all files is the active one, the others are older. */
  ghost predicate Handles(older: map<nat, DataFile>, active: DataFile?, fileIds: seq<nat>, recs: map<nat, seq<Record>>,
    i: nat, n: nat)
    requires i <= |fileIds|
    reads older.Values, active
  {
    && AllDurable(older) && (active == null <==> i < |fileIds| || i == 0)
    && HoldAll(older, if active == null then fileIds[..i] else fileIds[..i - 1], recs)
    && (active != null ==>
          Holds(active, fileIds[i - 1], RecordsIn(recs, fileIds[i - 1]))
          && n == |Flatten(fileIds[..i - 1], recs)| + active.durable)
  }

  /** The loop of `loadDataFiles`. */
  method OpenHandles(dir: Directory, fileIds: seq<nat>, ghost recs: map<nat, seq<Record>>, ghost n: nat)
    returns (older: map<nat, DataFile>, active: DataFile?)
    requires HoldAll(dir.files, fileIds, recs) && DurableUpTo(dir.files, fileIds, recs, n)
    ensures fresh(older.Values) && (active != null ==> fresh(active))
    ensures Handles(older, active, fileIds, recs, |fileIds|, n)
  {
    hide Holds, HoldAll, AllDurable, RecordsIn, Flatten, DurableUpTo;
    NoFiles(recs);
    older, active := map[], null;
    for i := 0 to |fileIds|
      invariant DurableUpTo(dir.files, fileIds, recs, n) && HoldAll(dir.files, fileIds, recs)
      invariant fresh(older.Values) && (active != null ==> fresh(active))
      invariant Handles(older, active, fileIds, recs, i, n)
    {
      older, active := OpenHandle(dir, fileIds, recs, n, i, older);
    }
  }

  /** One turn of the loop. */
  method OpenHandle(dir: Directory, fileIds: seq<nat>, ghost recs: map<nat, seq<Record>>, ghost n: nat, i: nat,
    before: map<nat, DataFile>)
    returns (older: map<nat, DataFile>, active: DataFile?)
    requires HoldAll(dir.files, fileIds, recs) && DurableUpTo(dir.files, fileIds, recs, n)
    requires i < |fileIds| && Handles(before, null, fileIds, recs, i, n)
    ensures Handles(older, active, fileIds, recs, i + 1, n)
    ensures fresh(older.Values - before.Values) && (active != null ==> fresh(active))
  {
    hide HoldAll, DurableUpTo, Handles, HandleOk;
    var dataFile := NewHandle(dir, fileIds, recs, n, i);
    if i == |fileIds| - 1 {
      LastHandle(before, fileIds, recs, i, n, dataFile);
      older, active := before, dataFile;
    } else {
      OlderHandle(before, fileIds, recs, i, n, dataFile);
      older, active := before[fileIds[i] := dataFile], null;
    }
  }

  /** A handle on the i-th file. */
  ghost predicate HandleOk(h: DataFile, fileIds: seq<nat>, recs: map<nat, seq<Record>>, i: nat, n: nat)
    requires i < |fileIds|
    reads h
  {
    && Holds(h, fileIds[i], RecordsIn(recs, fileIds[i]))
    && (if i == |fileIds| - 1 then n == |Flatten(fileIds[..i], recs)| + h.durable else h.durable == |h.records|)
  }

  method NewHandle(dir: Directory, fileIds: seq<nat>, ghost recs: map<nat, seq<Record>>, ghost n: nat, i: nat)
    returns (dataFile: DataFile)
    requires HoldAll(dir.files, fileIds, recs) && DurableUpTo(dir.files, fileIds, recs, n) && i < |fileIds|
    ensures fresh(dataFile) && HandleOk(dataFile, fileIds, recs, i, n)
  {
    hide Holds, HoldAll, RecordsIn, Flatten, DurableUpTo;
    FileAt(dir.files, fileIds, recs, i, n);
    dataFile := new DataFile.Open(dir.files[fileIds[i]]);
    HandleHolds(dir.files[fileIds[i]], dataFile, fileIds[i], RecordsIn(recs, fileIds[i]));
  }

  lemma {:induction false} LastHandle(older: map<nat, DataFile>, fileIds: seq<nat>, recs: map<nat, seq<Record>>, i: nat,
    n: nat, h: DataFile)
    requires i == |fileIds| - 1 && Handles(older, null, fileIds, recs, i, n) && HandleOk(h, fileIds, recs, i, n)
    ensures Handles(older, h, fileIds, recs, i + 1, n)
  {
    hide Holds, HoldAll, AllDurable, RecordsIn, Flatten;
  }

  lemma {:induction false} OlderHandle(older: map<nat, DataFile>, fileIds: seq<nat>, recs: map<nat, seq<Record>>,
    i: nat,
    n: nat, h: DataFile)
    requires i < |fileIds| - 1 && Handles(older, null, fileIds, recs, i, n) && HandleOk(h, fileIds, recs, i, n)
    ensures Handles(older[fileIds[i] := h], null, fileIds, recs, i + 1, n)
  {
    hide Holds, HoldAll, AllDurable, RecordsIn, Flatten;
    OlderMore(older, fileIds[..i], recs, fileIds[i], h);
    HoldsId(h, fileIds[i], RecordsIn(recs, fileIds[i]));
    assert fileIds[..i] + [fileIds[i]] == fileIds[..i + 1];
  }

  lemma {:induction false} NoFiles(recs: map<nat, seq<Record>>)
    ensures HoldAll(map[], [], recs) && AllDurable(map[])
  {
  }

  lemma {:induction false} NothingDurable(files: map<nat, DataFile>, ids: seq<nat>, recs: map<nat, seq<Record>>, n: nat)
    requires DurableUpTo(files, ids, recs, n)
    ensures |ids| == 0 ==> n == 0
  {
  }

  lemma {:induction false} FileAt(files: map<nat, DataFile>, ids: seq<nat>, recs: map<nat, seq<Record>>, i: nat, n: nat)
    requires HoldAll(files, ids, recs) && DurableUpTo(files, ids, recs, n) && i < |ids|
    ensures ids[i] in files && Holds(files[ids[i]], ids[i], RecordsIn(recs, ids[i])) && files[ids[i]].Valid()
    ensures i < |ids| - 1 ==> files[ids[i]].durable == |files[ids[i]].records|
    ensures i == |ids| - 1 ==> n == |Flatten(ids[..i], recs)| + files[ids[i]].durable
  {
    hide Flatten;
    assert ids[i] in ids;
  }

  lemma {:induction false} HandleHolds(f: DataFile, h: DataFile, id: nat, records: seq<Record>)
    requires Holds(f, id, records)
    requires h.fileId == f.fileId && h.Valid() && h.records == f.records
    ensures Holds(h, id, records)
  {
  }

  // ---------------------------------------------------------------- Open

  /** The write offset of the active file, said of the log. */
  lemma {:induction false} ActiveFill(ids: seq<nat>, recs: map<nat, seq<Record>>)
    requires Increasing(ids) && |ids| > 0
    ensures FillOf(Flatten(ids, recs), ids[|ids| - 1]) == Fill(RecordsIn(recs, ids[|ids| - 1]))
  {
    var n := |ids|;
    var last, front := ids[n - 1], ids[..n - 1];
    var log, records := Flatten(ids, recs), RecordsIn(recs, last);
    FlattenFids(front, recs);
    LastIsNew(ids);
    if |records| == 0 {
      assert log == Flatten(front, recs);
      assert |log| > 0 ==> log[|log| - 1] in Flatten(front, recs);
    } else {
      EntryAt(last, records, |records| - 1);
      assert records[..|records| - 1] + [records[|records| - 1]] == records;
    }
  }

  /** The directory after the first step of `Open`. */
  ghost predicate Settled(dir: Directory, t: Store, ids: seq<nat>, recs: map<nat, seq<Record>>)
    reads dir, dir.files.Values, dir.hintFile, dir.mergeFinishedFile
  {
    && dir.Contains(ids, recs, t.hint, t.barrier) && Flatten(ids, recs) == t.log && LastIs(ids, t.active)
    && DurableUpTo(dir.files, ids, recs, t.synced)
  }

  lemma {:induction false} ReopenParts(cfg: Config, s: Store, kept: nat)
    requires Inv(cfg, s) && s.synced <= kept <= |s.log|
    ensures
      var t := ReopenStep(s, kept);
      && t.log == ReopenedLog(s, kept)
      && t.hint == (if s.dir.Finished? then s.dir.out.hint else s.hint)
      && t.barrier == (if s.dir.Finished? then s.dir.barrier else s.barrier)
      && (t.active.NoFile? <==> s.active.NoFile?) && (t.active.Active? ==> t.active.fid == s.active.fid)
      && t.synced == if s.dir.Finished? then |s.dir.out.entries| + s.synced - Below(s.log[..kept], s.dir.barrier)
        else s.synced
    ensures s.dir.Finished? ==> Below(s.log[..kept], s.dir.barrier) <= s.synced && Ordered(s.log[..kept])
    ensures !s.dir.Finished? ==> ReopenedLog(s, kept) == s.log[..kept]
  {
    hide LoadIndex, HintOk, JobOk, IndexOk, WfEntry, Ordered, CutOk, OutOk;
    ReopenKeepsInv(cfg, s, kept);
    LogOrdered(cfg, s, kept);
    if s.dir.Finished? {
      FrozenIsStable(s, s.dir.barrier);
      CutLog(cfg, s.log, kept, s.dir.barrier);
    }
  }

  lemma {:induction false} SettledDurable(cfg: Config, dir: Directory, mergeDir: Directory, s: Store, kept: nat,
                                          ids: seq<nat>, recs: map<nat, seq<Record>>,
                                          mergeIds: seq<nat>, mergeRecs: map<nat, seq<Record>>)
    requires Inv(cfg, s) && s.synced <= kept <= |s.log| && s.dir.Finished?
    requires Survives(dir, mergeDir, s, kept, ids, recs, mergeIds, mergeRecs)
    ensures DurableUpTo(MovedFiles(dir.files, mergeDir.files, s.dir.barrier), MovedIds(mergeIds, ids, s.dir.barrier),
                        MovedRecs(mergeIds, mergeRecs, recs), ReopenStep(s, kept).synced)
  {
    hide Inv, Flatten, EntriesOf, HintIs, MarkerIs, Holds, MovedIds, MovedRecs, MovedFiles, ReopenStep, ReopenedLog;
    hide DurableUpTo, AllDurable;
    ReopenParts(cfg, s, kept);
    DirFacts(cfg, s);
    MergeIdsBelow(cfg, s, mergeIds);
    MovedDurable(dir.files, ids, recs, mergeDir.files, mergeIds, mergeRecs, s.dir.barrier, s.synced);
  }

  /** What `LoadMergeFiles` finds: the barrier of the marker, if a merge finished. */
  lemma {:induction false} SurvivesParts(dir: Directory, mergeDir: Directory?, s: Store, kept: nat,
                                         ids: seq<nat>, recs: map<nat, seq<Record>>,
                                         mergeIds: seq<nat>, mergeRecs: map<nat, seq<Record>>)
    requires kept <= |s.log| && Survives(dir, mergeDir, s, kept, ids, recs, mergeIds, mergeRecs)
    ensures dir != mergeDir && dir.Contains(ids, recs, s.hint, s.barrier)
    ensures !s.dir.Finished? ==> mergeDir == null || mergeDir.mergeFinishedFile == null
    ensures s.dir.Finished? ==>
      && mergeDir != null && mergeDir.mergeFinishedFile != null && mergeDir.hintFile != null
      && HintIs(mergeDir.hintFile, s.dir.out.hint) && MarkerIs(mergeDir.mergeFinishedFile, s.dir.barrier)
      && MarkerBarrier(mergeDir.mergeFinishedFile.content) == Ok(s.dir.barrier)
  {
    hide MarkerBarrier, HoldAll, Flatten, DurableUpTo, AllDurable, LastIs, HintIs;
    hide MarkerIs;
    if s.dir.Finished? {
      MarkerReadsBack(mergeDir.mergeFinishedFile, s.dir.barrier);
    }
  }

  /** The data files after the move. */
  lemma {:induction false} FilesSettled(cfg: Config, dir: Directory, mergeDir: Directory?, s: Store, kept: nat,
                                        ids: seq<nat>, recs: map<nat, seq<Record>>,
                                        mergeIds: seq<nat>, mergeRecs: map<nat, seq<Record>>)
    returns (files: map<nat, DataFile>, newIds: seq<nat>, newRecs: map<nat, seq<Record>>)
    requires Inv(cfg, s) && s.synced <= kept <= |s.log|
    requires Survives(dir, mergeDir, s, kept, ids, recs, mergeIds, mergeRecs)
    ensures files == if s.dir.Finished? then MovedFiles(dir.files, mergeDir.files, s.dir.barrier) else dir.files
    ensures
      var t := ReopenStep(s, kept);
      && Increasing(newIds) && HoldAll(files, newIds, newRecs) && Flatten(newIds, newRecs) == t.log
      && LastIs(newIds, t.active) && DurableUpTo(files, newIds, newRecs, t.synced)
  {
    hide Inv, HoldAll, Flatten, EntriesOf, HintIs, MarkerIs, MovedIds, MovedRecs, ReopenStep, ReopenedLog, Increasing;
    hide DurableUpTo, AllDurable;
    ReopenParts(cfg, s, kept);
    newIds, newRecs, files := ids, recs, dir.files;
    if s.dir.Finished? {
      MovedStore(cfg, s, kept, ids, recs, mergeIds, mergeRecs);
      MovedHoldAll(dir.files, ids, recs, mergeDir.files, mergeIds, mergeRecs, s.dir.barrier);
      SettledDurable(cfg, dir, mergeDir, s, kept, ids, recs, mergeIds, mergeRecs);
      newIds, newRecs := MovedIds(mergeIds, ids, s.dir.barrier), MovedRecs(mergeIds, mergeRecs, recs);
      files := MovedFiles(dir.files, mergeDir.files, s.dir.barrier);
    }
  }

  /** `LoadMergeFiles` on a directory as a crash or a restart leaves it. */
  method Settle(cfg: Config, dir: Directory, mergeDir: Directory?, ghost s: Store, ghost kept: nat,
                ghost ids: seq<nat>, ghost recs: map<nat, seq<Record>>,
                ghost mergeIds: seq<nat>, ghost mergeRecs: map<nat, seq<Record>>)
    returns (ghost newIds: seq<nat>, ghost newRecs: map<nat, seq<Record>>)
    requires Inv(cfg, s) && s.synced <= kept <= |s.log|
    requires Survives(dir, mergeDir, s, kept, ids, recs, mergeIds, mergeRecs)
    modifies dir, mergeDir
    ensures Settled(dir, ReopenStep(s, kept), newIds, newRecs) && (mergeDir != null ==> mergeDir.Removed())
    ensures (dir.hintFile == null || !fresh(dir.hintFile))
      && (dir.mergeFinishedFile == null || !fresh(dir.mergeFinishedFile))
  {
    hide Inv, HoldAll, Flatten, HintIs, MarkerIs, ReopenStep, ReopenedLog, Increasing, MovedFiles, LastIs;
    hide DurableUpTo, AllDurable, Survives, MarkerBarrier;
    ReopenParts(cfg, s, kept);
    SurvivesParts(dir, mergeDir, s, kept, ids, recs, mergeIds, mergeRecs);
    ghost var files;
    files, newIds, newRecs := FilesSettled(cfg, dir, mergeDir, s, kept, ids, recs, mergeIds, mergeRecs);
    var _ := Directories.LoadMergeFiles(dir, mergeDir);
    assert dir.files == files && HoldAll(files, newIds, newRecs);
    assert DurableUpTo(files, newIds, newRecs, ReopenStep(s, kept).synced);
  }

  /** The index that replaying the opened files gives is the one of the reopened store. */
  lemma {:induction false} ReplayedIndex(cfg: Config, s: Store, kept: nat, ids: seq<nat>, recs: map<nat, seq<Record>>)
    requires Inv(cfg, s) && s.synced <= kept <= |s.log|
    requires Increasing(ids) && Flatten(ids, recs) == ReopenStep(s, kept).log && LastIs(ids, ReopenStep(s, kept).active)
    ensures
      var t := ReopenStep(s, kept);
      var r := ReplayFrom(EMPTY.(index := LoadHint(t.hint)), Flatten(From(ids, t.barrier), recs));
      && r.index == t.index && r.maxSeq == t.seqNo && r.reclaim == t.reclaim
      && IndexSound(t.index, t.log) && t.synced <= |t.log| && t.bytesWrite == 0 && t.job == Idle
      && (|ids| > 0 ==>
        t.barrier <= ids[|ids| - 1] && t.active == Active(ids[|ids| - 1], Fill(RecordsIn(recs, ids[|ids| - 1]))))
  {
    hide EntriesOf, RecordsIn, Fill, LoadHint, ReplayFrom, From, Flatten;
    var t := ReopenStep(s, kept);
    ReopenKeepsInv(cfg, s, kept);
    FlattenFrom(ids, recs, t.barrier);
    ReplaySound(t.log);
    if |ids| > 0 {
      ActiveFill(ids, recs);
    }
  }

  /** The finish marker of the data directory, read by `loadIndexFromDataFiles`. */
  method ReadBarrier(dir: Directory, ghost barrier: nat) returns (nonMergeFileId: Option<nat>)
    requires MarkerIs(dir.mergeFinishedFile, barrier)
    ensures (if nonMergeFileId.Some? then nonMergeFileId.value else 0) == barrier
  {
    hide FinishMarker, MarkerBarrier;
    if dir.mergeFinishedFile == null {
      return None;
    }
    MarkerReadsBack(dir.mergeFinishedFile, barrier);
    var fid := GetNonMergeFileId(dir.mergeFinishedFile);
    nonMergeFileId := Some(fid.value);
  }

  /** Putting the pieces of an opened database together. */
  lemma {:induction false} OpenedIsValid(db: DB)
    requires Opened(db) && (db.activeFile != null ==> db.activeFile.writeOff == |db.activeFile.content|)
    requires db.index == Positions(db.live) && IndexSound(db.live, db.Entries())
    requires !db.isMerging && db.outside.job.Idle?
    ensures db.Valid()
    ensures db.ActiveState() == if |db.ids| == 0 then NoFile
      else Active(db.ids[|db.ids| - 1], Fill(RecordsIn(db.recs, db.ids[|db.ids| - 1])))
  {
    hide Flatten, Positions, IndexSound, Fill, StoredAll;
    if |db.ids| > 0 {
      StoredLength(RecordsIn(db.recs, db.ids[|db.ids| - 1]));
    }
  }

  /**
   * `Open` after a crash or a restart: whatever store the directory is what is left of,
   * the database is the one that the engine's reopening step describes.
   */
  method Open(cfg: Config, dir: Directory, mergeDir: Directory?, ghost s: Store, ghost kept: nat,
              ghost ids: seq<nat>, ghost recs: map<nat, seq<Record>>,
              ghost mergeIds: seq<nat>, ghost mergeRecs: map<nat, seq<Record>>)
    returns (db: DB)
    requires Inv(cfg, s) && s.synced <= kept <= |s.log|
    requires Survives(dir, mergeDir, s, kept, ids, recs, mergeIds, mergeRecs)
    modifies dir, mergeDir
    ensures fresh(db) && db.cfg == cfg && db.Valid() && db.Core() == ReopenStep(s, kept)
    ensures fresh(db.Files()) && HintIs(dir.hintFile, db.outside.hint)
      && MarkerIs(dir.mergeFinishedFile, db.outside.barrier)
    ensures mergeDir != null ==> mergeDir.Removed()
    ensures (dir.hintFile == null || !fresh(dir.hintFile))
      && (dir.mergeFinishedFile == null || !fresh(dir.mergeFinishedFile))
  {
    hide Inv, Survives, ReopenStep, Settled, Rebuilt, LoadHint, DB.Core, DB.Valid;
    ghost var t := ReopenStep(s, kept);
    ghost var newIds, newRecs := Settle(cfg, dir, mergeDir, s, kept, ids, recs, mergeIds, mergeRecs);
    db := OpenFiles(cfg, dir, s, kept, newIds, newRecs);
  }

  /** The `DB` structure before anything is loaded into it. */
  method NewDB(cfg: Config) returns (db: DB)
    ensures fresh(db) && db.cfg == cfg
    ensures db.activeFile == null && db.olderFiles == map[] && db.index == map[]
    ensures db.reclaimSize == 0 && db.seqNo == 0 && db.bytesWrite == 0 && !db.isMerging
  {
    db := new DB(cfg);
  }

  /** `Open` after its first step. */
  method OpenFiles(cfg: Config, dir: Directory, ghost s: Store, ghost kept: nat, ghost ids: seq<nat>,
    ghost recs: map<nat, seq<Record>>)
    returns (db: DB)
    requires Inv(cfg, s) && s.synced <= kept <= |s.log| && Settled(dir, ReopenStep(s, kept), ids, recs)
    ensures fresh(db) && db.cfg == cfg && db.Valid() && db.Core() == ReopenStep(s, kept) && fresh(db.Files())
    ensures HintIs(dir.hintFile, db.outside.hint) && MarkerIs(dir.mergeFinishedFile, db.outside.barrier)
  {
    hide Inv, ReopenStep, Settled, IndexSound, Positions, Opened, Flatten, Fill, RecordsIn;
    hide DB.Valid, DB.Core, Increasing, LastIs, HoldAll, HintIs, MarkerIs, From, LoadHint, ReplayFrom;
    ghost var t := ReopenStep(s, kept);
    db := NewDB(cfg);
    LoadFiles(cfg, db, dir, s, kept, ids, recs);
    SettledParts(dir, t, ids, recs);
    ReplayedIndex(cfg, s, kept, ids, recs);
    Adopt(db, t);
  }

  /** The store that an opened database is. */
  ghost method Adopt(db: DB, t: Store)
    requires Opened(db) && (db.activeFile != null ==> db.activeFile.writeOff == |db.activeFile.content|)
    requires db.index == Positions(t.index) && db.seqNo == t.seqNo && db.reclaimSize == t.reclaim
      && db.Entries() == t.log
    requires IndexSound(t.index, t.log) && db.Synced() == t.synced && db.bytesWrite == t.bytesWrite && t.job == Idle
      && !db.isMerging
    requires t.active == if |db.ids| == 0 then NoFile
      else Active(db.ids[|db.ids| - 1], Fill(RecordsIn(db.recs, db.ids[|db.ids| - 1])))
    modifies db`live, db`outside
    ensures db.Valid() && db.Core() == t && db.outside == t
  {
    hide Positions, IndexSound, Opened, DB.Valid, Fill, RecordsIn, Flatten;
    db.live, db.outside := t.index, t;
    OpenedIsValid(db);
  }

  /** Data files, hint file and index of a fresh instance. */
  method LoadFiles(cfg: Config, db: DB, dir: Directory, ghost s: Store, ghost kept: nat, ghost ids: seq<nat>,
    ghost recs: map<nat, seq<Record>>)
    requires Inv(cfg, s) && s.synced <= kept <= |s.log| && Settled(dir, ReopenStep(s, kept), ids, recs)
    requires db.activeFile == null && db.olderFiles == map[] && db.index == map[] && db.reclaimSize == 0
      && db.seqNo == 0
    modifies db`activeFile, db`olderFiles, db`ids, db`recs, db`index, db`reclaimSize, db`seqNo
    ensures Opened(db) && db.ids == ids && db.recs == recs && fresh(db.Files())
    ensures db.activeFile != null ==> db.activeFile.writeOff == |db.activeFile.content|
    ensures
      var t := ReopenStep(s, kept);
      db.index == Positions(t.index) && db.seqNo == t.seqNo && db.reclaimSize == t.reclaim && db.Synced() == t.synced
  {
    hide Inv, ReopenStep, HoldAll, HintIs, MarkerIs, Flatten, IndexSound, Positions, From, ReplayFrom, LoadHint;
    hide Opened, Rebuilt;
    hide Settled, LastIs, Increasing, DurableUpTo;
    ghost var t := ReopenStep(s, kept);
    ghost var st := EMPTY.(index := LoadHint(t.hint));
    SettledParts(dir, t, ids, recs);
    ReplayedIndex(cfg, s, kept, ids, recs);
    NothingRebuilt(db);
    var fileIds := OpenAll(db, dir, ids, recs, t.synced);
    RebuildIndex(db, dir, fileIds, t.hint, t.barrier);
    RebuiltIndex(db, ReplayFrom(st, Flatten(From(ids, t.barrier), recs)));
  }

  /** The directory listing and the files in it. */
  method OpenAll(db: DB, dir: Directory, ghost ids: seq<nat>, ghost recs: map<nat, seq<Record>>, ghost n: nat)
    returns (fileIds: seq<nat>)
    requires Increasing(ids) && HoldAll(dir.files, ids, recs) && DurableUpTo(dir.files, ids, recs, n)
    requires db.activeFile == null && db.olderFiles == map[]
    modifies db`activeFile, db`olderFiles, db`ids, db`recs
    ensures fileIds == ids && Opened(db) && db.ids == ids && db.recs == recs && db.Synced() == n && fresh(db.Files())
  {
    hide HoldAll, DurableUpTo, Increasing, Opened, DB.Synced, DB.Files;
    fileIds := ListFiles(dir.files);
    SameListing(dir.files, ids, recs, fileIds);
    LoadDataFiles(db, dir, fileIds, recs, n);
  }

  /** The index from the hint file and the data files that are not below the barrier. */
  method RebuildIndex(db: DB, dir: Directory, fileIds: seq<nat>, ghost hint: seq<Entry>, ghost barrier: nat)
    requires Opened(db) && fileIds == db.ids && Rebuilt(db, EMPTY) && db.seqNo == 0
    requires HintIs(dir.hintFile, hint) && MarkerIs(dir.mergeFinishedFile, barrier)
    requires |fileIds| > 0 ==> barrier <= fileIds[|fileIds| - 1]
    modifies db`index, db`reclaimSize, db`seqNo, (if db.activeFile == null then {} else {db.activeFile})`writeOff
    ensures
      var r := ReplayFrom(EMPTY.(index := LoadHint(hint)), Flatten(From(db.ids, barrier), db.recs));
      Rebuilt(db, r) && db.seqNo == r.maxSeq
    ensures Opened(db) && (db.activeFile != null ==> db.activeFile.writeOff == |db.activeFile.content|)
    ensures db.activeFile != null ==> db.activeFile.durable == old(db.activeFile.durable)
  {
    hide Opened, Rebuilt, HintIs, MarkerIs, Flatten, From, ReplayFrom, LoadHint;
    LoadIndexFromHintFile(db, dir.hintFile, hint);
    var nonMergeFileId := ReadBarrier(dir, barrier);
    LoadIndexFromDataFiles(db, fileIds, nonMergeFileId, EMPTY.(index := LoadHint(hint)));
  }

  lemma {:induction false} SettledParts(dir: Directory, t: Store, ids: seq<nat>, recs: map<nat, seq<Record>>)
    requires Settled(dir, t, ids, recs)
    ensures Increasing(ids) && HoldAll(dir.files, ids, recs) && HintIs(dir.hintFile, t.hint)
      && MarkerIs(dir.mergeFinishedFile, t.barrier)
    ensures Flatten(ids, recs) == t.log && LastIs(ids, t.active) && (|ids| == 0 <==> t.active.NoFile?)
    ensures DurableUpTo(dir.files, ids, recs, t.synced)
  {
  }

  lemma {:induction false} RebuiltIndex(db: DB, st: ReplayState)
    requires Rebuilt(db, st)
    ensures db.index == Positions(st.index) && db.reclaimSize == st.reclaim
  {
  }

  lemma {:induction false} SameListing(files: map<nat, DataFile>, ids: seq<nat>, recs: map<nat, seq<Record>>,
    fileIds: seq<nat>)
    requires HoldAll(files, ids, recs) && Increasing(ids) && Increasing(fileIds) && forall id :: id in fileIds <==>
      id in files
    ensures fileIds == ids
  {
    hide Increasing, Holds;
    SameIds(fileIds, ids);
  }

  lemma {:induction false} NothingRebuilt(db: DB)
    requires db.index == map[] && db.reclaimSize == 0
    ensures Rebuilt(db, EMPTY)
  {
  }
}
