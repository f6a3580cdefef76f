/** What the files of a running database are to the next `Open`: nothing else is needed to find its store again. */
module OwnFiles {
  import opened DataFiles
  import opened Storage
  import opened Log
  import opened Engine
  import opened Database
  import opened Merging
  import opened Loading
  import opened Directories

  /** All data files of a database by id. */
  function AllFiles(db: DB): map<nat, DataFile>
    reads db`activeFile, db`olderFiles
  {
    if db.activeFile == null then db.olderFiles else db.olderFiles[db.activeFile.fileId := db.activeFile]
  }

  /** These files hold this log up to the active file, and so much of it is durable. */
  ghost predicate FilesAre(files: map<nat, DataFile>, ids: seq<nat>, recs: map<nat, seq<Record>>, log: seq<Entry>,
    active: Active, synced: nat)
    reads files.Values
  {
    && Increasing(ids) && HoldAll(files, ids, recs) && Flatten(ids, recs) == log && LastIs(ids, active)
    && DurableUpTo(files, ids, recs, synced)
  }

  /** Full files that are durable, and one more file after them. */
  lemma {:induction false} OneMoreFile(older: map<nat, DataFile>, front: seq<nat>, recs: map<nat, seq<Record>>, id: nat,
    last: DataFile)
    requires HoldAll(older, front, recs) && AllDurable(older) && id !in front && Holds(last, id, RecordsIn(recs, id))
    ensures HoldAll(older[id := last], front + [id], recs)
    ensures DurableUpTo(older[id := last], front + [id], recs, |Flatten(front, recs)| + last.durable)
  {
    hide Flatten, Holds;
    var ids, files := front + [id], older[id := last];
    assert ids[..|front|] == front;
    forall i | 0 <= i < |front| ensures ids[i] in files && files[ids[i]].durable == |files[ids[i]].records| {
      assert front[i] in front;
    }
  }

  /** The files of a valid database hold its log, durable as far as the store says. */
  lemma {:induction false} FilesOfDatabase(db: DB)
    requires db.Valid()
    ensures FilesAre(AllFiles(db), db.ids, db.recs, db.Entries(), db.ActiveState(), db.Synced())
  {
    hide Flatten, Positions, IndexSound, Holds, HoldAll, AllDurable, DurableUpTo, FileBytes, StoredAll, Fill;
    hide DB.Valid, RecordsIn;
    db.Disassemble();
    if db.activeFile == null {
      db.NoFiles();
      NoFilesDurable(db.olderFiles, db.recs);
    } else {
      var last := |db.ids| - 1;
      OneMoreFile(db.olderFiles, db.ids[..last], db.recs, db.activeFile.fileId, db.activeFile);
      assert db.ids[..last] + [db.ids[last]] == db.ids;
      db.SyncedIs();
    }
  }

  lemma {:induction false} NoFilesDurable(files: map<nat, DataFile>, recs: map<nat, seq<Record>>)
    ensures DurableUpTo(files, [], recs, 0)
  {
  }

  /** The active file after a crash that kept the first n of its records: nothing durable is lost. */
  ghost predicate CutTo(cut: DataFile, active: DataFile, records: seq<Record>, n: nat)
    reads cut, active
  {
    && active.durable <= n <= |records| && Holds(cut, active.fileId, records[..n]) && cut.durable == active.durable
  }

  /** With its active file cut, a database's files hold that much of its log. */
  lemma {:induction false} FilesAfterCrash(db: DB, cut: DataFile, n: nat)
    requires db.Valid() && db.activeFile != null
      && CutTo(cut, db.activeFile, RecordsIn(db.recs, db.activeFile.fileId), n)
    ensures
      var id := db.activeFile.fileId;
      var kept := |db.Entries()| - |RecordsIn(db.recs, id)| + n;
      && db.Synced() <= kept <= |db.Entries()|
      && FilesAre(db.olderFiles[id := cut], db.ids, db.recs[id := RecordsIn(db.recs, id)[..n]], db.Entries()[..kept],
                  db.ActiveState(), db.Synced())
  {
    hide Positions, IndexSound, HoldAll, AllDurable, DurableUpTo, FileBytes, StoredAll, Fill, Flatten, Holds;
    hide DB.Valid;
    db.Disassemble();
    var last, id := |db.ids| - 1, db.activeFile.fileId;
    var front, rs := db.ids[..last], RecordsIn(db.recs, id);
    var recs := db.recs[id := rs[..n]];
    assert front + [id] == db.ids;
    assert RecordsIn(recs, id) == rs[..n];
    CutFlatten(front, db.recs, id, n);
    OlderStay(db.olderFiles, front, db.recs, id, rs[..n]);
    OneMoreFile(db.olderFiles, front, recs, id, cut);
    db.SyncedIs();
  }

  lemma {:induction false} CutFlatten(front: seq<nat>, recs: map<nat, seq<Record>>, id: nat, n: nat)
    requires id !in front && n <= |RecordsIn(recs, id)|
    ensures
      var rs, log := RecordsIn(recs, id), Flatten(front + [id], recs);
      && |log| == |Flatten(front, recs)| + |rs|
      && Flatten(front, recs[id := rs[..n]]) == Flatten(front, recs)
      && Flatten(front + [id], recs[id := rs[..n]]) == log[..|Flatten(front, recs)| + n]
  {
    hide EntriesOf;
    var rs := RecordsIn(recs, id);
    assert (front + [id])[..|front|] == front;
    FlattenFrame(front, recs, id, rs[..n]);
    EntriesPrefix(id, rs, n);
    assert Flatten(front + [id], recs[id := rs[..n]]) == Flatten(front, recs) + EntriesOf(id, rs[..n]);
  }

  lemma {:induction false} EntriesPrefix(fid: nat, records: seq<Record>, n: nat)
    requires n <= |records|
    ensures EntriesOf(fid, records[..n]) == EntriesOf(fid, records)[..n]
  {
    hide Size;
    if n == |records| {
      assert records[..n] == records;
    } else {
      var front := records[..|records| - 1];
      EntriesPrefix(fid, front, n);
      assert front[..n] == records[..n];
    }
  }

  /** The files of a finished merge, all of them durable. */
  lemma {:induction false} FilesOfMerge(mergeDB: DB, hintFile: DataFile, out: Output)
    requires MergeOutput(mergeDB, hintFile, out) && OutputDurable(mergeDB, hintFile)
    ensures HoldAll(AllFiles(mergeDB), mergeDB.ids, mergeDB.recs) && Increasing(mergeDB.ids)
    ensures Flatten(mergeDB.ids, mergeDB.recs) == out.entries && LastIs(mergeDB.ids, out.active)
    ensures AllDurable(AllFiles(mergeDB)) && HintIs(hintFile, out.hint)
  {
    hide Positions, IndexSound, HoldAll, HintRecords, HintFits, EntriesOf, DurableUpTo;
    FilesOfDatabase(mergeDB);
    mergeDB.Disassemble();
    if mergeDB.activeFile != null {
      mergeDB.SyncedIs();
    } else {
      NoOlder(mergeDB);
    }
  }

  lemma {:induction false} NoOlder(db: DB)
    requires db.Valid() && db.activeFile == null
    ensures AllDurable(db.olderFiles)
  {
    hide Flatten, Positions, IndexSound, Holds;
  }

  /**
   * Data directory and merge directory of a database survive as what `Open` expects of a store of which `kept`
   * entries are left: there is always something to open, and it is that store.
   */
  lemma {:induction false} DirectoriesSurvive(dir: Directory, mergeDir: Directory, s: Store, kept: nat,
    ids: seq<nat>, recs: map<nat, seq<Record>>, mergeDB: DB, mergeHint: DataFile)
    requires kept <= |s.log| && dir != mergeDir && FilesAre(dir.files, ids, recs, s.log[..kept], s.active, s.synced)
    requires HintIs(dir.hintFile, s.hint) && MarkerIs(dir.mergeFinishedFile, s.barrier)
    requires mergeDir.files == AllFiles(mergeDB) && mergeDir.hintFile == mergeHint
    requires if s.dir.Finished? then
               && mergeDir.mergeFinishedFile != null && MarkerIs(mergeDir.mergeFinishedFile, s.dir.barrier)
               && MergeOutput(mergeDB, mergeHint, s.dir.out) && OutputDurable(mergeDB, mergeHint)
             else mergeDir.mergeFinishedFile == null
    ensures Survives(dir, mergeDir, s, kept, ids, recs, mergeDB.ids, mergeDB.recs)
  {
    hide HoldAll, Flatten, LastIs, DurableUpTo, HintIs, MarkerIs, MergeOutput, OutputDurable, Increasing, AllDurable;
    if s.dir.Finished? {
      FilesOfMerge(mergeDB, mergeHint, s.dir.out);
    }
  }
}
