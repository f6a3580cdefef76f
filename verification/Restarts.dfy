/** The end of a process and the next `Open`: a restart of a session, and a crash that loses what was not synced. */
module Restarts {
  import opened Varints
  import opened DataFiles
  import opened Storage
  import opened Log
  import opened Engine
  import opened Invariant
  import opened Database
  import opened Merging
  import opened Loading
  import opened Directories
  import opened OwnFiles
  import opened Sessions

  /** The files of a session are what the next `Open` expects, however much of the log is left. */
  lemma {:induction false} SessionSurvives(v: Session, c: Contents, dir: Directory, mergeDir: Directory, kept: nat,
    ids: seq<nat>, recs: map<nat, seq<Record>>)
    requires Valid(v, c) && kept <= |v.db.Core().log| && dir != mergeDir
    requires FilesAre(dir.files, ids, recs, v.db.Core().log[..kept], v.db.Core().active, v.db.Core().synced)
    requires dir.hintFile == v.hintFile && dir.mergeFinishedFile == v.marker
    requires mergeDir.files == AllFiles(v.merge.instance) && mergeDir.hintFile == v.merge.hints
      && mergeDir.mergeFinishedFile == v.merge.marker
    ensures Survives(dir, mergeDir, v.db.Core(), kept, ids, recs, v.merge.instance.ids, v.merge.instance.recs)
  {
    hide FilesAre, MergeOutput, OutputDurable, HintIs, MarkerIs, Inv, DB.Valid, JobIs, Closed, FrozenPart, Survives;
    DirectoriesSurvive(dir, mergeDir, v.db.Core(), kept, ids, recs, v.merge.instance, v.merge.hints);
  }

  /** A database that was just opened, with the hint file and the marker of its directory. */
  ghost predicate JustOpened(db: DB, hintFile: DataFile?, marker: DataFile?)
    reads db, db.activeFile, db.olderFiles.Values, hintFile, marker
  {
    && Clients.Sane(db) && db.cfg.maxFile < TWO_63 && db.outside.job.Idle? && db.outside.dir.NoMerge?
    && DataDir(hintFile, marker, db.outside.hint, db.outside.barrier) && Opt(hintFile) + Opt(marker) !! db.Files()
  }

  lemma {:induction false} SessionBegins(w: Session, d: Contents)
    requires JustOpened(w.db, w.hintFile, w.marker)
    requires w.db != w.merge.instance && w.merge.instance.Files() == {} && w.merge.hints !in w.db.Files()
    requires w.merge.hints != w.hintFile && w.merge.hints != w.marker
    requires w.merge.marker == null && w.task == Task(0, [], 0, 0)
    requires d == Contents([], map[], 0, {w.merge.instance, w.merge.hints} + Opt(w.hintFile) + Opt(w.marker))
    ensures Valid(w, d)
  {
    hide Inv, DB.Valid, DataDir, FrozenPart, FrozenIn, CursorAt, MergeOutput, OutputDurable, DB.Entries;
    ActiveInFiles(w.db);
    JobOfCore(w.db);
  }

  /** A session on it: nothing is left of the merge directory. */
  method Begin(db: DB, hintFile: DataFile?, marker: DataFile?) returns (w: Session, ghost d: Contents)
    requires JustOpened(db, hintFile, marker)
    ensures w.db == db && Valid(w, d) && db.Core() == old(db.Core())
  {
    hide Clients.Sane, DataDir, Valid, DB.Core, DB.Files;
    ActiveInFiles(db);
    var instance := new DB(db.cfg);
    var hints := new DataFile(0);
    w := Session(db, hintFile, marker, MergeFiles(instance, hints, null), Task(0, [], 0, 0));
    d := Contents([], map[], 0, {instance, hints} + Opt(hintFile) + Opt(marker));
    SessionBegins(w, d);
  }

  /** `Open` on an empty directory. */
  method NewSession(cfg: Config) returns (w: Session, ghost d: Contents)
    requires cfg.maxFile < TWO_63
    ensures fresh(w.db) && w.db.cfg == cfg && Valid(w, d) && w.db.Core() == NEW_STORE
  {
    hide Inv, Valid, DB.Valid, DB.Files, FinishMarker, HintRecords, FileBytes;
    var db := new DB(cfg);
    Runs.NewStoreOk(cfg);
    w, d := Begin(db, null, null);
  }

  /** `Open` on what is left of a session's files. */
  method Reopen(v: Session, files: map<nat, DataFile>, ghost kept: nat, ghost ids: seq<nat>,
    ghost recs: map<nat, seq<Record>>, ghost c: Contents)
    returns (w: Session, ghost d: Contents)
    requires Valid(v, c) && v.db.Core().synced <= kept <= |v.db.Core().log|
    requires FilesAre(files, ids, recs, v.db.Core().log[..kept], v.db.Core().active, v.db.Core().synced)
    ensures fresh(w.db) && w.db.cfg == v.db.cfg && Valid(w, d) && w.db.Core() == ReopenStep(v.db.Core(), kept)
  {
    hide Valid, FilesAre, Survives, Inv, ReopenStep, HintIs, MarkerIs, AllFiles, DB.Valid, DB.Core, DB.Files;
    ghost var s := v.db.Core();
    var dir := new Directory(files, v.hintFile, v.marker);
    var mergeDir := new Directory(AllFiles(v.merge.instance), v.merge.hints, v.merge.marker);
    SessionSurvives(v, c, dir, mergeDir, kept, ids, recs);
    SaneStore(v, c);
    Reopening.ReopenKeepsInv(v.db.cfg, s, kept);
    var db := Opening.Open(v.db.cfg, dir, mergeDir, s, kept, ids, recs, v.merge.instance.ids, v.merge.instance.recs);
    NothingRunning(s, kept);
    JobOfCore(db);
    w, d := Begin(db, dir.hintFile, dir.mergeFinishedFile);
  }

  lemma {:induction false} SaneStore(v: Session, c: Contents)
    requires Valid(v, c)
    ensures Inv(v.db.cfg, v.db.Core()) && v.db.cfg.maxFile < TWO_63 && v.db.Valid()
    ensures v.db.Core().synced <= |v.db.Core().log|
  {
    hide Apart, Closed, DataDir, MergeDirIs, JobIs, HintOk, JobOk, DirOk, IndexOk, DB.Valid, DB.Core;
  }

  lemma {:induction false} NothingRunning(s: Store, kept: nat)
    requires kept <= |s.log|
    ensures ReopenStep(s, kept).job.Idle? && ReopenStep(s, kept).dir.NoMerge?
  {
    hide LoadIndex;
  }

  /**
   * `Close` and `Open`: whatever was running, the session goes on with the engine's restarted store, and
   * the client finds the map it left.
   */
  method Restart(v: Session, ghost c: Contents) returns (w: Session, ghost d: Contents)
    requires Valid(v, c)
    ensures fresh(w.db) && w.db.cfg == v.db.cfg && Valid(w, d)
    ensures w.db.Core() == ReopenStep(v.db.Core(), |v.db.Core().log|) && Clients.Map(w.db) == Clients.Map(v.db)
  {
    hide Valid, FilesAre, Inv, ReopenStep, DB.Valid, View;
    ghost var s := v.db.Core();
    SaneStore(v, c);
    FilesOfDatabase(v.db);
    EntriesOfCore(v.db);
    assert s.log[..|s.log|] == s.log;
    Reopening.RestartKeepsView(v.db.cfg, s);
    w, d := Reopen(v, AllFiles(v.db), |s.log|, v.db.ids, v.db.recs, c);
  }

  /**
   * A crash and the next `Open`: the active file is cut after its n-th record, no earlier than what was synced, and
   * the session goes on with the engine's store after that crash.
   */
  method Crash(v: Session, end: nat, ghost n: nat, ghost c: Contents) returns (w: Session, ghost d: Contents)
    requires Valid(v, c) && v.db.activeFile != null && v.db.activeFile.durable <= n <= |v.db.activeFile.records|
    requires end == |FileBytes(v.db.activeFile.records[..n])|
    ensures fresh(w.db) && w.db.cfg == v.db.cfg && Valid(w, d)
    ensures
      var s := v.db.Core();
      var kept := |s.log| - |v.db.activeFile.records| + n;
      s.synced <= kept <= |s.log| && w.db.Core() == ReopenStep(s, kept)
  {
    hide Attached, FilesAre, Inv, ReopenStep, DB.Valid, DB.Files, FileBytes, Flatten;
    ghost var s := v.db.Core();
    var active := v.db.activeFile;
    SaneStore(v, c);
    EntriesOfCore(v.db);
    ActiveRecords(v.db, n);
    var cut := new DataFile.Cut(active, end, n);
    ghost var records := RecordsIn(v.db.recs, active.fileId);
    FilesAfterCrash(v.db, cut, n);
    w, d := Reopen(v, v.db.olderFiles[active.fileId := cut], |s.log| - |active.records| + n, v.db.ids,
                   v.db.recs[active.fileId := records[..n]], c);
  }

  lemma {:induction false} ActiveRecords(db: DB, n: nat)
    requires db.Valid() && db.activeFile != null && n <= |db.activeFile.records|
    ensures
      var f, records := db.activeFile, RecordsIn(db.recs, db.activeFile.fileId);
      && f.Valid() && |f.records| == |records| && Holds(f, f.fileId, records)
      && f.records[..n] == StoredAll(records[..n]) && forall r :: r in records[..n] ==> Storable(r)
  {
    hide DB.Valid, Stored, Storable, FileBytes, Flatten, Fill;
    db.Disassemble();
  }
}
