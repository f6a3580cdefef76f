/**
 * A database together with what lies on disk: every client operation, every step of a merge beside them, restarts
 * and crashes, each as the engine's step, in any order.
 */
module Sessions {
  import opened Varints
  import opened Wrappers
  import opened LogRecords
  import opened DataFiles
  import opened Storage
  import opened Log
  import opened Engine
  import opened Invariant
  import opened Preservation
  import opened Staging
  import opened Database
  import opened Batches
  import opened Merging
  import opened Loading
  import Clients
  import History
  import MergeScan
  import Opening
  import Runs

  function Opt(f: DataFile?): set<DataFile> {
    if f == null then {} else {f}
  }

  function Among(files: seq<DataFile>): set<DataFile> {
    set f | f in files
  }

  // ---------------------------------------------------------------- steps that leave the directories alone

  /** Appending, syncing and indexing: the operations that run beside a merge. */
  predicate IsClientStep(l: Label) {
    l.Put? || l.Delete? || l.Commit? || l.AbortedCommit? || l.Sync?
  }

  predicate SameOutside(s: Store, t: Store) {
    t.hint == s.hint && t.barrier == s.barrier && t.job == s.job && t.dir == s.dir
  }

  lemma {:induction false} AppendOutside(cfg: Config, s: Store, recs: seq<Record>)
    ensures SameOutside(s, AppendAll(cfg, s, recs))
  {
    if |recs| > 0 {
      AppendOutside(cfg, s, recs[..|recs| - 1]);
    }
  }

  lemma {:induction false} ClientOutside(cfg: Config, s: Store, l: Label)
    requires Enabled(s, l) && IsClientStep(l)
    ensures SameOutside(s, Step(cfg, s, l))
  {
    hide AppendAll, RecordsOf, Size, Target, ApplyAll, Freed, BatchEntries, Permutation, ValidBatch;
    if l.Commit? || l.AbortedCommit? {
      var recs := RecordsOf(if l.Commit? then l.batch else l.batch[..l.written], s.seqNo + 1);
      AppendOutside(cfg, s.(seqNo := s.seqNo + 1), recs);
    }
  }

  function BarrierOf(job: Job): nat {
    match job
    case Idle => 0
    case Frozen(barrier) => barrier
    case Scanning(barrier, _, _) => barrier
  }

  function FrozenPart(s: Store): seq<Entry> {
    s.log[..Below(s.log, BarrierOf(s.job))]
  }

  /** Beside a merge, the frozen part of the log stays as it is. */
  lemma {:induction false} FrozenStays(cfg: Config, s: Store, l: Label)
    requires Inv(cfg, s) && Enabled(s, l) && IsClientStep(l)
    ensures Inv(cfg, Step(cfg, s, l)) && SameOutside(s, Step(cfg, s, l))
    ensures FrozenPart(Step(cfg, s, l)) == FrozenPart(s)
  {
    hide Inv, Step, Below;
    ClientOutside(cfg, s, l);
    Runs.StepKeepsInv(cfg, s, l);
    History.StepGrows(cfg, s, l);
    BarrierInside(cfg, s);
    FrozenPartStays(s, Step(cfg, s, l), BarrierOf(s.job));
  }

  lemma {:induction false} BarrierInside(cfg: Config, s: Store)
    requires Inv(cfg, s)
    ensures BarrierOf(s.job) <= ActiveFid(s.active)
  {
    hide FilesOk, IndexOk, HintOk, DirOk, OutOk, CutOk;
  }

  /** These files hold the frozen part of the log. */
  ghost predicate FrozenIn(files: seq<DataFile>, ids: seq<nat>, recs: map<nat, seq<Record>>, frozen: seq<Entry>)
    reads files
  {
    && |files| == |ids| && Flatten(ids, recs) == frozen
    && forall i :: 0 <= i < |ids| ==> Holds(files[i], ids[i], RecordsIn(recs, ids[i]))
  }

  /** File and offset of a scan, against the number of entries scanned. */
  predicate CursorAt(ids: seq<nat>, recs: map<nat, seq<Record>>, fileNo: nat, offset: nat, taken: nat, scanned: nat) {
    && fileNo <= |ids| && scanned == |Flatten(ids[..fileNo], recs)| + taken
    && (if fileNo == |ids| then taken == 0
        else taken <= |RecordsIn(recs, ids[fileNo])| && offset == Fill(RecordsIn(recs, ids[fileNo])[..taken]))
  }

  // ---------------------------------------------------------------- freezing

  lemma {:induction false} SomethingFilled(records: seq<Record>)
    requires |records| > 0
    ensures Fill(records) > 0
  {
  }

  /** An empty active file adds nothing to the log. */
  lemma {:induction false} EmptyActive(db: DB)
    requires db.Valid() && db.activeFile != null && db.activeFile.writeOff == 0
    ensures |db.ids| > 0 && Flatten(db.ids[..|db.ids| - 1], db.recs) == db.Entries()
  {
    hide DB.Valid, Fill, Holds, HoldAll, AllDurable, StoredAll, FileBytes;
    db.Disassemble();
    var last := db.ids[|db.ids| - 1];
    if |RecordsIn(db.recs, last)| > 0 {
      SomethingFilled(RecordsIn(db.recs, last));
    }
    assert EntriesOf(last, RecordsIn(db.recs, last)) == [];
  }

  /** After the freeze every entry lies below the barrier. */
  lemma {:induction false} AllFrozen(cfg: Config, s: Store)
    requires Inv(cfg, s) && s.active.Active?
    ensures FrozenPart(MergeBeginStep(s)) == s.log
  {
    hide IndexOk, HintOk, JobOk, DirOk, WfEntry, Ordered;
    forall i | 0 <= i < |s.log| ensures s.log[i].pos.fid < s.active.fid + 1 {
      assert s.log[i] in s.log;
    }
    BelowIs(s.log, s.active.fid + 1, |s.log|);
    assert s.log[..|s.log|] == s.log;
  }

  lemma {:induction false} IdleIfNotMerging(db: DB)
    requires db.Valid()
    ensures db.isMerging <==> !db.outside.job.Idle?
  {
    hide Flatten, Holds, HoldAll, Positions, IndexSound, AllDurable;
  }

  lemma {:induction false} EntriesOfCore(db: DB)
    ensures db.Core().log == db.Entries() && db.Core().active == db.ActiveState()
    ensures db.activeFile != null ==> db.ActiveState() == Active(db.activeFile.fileId, db.activeFile.writeOff)
  {
  }

  lemma {:induction false} JobOfCore(db: DB)
    ensures db.Core().job == db.outside.job && db.Core().dir == db.outside.dir
  {
  }

  lemma {:induction false} AtFirstFile(ids: seq<nat>, recs: map<nat, seq<Record>>)
    ensures CursorAt(ids, recs, 0, 0, 0, 0)
  {
  }

  lemma {:induction false} OpenFacts(cfg: Config, s: Store)
    requires Inv(cfg, s) && s.job.Frozen?
    ensures
      var t := MergeOpenStep(s);
      && Inv(cfg, t) && t.job == Scanning(s.job.barrier, 0, Output([], [], NoFile)) && t.dir.Unfinished?
      && t.hint == s.hint && t.barrier == s.barrier && FrozenPart(t) == FrozenPart(s)
  {
    hide Inv;
    MergeScan.MergeOpenKeepsInv(cfg, s);
  }

  /** The older files sorted by id. */
  method SortFiles(db: DB) returns (files: seq<DataFile>)
    requires db.Valid() && db.activeFile != null
    ensures |db.ids| > 0
    ensures
      var front := db.ids[..|db.ids| - 1];
      FrozenIn(files, front, db.recs, Flatten(front, db.recs))
    ensures forall f :: f in files ==> f in db.Files() && f != db.activeFile
  {
    hide DB.Valid, Holds, AllDurable, RecordsIn, Increasing;
    db.Disassemble();
    ghost var front := db.ids[..|db.ids| - 1];
    WithoutLast(db.ids);
    var older := db.olderFiles;
    var fileIds := Opening.ListFiles(older);
    Opening.SameListing(older, front, db.recs, fileIds);
    files := seq(|fileIds|, i requires 0 <= i < |fileIds| && fileIds[i] in older => older[fileIds[i]]);
    forall i | 0 <= i < |front| ensures Holds(files[i], front[i], RecordsIn(db.recs, front[i])) {
      assert front[i] in front;
    }
  }

  /** What lies in the merge directory: the files of the merge instance, its hint file, its finish marker. */
  datatype MergeFiles = MergeFiles(instance: DB, hints: DataFile, marker: DataFile?)

  /** The local variables of `Merge`: its barrier, the frozen files in the order of their ids, file and offset. */
  datatype Task = Task(nonMergeFileId: nat, files: seq<DataFile>, fileNo: nat, offset: nat)

  /**
   * What stands behind a session: ids and records of the frozen files, how many records of the current one have been
   * scanned, and the objects that are not the database's own.
   */
  datatype Contents = Contents(ids: seq<nat>, recs: map<nat, seq<Record>>, taken: nat, repr: set<object>)

  /** A database with hint file and finish marker of its directory, the merge directory, and the running merge. */
  datatype Session = Session(db: DB, hintFile: DataFile?, marker: DataFile?, merge: MergeFiles, task: Task)

  // ---------------------------------------------------------------- what holds between steps

  /** What a running merge writes to: its instance and its hint file. */
  ghost function Written(v: Session): set<DataFile>
    reads v.merge.instance`activeFile, v.merge.instance`olderFiles
  {
    v.merge.instance.Files() + {v.merge.hints}
  }

  /** Everything beside the database is in the footprint. */
  ghost predicate Closed(v: Session, repr: set<object>)
    reads v.merge.instance`activeFile, v.merge.instance`olderFiles
  {
    && v.merge.instance in repr && Written(v) <= repr
    && Opt(v.hintFile) + Opt(v.marker) + Opt(v.merge.marker) <= repr
    && forall f :: f in v.task.files ==> f in repr
  }

  /** The database writes to none of these, and a merge to no file of either directory but its own. */
  ghost predicate Apart(v: Session, repr: set<object>)
    reads v.db`activeFile, v.db`olderFiles, v.merge.instance`activeFile, v.merge.instance`olderFiles
  {
    && v.db != v.merge.instance && v.db !in repr && (v.db.activeFile == null || v.db.activeFile !in repr)
    && v.db.Files() !! Written(v) && Opt(v.hintFile) + Opt(v.marker) + Opt(v.merge.marker) !! Written(v)
    && (forall f :: f in v.task.files ==> f !in Written(v)) && Written(v) <= repr
  }

  ghost predicate DataDir(hintFile: DataFile?, marker: DataFile?, hint: seq<Entry>, barrier: nat)
    reads hintFile, marker
  {
    HintIs(hintFile, hint) && MarkerIs(marker, barrier)
  }

  ghost predicate MergeDirIs(merge: MergeFiles, dir: MergeDir)
    reads merge.instance, merge.instance.activeFile, merge.instance.olderFiles.Values, merge.hints, merge.marker
  {
    if dir.Finished? then
      && merge.marker != null && MarkerIs(merge.marker, dir.barrier)
      && MergeOutput(merge.instance, merge.hints, dir.out) && OutputDurable(merge.instance, merge.hints)
    else merge.marker == null
  }

  ghost predicate JobIs(v: Session, c: Contents, cfg: Config, job: Job, dir: MergeDir, part: seq<Entry>)
    reads v.merge.instance, v.merge.instance.activeFile, v.merge.instance.olderFiles.Values, v.merge.hints, v.task.files
  {
    && (!job.Idle? ==>
          FrozenIn(v.task.files, c.ids, c.recs, part) && v.task.nonMergeFileId == BarrierOf(job) < TWO_32)
    && (job.Scanning? ==>
          && CursorAt(c.ids, c.recs, v.task.fileNo, v.task.offset, c.taken, job.scanned) && dir.Unfinished?
          && MergeOutput(v.merge.instance, v.merge.hints, job.out)
          && v.merge.instance.cfg == cfg.(syncWrites := false))
  }

  /** Both directories and the running merge are what this store says of them. */
  ghost predicate Attached(v: Session, c: Contents, cfg: Config, s: Store)
    reads v.merge.instance, c.repr
  {
    && Closed(v, c.repr) && cfg.maxFile < TWO_63 && DataDir(v.hintFile, v.marker, s.hint, s.barrier)
      && MergeDirIs(v.merge, s.dir)
    && JobIs(v, c, cfg, s.job, s.dir, FrozenPart(s))
  }

  ghost predicate Valid(v: Session, c: Contents)
    reads v.db, v.db.activeFile, v.db.olderFiles.Values, v.merge.instance, c.repr
  {
    Clients.Sane(v.db) && Apart(v, c.repr) && Attached(v, c, v.db.cfg, v.db.Core())
  }

  /** What lies beside the database does not notice a client's step. */
  lemma {:induction false} StaysAttached(v: Session, c: Contents, cfg: Config, s: Store, t: Store)
    requires Attached(v, c, cfg, s) && SameOutside(s, t) && FrozenPart(t) == FrozenPart(s)
    ensures Attached(v, c, cfg, t)
  {
    hide DataDir, MergeDirIs, JobIs, FrozenPart;
  }

  // ---------------------------------------------------------------- client operations

  method Put(v: Session, key: Key, value: Value, ghost c: Contents) returns (r: Outcome)
    requires Valid(v, c) && (key != [] ==> Storable(Record(0, key, value, Normal)))
    modifies v.db, v.db.activeFile
    ensures Valid(v, c)
    ensures if key == [] then r == Failed(KeyIsEmpty) && v.db.Core() == old(v.db.Core())
            else r == Done && v.db.Core() == PutStep(v.db.cfg, old(v.db.Core()), key, value)
  {
    hide Inv, DB.Valid, DB.Core, Storable, FrozenPart, PutStep, Attached, SameOutside, DB.Files;
    ghost var s := v.db.Core();
    r := v.db.Put(key, value);
    if key != [] {
      FrozenStays(v.db.cfg, s, Label.Put(key, value));
      StaysAttached(v, c, v.db.cfg, s, PutStep(v.db.cfg, s, key, value));
    }
  }

  method Delete(v: Session, key: Key, ghost c: Contents) returns (r: Outcome)
    requires Valid(v, c) && (key != [] ==> Storable(Record(0, key, [], Deleted)))
    modifies v.db, v.db.activeFile
    ensures Valid(v, c)
    ensures if key == [] then r == Failed(KeyIsEmpty) && v.db.Core() == old(v.db.Core())
            else r == Done && v.db.Core() == DeleteStep(v.db.cfg, old(v.db.Core()), key)
  {
    hide Inv, DB.Valid, DB.Core, Storable, FrozenPart, DeleteStep, Attached, SameOutside, DB.Files;
    ghost var s := v.db.Core();
    r := v.db.Delete(key);
    if key != [] {
      FrozenStays(v.db.cfg, s, Label.Delete(key));
      StaysAttached(v, c, v.db.cfg, s, DeleteStep(v.db.cfg, s, key));
    }
  }

  method Sync(v: Session, ghost c: Contents)
    requires Valid(v, c)
    modifies v.db.activeFile
    ensures Valid(v, c) && v.db.Core() == old(v.db.Core()).(synced := |old(v.db.Core()).log|)
  {
    hide Inv, DB.Valid, FrozenPart, Attached, SameOutside, DB.Files, DB.Entries, DB.Synced;
    ghost var s := v.db.Core();
    v.db.Sync();
    FrozenStays(v.db.cfg, s, Label.Sync);
    StaysAttached(v, c, v.db.cfg, s, s.(synced := |s.log|));
  }

  /** `Commit` of a batch on this database; `batch` and `order` are the two walks over its staged writes. */
  method Commit(v: Session, wb: WriteBatch, fault: Option<nat>, ghost c: Contents)
    returns (r: Outcome, ghost batch: seq<Staged>, ghost order: seq<nat>)
    requires Valid(v, c) && wb.db == v.db && wb !in c.repr && wb.Ready(v.db.seqNo + 1)
    modifies wb`pendingWrites, v.db, v.db.activeFile
    ensures Valid(v, c)
    ensures
      var pending := old(wb.pendingWrites);
      if pending == map[] then r == Done && v.db.Core() == old(v.db.Core())
      else if |pending| > wb.maxBatchNum then r == Failed(ExceedMaxBatchNum) && v.db.Core() == old(v.db.Core())
      else if fault.Some? && fault.value <= |pending| then
        && r == Failed(WriteFailed) && Enumerates(batch, pending) && fault.value <= |batch|
        && v.db.Core() == AbortStep(v.db.cfg, old(v.db.Core()), batch, fault.value)
      else
        && r == Done && Enumerates(batch, pending) && Permutation(order, |batch|)
        && v.db.Core() == CommitStep(v.db.cfg, old(v.db.Core()), batch, order, wb.syncWrites)
  {
    hide Inv, DB.Valid, DB.Core, FrozenPart, CommitStep, AbortStep, Attached, SameOutside, DB.Files;
    hide Permutation, Enumerates, WriteBatch.Ready;
    ghost var s, pending := v.db.Core(), wb.pendingWrites;
    Clients.NoEmptyKeys(wb);
    r, batch, order := wb.Commit(fault);
    if pending != map[] && |pending| <= wb.maxBatchNum {
      Clients.EnumeratesIsValid(batch, pending);
      ghost var l := if r == Done then Label.Commit(batch, order, wb.syncWrites)
                     else Label.AbortedCommit(batch, fault.value);
      FrozenStays(v.db.cfg, s, l);
      StaysAttached(v, c, v.db.cfg, s, Step(v.db.cfg, s, l));
    }
  }

  // ---------------------------------------------------------------- the running merge

  /** The first part of `Merge`, under the lock. */
  method MergeBegin(v: Session, totalSize: nat, availableSize: nat, ratio: real, ghost c: Contents)
    returns (r: Outcome, w: Session, ghost d: Contents)
    requires Valid(v, c) && (v.db.activeFile != null ==> v.db.activeFile.fileId + 1 < TWO_32)
    modifies v.db, v.db.activeFile
    ensures Valid(w, d) && w.db == v.db && forall o :: o in d.repr ==> o in c.repr || o in v.db.Files()
    ensures
      var refusal := old(v.db.Refusal(totalSize, availableSize, ratio));
      if old(v.db.activeFile) == null then r == Done && v.db.Core() == old(v.db.Core())
      else if refusal.Some? then r == Failed(refusal.value) && v.db.Core() == old(v.db.Core())
      else r == Done && v.db.Core() == MergeBeginStep(old(v.db.Core()))
  {
    hide Inv, DB.Valid, DB.BelowRatio, DB.NoSpace, Attached, DB.Files, DB.Entries, DB.Synced;
    ghost var s := v.db.Core();
    IdleIfNotMerging(v.db);
    var empty := v.db.activeFile == null;
    w, d := v, c;
    var fid;
    r, fid := v.db.MergeBegin(totalSize, availableSize, ratio);
    if !empty && r == Done {
      MergeScan.MergeBeginKeepsInv(v.db.cfg, s);
      w, d := Freeze(v, s, fid, c);
    }
  }

  /** The local variables of `Merge` at the freeze. */
  method Freeze(v: Session, ghost s: Store, fid: nat, ghost c: Contents) returns (w: Session, ghost d: Contents)
    requires Inv(v.db.cfg, s) && Attached(v, c, v.db.cfg, s) && Apart(v, c.repr)
    requires s.active.Active? && fid == s.active.fid + 1 < TWO_32
    requires v.db.Valid() && v.db.activeFile != null && v.db.Core() == MergeBeginStep(s)
    ensures w.db == v.db && Attached(w, d, v.db.cfg, MergeBeginStep(s)) && Apart(w, d.repr)
    ensures forall o :: o in d.repr ==> o in c.repr || o in v.db.Files()
  {
    hide FrozenPart, FrozenIn, Attached, DB.Files, Inv, DB.Valid, DB.Core;
    var files := SortFiles(v.db);
    EntriesOfCore(v.db);
    EmptyActive(v.db);
    AllFrozen(v.db.cfg, s);
    w := v.(task := Task(fid, files, 0, 0));
    d := Contents(v.db.ids[..|v.db.ids| - 1], v.db.recs, 0, c.repr + Among(files));
    Freezes(v, c, v.db.cfg, s, w, d);
  }

  /** Files of the database become those of a merge. */
  lemma {:induction false} Freezes(v: Session, c: Contents, cfg: Config, s: Store, w: Session, d: Contents)
    requires Attached(v, c, cfg, s) && Apart(v, c.repr) && s.active.Active? && FrozenPart(MergeBeginStep(s)) == s.log
    requires w == v.(task := w.task) && FrozenIn(w.task.files, d.ids, d.recs, s.log)
    requires w.task.nonMergeFileId == s.active.fid + 1 < TWO_32
    requires forall f :: f in w.task.files ==> f in v.db.Files() && f != v.db.activeFile
    requires d.repr == c.repr + Among(w.task.files)
    ensures Attached(w, d, cfg, MergeBeginStep(s)) && Apart(w, d.repr)
  {
    hide FrozenPart, FrozenIn, DataDir, MergeDirIs, MergeOutput, CursorAt;
  }

  /** The merge directory is recreated and a second instance opened in it; the scan is at the first frozen file. */
  method MergeOpen(v: Session, ghost c: Contents) returns (w: Session, ghost d: Contents)
    requires Valid(v, c) && v.db.Core().job.Frozen?
    modifies v.db`outside
    ensures Valid(w, d) && w.db == v.db && v.db.Core() == MergeOpenStep(old(v.db.Core()))
    ensures forall o :: o in d.repr ==> o in c.repr || fresh(o)
    ensures w.task == v.task.(fileNo := 0, offset := 0) && fresh(w.merge.instance) && fresh(w.merge.hints)
    ensures w.merge.instance.Files() == {}
  {
    hide Inv, DB.Valid, DB.Core, Attached, MergeOutput, MergeOpenStep, FrozenPart;
    ghost var s := v.db.Core();
    JobOfCore(v.db);
    OpenFacts(v.db.cfg, s);
    var instance, hints := Merging.MergeOpen(v.db);
    w := v.(merge := MergeFiles(instance, hints, null), task := v.task.(fileNo := 0, offset := 0));
    d := c.(taken := 0, repr := c.repr + {instance, hints});
    Opens(v, c, v.db.cfg, s, w, d);
    ClosedIs(v, c, v.db.cfg, s);
    OpensApart(v, c, w, d);
  }

  /** A new merge directory takes the place of the old one. */
  predicate IsOpened(v: Session, c: Contents, w: Session, d: Contents) {
    && w == v.(merge := w.merge, task := v.task.(fileNo := 0, offset := 0)) && w.merge.marker == null
    && d == c.(taken := 0, repr := c.repr + {w.merge.instance, w.merge.hints})
  }

  lemma {:induction false} Opens(v: Session, c: Contents, cfg: Config, s: Store, w: Session, d: Contents)
    requires Attached(v, c, cfg, s) && s.job.Frozen? && IsOpened(v, c, w, d)
    requires FrozenPart(MergeOpenStep(s)) == FrozenPart(s)
    requires MergeOutput(w.merge.instance, w.merge.hints, Output([], [], NoFile))
    requires w.merge.instance.cfg == cfg.(syncWrites := false) && w.merge.instance.Files() == {}
    ensures Attached(w, d, cfg, MergeOpenStep(s)) && forall f :: f in w.task.files ==> f in c.repr
  {
    hide FrozenPart, FrozenIn, DataDir, MergeOutput, CursorAt, DB.Files;
    AtFirstFile(c.ids, c.recs);
  }

  lemma {:induction false} OpensApart(v: Session, c: Contents, w: Session, d: Contents)
    requires Apart(v, c.repr) && Closed(v, c.repr) && IsOpened(v, c, w, d) && w.merge.instance.Files() == {}
    requires w.merge.instance != v.db && w.merge.hints !in v.db.Files() && w.merge.hints !in c.repr
    requires w.merge.hints != v.db.activeFile
    ensures Apart(w, d.repr)
  {
    hide DB.Files;
  }

  lemma {:induction false} ClosedIs(v: Session, c: Contents, cfg: Config, s: Store)
    requires Attached(v, c, cfg, s)
    ensures Closed(v, c.repr)
  {
    hide FrozenPart, DataDir, MergeDirIs, JobIs, Closed;
  }

  // ---------------------------------------------------------------- the scan

  lemma {:induction false} CursorEnds(ids: seq<nat>, recs: map<nat, seq<Record>>, i: nat, offset: nat, taken: nat,
    scanned: nat)
    requires CursorAt(ids, recs, i, offset, taken, scanned) && i < |ids| && taken == |RecordsIn(recs, ids[i])|
    ensures CursorAt(ids, recs, i + 1, 0, 0, scanned)
  {
    hide EntriesOf, Size, RecordsIn;
    CursorEntry(ids, recs, i, taken);
  }

  lemma {:induction false} CursorMoves(ids: seq<nat>, recs: map<nat, seq<Record>>, i: nat, offset: nat, taken: nat,
    scanned: nat)
    requires CursorAt(ids, recs, i, offset, taken, scanned) && i < |ids| && taken < |RecordsIn(recs, ids[i])|
    ensures
      var records := RecordsIn(recs, ids[i]);
      CursorAt(ids, recs, i, offset + Size(records[taken]), taken + 1, scanned + 1)
  {
    hide EntriesOf, Size, RecordsIn;
    var records := RecordsIn(recs, ids[i]);
    assert records[..taken + 1][..taken] == records[..taken];
  }

  /** The records of the file that the scan is at. */
  function AtHand(v: Session, c: Contents): seq<Record> {
    if v.task.fileNo < |c.ids| then RecordsIn(c.recs, c.ids[v.task.fileNo]) else []
  }

  lemma {:induction false} Parts(v: Session, c: Contents, cfg: Config, s: Store)
    requires Attached(v, c, cfg, s)
    ensures Closed(v, c.repr) && cfg.maxFile < TWO_63 && DataDir(v.hintFile, v.marker, s.hint, s.barrier)
    ensures MergeDirIs(v.merge, s.dir) && JobIs(v, c, cfg, s.job, s.dir, FrozenPart(s))
  {
    hide Closed, DataDir, MergeDirIs, JobIs, FrozenPart;
  }

  /** The entry that the next turn of the scan finds. */
  lemma {:induction false} NextEntry(v: Session, c: Contents, s: Store)
    requires s.job.Scanning? && v.task.fileNo < |v.task.files| == |c.ids|
    requires Flatten(c.ids, c.recs) == FrozenPart(s)
    requires CursorAt(c.ids, c.recs, v.task.fileNo, v.task.offset, c.taken, s.job.scanned)
    ensures
      var id, records := c.ids[v.task.fileNo], AtHand(v, c);
      && c.taken <= |records| && v.task.offset == Fill(records[..c.taken])
      && (c.taken < |records| ==>
            && Enabled(s, MergeScan) && s.job.scanned < |s.log|
            && s.log[s.job.scanned] == Entry(Pos(id, v.task.offset, Size(records[c.taken])), records[c.taken]))
  {
    hide Flatten, Fill, Size, EntriesOf, Below, RecordsIn;
    CursorEntry(c.ids, c.recs, v.task.fileNo, c.taken);
  }

  /** What the next turn of the scan may rely on. */
  lemma {:induction false} NextTurn(v: Session, c: Contents, cfg: Config, s: Store)
    requires Attached(v, c, cfg, s) && Inv(cfg, s) && s.job.Scanning? && v.task.fileNo < |v.task.files|
    ensures |v.task.files| == |c.ids| && cfg.maxFile < TWO_63
    ensures MergeOutput(v.merge.instance, v.merge.hints, s.job.out)
      && v.merge.instance.cfg == cfg.(syncWrites := false)
    ensures v.merge.instance.activeFile != null ==> v.merge.instance.activeFile.fileId + 1 < TWO_32
    ensures
      var f, records := v.task.files[v.task.fileNo], AtHand(v, c);
      && Holds(f, f.fileId, records) && c.taken <= |records| && v.task.offset == Fill(records[..c.taken])
      && (c.taken < |records| ==>
            && Enabled(s, MergeScan) && s.job.scanned < |s.log|
            && s.log[s.job.scanned]
               == Entry(Pos(f.fileId, v.task.offset, Size(records[c.taken])), records[c.taken]))
  {
    hide Inv, Flatten, Fill, Size, Closed, DataDir, MergeDirIs, MergeOutput, Holds, FrozenPart, CursorAt, RecordsIn;
    hide Attached;
    Parts(v, c, cfg, s);
    var i := v.task.fileNo;
    HoldsId(v.task.files[i], c.ids[i], RecordsIn(c.recs, c.ids[i]));
    NextEntry(v, c, s);
    MergeScan.MergedFilesFit(cfg, s);
    OutputIs(v.merge.instance, v.merge.hints, s.job.out);
  }

  /** A turn at the end of a file goes on to the next file; any other is a step of the engine. */
  predicate TurnIs(v: Session, c: Contents, w: Session, cfg: Config, s: Store, t: Store) {
    && w == v.(task := v.task.(fileNo := w.task.fileNo, offset := w.task.offset))
    && (if c.taken < |AtHand(v, c)| then
          w.task.fileNo == v.task.fileNo && Enabled(s, MergeScan) && t == Step(cfg, s, MergeScan)
        else w.task.fileNo == v.task.fileNo + 1 && t == s)
  }

  lemma {:induction false} ActiveInFiles(db: DB)
    ensures db.activeFile != null ==> db.activeFile in db.Files()
    ensures forall f :: f in db.Files() ==> allocated(f)
  {
  }

  /** What a turn leaves to be shown of the running merge is its output. */
  lemma {:induction false} Turned(v: Session, c: Contents, cfg: Config, s: Store, w: Session, d: Contents, t: Store)
    requires s.job.Scanning? && v.task.fileNo < |v.task.files|
      && CursorAt(c.ids, c.recs, v.task.fileNo, v.task.offset, c.taken, s.job.scanned)
    requires Closed(v, d.repr) && cfg.maxFile < TWO_63 && DataDir(v.hintFile, v.marker, s.hint, s.barrier)
    requires v.merge.marker == null && s.dir.Unfinished? && v.merge.instance.cfg == cfg.(syncWrites := false)
    requires FrozenIn(v.task.files, c.ids, c.recs, FrozenPart(s)) && v.task.nonMergeFileId == s.job.barrier < TWO_32
    requires t.job.Scanning? && TurnIs(v, c, w, cfg, s, t) && MergeOutput(v.merge.instance, v.merge.hints, t.job.out)
    requires d == c.(taken := if c.taken < |AtHand(v, c)| then c.taken + 1 else 0, repr := d.repr)
    requires w.task.offset == if c.taken < |AtHand(v, c)| then v.task.offset + Size(AtHand(v, c)[c.taken]) else 0
    ensures Attached(w, d, cfg, t)
  {
    hide FrozenIn, MergeOutput, DataDir, Rewrite, IsLive, CursorAt, Size, Below;
    CursorBound(c.ids, c.recs, v.task.fileNo, v.task.offset, c.taken, s.job.scanned, v.task.files, FrozenPart(s));
    if c.taken < |AtHand(v, c)| {
      CursorMoves(c.ids, c.recs, v.task.fileNo, v.task.offset, c.taken, s.job.scanned);
    } else {
      CursorEnds(c.ids, c.recs, v.task.fileNo, v.task.offset, c.taken, s.job.scanned);
    }
  }

  lemma {:induction false} CursorBound(ids: seq<nat>, recs: map<nat, seq<Record>>, i: nat, offset: nat, taken: nat,
    scanned: nat, files: seq<DataFile>, frozen: seq<Entry>)
    requires FrozenIn(files, ids, recs, frozen) && i < |files| && CursorAt(ids, recs, i, offset, taken, scanned)
    ensures |files| == |ids| && taken <= |RecordsIn(recs, ids[i])|
  {
    hide Flatten, Holds, Fill;
  }

  /** What a merge leaves alone until it finishes. */
  ghost predicate Undisturbed(v: Session, repr: set<object>, s: Store)
    reads v.db`activeFile, v.db`olderFiles, v.merge.instance`activeFile, v.merge.instance`olderFiles
    reads v.hintFile, v.marker
  {
    Apart(v, repr) && Closed(v, repr) && DataDir(v.hintFile, v.marker, s.hint, s.barrier)
  }

  /** The read, the comparison and the copy of one turn, and what stays as it was beside them. */
  method ScanOnce(v: Session, ghost c: Contents, ghost s: Store) returns (size: Option<nat>, ghost repr: set<object>)
    requires Valid(v, c) && s == v.db.Core() && s.job.Scanning? && v.task.fileNo < |v.task.files|
    modifies v.db`outside, v.merge.instance, v.merge.instance.activeFile, v.merge.hints
    ensures v.db.Valid() && v.db.outside.job.Scanning?
    ensures
      var records := AtHand(v, c);
      if c.taken < |records| then
        && Enabled(s, MergeScan) && size == Some(Size(records[c.taken]))
        && v.db.Core() == Step(v.db.cfg, s, MergeScan)
      else size == None && v.db.Core() == s
    ensures Undisturbed(v, repr, s)
    ensures FrozenIn(v.task.files, c.ids, c.recs, FrozenPart(s))
      && MergeOutput(v.merge.instance, v.merge.hints, v.db.outside.job.out)
    ensures forall o :: o in repr ==> o in c.repr || fresh(o)
    ensures forall f :: f in v.merge.instance.Files() ==> f in old(v.merge.instance.Files()) || fresh(f)
  {
    hide Inv, DB.Valid, DB.Entries, DB.ActiveState, DB.Synced, Attached, MergeOutput, MergeScanStep, FrozenPart, Holds;
    hide Fill, Size, CursorAt, AtHand, DB.Files, DataDir, FrozenIn;
    Parts(v, c, v.db.cfg, s);
    NextTurn(v, c, v.db.cfg, s);
    ActiveInFiles(v.merge.instance);
    ActiveInFiles(v.db);
    size := Merging.MergeScanTurn(v.db, v.merge.instance, v.merge.hints, v.task.files[v.task.fileNo], v.task.offset,
                                  AtHand(v, c), c.taken);
    repr := c.repr + v.merge.instance.Files();
  }

  /** One turn of the two loops of `Merge`: a record of the current file, or its end. */
  method MergeTurn(v: Session, ghost c: Contents) returns (w: Session, ghost d: Contents)
    requires Valid(v, c) && v.db.outside.job.Scanning? && v.task.fileNo < |v.task.files|
    modifies v.db`outside, v.merge.instance, v.merge.instance.activeFile, v.merge.hints
    ensures Valid(w, d) && TurnIs(v, c, w, v.db.cfg, old(v.db.Core()), v.db.Core())
    ensures d == c.(taken := if c.taken < |AtHand(v, c)| then c.taken + 1 else 0, repr := d.repr)
    ensures forall o :: o in d.repr ==> o in c.repr || fresh(o)
    ensures forall f :: f in v.merge.instance.Files() ==> f in old(v.merge.instance.Files()) || fresh(f)
  {
    hide Inv, DB.Valid, DB.Entries, DB.ActiveState, DB.Synced, Attached, MergeOutput, MergeScanStep, FrozenPart, Holds;
    hide Fill, Size, CursorAt, AtHand, DB.Files, DataDir, FrozenIn, Closed;
    ghost var s := v.db.Core();
    Parts(v, c, v.db.cfg, s);
    NextTurn(v, c, v.db.cfg, s);
    var size;
    ghost var repr;
    size, repr := ScanOnce(v, c, s);
    if size.None? {
      w := v.(task := v.task.(fileNo := v.task.fileNo + 1, offset := 0));
      d := c.(taken := 0, repr := repr);
    } else {
      Runs.StepKeepsInv(v.db.cfg, s, MergeScan);
      w := v.(task := v.task.(offset := v.task.offset + size.value));
      d := c.(taken := c.taken + 1, repr := repr);
    }
    Turned(v, c, v.db.cfg, s, w, d, v.db.Core());
  }

  // ---------------------------------------------------------------- the end of a merge

  /** After the last file every frozen entry has been scanned. */
  lemma {:induction false} ScanDone(v: Session, c: Contents, cfg: Config, s: Store)
    requires Attached(v, c, cfg, s) && s.job.Scanning? && v.task.fileNo == |v.task.files|
    ensures s.job.scanned == Below(s.log, s.job.barrier) && v.task.nonMergeFileId == s.job.barrier < TWO_32
    ensures MergeOutput(v.merge.instance, v.merge.hints, s.job.out)
  {
    hide Closed, DataDir, MergeDirIs, MergeOutput, Holds, Flatten, Below, RecordsIn, Attached;
    Parts(v, c, cfg, s);
    assert c.ids[..|c.ids|] == c.ids;
  }

  /** The files of a complete scan are synced and the marker is written; nothing else is touched. */
  method SealMerge(v: Session, ghost c: Contents, ghost s: Store) returns (marker: DataFile)
    requires Valid(v, c) && s == v.db.Core() && s.job.Scanning? && v.task.fileNo == |v.task.files|
    modifies v.db`isMerging, v.db`outside, v.merge.instance.activeFile, v.merge.hints
    ensures v.db.Valid() && Enabled(s, Label.MergeFinish) && v.db.Core() == MergeFinishStep(s)
    ensures Undisturbed(v, c.repr, s) && MergeDirIs(v.merge.(marker := marker), MergeFinishStep(s).dir)
    ensures fresh(marker) && marker !in Written(v) && marker !in v.db.Files()
  {
    hide Inv, DB.Valid, DB.Entries, DB.ActiveState, DB.Synced, Attached, MergeOutput, OutputDurable, FrozenPart, Below;
    hide DB.Files, DataDir, JobIs, MarkerIs;
    Parts(v, c, v.db.cfg, s);
    ScanDone(v, c, v.db.cfg, s);
    ActiveInFiles(v.merge.instance);
    ActiveInFiles(v.db);
    marker := Merging.MergeFinish(v.db, v.merge.instance, v.merge.hints, v.task.nonMergeFileId);
  }

  /** The end of `Merge`. */
  method MergeFinish(v: Session, ghost c: Contents) returns (w: Session, ghost d: Contents)
    requires Valid(v, c) && v.db.outside.job.Scanning? && v.task.fileNo == |v.task.files|
    modifies v.db`isMerging, v.db`outside, v.merge.instance.activeFile, v.merge.hints
    ensures Valid(w, d) && w == v.(merge := v.merge.(marker := w.merge.marker)) && w.merge.marker != null
    ensures Enabled(old(v.db.Core()), Label.MergeFinish) && v.db.Core() == MergeFinishStep(old(v.db.Core()))
    ensures forall o :: o in d.repr ==> o in c.repr || fresh(o)
  {
    hide Inv, DB.Valid, DB.Entries, DB.ActiveState, DB.Synced, Attached, MergeOutput, OutputDurable, FrozenPart, Below;
    hide DB.Files, DataDir, JobIs, MergeDirIs, Closed, MarkerIs;
    ghost var s := v.db.Core();
    Parts(v, c, v.db.cfg, s);
    var marker := SealMerge(v, c, s);
    Runs.StepKeepsInv(v.db.cfg, s, Label.MergeFinish);
    w, d := v.(merge := v.merge.(marker := marker)), c.(repr := c.repr + {marker});
    MarkerApart(v, c, marker);
    Finished(w, d, v.db.cfg, MergeFinishStep(s));
  }

  lemma {:induction false} MarkerApart(v: Session, c: Contents, marker: DataFile)
    requires Apart(v, c.repr) && marker !in Written(v) && marker !in v.db.Files()
    requires Closed(v, c.repr)
    ensures
      var w := v.(merge := v.merge.(marker := marker));
      Apart(w, c.repr + {marker}) && Closed(w, c.repr + {marker})
  {
  }

  lemma {:induction false} Finished(w: Session, d: Contents, cfg: Config, t: Store)
    requires Closed(w, d.repr) && cfg.maxFile < TWO_63 && DataDir(w.hintFile, w.marker, t.hint, t.barrier)
    requires t.job.Idle? && MergeDirIs(w.merge, t.dir)
    ensures Attached(w, d, cfg, t)
  {
    hide Closed, DataDir, MergeDirIs, FrozenIn, FrozenPart;
  }

  /** `Merge` returns early: nothing but the flag changes, and the merge directory stays as it is. */
  method MergeAbort(v: Session, ghost c: Contents)
    requires Valid(v, c) && !v.db.outside.job.Idle?
    modifies v.db`isMerging, v.db`outside
    ensures Valid(v, c) && v.db.Core() == old(v.db.Core()).(job := Idle)
  {
    hide Inv, DB.Valid, DB.Entries, DB.ActiveState, DB.Synced, Attached, FrozenPart, DB.Files;
    ghost var s := v.db.Core();
    Runs.StepKeepsInv(v.db.cfg, s, Label.MergeAbort);
    Merging.MergeAbort(v.db);
    GivenUp(v, c, v.db.cfg, s);
  }

  lemma {:induction false} GivenUp(v: Session, c: Contents, cfg: Config, s: Store)
    requires Attached(v, c, cfg, s)
    ensures Attached(v, c, cfg, s.(job := Idle))
  {
    hide Closed, DataDir, MergeDirIs, FrozenIn, FrozenPart, CursorAt, MergeOutput;
  }

  // ---------------------------------------------------------------- a whole merge

  function Scans(n: nat): (ls: seq<Label>)
    ensures |ls| == n && forall i :: 0 <= i < n ==> ls[i] == MergeScan
  {
    seq(n, _ => MergeScan)
  }

  lemma {:induction false} FromMore(cfg: Config, s: Store, ls: seq<Label>, l: Label)
    requires Clients.From(cfg, s, ls).Some? && Enabled(Clients.From(cfg, s, ls).value, l)
    ensures Clients.From(cfg, s, ls + [l]) == Some(Step(cfg, Clients.From(cfg, s, ls).value, l))
  {
    hide Step, Enabled;
    assert (ls + [l])[..|ls|] == ls;
  }

  lemma {:induction false} OneMoreScan(cfg: Config, s: Store, n: nat)
    requires
      var t := Clients.From(cfg, s, [Label.MergeBegin, Label.MergeOpen] + Scans(n));
      t.Some? && Enabled(t.value, MergeScan)
    ensures Clients.From(cfg, s, [Label.MergeBegin, Label.MergeOpen] + Scans(n + 1))
         == Some(Step(cfg, Clients.From(cfg, s, [Label.MergeBegin, Label.MergeOpen] + Scans(n)).value, MergeScan))
  {
    hide Step, Enabled, Clients.From;
    FromMore(cfg, s, [Label.MergeBegin, Label.MergeOpen] + Scans(n), MergeScan);
    assert Scans(n + 1) == Scans(n) + [MergeScan];
    assert [Label.MergeBegin, Label.MergeOpen] + (Scans(n) + [MergeScan])
        == [Label.MergeBegin, Label.MergeOpen] + Scans(n) + [MergeScan];
  }

  /** A merge in mid-scan, n records into the frozen files, whose output is all its own. */
  ghost predicate Midway(v: Session, c: Contents, cfg: Config, s: Store, n: nat)
    reads v.db, v.db.activeFile, v.db.olderFiles.Values, v.merge.instance, c.repr
  {
    && Valid(v, c) && v.db.outside.job.Scanning? && v.db.cfg == cfg && v.db.Core().index == s.index
    && Clients.From(cfg, s, [Label.MergeBegin, Label.MergeOpen] + Scans(n)) == Some(v.db.Core())
  }

  /** One turn on the way: either the next file, or one record more of the same file. */
  method MidwayTurn(v: Session, ghost c: Contents, ghost s: Store, ghost n: nat)
    returns (w: Session, ghost d: Contents, ghost m: nat)
    requires Midway(v, c, v.db.cfg, s, n) && v.task.fileNo < |v.task.files|
    modifies v.db`outside, v.merge.instance, v.merge.instance.activeFile, v.merge.hints
    ensures Midway(w, d, v.db.cfg, s, m) && w == v.(task := w.task) && w.task.files == v.task.files
    ensures w.task.fileNo == v.task.fileNo + 1
      || (w.task.fileNo == v.task.fileNo && AtHand(w, d) == AtHand(v, c) && c.taken < d.taken <= |AtHand(v, c)|)
    ensures forall o :: o in d.repr ==> o in c.repr || fresh(o)
    ensures forall f :: f in v.merge.instance.Files() ==> f in old(v.merge.instance.Files()) || fresh(f)
  {
    hide Valid, DB.Core, DB.Files, Clients.From, Enabled, Scans, MergeScanStep;
    ghost var before := v.db.Core();
    JobOfCore(v.db);
    w, d := MergeTurn(v, c);
    m := n;
    if c.taken < |AtHand(v, c)| {
      OneMoreScan(v.db.cfg, s, n);
      ScanKeepsIndex(v.db.cfg, before);
      m := n + 1;
    }
    JobOfCore(v.db);
  }

  lemma {:induction false} ScanKeepsIndex(cfg: Config, s: Store)
    requires Enabled(s, MergeScan)
    ensures s.job.Scanning? && s.job.scanned < |s.log|
    ensures MergeScanStep(cfg, s).index == s.index && MergeScanStep(cfg, s).job.Scanning?
  {
  }

  /** The loops of `Merge`: every frozen file from its first record to its end. */
  method ScanAll(v: Session, ghost c: Contents, ghost s: Store)
    returns (w: Session, ghost d: Contents, ghost n: nat)
    requires Midway(v, c, v.db.cfg, s, 0) && v.task.fileNo <= |v.task.files|
    modifies v.db`outside, v.merge.instance, v.merge.hints, v.merge.instance.Files()
    ensures Midway(w, d, v.db.cfg, s, n) && w == v.(task := w.task) && w.task.fileNo == |w.task.files|
    ensures forall o :: o in d.repr ==> o in c.repr || fresh(o)
    ensures forall f :: f in v.merge.instance.Files() ==> f in old(v.merge.instance.Files()) || fresh(f)
  {
    hide Midway, DB.Files, AtHand;
    w, d, n := v, c, 0;
    while w.task.fileNo < |w.task.files|
      invariant Midway(w, d, v.db.cfg, s, n) && w == v.(task := w.task) && w.task.fileNo <= |w.task.files|
      invariant forall o :: o in d.repr ==> o in c.repr || fresh(o)
      invariant forall f :: f in v.merge.instance.Files() ==> f in old(v.merge.instance.Files()) || fresh(f)
      decreases |w.task.files| - w.task.fileNo, |AtHand(w, d)| - d.taken
    {
      ActiveInFiles(v.merge.instance);
      w, d, n := MidwayTurn(w, d, s, n);
    }
  }

  /** The engine's steps of a whole merge. */
  function MergeRun(scans: nat): seq<Label> {
    [Label.MergeBegin, Label.MergeOpen] + Scans(scans) + [Label.MergeFinish]
  }

  lemma {:induction false} RunStarts(cfg: Config, s: Store)
    requires s.active.Active? && s.job.Idle?
    ensures Clients.From(cfg, s, [Label.MergeBegin, Label.MergeOpen] + Scans(0))
         == Some(MergeOpenStep(MergeBeginStep(s)))
    ensures MergeOpenStep(MergeBeginStep(s)).index == s.index && MergeOpenStep(MergeBeginStep(s)).job.Scanning?
  {
    hide Clients.From;
    Nothing(cfg, s);
    FromMore(cfg, s, [], Label.MergeBegin);
    assert [] + [Label.MergeBegin] == [Label.MergeBegin];
    FromMore(cfg, s, [Label.MergeBegin], Label.MergeOpen);
    assert [Label.MergeBegin] + [Label.MergeOpen] == [Label.MergeBegin, Label.MergeOpen] + Scans(0);
  }

  lemma {:induction false} Nothing(cfg: Config, s: Store)
    ensures Clients.From(cfg, s, []) == Some(s)
  {
  }

  /**
   * `Merge` from beginning to end, with no other operation in between: unless it is refused, the database has taken
   * the engine's steps of a whole merge, and its index is as before.
   */
  method Merge(v: Session, totalSize: nat, availableSize: nat, ratio: real, ghost c: Contents)
    returns (r: Outcome, w: Session, ghost d: Contents, ghost scans: nat)
    requires Valid(v, c) && (v.db.activeFile != null ==> v.db.activeFile.fileId + 1 < TWO_32)
    modifies v.db, v.db.activeFile
    ensures Valid(w, d) && w.db == v.db
    ensures
      var refusal := old(v.db.Refusal(totalSize, availableSize, ratio));
      if old(v.db.activeFile) == null then r == Done && v.db.Core() == old(v.db.Core())
      else if refusal.Some? then r == Failed(refusal.value) && v.db.Core() == old(v.db.Core())
      else
        && r == Done && v.db.Core().index == old(v.db.Core().index)
        && Clients.From(v.db.cfg, old(v.db.Core()), MergeRun(scans)) == Some(v.db.Core())
  {
    hide Valid, DB.Core, DB.Refusal, DB.Files, Clients.From, Scans, MergeBeginStep, MergeOpenStep, MergeFinishStep;
    ghost var s := v.db.Core();
    BeginsIdle(v, c, totalSize, availableSize, ratio);
    var empty := v.db.activeFile == null;
    scans := 0;
    r, w, d := MergeBegin(v, totalSize, availableSize, ratio, c);
    if !empty && r == Done {
      RunStarts(v.db.cfg, s);
      JobOfCore(w.db);
      w, d := MergeOpen(w, d);
      JobOfCore(w.db);
      w, d, scans := ScanAll(w, d, s);
      ghost var t := v.db.Core();
      ActiveInFiles(w.merge.instance);
      w, d := MergeFinish(w, d);
      FromMore(v.db.cfg, s, [Label.MergeBegin, Label.MergeOpen] + Scans(scans), Label.MergeFinish);
      FinishKeepsIndex(t);
    }
  }

  lemma {:induction false} FinishKeepsIndex(s: Store)
    requires s.job.Scanning?
    ensures MergeFinishStep(s).index == s.index
  {
  }

  lemma {:induction false} BeginsIdle(v: Session, c: Contents, totalSize: nat, availableSize: nat, ratio: real)
    requires Valid(v, c)
    ensures v.db.activeFile != null ==> v.db.Core().active.Active? && MergeBeginStep(v.db.Core()).job.Frozen?
    ensures v.db.Refusal(totalSize, availableSize, ratio).None? ==> v.db.Core().job.Idle?
  {
    hide Attached, Apart, Inv, DB.Valid, DB.BelowRatio, DB.NoSpace, DB.Entries, DB.Synced;
    IdleIfNotMerging(v.db);
  }
}
