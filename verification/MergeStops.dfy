/**
 * Merges stopped where the engine's steps are indivisible: while the finish marker is written (merge.go:170-183), while
 * an older merge directory is removed (merge.go:101-105), and openings stopped while they move merged files
 * (merge.go:236-256). What the next openings then make of the files.
 */
module MergeStops {
  import opened Varints
  import opened Wrappers
  import opened LogRecords
  import opened DataFiles
  import opened Storage
  import opened Log
  import opened Engine
  import opened Invariant
  import opened Database
  import opened Merging
  import opened Loading
  import opened Directories
  import opened OwnFiles
  import opened Sessions
  import opened Leftovers
  import Clients
  import MergeScan
  import Opening
  import Recovery
  import Reopening
  import Restarts
  import TornTails

  // ---------------------------------------------------------------- a marker written in part

  lemma {:induction false} MarkerWritable(barrier: nat)
    requires barrier < TWO_32
    ensures Writable(FinishMarker(barrier))
  {
    hide Itoa;
    ItoaLength(barrier);
  }

  /** Whatever half a record reads as, it has no value. */
  lemma {:induction false} TornHasNoValue(r: LogRecord, cut: nat)
    requires cut < |RecordBytes(r)| && TornTails.TornOutcome(r, cut).Ok?
    ensures TornTails.TornOutcome(r, cut).value.record.value == []
  {
    hide RecordBytes, HeaderBytes, RecordCrc, VarintBytes, GetLogRecordCRC;
  }

  /** A marker file names its barrier if and only if all of it was written; an empty one is unreadable as well. */
  lemma {:induction false} TornMarker(barrier: nat, cut: nat)
    requires barrier < TWO_32 && cut <= |RecordBytes(FinishMarker(barrier))|
    ensures
      var read := MarkerBarrier(RecordBytes(FinishMarker(barrier))[..cut]);
      && (read.Ok? <==> cut == |RecordBytes(FinishMarker(barrier))|)
      && (read.Ok? ==> read.value == barrier)
  {
    hide ReadAt, RecordBytes, Itoa, Decimal, Writable, TornTails.TornOutcome;
    var r := FinishMarker(barrier);
    MarkerWritable(barrier);
    if cut < |RecordBytes(r)| {
      TornTails.TornRead([], r, cut);
      assert [] + RecordBytes(r)[..cut] == RecordBytes(r)[..cut];
      if TornTails.TornOutcome(r, cut).Ok? {
        TornHasNoValue(r, cut);
        NoNumber();
      }
    } else {
      ReadsBack([], r, []);
      assert [] + RecordBytes(r) + [] == RecordBytes(r)[..cut];
      DecimalRoundTrip(barrier);
    }
  }

  lemma {:induction false} NoNumber()
    ensures Atoi([]).None?
  {
  }

  /** A marker file of which only a part was written. */
  ghost predicate Torn(marker: DataFile)
    reads marker
  {
    exists barrier: nat, cut: nat :: barrier < TWO_32 && cut < |RecordBytes(FinishMarker(barrier))|
      && marker.content == RecordBytes(FinishMarker(barrier))[..cut]
  }

  lemma {:induction false} TornIsUnreadable(marker: DataFile)
    requires Torn(marker)
    ensures MarkerBarrier(marker.content).Err?
  {
    hide RecordBytes, FinishMarker, MarkerBarrier;
    var barrier: nat, cut: nat :| barrier < TWO_32 && cut < |RecordBytes(FinishMarker(barrier))|
      && marker.content == RecordBytes(FinishMarker(barrier))[..cut];
    TornMarker(barrier, cut);
  }

  /**
   * A merge that ended while it wrote its marker, by a crash or an early return: the next opening fails and takes the
   * merge directory away, and the opening after that one gives the store as if the merge had never run.
   */
  method OpenTwice(cfg: Config, dir: Directory, mergeDir: Directory, ghost s: Store, ghost kept: nat,
                   ghost ids: seq<nat>, ghost recs: map<nat, seq<Record>>)
    returns (first: Outcome, db: DB)
    requires Inv(cfg, s) && s.synced <= kept <= |s.log| && !s.dir.Finished?
    requires Survives(dir, null, s, kept, ids, recs, [], map[]) && mergeDir != dir
    requires mergeDir.mergeFinishedFile != null && Torn(mergeDir.mergeFinishedFile)
    modifies dir, mergeDir
    ensures first.Failed? && mergeDir.Removed()
    ensures fresh(db) && db.cfg == cfg && db.Valid() && db.Core() == ReopenStep(s, kept)
    ensures fresh(db.Files()) && HintIs(dir.hintFile, db.outside.hint)
      && MarkerIs(dir.mergeFinishedFile, db.outside.barrier)
    ensures Opt(dir.hintFile) + Opt(dir.mergeFinishedFile) !! db.Files()
  {
    hide Inv, MarkerBarrier, Torn, ReopenStep, HoldAll, Flatten, DurableUpTo, HintIs, MarkerIs, LastIs, Increasing;
    hide DB.Core, DB.Valid;
    TornIsUnreadable(mergeDir.mergeFinishedFile);
    first := Directories.LoadMergeFiles(dir, mergeDir);
    db := Opening.Open(cfg, dir, mergeDir, s, kept, ids, recs, [], map[]);
  }

  /**
   * The same for a session whose merge left a marker written in part: after the failed opening the next one goes on
   * with the engine's restarted store, and the client finds the map it left.
   */
  method RestartTwice(v: Session, torn: DataFile, ghost c: Contents)
    returns (first: Outcome, w: Session, ghost d: Contents)
    requires Valid(v, c) && !v.db.outside.dir.Finished? && Torn(torn)
    ensures first.Failed? && fresh(w.db) && w.db.cfg == v.db.cfg && Valid(w, d)
    ensures w.db.Core() == ReopenStep(v.db.Core(), |v.db.Core().log|) && Clients.Map(w.db) == Clients.Map(v.db)
  {
    hide Valid, FilesAre, Survives, Inv, ReopenStep, HintIs, MarkerIs, AllFiles, View, Torn;
    hide DB.Valid, DB.Core, DB.Files;
    ghost var s := v.db.Core();
    Restarts.SaneStore(v, c);
    JobOfCore(v.db);
    var dir := new Directory(AllFiles(v.db), v.hintFile, v.marker);
    var mergeDir := new Directory(AllFiles(v.merge.instance), v.merge.hints, torn);
    DataSurvives(v, c, dir);
    Reopening.RestartKeepsView(v.db.cfg, s);
    Reopening.ReopenKeepsInv(v.db.cfg, s, |s.log|);
    var db;
    first, db := OpenTwice(v.db.cfg, dir, mergeDir, s, |s.log|, v.db.ids, v.db.recs);
    Restarts.NothingRunning(s, |s.log|);
    JobOfCore(db);
    w, d := Restarts.Begin(db, dir.hintFile, dir.mergeFinishedFile);
  }

  lemma {:induction false} DataSurvives(v: Session, c: Contents, dir: Directory)
    requires Valid(v, c) && !v.db.outside.dir.Finished?
    requires v.db.Valid() && dir.files == AllFiles(v.db)
    requires dir.hintFile == v.hintFile && dir.mergeFinishedFile == v.marker
    ensures
      var s := v.db.Core();
      Survives(dir, null, s, |s.log|, v.db.ids, v.db.recs, [], map[])
  {
    hide Inv, DB.Valid, HintIs, MarkerIs, HoldAll, Flatten, DurableUpTo, LastIs, Increasing, FrozenPart, JobIs, Closed;
    hide DB.Synced, DB.ActiveState, AllFiles, MergeDirIs;
    FilesOfDatabase(v.db);
    EntriesOfCore(v.db);
    assert v.db.Core().log[..|v.db.Core().log|] == v.db.Core().log;
  }

  // ---------------------------------------------------------------- a merge directory that is only partly there

  /** The ids of the merged files that are left. */
  function LeftIds(ids: seq<nat>, files: set<nat>): seq<nat> {
    if |ids| == 0 then []
    else
      var front, last := LeftIds(ids[..|ids| - 1], files), ids[|ids| - 1];
      if last in files then front + [last] else front
  }

  function LeftFiles(merged: map<nat, DataFile>, files: set<nat>): map<nat, DataFile> {
    map id | id in merged && id in files :: merged[id]
  }

  lemma {:induction false} LeftIdsAre(ids: seq<nat>, files: set<nat>)
    requires Increasing(ids)
    ensures Increasing(LeftIds(ids, files))
    ensures forall id :: id in LeftIds(ids, files) <==> id in ids && id in files
  {
    if |ids| > 0 {
      var front, last := ids[..|ids| - 1], ids[|ids| - 1];
      LeftIdsAre(front, files);
      assert ids == front + [last];
      var kept := LeftIds(front, files);
      forall i | 0 <= i < |kept| ensures kept[i] < last {
        assert kept[i] in front;
      }
    }
  }

  lemma {:induction false} LeftConcat(a: seq<Entry>, b: seq<Entry>, files: set<nat>)
    ensures Left(a + b, files) == Left(a, files) + Left(b, files)
    decreases |b|
  {
    if |b| == 0 {
      assert a + b == a;
    } else {
      var front := b[..|b| - 1];
      assert (a + b)[..|a + b| - 1] == a + front;
      LeftConcat(a, front, files);
    }
  }

  /** Of the records of one file all are left or none. */
  lemma {:induction false} LeftOfFile(fid: nat, entries: seq<Entry>, files: set<nat>)
    requires forall e :: e in entries ==> e.pos.fid == fid
    ensures Left(entries, files) == if fid in files then entries else []
  {
    if |entries| > 0 {
      var front, last := entries[..|entries| - 1], entries[|entries| - 1];
      assert entries == front + [last];
      LeftOfFile(fid, front, files);
    }
  }

  lemma {:induction false} LeftFlatten(ids: seq<nat>, recs: map<nat, seq<Record>>, files: set<nat>)
    ensures Flatten(LeftIds(ids, files), recs) == Left(Flatten(ids, recs), files)
  {
    hide EntriesOf, RecordsIn, Left;
    if |ids| == 0 {
      assert Left([], files) == [] by {
        LeftOfFile(0, [], files);
      }
    } else {
      var front, last := ids[..|ids| - 1], ids[|ids| - 1];
      var entries := EntriesOf(last, RecordsIn(recs, last));
      LeftFlatten(front, recs, files);
      EntriesHaveFid(last, RecordsIn(recs, last));
      LeftOfFile(last, entries, files);
      LeftConcat(Flatten(front, recs), entries, files);
      var kept := LeftIds(front, files);
      assert (kept + [last])[..|kept|] == kept;
    }
  }

  lemma {:induction false} LeftHoldAll(merged: map<nat, DataFile>, mergeIds: seq<nat>, mergeRecs: map<nat, seq<Record>>,
    files: set<nat>)
    requires HoldAll(merged, mergeIds, mergeRecs) && AllDurable(merged) && Increasing(mergeIds)
    ensures HoldAll(LeftFiles(merged, files), LeftIds(mergeIds, files), mergeRecs)
    ensures AllDurable(LeftFiles(merged, files))
  {
    hide Holds, Increasing;
    LeftIdsAre(mergeIds, files);
  }

  /** The files of a finished merge as it left them, all of them durable. */
  ghost predicate MergedAre(merged: map<nat, DataFile>, mergeIds: seq<nat>, mergeRecs: map<nat, seq<Record>>,
    out: Output)
    reads merged.Values
  {
    && Increasing(mergeIds) && HoldAll(merged, mergeIds, mergeRecs) && Flatten(mergeIds, mergeRecs) == out.entries
    && LastIs(mergeIds, out.active) && AllDurable(merged)
  }

  /**
   * What a stop leaves of a data directory with the files `was` and a merge directory with the files `merged`: the
   * marker, some of the merged files, no matter what below the barrier, and some hint file or none.
   */
  ghost predicate Interrupted(dir: Directory, mergeDir: Directory, was: map<nat, DataFile>, merged: map<nat, DataFile>,
    barrier: nat, files: set<nat>, hint: seq<Entry>)
    reads dir, mergeDir, dir.hintFile, mergeDir.hintFile, mergeDir.mergeFinishedFile
  {
    && dir != mergeDir && mergeDir.files == LeftFiles(merged, files)
    && (forall id :: id >= barrier ==> (id in dir.files <==> id in was))
    && (forall id :: id in was && id >= barrier ==> id in dir.files && dir.files[id] == was[id])
    && mergeDir.mergeFinishedFile != null && MarkerIs(mergeDir.mergeFinishedFile, barrier)
    && HintIs(if mergeDir.hintFile == null then dir.hintFile else mergeDir.hintFile, hint)
  }

  /** Whatever lay below the barrier is gone after the move. */
  lemma {:induction false} MovedLeft(files: map<nat, DataFile>, was: map<nat, DataFile>, left: map<nat, DataFile>,
    barrier: nat)
    requires forall id :: id >= barrier ==> (id in files <==> id in was)
    requires forall id :: id in was && id >= barrier ==> id in files && files[id] == was[id]
    ensures MovedFiles(files, left, barrier) == MovedFiles(was, left, barrier)
  {
  }

  /** Ids and records of the files after the move. */
  lemma {:induction false} LeftStore(cfg: Config, s: Store, kept: nat, files: set<nat>,
                                     was: map<nat, DataFile>, ids: seq<nat>, recs: map<nat, seq<Record>>,
                                     merged: map<nat, DataFile>, mergeIds: seq<nat>, mergeRecs: map<nat, seq<Record>>)
    returns (moved: map<nat, DataFile>, newIds: seq<nat>, newRecs: map<nat, seq<Record>>, n: nat)
    requires Inv(cfg, s) && s.synced <= kept <= |s.log| && s.dir.Finished?
    requires FilesAre(was, ids, recs, s.log[..kept], s.active, s.synced)
    requires MergedAre(merged, mergeIds, mergeRecs, s.dir.out)
    ensures moved == MovedFiles(was, LeftFiles(merged, files), s.dir.barrier)
    ensures Increasing(newIds) && HoldAll(moved, newIds, newRecs) && DurableUpTo(moved, newIds, newRecs, n)
    ensures Flatten(newIds, newRecs) == LeftLog(s, kept, files)
    ensures Flatten(From(newIds, s.dir.barrier), newRecs) == NewerPart(s, kept)
    ensures |newIds| > 0 && s.dir.barrier <= newIds[|newIds| - 1]
    ensures forall id :: id in newIds && id < s.dir.barrier ==> id in files
  {
    hide Inv, EntriesOf, RecordsIn, MovedRecs, Below, HoldAll, AllDurable, DurableUpTo, Holds, Flatten, Ordered;
    hide Increasing, MovedFiles;
    var b, leftIds := s.dir.barrier, LeftIds(mergeIds, files);
    MergeIdsBelow(cfg, s, mergeIds);
    DirFacts(cfg, s);
    LeftIdsAre(mergeIds, files);
    LeftHoldAll(merged, mergeIds, mergeRecs, files);
    LeftFlatten(mergeIds, mergeRecs, files);
    LogOrdered(cfg, s, kept);
    FlattenFrom(ids, recs, b);
    MovedIncreasing(leftIds, ids, b);
    MovedFlatten(leftIds, mergeRecs, ids, recs, b);
    MovedHoldAll(was, ids, recs, LeftFiles(merged, files), leftIds, mergeRecs, b);
    moved := MovedFiles(was, LeftFiles(merged, files), b);
    newIds, newRecs := MovedIds(leftIds, ids, b), MovedRecs(leftIds, mergeRecs, recs);
    LastFrom(ids, b);
    NewerIds(leftIds, ids, mergeRecs, recs, b);
    FrozenSynced(cfg, s, kept);
    LeftKeys(merged, mergeIds, mergeRecs, files);
    MovedDurable(was, ids, recs, LeftFiles(merged, files), leftIds, mergeRecs, b, s.synced);
    n := |Flatten(leftIds, mergeRecs)| + s.synced - Below(s.log[..kept], b);
    FromIs(ids, b);
    forall id | id in newIds && id < b ensures id in leftIds {
    }
  }

  lemma {:induction false} LeftKeys(merged: map<nat, DataFile>, mergeIds: seq<nat>, mergeRecs: map<nat, seq<Record>>,
    files: set<nat>)
    requires HoldAll(merged, mergeIds, mergeRecs) && Increasing(mergeIds)
    ensures forall id :: id in LeftIds(mergeIds, files) <==> id in LeftFiles(merged, files)
  {
    hide Holds, Increasing;
    LeftIdsAre(mergeIds, files);
  }

  lemma {:induction false} FrozenSynced(cfg: Config, s: Store, kept: nat)
    requires Inv(cfg, s) && s.synced <= kept <= |s.log| && s.dir.Finished?
    ensures Below(s.log[..kept], s.dir.barrier) <= s.synced
  {
    hide Inv, ReopenStep, Below, Ordered, Reopening.ReopenedLog;
    Opening.ReopenParts(cfg, s, kept);
  }

  lemma {:induction false} NewerIds(leftIds: seq<nat>, ids: seq<nat>, mergeRecs: map<nat, seq<Record>>,
    recs: map<nat, seq<Record>>, barrier: nat)
    requires Increasing(leftIds) && Increasing(ids) && forall id :: id in leftIds ==> id < barrier
    ensures From(MovedIds(leftIds, ids, barrier), barrier) == From(ids, barrier)
    ensures Flatten(From(ids, barrier), MovedRecs(leftIds, mergeRecs, recs)) == Flatten(From(ids, barrier), recs)
  {
    hide Increasing, EntriesOf, RecordsIn, MovedRecs, From, Flatten;
    MovedIncreasing(leftIds, ids, barrier);
    FromIs(ids, barrier);
    FromIs(MovedIds(leftIds, ids, barrier), barrier);
    Opening.SameIds(From(MovedIds(leftIds, ids, barrier), barrier), From(ids, barrier));
    forall id | id in From(ids, barrier)
      ensures RecordsIn(MovedRecs(leftIds, mergeRecs, recs), id) == RecordsIn(recs, id)
    {
      MovedRecordsAt(leftIds, mergeRecs, recs, id);
    }
    FlattenSame(From(ids, barrier), MovedRecs(leftIds, mergeRecs, recs), recs);
  }

  /** `LoadMergeFiles` after a removal or a move that was stopped. */
  method SettleLeftovers(cfg: Config, dir: Directory, mergeDir: Directory, ghost s: Store, ghost kept: nat,
                         ghost files: set<nat>, ghost hint: seq<Entry>,
                         ghost was: map<nat, DataFile>, ghost ids: seq<nat>, ghost recs: map<nat, seq<Record>>,
                         ghost merged: map<nat, DataFile>, ghost mergeIds: seq<nat>,
                         ghost mergeRecs: map<nat, seq<Record>>)
    returns (ghost newIds: seq<nat>, ghost newRecs: map<nat, seq<Record>>, ghost n: nat)
    requires Inv(cfg, s) && s.synced <= kept <= |s.log| && s.dir.Finished?
    requires FilesAre(was, ids, recs, s.log[..kept], s.active, s.synced)
    requires MergedAre(merged, mergeIds, mergeRecs, s.dir.out)
    requires Interrupted(dir, mergeDir, was, merged, s.dir.barrier, files, hint)
    modifies dir, mergeDir
    ensures mergeDir.Removed() && HintIs(dir.hintFile, hint) && MarkerIs(dir.mergeFinishedFile, s.dir.barrier)
    ensures Increasing(newIds) && HoldAll(dir.files, newIds, newRecs) && DurableUpTo(dir.files, newIds, newRecs, n)
    ensures Flatten(newIds, newRecs) == LeftLog(s, kept, files)
    ensures Flatten(From(newIds, s.dir.barrier), newRecs) == NewerPart(s, kept)
    ensures |newIds| > 0 && s.dir.barrier <= newIds[|newIds| - 1]
    ensures forall id :: id in newIds && id < s.dir.barrier ==> id in files
  {
    hide Inv, FilesAre, MergedAre, MarkerBarrier, HoldAll, DurableUpTo, Increasing, Flatten, From;
    hide LeftLog, NewerPart, HintIs, MarkerIs, MovedFiles, LeftFiles;
    ghost var moved;
    moved, newIds, newRecs, n := LeftStore(cfg, s, kept, files, was, ids, recs, merged, mergeIds, mergeRecs);
    MarkerReadsBack(mergeDir.mergeFinishedFile, s.dir.barrier);
    MovedLeft(dir.files, was, mergeDir.files, s.dir.barrier);
    var _ := Directories.LoadMergeFiles(dir, mergeDir);
    assert dir.files == moved && HoldAll(moved, newIds, newRecs) && DurableUpTo(moved, newIds, newRecs, n);
  }

  /**
   * `Open` after a removal or a move that was stopped: the data files are those from the barrier on and the merged ones
   * that were left, the index is that of the hint file and the newer files.
   */
  method OpenLeftovers(cfg: Config, dir: Directory, mergeDir: Directory, ghost s: Store, ghost kept: nat,
                       ghost files: set<nat>, ghost hint: seq<Entry>,
                       ghost was: map<nat, DataFile>, ghost ids: seq<nat>, ghost recs: map<nat, seq<Record>>,
                       ghost merged: map<nat, DataFile>, ghost mergeIds: seq<nat>,
                       ghost mergeRecs: map<nat, seq<Record>>)
    returns (db: DB)
    requires Inv(cfg, s) && s.synced <= kept <= |s.log| && s.dir.Finished?
    requires FilesAre(was, ids, recs, s.log[..kept], s.active, s.synced)
    requires MergedAre(merged, mergeIds, mergeRecs, s.dir.out)
    requires Interrupted(dir, mergeDir, was, merged, s.dir.barrier, files, hint)
    modifies dir, mergeDir
    ensures fresh(db) && mergeDir.Removed() && db.FilesValid() && db.activeFile != null
    ensures db.Entries() == LeftLog(s, kept, files) && db.index == Positions(LeftIndex(s, kept, hint))
    ensures forall id :: id in db.ids && id < s.dir.barrier ==> id in files
  {
    hide Inv, FilesAre, MergedAre, Interrupted, HoldAll, DurableUpTo, Increasing, Opened, Flatten, From, Positions;
    hide LeftLog, NewerPart, ReplayFrom, LoadHint, HintIs, MarkerIs, Rebuilt, DB.FilesValid;
    ghost var newIds, newRecs, n :=
      SettleLeftovers(cfg, dir, mergeDir, s, kept, files, hint, was, ids, recs, merged, mergeIds, mergeRecs);
    db := Opening.NewDB(cfg);
    Opening.NothingRebuilt(db);
    var fileIds := Opening.OpenAll(db, dir, newIds, newRecs, n);
    Opening.RebuildIndex(db, dir, fileIds, hint, s.dir.barrier);
    Opening.RebuiltIndex(db, ReplayFrom(EMPTY.(index := LoadHint(hint)), NewerPart(s, kept)));
    FilesInPlace(db);
  }

  lemma {:induction false} FilesInPlace(db: DB)
    requires Opened(db) && |db.ids| > 0
    requires db.activeFile != null ==> db.activeFile.writeOff == |db.activeFile.content|
    ensures db.FilesValid() && db.activeFile != null
  {
    hide Holds, HoldAll, AllDurable;
  }

  // ---------------------------------------------------------------- what clients read then

  /** What `Get` answers for a key, said of the index. */
  function Answer(index: map<Key, Entry>, barrier: nat, files: set<nat>, key: Key): Result<Value, Error> {
    if key !in index then Err(KeyNotFound)
    else if index[key].pos.fid < barrier && index[key].pos.fid !in files then Err(DataFileNotFound)
    else Ok(index[key].rec.value)
  }

  /** Every position denotes a record, unless its file is missing. */
  ghost predicate Denotes(index: map<Key, Entry>, barrier: nat, files: set<nat>, log: seq<Entry>) {
    && (forall k :: k in index ==> index[k].rec.kind == Normal)
    && (forall k :: k in index && index[k] !in log ==> index[k].pos.fid < barrier && index[k].pos.fid !in files)
  }

  lemma {:induction false} HintsDenote(cfg: Config, s: Store, kept: nat, files: set<nat>, hint: seq<Entry>)
    requires Inv(cfg, s) && s.synced <= kept <= |s.log| && s.dir.Finished? && (hint == [] || hint == s.dir.out.hint)
    ensures Denotes(LeftIndex(s, kept, hint), s.dir.barrier, files, LeftLog(s, kept, files))
  {
    hide Inv, Replay, Below, LoadHint, WfLog, CutOk, Left, Decided, ReplayFrom, Overlaid, CopyOk, Denotes;
    hide NotAhead, AtEnd, LastIsActive;
    var cut, b, out := s.log[..kept], s.dir.barrier, s.dir.out;
    var newer := NewerPart(s, kept);
    CutParts(cfg, s, kept);
    OverHint(LoadHint(hint), newer);
    NewerIndexed(cfg, cut, b);
    LeftAre(out.entries, files);
    MergeScan.MergedFilesFit(cfg, s);
    forall k | k in LoadHint(hint) ensures LoadHint(hint)[k] in out.entries {
      LoadHintKeys(hint, k);
    }
    HintsFit(LoadHint(hint), out.entries, b, files, LeftLog(s, kept, files));
    assert Denotes(Replay(newer).index, b, files, LeftLog(s, kept, files)) by {
      NewerDenotes(Replay(newer).index, newer, b, files, LeftLog(s, kept, files));
    }
    DenotesOver(LoadHint(hint), Decided(newer), Replay(newer).index, b, files, LeftLog(s, kept, files));
  }

  lemma {:induction false} HintsFit(hinted: map<Key, Entry>, copies: seq<Entry>, barrier: nat, files: set<nat>,
    log: seq<Entry>)
    requires forall k :: k in hinted ==> hinted[k] in copies
    requires forall e :: e in copies ==> e.rec.kind == Normal && e.pos.fid < barrier
    requires forall e :: e in copies && e.pos.fid in files ==> e in log
    ensures Denotes(hinted, barrier, files, log)
  {
  }

  lemma {:induction false} NewerDenotes(index: map<Key, Entry>, newer: seq<Entry>, barrier: nat, files: set<nat>,
    log: seq<Entry>)
    requires forall k :: k in index ==> index[k] in newer && index[k].rec.kind == Normal
    requires |newer| <= |log| && log[|log| - |newer|..] == newer
    ensures Denotes(index, barrier, files, log)
  {
    forall e | e in newer ensures e in log {
      var i :| 0 <= i < |newer| && newer[i] == e;
      assert log[|log| - |newer| + i] == e;
    }
  }

  lemma {:induction false} DenotesOver(hinted: map<Key, Entry>, decided: set<Key>, newer: map<Key, Entry>, barrier: nat,
    files: set<nat>, log: seq<Entry>)
    requires Denotes(hinted, barrier, files, log) && Denotes(newer, barrier, files, log)
    ensures Denotes(Overlaid(hinted, decided, newer), barrier, files, log)
  {
    OverlaidAt(hinted, decided, newer);
    hide Overlaid;
  }

  /** `Get` on a database that was opened on such directories. */
  method GetAfterStop(db: DB, key: Key, ghost index: map<Key, Entry>, ghost barrier: nat, ghost files: set<nat>)
    returns (r: Result<Value, Error>)
    requires db.FilesValid() && db.activeFile != null && db.index == Positions(index)
    requires Denotes(index, barrier, files, db.Entries()) && forall id :: id in db.ids && id < barrier ==> id in files
    ensures r == if key == [] then Err(KeyIsEmpty) else Answer(index, barrier, files, key)
  {
    hide DB.FilesValid, Flatten;
    ghost var e := Entry(Pos(0, 0, 0), Record(0, [], [], Normal));
    if key in index {
      e := index[key];
      if e in db.Entries() {
        ghost var j := FindEntry(db.ids, db.recs, e);
      }
    }
    r := db.Lookup(key, e);
  }

  /**
   * With the merge's own hint file in place every key is answered from the surviving map if and only if the copy of
   * every frozen position in use is in a file that is left; otherwise some key is answered with an error.
   */
  lemma {:induction false} AnsweredAlike(cfg: Config, s: Store, kept: nat, files: set<nat>)
    requires Inv(cfg, s) && s.synced <= kept <= |s.log| && s.dir.Finished?
    ensures
      var index, m := LeftIndex(s, kept, s.dir.out.hint), View(Replay(s.log[..kept]).index);
      (forall k :: Answer(index, s.dir.barrier, files, k) == if k in m then Ok(m[k]) else Err(KeyNotFound)) <==>
        CopiesLeft(Replay(s.log[..kept]).index, s.dir.barrier, s.dir.out, files)
  {
    hide Inv, Replay, Below, LoadHint, Ordered, WfEntry, CutOk, NotAhead, AtEnd, Left, LeftIndex, OutOk;
    var cut, b, out := s.log[..kept], s.dir.barrier, s.dir.out;
    var index, hinted := Replay(cut).index, LoadHint(out.entries);
    CutParts(cfg, s, kept);
    OwnHintsMirror(cfg, s, kept);
    Recovery.OutAgrees(cfg, cut, b, out);
    HintsBelow(cfg, s);
    AnswersIff(index, b, hinted, files);
  }

  lemma {:induction false} HintsBelow(cfg: Config, s: Store)
    requires Inv(cfg, s) && s.dir.Finished?
    ensures forall k :: k in LoadHint(s.dir.out.entries) ==>
      LoadHint(s.dir.out.entries)[k].pos.fid < s.dir.barrier
  {
    hide Inv, LoadHint;
    MergeScan.MergedFilesFit(cfg, s);
    forall k | k in LoadHint(s.dir.out.entries)
      ensures LoadHint(s.dir.out.entries)[k].pos.fid < s.dir.barrier
    {
      LoadHintKeys(s.dir.out.entries, k);
    }
  }

  lemma {:induction false} AnswersIff(index: map<Key, Entry>, barrier: nat, hinted: map<Key, Entry>, files: set<nat>)
    requires forall k :: k in hinted ==> hinted[k].pos.fid < barrier
    requires Recovery.CopiesAgree(index, barrier, hinted)
    ensures
      var found, m := Recovery.Mirror(index, barrier, hinted), View(index);
      (forall k :: Answer(found, barrier, files, k) == if k in m then Ok(m[k]) else Err(KeyNotFound)) <==>
        (forall k :: k in index && index[k].pos.fid < barrier ==> k in hinted && hinted[k].pos.fid in files)
  {
    var found, m := Recovery.Mirror(index, barrier, hinted), View(index);
    if forall k :: Answer(found, barrier, files, k) == if k in m then Ok(m[k]) else Err(KeyNotFound) {
      forall k | k in index && index[k].pos.fid < barrier ensures k in hinted && hinted[k].pos.fid in files {
        assert k in m && Answer(found, barrier, files, k) == Ok(m[k]);
      }
    }
  }

  /** A session with a finished merge has such directories. */
  lemma {:induction false} SessionLeaves(v: Session, c: Contents)
    requires Valid(v, c) && v.db.Core().dir.Finished?
    ensures
      var s := v.db.Core();
      && FilesAre(AllFiles(v.db), v.db.ids, v.db.recs, s.log[..|s.log|], s.active, s.synced)
      && MergedAre(AllFiles(v.merge.instance), v.merge.instance.ids, v.merge.instance.recs, s.dir.out)
      && v.merge.marker != null && MarkerIs(v.merge.marker, s.dir.barrier)
      && HintIs(v.merge.hints, s.dir.out.hint) && HintIs(v.hintFile, s.hint)
  {
    hide Inv, DB.Valid, HintIs, MarkerIs, HoldAll, Flatten, DurableUpTo, LastIs, Increasing, FrozenPart, JobIs, Closed;
    hide DB.Synced, DB.ActiveState, AllFiles, MergeOutput, OutputDurable, AllDurable, FilesAre;
    Restarts.SaneStore(v, c);
    FilesOfDatabase(v.db);
    FilesOfMerge(v.merge.instance, v.merge.hints, v.db.Core().dir.out);
    EntriesOfCore(v.db);
    assert v.db.Core().log[..|v.db.Core().log|] == v.db.Core().log;
  }

  /** Without its marker the rest of a merge directory is what an unfinished merge leaves. */
  lemma {:induction false} WithoutMarker(cfg: Config, dir: Directory, mergeDir: Directory, s: Store, kept: nat,
    ids: seq<nat>, recs: map<nat, seq<Record>>)
    requires Inv(cfg, s) && s.synced <= kept <= |s.log| && dir != mergeDir && mergeDir.mergeFinishedFile == null
    requires FilesAre(dir.files, ids, recs, s.log[..kept], s.active, s.synced)
    requires HintIs(dir.hintFile, s.hint) && MarkerIs(dir.mergeFinishedFile, s.barrier)
    ensures Inv(cfg, s.(dir := Unfinished))
    ensures Survives(dir, mergeDir, s.(dir := Unfinished), kept, ids, recs, [], map[])
    ensures View(ReopenStep(s.(dir := Unfinished), kept).index) == View(Replay(s.log[..kept]).index)
  {
    hide Inv, View, Replay, ReopenStep, HintIs, MarkerIs, HoldAll, Flatten, DurableUpTo, LastIs;
    MarkerGone(cfg, s, kept);
  }
}
