/** `DB` as an object over data files: db.go, method by method, each tied to the step of the engine it performs. */
module Database {
  import opened Bytes
  import opened Varints
  import opened Wrappers
  import opened LogRecords
  import opened DataFiles
  import opened Storage
  import opened Log
  import opened Engine

  datatype Error =
    | KeyIsEmpty
    | KeyNotFound
    | DataFileNotFound
    | ExceedMaxBatchNum
    | MergeIsInProcess
    | MergeRatioUnreached
    | DataDirectoryCorrupted
    | NotANumber
    | Unreadable(why: ReadError)
    | WriteFailed

  datatype Outcome = Done | Failed(error: Error)

  /** Comparing a quotient is comparing with a product. */
  lemma {:induction false} QuotientBelow(a: nat, b: nat, ratio: real)
    ensures b > 0 ==> (a as real / b as real < ratio <==> a as real < ratio * b as real)
  {
    if b > 0 {
      var q := a as real / b as real;
      assert q * b as real == a as real;
      Scaled(q, ratio, b as real);
    }
  }

  lemma {:induction false} Scaled(x: real, y: real, z: real)
    requires z > 0.0
    ensures x < y <==> x * z < y * z
  {
  }

  // ---------------------------------------------------------------- files and the log

  function RecordsIn(recs: map<nat, seq<Record>>, id: nat): seq<Record> {
    if id in recs then recs[id] else []
  }

  /** The entries of the files with these ids, file after file. */
  function Flatten(ids: seq<nat>, recs: map<nat, seq<Record>>): seq<Entry> {
    if |ids| == 0 then []
    else
      var last := ids[|ids| - 1];
      Flatten(ids[..|ids| - 1], recs) + EntriesOf(last, RecordsIn(recs, last))
  }

  predicate Increasing(ids: seq<nat>) {
    forall i, j :: 0 <= i < j < |ids| ==> ids[i] < ids[j]
  }

  lemma {:induction false} LastIsNew(a: seq<nat>)
    requires Increasing(a) && |a| > 0
    ensures a[|a| - 1] !in a[..|a| - 1]
  {
  }

  lemma {:induction false} WithoutLast(a: seq<nat>)
    requires Increasing(a) && |a| > 0
    ensures a[|a| - 1] in a && Increasing(a[..|a| - 1]) && forall x :: x in a ==> x <= a[|a| - 1]
    ensures forall x :: x in a[..|a| - 1] <==> x in a && x != a[|a| - 1]
  {
    LastIsNew(a);
    assert a == a[..|a| - 1] + [a[|a| - 1]];
  }

  lemma {:induction false} FlattenFrame(ids: seq<nat>, recs: map<nat, seq<Record>>, id: nat, rs: seq<Record>)
    requires id !in ids
    ensures Flatten(ids, recs[id := rs]) == Flatten(ids, recs)
  {
    if |ids| > 0 {
      assert ids[|ids| - 1] in ids;
      FlattenFrame(ids[..|ids| - 1], recs, id, rs);
    }
  }

  lemma {:induction false} EntriesAppend(fid: nat, rs: seq<Record>, r: Record)
    ensures EntriesOf(fid, rs + [r]) == EntriesOf(fid, rs) + [Entry(Pos(fid, Fill(rs), Size(r)), r)]
  {
    hide Size;
    assert (rs + [r])[..|rs|] == rs;
  }

  /** A record appended to the last file is appended to the log. */
  lemma {:induction false} FlattenAppend(ids: seq<nat>, recs: map<nat, seq<Record>>, r: Record)
    requires Increasing(ids) && |ids| > 0
    ensures
      var id := ids[|ids| - 1];
      var rs := RecordsIn(recs, id);
      Flatten(ids, recs[id := rs + [r]]) == Flatten(ids, recs) + [Entry(Pos(id, Fill(rs), Size(r)), r)]
  {
    hide Size, EntriesOf;
    var id := ids[|ids| - 1];
    var rs := RecordsIn(recs, id);
    FlattenFrame(ids[..|ids| - 1], recs, id, rs + [r]);
    EntriesAppend(id, rs, r);
  }

  /** A new file adds nothing to the log. */
  lemma {:induction false} FlattenNewFile(ids: seq<nat>, recs: map<nat, seq<Record>>, id: nat)
    requires id !in ids
    ensures Flatten(ids + [id], recs[id := []]) == Flatten(ids, recs)
  {
    assert (ids + [id])[..|ids|] == ids;
    FlattenFrame(ids, recs, id, []);
  }

  lemma {:induction false} FindEntry(ids: seq<nat>, recs: map<nat, seq<Record>>, e: Entry) returns (j: nat)
    requires e in Flatten(ids, recs)
    ensures e.pos.fid in ids
    ensures j < |RecordsIn(recs, e.pos.fid)|
    ensures EntriesOf(e.pos.fid, RecordsIn(recs, e.pos.fid))[j] == e
  {
    var n := |ids|;
    var last := ids[n - 1];
    if e in EntriesOf(last, RecordsIn(recs, last)) {
      j :| 0 <= j < |RecordsIn(recs, last)| && EntriesOf(last, RecordsIn(recs, last))[j] == e;
      EntryAt(last, RecordsIn(recs, last), j);
    } else {
      j := FindEntry(ids[..n - 1], recs, e);
    }
  }

  /** The file has this id and holds these records. */
  ghost predicate Holds(f: DataFile, id: nat, records: seq<Record>)
    reads f
  {
    f.fileId == id && f.Valid() && f.records == StoredAll(records) && forall r :: r in records ==> Storable(r)
  }

  /** The map holds the files with these ids and no others, each with its records. */
  ghost predicate HoldAll(files: map<nat, DataFile>, ids: seq<nat>, recs: map<nat, seq<Record>>)
    reads files.Values
  {
    && (forall id :: id in files <==> id in ids)
    && (forall id :: id in files ==> Holds(files[id], id, RecordsIn(recs, id)))
  }

  /** Every record of these files is on stable storage. */
  ghost predicate AllDurable(files: map<nat, DataFile>)
    reads files.Values
  {
    forall id :: id in files ==> files[id].durable == |files[id].records|
  }

  lemma {:induction false} EmptyFileHolds(f: DataFile)
    requires f.Valid() && f.records == []
    ensures Holds(f, f.fileId, [])
  {
  }

  lemma {:induction false} HoldsId(f: DataFile, id: nat, records: seq<Record>)
    requires Holds(f, id, records)
    ensures f.fileId == id
  {
  }

  lemma {:induction false} StoredAllAppend(records: seq<Record>, r: Record)
    ensures StoredAll(records + [r]) == StoredAll(records) + [Stored(r)]
  {
  }

  lemma {:induction false} IdsGrow(ids: seq<nat>, id: nat)
    requires Increasing(ids) && (ids != [] ==> id == ids[|ids| - 1] + 1) && (ids == [] ==> id == 0)
    ensures Increasing(ids + [id]) && id !in ids
  {
  }

  /** One more file among those that are full and durable. */
  lemma {:induction false} OlderMore(files: map<nat, DataFile>, ids: seq<nat>, recs: map<nat, seq<Record>>, id: nat,
    f: DataFile)
    requires HoldAll(files, ids, recs) && AllDurable(files) && Holds(f, id, RecordsIn(recs, id))
      && f.durable == |f.records|
    ensures f.fileId == id && HoldAll(files[f.fileId := f], ids + [id], recs) && AllDurable(files[f.fileId := f])
  {
    hide Holds, RecordsIn;
    HoldsId(f, id, RecordsIn(recs, id));
  }

  /** Records given to a file that is not among these leave them as they were. */
  lemma {:induction false} OlderStay(files: map<nat, DataFile>, ids: seq<nat>, recs: map<nat, seq<Record>>, id: nat,
    rs: seq<Record>)
    requires HoldAll(files, ids, recs) && id !in ids
    ensures HoldAll(files, ids, recs[id := rs])
  {
    hide Holds;
  }

  /** A file holding an entry reads back its record at its position. */
  lemma {:induction false} ReadsHeldEntry(f: DataFile, records: seq<Record>, j: nat, e: Entry)
    requires Holds(f, e.pos.fid, records) && j < |records| && EntriesOf(e.pos.fid, records)[j] == e
    ensures e.pos.offset <= |f.content| && ReadAt(f.content, e.pos.offset) == Ok(Read(Stored(e.rec), Size(e.rec)))
    ensures e.pos.size == Size(e.rec) && Storable(e.rec)
  {
    hide ReadAt, Size, Stored;
    EntryAt(e.pos.fid, records, j);
    assert records[j] in records;
    ReadsEntry(records, j);
  }

  /** The file from any of its records on, and its end. */
  lemma {:induction false} HeldFileReads(f: DataFile, id: nat, records: seq<Record>, n: nat)
    requires Holds(f, id, records) && n <= |records|
    ensures Fill(records[..n]) <= |f.content|
    ensures n < |records| ==>
      ReadAt(f.content, Fill(records[..n])) == Ok(Read(Stored(records[n]), Size(records[n]))) && Storable(records[n])
    ensures n == |records| ==> ReadAt(f.content, Fill(records[..n])) == Err(EOF) && Fill(records[..n]) == |f.content|
  {
    hide ReadAt, Size, Stored, RecordBytes, Storable, StoredAll;
    if n < |records| {
      assert records[n] in records;
      ReadsEntry(records, n);
    } else {
      assert records[..n] == records;
      StoredLength(records);
      EndOfFile(f.content);
    }
  }

  // ---------------------------------------------------------------- index and replay state

  function Positions(entries: map<Key, Entry>): map<Key, Pos> {
    map k | k in entries :: entries[k].pos
  }

  lemma {:induction false} IndexSoundAppend(entries: map<Key, Entry>, log: seq<Entry>, e: Entry)
    requires IndexSound(entries, log)
    ensures IndexSound(entries, log + [e])
  {
  }

  lemma {:induction false} PositionsPut(entries: map<Key, Entry>, key: Key, e: Entry)
    ensures Positions(entries)[key := e.pos] == Positions(entries[key := e])
    ensures OldSize(entries, key) == if key in Positions(entries) then Positions(entries)[key].size else 0
  {
  }

  lemma {:induction false} PositionsDelete(entries: map<Key, Entry>, key: Key)
    ensures Positions(entries) - {key} == Positions(entries - {key})
  {
  }

  /** What the code holds back of a batch's record during replay. */
  datatype TransactionRecord = TransactionRecord(key: Key, typ: byte, pos: Pos)

  function HeldBack(e: Entry): TransactionRecord {
    TransactionRecord(e.rec.key, KindByte(e.rec.kind), e.pos)
  }

  function HeldBackAll(es: seq<Entry>): (ts: seq<TransactionRecord>)
    ensures |ts| == |es|
  {
    seq(|es|, i requires 0 <= i < |es| => HeldBack(es[i]))
  }

  function Waiting(pending: map<nat, seq<Entry>>): map<nat, seq<TransactionRecord>> {
    map s | s in pending :: HeldBackAll(pending[s])
  }

  lemma {:induction false} WaitingMore(pending: map<nat, seq<Entry>>, s: nat, es: seq<Entry>, e: Entry)
    ensures Waiting(pending[s := es + [e]]) == Waiting(pending)[s := HeldBackAll(es) + [HeldBack(e)]]
  {
    assert HeldBackAll(es + [e]) == HeldBackAll(es) + [HeldBack(e)];
  }

  lemma {:induction false} WaitingLess(pending: map<nat, seq<Entry>>, s: nat)
    ensures Waiting(pending - {s}) == Waiting(pending) - {s}
  {
  }

  /** The ids that are not below the barrier. */
  function From(ids: seq<nat>, barrier: nat): seq<nat> {
    if |ids| == 0 then []
    else
      var front := From(ids[..|ids| - 1], barrier);
      if ids[|ids| - 1] < barrier then front else front + [ids[|ids| - 1]]
  }

  lemma {:induction false} WithinFormat(r: Record)
    requires Storable(r)
    ensures Encodable(Stored(r))
  {
  }

  lemma {:induction false} AppendedEntry(cfg: Config, s: Store, rec: Record)
    ensures
      var t := Append(cfg, s, rec);
      && |t.log| == |s.log| + 1 && t.log[..|s.log|] == s.log && t.log[|s.log|].rec == rec
      && t == s.(log := t.log, active := t.active, bytesWrite := t.bytesWrite, synced := t.synced)
  {
  }

  class DB {
    const cfg: Config
    var activeFile: DataFile?
    var olderFiles: map<nat, DataFile>
    var index: map<Key, Pos>
    var seqNo: nat
    var isMerging: bool
    var bytesWrite: nat
    var reclaimSize: nat

    /** The ids of all data files in order, the active one last, and the records in each. */
    ghost var ids: seq<nat>
    ghost var recs: map<nat, seq<Record>>
    /** The entry that each indexed position denotes. */
    ghost var live: map<Key, Entry>
    /** Hint file, barrier and merge of the directory: what the operations on data files leave alone. */
    ghost var outside: Store

    ghost function Entries(): seq<Entry>
      reads this`ids, this`recs
    {
      Flatten(ids, recs)
    }

    ghost predicate ActiveOk()
      reads this`activeFile, this`ids, this`recs, activeFile
    {
      && (activeFile == null <==> ids == [])
      && (ids != [] ==> Holds(activeFile, ids[|ids| - 1], RecordsIn(recs, ids[|ids| - 1]))
                        && activeFile.writeOff == |activeFile.content|)
    }

    ghost predicate OlderOk(older: seq<nat>)
      reads this`olderFiles, this`recs, olderFiles.Values
    {
      HoldAll(olderFiles, older, recs) && AllDurable(olderFiles)
    }

    ghost predicate IndexValid()
      reads this`index, this`live, this`ids, this`recs
    {
      index == Positions(live) && IndexSound(live, Entries())
    }

    /** The files are in place, whatever the index says. */
    ghost predicate FilesValid()
      reads this`activeFile, this`olderFiles, this`ids, this`recs, activeFile, olderFiles.Values
    {
      Increasing(ids) && ActiveOk() && OlderOk(if |ids| == 0 then [] else ids[..|ids| - 1])
    }

    ghost predicate Valid()
      reads this`activeFile, this`olderFiles, this`index, this`ids, this`recs, this`live
      reads this`isMerging, this`outside
      reads activeFile, olderFiles.Values
    {
      FilesValid() && IndexValid() && (isMerging <==> !outside.job.Idle?)
    }

    /** The data files this object writes to. */
    ghost function Files(): set<DataFile>
      reads this`activeFile, this`olderFiles
    {
      olderFiles.Values + if activeFile == null then {} else {activeFile}
    }

    ghost function ActiveState(): Active
      reads this`activeFile, activeFile
    {
      if activeFile == null then NoFile else Active(activeFile.fileId, activeFile.writeOff)
    }

    /** How many entries are on stable storage: those of the older files and the synced ones of the active file. */
    ghost function Synced(): nat
      reads this`ids, this`recs, this`activeFile, activeFile
    {
      if activeFile == null || |ids| == 0 then 0 else |Flatten(ids[..|ids| - 1], recs)| + activeFile.durable
    }

    /** The store that this object and its directory are. */
    ghost function Core(): Store
      reads this, activeFile
    {
      Store(Entries(), ActiveState(), Synced(), bytesWrite, live, seqNo, reclaimSize,
            outside.hint, outside.barrier, outside.job, outside.dir)
    }

    /** `Open` on an empty directory. */
    constructor (cfg: Config)
      ensures Valid() && Core() == NEW_STORE && this.cfg == cfg && activeFile == null && !isMerging && Files() == {}
      ensures index == map[] && olderFiles == map[]
    {
      this.cfg := cfg;
      this.activeFile := null;
      this.olderFiles := map[];
      this.index := map[];
      this.seqNo := 0;
      this.isMerging := false;
      this.bytesWrite := 0;
      this.reclaimSize := 0;
      this.ids := [];
      this.recs := map[];
      this.live := map[];
      this.outside := NEW_STORE;
    }

    // -------------------------------------------------------------- appending

    lemma {:induction false} Assemble()
      requires ids != [] && Increasing(ids) && ActiveOk() && OlderOk(ids[..|ids| - 1]) && IndexValid()
      requires isMerging <==> !outside.job.Idle?
      ensures Valid()
    {
    }

    /** What a valid object with files says of its active file. */
    lemma {:induction false} Disassemble()
      requires Valid()
      ensures FilesValid() && (ids != [] ==> activeFile != null)
      ensures activeFile == null ==> Entries() == [] && Synced() == 0
      ensures isMerging <==> !outside.job.Idle?
      ensures activeFile != null ==>
        && ids != [] && Increasing(ids) && HoldAll(olderFiles, ids[..|ids| - 1], recs)
          && ids[|ids| - 1] !in ids[..|ids| - 1]
        && Holds(activeFile, ids[|ids| - 1], RecordsIn(recs, ids[|ids| - 1]))
        && activeFile.fileId == ids[|ids| - 1] && activeFile.Valid()
        && activeFile.records == StoredAll(RecordsIn(recs, activeFile.fileId))
        && activeFile.writeOff == |activeFile.content| == Fill(RecordsIn(recs, activeFile.fileId))
        && activeFile !in olderFiles.Values && AllDurable(olderFiles) && IndexValid()
    {
      hide Positions, IndexSound, RecordBytes, Stored, StoredAll;
      if activeFile != null {
        StoredLength(RecordsIn(recs, activeFile.fileId));
      }
    }

    /** `setActiveDataFile`: file 0 first, then the next id. */
    method SetActiveDataFile()
      requires Increasing(ids) && ActiveOk() && OlderOk(ids) && IndexValid()
      requires isMerging <==> !outside.job.Idle?
      modifies this`activeFile, this`ids, this`recs
      ensures Valid() && activeFile != null && fresh(activeFile)
      ensures activeFile.fileId == (if old(activeFile) == null then 0 else old(activeFile.fileId) + 1)
      ensures activeFile.writeOff == 0
      ensures Entries() == old(Entries()) && Synced() == |Entries()|
    {
      hide Flatten, Holds, HoldAll, AllDurable, IndexSound, Positions, Valid, Synced, Increasing;
      var initialFileId := 0;
      if activeFile != null {
        HoldsId(activeFile, ids[|ids| - 1], RecordsIn(recs, ids[|ids| - 1]));
        initialFileId := activeFile.fileId + 1;
      }
      var dataFile := new DataFile(initialFileId);
      EmptyFileHolds(dataFile);
      IdsGrow(ids, initialFileId);
      FlattenNewFile(ids, recs, initialFileId);
      FlattenFrame(ids, recs, initialFileId, []);
      OlderStay(olderFiles, ids, recs, initialFileId, []);
      Attach(dataFile);
    }

    /** A new, empty file becomes the active one; the others are older files. */
    method Attach(dataFile: DataFile)
      requires dataFile.fileId !in ids && Increasing(ids + [dataFile.fileId])
      requires OlderOk(ids) && HoldAll(olderFiles, ids, recs[dataFile.fileId := []]) && IndexValid()
      requires Holds(dataFile, dataFile.fileId, []) && dataFile.writeOff == |dataFile.content| && dataFile.durable == 0
      requires Flatten(ids + [dataFile.fileId], recs[dataFile.fileId := []]) == Entries()
      requires Flatten(ids, recs[dataFile.fileId := []]) == Entries()
      requires isMerging <==> !outside.job.Idle?
      modifies this`activeFile, this`ids, this`recs
      ensures Valid() && activeFile == dataFile && Entries() == old(Entries()) && Synced() == |Entries()|
    {
      hide Flatten, Holds, HoldAll, AllDurable, IndexSound, Positions, Valid, Synced, Increasing;
      activeFile := dataFile;
      recs := recs[dataFile.fileId := []];
      ids := ids + [dataFile.fileId];
      assert ids[..|ids| - 1] == old(ids);
      assert OlderOk(old(ids));
      SyncedIs();
      Assemble();
    }

    lemma {:induction false} SyncedIs()
      requires ids != [] && activeFile != null
      ensures Synced() == |Flatten(ids[..|ids| - 1], recs)| + activeFile.durable
    {
    }

    /** The active file is synced and becomes an older file; a new one takes its place. */
    method Rotate()
      requires Valid() && activeFile != null
      modifies this`activeFile, this`olderFiles, this`ids, this`recs, activeFile
      ensures Valid() && activeFile != null && fresh(activeFile)
      ensures forall f :: f in Files() ==> f in old(Files()) || fresh(f)
      ensures activeFile.fileId == old(activeFile.fileId) + 1 && activeFile.writeOff == 0
      ensures Entries() == old(Entries()) && Synced() == |Entries()|
    {
      hide Flatten, Holds, HoldAll, AllDurable, IndexSound, Positions, Increasing, Valid, Synced, RecordsIn, Fill;
      hide StoredAll, FileBytes;
      Disassemble();
      ghost var id, records := ids[|ids| - 1], RecordsIn(recs, ids[|ids| - 1]);
      SyncActive();
      Disassemble();
      OlderMore(olderFiles, ids[..|ids| - 1], recs, id, activeFile);
      olderFiles := olderFiles[activeFile.fileId := activeFile];
      assert ids[..|ids| - 1] + [id] == ids;
      SetActiveDataFile();
    }

    /** `activeFile.Sync()`: with all older files durable, the whole log is. */
    method SyncActive()
      requires Valid() && activeFile != null
      modifies activeFile
      ensures Valid() && activeFile.writeOff == old(activeFile.writeOff)
      ensures Synced() == |Entries()| && activeFile.durable == |activeFile.records|
      ensures ids != [] && Holds(activeFile, ids[|ids| - 1], RecordsIn(recs, ids[|ids| - 1]))
    {
      hide Positions, IndexSound, RecordBytes, Stored, FileBytes, EntriesOf;
      activeFile.Sync();
    }

    /** Inside `appendLogRecord`: the write itself. */
    method WriteActive(buf: bytes, ghost rec: Record)
      requires Valid() && activeFile != null && Storable(rec) && buf == RecordBytes(Stored(rec))
      modifies activeFile, this`recs
      ensures Valid() && activeFile.writeOff == old(activeFile.writeOff) + Size(rec) && Synced() == old(Synced())
      ensures Entries() == old(Entries()) + [Entry(Pos(activeFile.fileId, old(activeFile.writeOff), Size(rec)), rec)]
    {
      hide Size, RecordBytes, Flatten, HoldAll, AllDurable, Positions, EntriesOf, IndexSound, Valid, StoredAll, Fill;
      hide KeyWithSeq, Synced, Increasing, FileBytes;
      Disassemble();
      SyncedIs();
      ghost var id := ids[|ids| - 1];
      ghost var rs := RecordsIn(recs, id);
      FlattenAppend(ids, recs, rec);
      FlattenFrame(ids[..|ids| - 1], recs, id, rs + [rec]);
      IndexSoundAppend(live, Flatten(ids, recs), Entry(Pos(activeFile.fileId, activeFile.writeOff, Size(rec)), rec));
      SizeIsStoredLength(rec);
      activeFile.Write(buf, Stored(rec));
      StoredAllAppend(rs, rec);
      OlderStay(olderFiles, ids[..|ids| - 1], recs, id, rs + [rec]);
      recs := recs[id := rs + [rec]];
      SyncedIs();
      Assemble();
    }

    /** Inside `appendLogRecord`: open the first file if there is none. */
    method OpenFirst()
      requires Valid()
      modifies this`activeFile, this`ids, this`recs
      ensures Valid() && activeFile != null && (activeFile == old(activeFile) || fresh(activeFile))
      ensures forall f :: f in Files() ==> f in old(Files()) || fresh(f)
      ensures ActiveState() == if old(activeFile) == null then Active(0, 0) else old(ActiveState())
      ensures Entries() == old(Entries()) && Synced() == old(Synced())
    {
      hide Flatten, StoredAll, FileBytes, IndexSound, Positions, Valid;
      NothingYet();
      if activeFile == null {
        NoFiles();
        SetActiveDataFile();
      }
    }

    /** Inside `appendLogRecord`: everything up to the write puts the right file in place. */
    method MakeRoom(size: nat)
      requires Valid()
      modifies this`activeFile, this`olderFiles, this`ids, this`recs, activeFile
      ensures Valid() && activeFile != null && (activeFile == old(activeFile) || fresh(activeFile))
      ensures forall f :: f in Files() ==> f in old(Files()) || fresh(f)
      ensures ActiveState() == Target(cfg.maxFile, old(ActiveState()), size)
      ensures Entries() == old(Entries())
      ensures
        var was := old(ActiveState());
        Synced() == if was.Active? && was.fid != ActiveState().fid then |Entries()| else old(Synced())
    {
      hide Valid, Entries;
      NothingYet();
      OpenFirst();
      if activeFile.writeOff + size > cfg.maxFile {
        Rotate();
      }
    }

    /** Inside `appendLogRecord`: count the bytes written and sync the active file when the options ask for it. */
    method SyncIfDue(size: nat)
      requires Valid() && activeFile != null
      modifies this`bytesWrite, activeFile
      ensures Valid() && activeFile.writeOff == old(activeFile.writeOff)
      ensures
        var bytes := old(bytesWrite) + size;
        var needSync := cfg.syncWrites || (cfg.bytesPerSync > 0 && bytes >= cfg.bytesPerSync);
        bytesWrite == (if needSync then 0 else bytes) && Synced() == if needSync then |Entries()| else old(Synced())
    {
      hide Valid, Entries, Holds, Synced;
      bytesWrite := bytesWrite + size;
      var needSync := cfg.syncWrites;
      if !needSync && cfg.bytesPerSync > 0 && bytesWrite >= cfg.bytesPerSync {
        needSync := true;
      }
      if needSync {
        SyncActive();
        if bytesWrite > 0 {
          bytesWrite := 0;
        }
      }
    }

    /** Inside `appendLogRecord`: the write and the sync that may follow it. */
    method WriteAndSync(buf: bytes, size: nat, ghost rec: Record)
      requires Valid() && activeFile != null && Storable(rec) && buf == RecordBytes(Stored(rec)) && size == Size(rec)
      modifies activeFile, this`recs, this`bytesWrite
      ensures Valid() && ActiveState() == Advance(old(ActiveState()), size)
      ensures Entries() == old(Entries()) + [Placed(old(ActiveState()), rec)]
      ensures
        var bytes := old(bytesWrite) + size;
        var needSync := cfg.syncWrites || (cfg.bytesPerSync > 0 && bytes >= cfg.bytesPerSync);
        bytesWrite == (if needSync then 0 else bytes) && Synced() == if needSync then |Entries()| else old(Synced())
    {
      hide Size, Stored, RecordBytes, Storable, Valid, Entries, Synced;
      WriteActive(buf, rec);
      SyncIfDue(size);
    }

    /** `appendLogRecord`: rotate if the record does not fit, write, sync if due. */
    method AppendLogRecord(rec: Record) returns (pos: Pos)
      requires Valid() && Storable(rec)
      modifies this`activeFile, this`olderFiles, this`ids, this`recs, this`bytesWrite, activeFile
      ensures Valid() && activeFile != null
      ensures (activeFile == old(activeFile) || fresh(activeFile))
      ensures forall f :: f in Files() ==> f in old(Files()) || fresh(f)
      ensures Core() == Append(cfg, old(Core()), rec)
      ensures pos == Core().log[|old(Entries())|].pos
    {
      hide Size, Stored, RecordBytes, Valid, Entries, Target, Storable;
      WithinFormat(rec);
      SizeIsStoredLength(rec);
      var enc, size := EncodeLogRecord(Stored(rec));
      MakeRoom(size);
      var writeOff := activeFile.writeOff;
      WriteAndSync(enc[..], size, rec);
      pos := Pos(activeFile.fileId, writeOff, size);
    }

    lemma {:induction false} NoFiles()
      requires Valid() && activeFile == null
      ensures Increasing(ids) && ActiveOk() && OlderOk(ids) && IndexValid() && (isMerging <==> !outside.job.Idle?)
    {
      hide Flatten, IndexSound, Positions;
    }

    lemma {:induction false} NothingYet()
      requires Valid()
      ensures activeFile == null ==> Entries() == [] && Synced() == 0
    {
    }

    // -------------------------------------------------------------- the index

    /** `index.Put` of a record just appended or replayed: the position that was there before, if any. */
    method IndexPut(key: Key, pos: Pos, ghost e: Entry) returns (oldPos: Option<Pos>)
      requires Valid() && e in Entries() && e.pos == pos && e.rec.key == key && e.rec.kind == Normal
      modifies this`index, this`live
      ensures Valid() && live == old(live)[key := e]
      ensures (if oldPos.Some? then oldPos.value.size else 0) == OldSize(old(live), key)
    {
      hide Flatten, Holds, HoldAll, Positions, OldSize;
      PositionsPut(live, key, e);
      oldPos := if key in index then Some(index[key]) else None;
      index := index[key := pos];
      live := live[key := e];
    }

    /** `index.Delete`: the position that was there, or nothing when the key was not in the index. */
    method IndexDelete(key: Key) returns (oldPos: Option<Pos>)
      requires Valid()
      modifies this`index, this`live
      ensures Valid() && live == old(live) - {key}
      ensures oldPos.Some? <==> key in old(live)
      ensures (if oldPos.Some? then oldPos.value.size else 0) == OldSize(old(live), key)
    {
      hide Flatten, Holds, HoldAll, OldSize;
      PositionsPut(live, key, Entry(Pos(0, 0, 0), Record(0, [], [], Normal)));
      PositionsDelete(live, key);
      assert key in index <==> key in live;
      oldPos := if key in index then Some(index[key]) else None;
      index := index - {key};
      live := live - {key};
    }

    lemma {:induction false} SameKey(key: Key)
      requires Valid()
      ensures key in index <==> key in live
    {
      hide Flatten, Holds, HoldAll, IndexSound;
    }

    lemma {:induction false} SameKeys()
      requires Valid()
      ensures forall k :: k in index <==> k in live
      ensures forall k :: k in live ==>
        live[k] in Entries() && live[k].pos == index[k] && live[k].rec.kind == Normal && live[k].rec.key == k
    {
      hide Flatten, Holds, HoldAll;
    }

    // -------------------------------------------------------------- client operations

    /** `Put`, as one step under the lock. */
    method Put(key: Key, value: Value) returns (r: Outcome)
      requires Valid() && (key != [] ==> Storable(Record(0, key, value, Normal)))
      modifies this, activeFile
      ensures Valid() && (activeFile == old(activeFile) || fresh(activeFile))
      ensures forall f :: f in Files() ==> f in old(Files()) || fresh(f)
      ensures key == [] ==> r == Failed(KeyIsEmpty) && Core() == old(Core())
      ensures key != [] ==> r == Done && Core() == PutStep(cfg, old(Core()), key, value)
    {
      hide Valid, Entries, Files, Append, OldSize, Storable, Size;
      if |key| == 0 {
        return Failed(KeyIsEmpty);
      }
      ghost var rec, before := Record(0, key, value, Normal), Core();
      AppendedEntry(cfg, before, rec);
      var pos := AppendLogRecord(Record(0, key, value, Normal));
      var oldPos := IndexPut(key, pos, Core().log[|before.log|]);
      if oldPos.Some? {
        reclaimSize := reclaimSize + oldPos.value.size;
      }
      return Done;
    }

    /** `Delete`, as one step under the lock: deleting an absent key writes nothing. */
    method Delete(key: Key) returns (r: Outcome)
      requires Valid() && (key != [] ==> Storable(Record(0, key, [], Deleted)))
      modifies this, activeFile
      ensures Valid() && (activeFile == old(activeFile) || fresh(activeFile))
      ensures forall f :: f in Files() ==> f in old(Files()) || fresh(f)
      ensures key == [] ==> r == Failed(KeyIsEmpty) && Core() == old(Core())
      ensures key != [] ==> r == Done && Core() == DeleteStep(cfg, old(Core()), key)
    {
      hide Valid, Entries, Files, Append, OldSize, Storable, Size;
      if |key| == 0 {
        return Failed(KeyIsEmpty);
      }
      SameKey(key);
      if key !in index {
        return Done;
      }
      ghost var rec, before := Record(0, key, [], Deleted), Core();
      AppendedEntry(cfg, before, rec);
      var pos := AppendLogRecord(Record(0, key, [], Deleted));
      reclaimSize := reclaimSize + pos.size;
      var oldPos := IndexDelete(key);
      reclaimSize := reclaimSize + oldPos.value.size;
      return Done;
    }

    /** `getValueByPosition`: `e` is what lies at the position, if its file is there. */
    method GetValueByPosition(pos: Pos, ghost e: Entry) returns (r: Result<Value, Error>)
      requires FilesValid() && activeFile != null
      requires pos.fid in ids ==> e in Entries() && e.pos.fid == pos.fid && e.pos.offset == pos.offset
      ensures r == if pos.fid !in ids then Err(DataFileNotFound)
                   else if e.rec.kind == Deleted then Err(KeyNotFound)
                   else Ok(e.rec.value)
    {
      hide Flatten, EntriesOf, StoredAll, Fill, ReadAt, Positions, IndexSound, Storable, FileBytes;
      var dataFile: DataFile? := null;
      if activeFile.fileId == pos.fid {
        dataFile := activeFile;
      } else if pos.fid in olderFiles {
        dataFile := olderFiles[pos.fid];
      }
      assert pos.fid !in ids <==> dataFile == null;
      if dataFile == null {
        return Err(DataFileNotFound);
      }
      assert Holds(dataFile, pos.fid, RecordsIn(recs, pos.fid));
      ghost var j := FindEntry(ids, recs, e);
      ReadsHeldEntry(dataFile, RecordsIn(recs, pos.fid), j, e);
      var read := dataFile.ReadLogRecord(pos.offset);
      r := ValueOf(read);
    }

    /** What `getValueByPosition` makes of the record it read. */
    static function ValueOf(read: Result<Read, ReadError>): Result<Value, Error> {
      match read
      case Err(why) => Err(Unreadable(why))
      case Ok(got) => if got.record.typ == DELETED then Err(KeyNotFound) else Ok(got.record.value)
    }

    /** The code of `Get`, for any index: `e` is what lies at the key's position, if its file is there. */
    method Lookup(key: Key, ghost e: Entry) returns (r: Result<Value, Error>)
      requires FilesValid() && (key in index ==> activeFile != null)
      requires key in index && index[key].fid in ids ==>
        e in Entries() && e.pos.fid == index[key].fid && e.pos.offset == index[key].offset
      ensures r == if key == [] then Err(KeyIsEmpty)
                   else if key !in index then Err(KeyNotFound)
                   else if index[key].fid !in ids then Err(DataFileNotFound)
                   else if e.rec.kind == Deleted then Err(KeyNotFound)
                   else Ok(e.rec.value)
    {
      hide FilesValid, Flatten;
      if |key| == 0 {
        return Err(KeyIsEmpty);
      }
      if key !in index {
        return Err(KeyNotFound);
      }
      r := GetValueByPosition(index[key], e);
    }

    /** `Get` returns what the store's map holds. */
    method Get(key: Key) returns (r: Result<Value, Error>)
      requires Valid()
      ensures r == if key == [] then Err(KeyIsEmpty)
                   else if key in View(Core().index) then Ok(View(Core().index)[key])
                   else Err(KeyNotFound)
    {
      hide Valid, FilesValid, Flatten, IndexSound, Positions, Core;
      ghost var e := FoundAt(key);
      r := Lookup(key, e);
    }

    /** What lies at the position of a key. */
    lemma {:induction false} FoundAt(key: Key) returns (e: Entry)
      requires Valid()
      ensures FilesValid() && (key in index <==> key in View(Core().index))
      ensures key in index ==>
        && activeFile != null && index[key].fid in ids && e in Entries() && e.pos == index[key]
        && e.rec.kind == Normal && e.rec.value == View(Core().index)[key]
    {
      hide Valid, FilesValid, Flatten;
      SameKeys();
      Disassemble();
      e := Entry(Pos(0, 0, 0), Record(0, [], [], Normal));
      if key in index {
        e := live[key];
        var j := FindEntry(ids, recs, e);
      }
    }

    /** `Sync`: with no file there is nothing to sync. */
    method Sync()
      requires Valid()
      modifies activeFile
      ensures Valid() && Core() == old(Core()).(synced := |Entries()|)
    {
      hide Flatten, Holds, HoldAll, IndexSound, Positions, Increasing, Valid;
      NothingYet();
      if activeFile != null {
        SyncActive();
      }
    }

    // -------------------------------------------------------------- merge

    /** Records a step of the running merge. */
    ghost method Outside(next: Store)
      requires Valid() && (next.job.Idle? <==> outside.job.Idle?)
      modifies this`outside
      ensures Valid() && outside == next
    {
      hide Flatten, Holds, HoldAll, IndexSound, Positions;
      outside := next;
    }

    /** Too little of the directory can be reclaimed. A quotient by zero is infinite or not a number: never below. */
    predicate BelowRatio(totalSize: nat, ratio: real)
      reads this`reclaimSize
    {
      totalSize > 0 && reclaimSize as real / totalSize as real < ratio
    }

    /** What is left after reclaiming does not fit the disk; the difference is taken as an unsigned 64-bit number. */
    predicate NoSpace(totalSize: nat, availableSize: nat)
      reads this`reclaimSize
    {
      (totalSize - reclaimSize) % TWO_64 >= availableSize
    }

    /**
     * What `Merge` refuses before it changes anything: a second merge; then a reclaimable part that is less than the
     * ratio of the whole; then what would be left, if it is as large as the disk's free space or larger.
     */
    function Refusal(totalSize: nat, availableSize: nat, ratio: real): (e: Option<Error>)
      reads this`isMerging, this`reclaimSize
      ensures e == Some(MergeIsInProcess) <==> isMerging
      ensures e == Some(MergeRatioUnreached) <==>
        !isMerging && totalSize > 0 && reclaimSize as real < ratio * totalSize as real
      ensures !isMerging && e != Some(MergeRatioUnreached) && reclaimSize <= totalSize < TWO_64 ==>
        e == if totalSize - reclaimSize >= availableSize then Some(DataDirectoryCorrupted) else None
      ensures !isMerging && e != Some(MergeRatioUnreached) && totalSize < reclaimSize <= totalSize + TWO_64 ==>
        e == if TWO_64 - (reclaimSize - totalSize) >= availableSize then Some(DataDirectoryCorrupted) else None
    {
      QuotientBelow(reclaimSize, totalSize, ratio);
      if isMerging then Some(MergeIsInProcess)
      else if BelowRatio(totalSize, ratio) then Some(MergeRatioUnreached)
      else if NoSpace(totalSize, availableSize) then Some(DataDirectoryCorrupted)
      else None
    }

    /**
     * The critical section of `Merge`: an empty database is left alone; a second merge, too little to reclaim
     * and too little space are refused. The sizes of directory and disk come from the system.
     */
    method MergeBegin(totalSize: nat, availableSize: nat, ratio: real) returns (r: Outcome, nonMergeFileId: nat)
      requires Valid()
      modifies this, activeFile
      ensures Valid() && (activeFile == old(activeFile) || fresh(activeFile))
      ensures forall f :: f in Files() ==> f in old(Files()) || fresh(f)
      ensures
        var refusal := old(Refusal(totalSize, availableSize, ratio));
        if old(activeFile) == null then r == Done && Core() == old(Core())
        else if refusal.Some? then r == Failed(refusal.value) && Core() == old(Core())
        else r == Done && Core() == MergeBeginStep(old(Core())) && nonMergeFileId == Core().job.barrier
      ensures old(activeFile) != null && !old(isMerging) ==>
        var reclaimable := old(reclaimSize);
        && (r == Failed(MergeRatioUnreached) <==> totalSize > 0 && reclaimable as real < ratio * totalSize as real)
        && (r != Failed(MergeRatioUnreached) && reclaimable <= totalSize < TWO_64 ==>
              (r == Failed(DataDirectoryCorrupted) <==> totalSize - reclaimable >= availableSize))
    {
      hide Flatten, Holds, HoldAll, IndexSound, Positions, Increasing, Files, BelowRatio, NoSpace;
      nonMergeFileId := 0;
      if activeFile == null {
        return Done, 0;
      }
      if isMerging {
        return Failed(MergeIsInProcess), 0;
      }
      if BelowRatio(totalSize, ratio) {
        return Failed(MergeRatioUnreached), 0;
      }
      if NoSpace(totalSize, availableSize) {
        return Failed(DataDirectoryCorrupted), 0;
      }
      Rotate();
      nonMergeFileId := activeFile.fileId;
      isMerging := true;
      outside := outside.(job := Frozen(nonMergeFileId));
      r := Done;
    }

    /** The deferred reset of `isMerging` when `Merge` returns. */
    method MergeEnd(ghost next: Store)
      requires Valid() && next.job.Idle?
      modifies this`isMerging, this`outside
      ensures Valid() && outside == next
    {
      hide Flatten, Holds, HoldAll, IndexSound, Positions;
      isMerging := false;
      outside := next;
    }
  }
}
