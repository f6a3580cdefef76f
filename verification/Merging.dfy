/** `Merge` on objects: the scan turn of merge.go with its merge instance and hint file, and the finish marker. */
module Merging {
  import opened Bytes
  import opened Varints
  import opened Wrappers
  import opened LogRecords
  import opened DataFiles
  import opened Storage
  import opened Log
  import opened Engine
  import opened Database

  // ---------------------------------------------------------------- the finish marker

  /** `strconv.Itoa` of a file id. */
  function Itoa(n: nat): (s: bytes)
    ensures 0 < |s|
  {
    if n < 10 then [48 + n] else Itoa(n / 10) + [48 + n % 10]
  }

  /** The number that decimal digits stand for. */
  function Decimal(s: bytes): Option<nat> {
    if |s| == 0 || !(48 <= s[|s| - 1] < 58) then None
    else
      var last := s[|s| - 1] - 48;
      if |s| == 1 then Some(last)
      else
        var front := Decimal(s[..|s| - 1]);
        if front.None? then None else Some(10 * front.value + last)
  }

  /** `strconv.Atoi`: an optional sign, at least one digit, nothing else, and a signed 64-bit result. */
  function Atoi(s: bytes): Option<int> {
    var signed := |s| > 0 && (s[0] == 43 || s[0] == 45);
    var digits := Decimal(if signed then s[1..] else s);
    if digits.None? then None
    else
      var m: int := digits.value;
      var n := if signed && s[0] == 45 then -m else m;
      if -TWO_63 <= n < TWO_63 then Some(n) else None
  }

  lemma {:induction false} DecimalRoundTrip(n: nat)
    ensures Decimal(Itoa(n)) == Some(n)
    ensures 48 <= Itoa(n)[0] < 58
  {
    if n >= 10 {
      DecimalRoundTrip(n / 10);
      assert Itoa(n)[..|Itoa(n)| - 1] == Itoa(n / 10);
    }
  }

  function Pow10(n: nat): nat {
    if n == 0 then 1 else 10 * Pow10(n - 1)
  }

  predicate AllDigits(s: bytes) {
    forall j :: 0 <= j < |s| ==> 48 <= s[j] < 58
  }

  /** What the digits of a number stand for, each by its place: the last one for itself, the first for most. */
  function PlaceValue(s: bytes, i: nat): nat
    requires i <= |s| && AllDigits(s)
    decreases |s| - i
  {
    if i == |s| then 0 else (s[i] - 48) * Pow10(|s| - 1 - i) + PlaceValue(s, i + 1)
  }

  /** Leaving the last digit out divides the places of the others by ten. */
  lemma {:induction false} PlacesOfFront(s: bytes, i: nat)
    requires |s| > 0 && AllDigits(s) && i < |s|
    ensures PlaceValue(s, i) == 10 * PlaceValue(s[..|s| - 1], i) + s[|s| - 1] - 48
    decreases |s| - i
  {
    var front, n := s[..|s| - 1], |s|;
    if i == n - 1 {
      assert Pow10(0) == 1 && PlaceValue(s, n) == 0 && PlaceValue(front, n - 1) == 0;
    } else {
      PlacesOfFront(s, i + 1);
      var d, p := s[i] - 48, Pow10(n - 2 - i);
      assert Pow10(n - 1 - i) == 10 * p && front[i] == s[i];
      TenTimes(d, p);
    }
  }

  lemma {:induction false} TenTimes(d: nat, p: nat)
    ensures d * (10 * p) == 10 * (d * p)
  {
  }

  /** Digits are read by their places; anything else, and no digit at all, is not a number. */
  lemma {:induction false} DecimalIsPlaceValue(s: bytes)
    ensures Decimal(s).Some? <==> |s| > 0 && AllDigits(s)
    ensures Decimal(s).Some? ==> Decimal(s).value == PlaceValue(s, 0)
  {
    if |s| > 0 {
      var front, last := s[..|s| - 1], s[|s| - 1];
      assert s == front + [last];
      DecimalIsPlaceValue(front);
      if AllDigits(s) {
        PlacesOfFront(s, 0);
        assert |s| == 1 ==> PlaceValue(front, 0) == 0;
      }
    }
  }

  /** `strconv.Atoi`: digits, with or without a sign, that stand for a signed number of 64 bits. */
  lemma {:induction false} AtoiIsPlaceValue(s: bytes)
    requires |s| > 0 && AllDigits(s)
    ensures Atoi(s).Some? <==> PlaceValue(s, 0) < TWO_63
    ensures Atoi(s).Some? ==> Atoi(s).value == PlaceValue(s, 0)
    ensures Atoi([43] + s) == Atoi(s)
    ensures Atoi([45] + s).Some? <==> PlaceValue(s, 0) <= TWO_63
    ensures Atoi([45] + s).Some? ==> Atoi([45] + s).value + PlaceValue(s, 0) == 0
  {
    hide Decimal;
    DecimalIsPlaceValue(s);
    assert ([43] + s)[1..] == s && ([45] + s)[1..] == s;
  }

  /** The digits of a number: no sign, no leading zero, and their place value is the number. */
  lemma {:induction false} ItoaIsPlaceValue(n: nat)
    ensures AllDigits(Itoa(n)) && PlaceValue(Itoa(n), 0) == n
    ensures |Itoa(n)| == 1 || Itoa(n)[0] != 48
  {
    hide PlaceValue;
    DecimalRoundTrip(n);
    DecimalIsPlaceValue(Itoa(n));
    NoLeadingZero(n);
  }

  lemma {:induction false} NoLeadingZero(n: nat)
    ensures n > 0 ==> Itoa(n)[0] != 48
    ensures n < 10 ==> |Itoa(n)| == 1
  {
    if n >= 10 {
      NoLeadingZero(n / 10);
    }
  }

  /** Of two numbers with as many digits, the smaller one's are smaller where they first differ. */
  lemma {:induction false} ItoaOrder(n: nat, m: nat)
    requires n < m && |Itoa(n)| == |Itoa(m)|
    ensures Smaller(Itoa(n), Itoa(m))
  {
    if n < 10 {
      assert |Itoa(m)| == 1 && m < 10;
      assert Itoa(n)[..0] == Itoa(m)[..0] && FirstDifference(Itoa(n), Itoa(m), 0);
    } else {
      var a, b, x, y := Itoa(n / 10), Itoa(m / 10), 48 + n % 10, 48 + m % 10;
      if n / 10 < m / 10 {
        ItoaOrder(n / 10, m / 10);
        var k: nat :| k <= |a| && k <= |b| && a[..k] == b[..k] && FirstDifference(a, b, k);
        assert (a + [x])[..k] == a[..k] && (b + [y])[..k] == b[..k] && FirstDifference(a + [x], b + [y], k);
      } else {
        assert (a + [x])[..|a|] == (b + [y])[..|a|] && FirstDifference(a + [x], b + [y], |a|);
      }
    }
  }

  lemma {:induction false} ItoaLength(n: nat)
    requires n < TWO_32
    ensures |Itoa(n)| <= 10
  {
    Digits(n, 10);
  }

  lemma {:induction false} Digits(n: nat, d: nat)
    requires d >= 1 && n < Pow10(d)
    ensures |Itoa(n)| <= d
  {
    if n >= 10 {
      assert d >= 2 by {
        assert Pow10(1) == 10;
      }
      Digits(n / 10, d - 1);
    }
  }

  /** "merge.finished" */
  const MERGE_FINISHED_KEY: Key := [109, 101, 114, 103, 101, 46, 102, 105, 110, 105, 115, 104, 101, 100]

  function FinishMarker(nonMergeFileId: nat): LogRecord {
    LogRecord(MERGE_FINISHED_KEY, Itoa(nonMergeFileId), NORMAL)
  }

  /** Writing and syncing the finish marker. */
  method WriteFinishMarker(nonMergeFileId: nat) returns (marker: DataFile)
    requires nonMergeFileId < TWO_32
    ensures fresh(marker) && MarkerIs(marker, nonMergeFileId) && marker.durable == 1
    ensures |marker.records| == 1 && AllDigits(marker.records[0].value)
    ensures PlaceValue(marker.records[0].value, 0) == nonMergeFileId
  {
    hide FileBytes, RecordBytes, Itoa, PlaceValue, AllDigits;
    ItoaIsPlaceValue(nonMergeFileId);
    marker := new DataFile(0);
    ItoaLength(nonMergeFileId);
    var encRecord, _ := EncodeLogRecord(FinishMarker(nonMergeFileId));
    marker.Write(encRecord[..], FinishMarker(nonMergeFileId));
    marker.Sync();
  }

  /** Without a marker the barrier is 0. */
  ghost predicate MarkerIs(marker: DataFile?, barrier: nat)
    reads marker
  {
    if marker == null then barrier == 0
    else marker.Valid() && marker.records == [FinishMarker(barrier)] && barrier < TWO_32
  }

  /** The file id that a marker file with this content names. */
  function MarkerBarrier(content: bytes): Result<nat, Error> {
    match ReadAt(content, 0)
    case Err(why) => Err(Unreadable(why))
    case Ok(got) =>
      var n := Atoi(got.record.value);
      if n.None? then Err(NotANumber) else Ok(n.value % TWO_32)
  }

  /** `getNonMergeFileId`, on a marker file of any content. */
  method GetNonMergeFileId(marker: DataFile) returns (fid: Result<nat, Error>)
    ensures fid == MarkerBarrier(marker.content)
    ensures ReadAt(marker.content, 0).Ok? ==>
      var v := ReadAt(marker.content, 0).value.record.value;
      |v| > 0 && AllDigits(v) && PlaceValue(v, 0) < TWO_63 ==> fid == Ok(PlaceValue(v, 0) % TWO_32)
  {
    hide ReadAt, Atoi, PlaceValue, AllDigits;
    var read := marker.ReadLogRecord(0);
    if read.Err? {
      return Err(Unreadable(read.error));
    }
    ghost var v := read.value.record.value;
    if |v| > 0 && AllDigits(v) {
      AtoiIsPlaceValue(v);
    }
    var nonMergeFileId := Atoi(read.value.record.value);
    if nonMergeFileId.None? {
      return Err(NotANumber);
    }
    return Ok(nonMergeFileId.value % TWO_32);
  }

  /** A finish marker names its barrier. */
  lemma {:induction false} MarkerReadsBack(marker: DataFile, barrier: nat)
    requires MarkerIs(marker, barrier)
    ensures MarkerBarrier(marker.content) == Ok(barrier)
  {
    hide ReadAt, RecordBytes, FileBytes, Itoa, Writable, Decimal;
    ReadsRecord(marker.records, 0);
    NoBytes(marker.records);
    DecimalRoundTrip(barrier);
  }

  lemma {:induction false} NoBytes(records: seq<LogRecord>)
    ensures FileBytes(records[..0]) == []
  {
  }

  // ---------------------------------------------------------------- the merge directory while merge writes it

  function HintRecords(hint: seq<Entry>): (rs: seq<LogRecord>)
    ensures |rs| == |hint|
  {
    seq(|hint|, i requires 0 <= i < |hint| => HintRecord(hint[i].rec.key, hint[i].pos))
  }

  /** What the merge instance and the hint file have written so far. */
  ghost predicate MergeOutput(mergeDB: DB, hintFile: DataFile, out: Output)
    reads mergeDB, mergeDB.activeFile, mergeDB.olderFiles.Values, hintFile
  {
    && mergeDB.Valid() && hintFile.Valid() && hintFile !in mergeDB.Files()
    && mergeDB.Entries() == out.entries && mergeDB.ActiveState() == out.active
    && hintFile.records == HintRecords(out.hint) && HintFits(out.hint)
  }

  /**
   * `Merge`, after the lock is released: a new instance with the same options but without syncing, and an empty
   * hint file.
   */
  method MergeOpen(db: DB) returns (mergeDB: DB, hintFile: DataFile)
    requires db.Valid() && db.outside.job.Frozen?
    modifies db`outside
    ensures db.Valid() && db.Core() == MergeOpenStep(old(db.Core()))
    ensures fresh(mergeDB) && mergeDB.Files() == {} && fresh(hintFile)
    ensures mergeDB.cfg == db.cfg.(syncWrites := false)
    ensures MergeOutput(mergeDB, hintFile, db.Core().job.out)
  {
    hide Flatten, FileBytes, HintRecord;
    hide db.Valid, mergeDB.Valid, db.Entries;
    mergeDB := new DB(db.cfg.(syncWrites := false));
    hintFile := new DataFile(0);
    db.Outside(MergeOpenStep(db.outside));
  }

  lemma {:induction false} HintRecordsAppend(hint: seq<Entry>, e: Entry)
    ensures HintRecords(hint + [e]) == HintRecords(hint) + [HintRecord(e.rec.key, e.pos)]
  {
  }

  /** A record stays within the bounds of the format when its sequence number is cleared. */
  lemma {:induction false} RewriteIsStorable(r: Record)
    requires Storable(r)
    ensures Storable(r.(seqNo := 0))
  {
    hide UvarintBytes, Size;
    RewriteIsNoLonger(r);
    UvarintLengthMonotone(0, r.seqNo);
  }

  /**
   * The record at a position that is still live is copied: written by the merge instance, and its new position as a
   * hint.
   */
  method CopyRecord(mergeDB: DB, hintFile: DataFile, realKey: Key, value: Value, kind: Kind, ghost e: Entry,
    ghost cfg: Config, ghost out: Output)
    requires MergeOutput(mergeDB, hintFile, out) && mergeDB.cfg == cfg.(syncWrites := false)
    requires Storable(e.rec) && realKey == e.rec.key && value == e.rec.value && kind == e.rec.kind
    requires cfg.maxFile < TWO_63 && (out.active.Active? ==> out.active.fid + 1 < TWO_32)
    modifies mergeDB, mergeDB.activeFile, hintFile
    ensures MergeOutput(mergeDB, hintFile, Rewrite(cfg, out, e))
    ensures forall f :: f in mergeDB.Files() ==> f in old(mergeDB.Files()) || fresh(f)
  {
    hide Size, HintRecord, HintRecords, Flatten, UvarintBytes, PosBytes, FileBytes, Writable, Target;
    hide mergeDB.Valid, mergeDB.Entries;
    ghost var copy := CopyPlace(cfg, out, e);
    var pos := mergeDB.AppendLogRecord(Record(0, realKey, value, kind));
    assert mergeDB.Entries() == out.entries + [copy];
    hintFile.WriteHintRecord(realKey, pos);
    HintRecordsAppend(out.hint, copy);
  }

  /** Where the copy goes: within the integer widths of a position. */
  lemma {:induction false} CopyPlace(cfg: Config, out: Output, e: Entry) returns (copy: Entry)
    requires Storable(e.rec)
    requires cfg.maxFile < TWO_63 && (out.active.Active? ==> out.active.fid + 1 < TWO_32)
    ensures copy == Placed(Target(cfg.maxFile, out.active, Size(e.rec.(seqNo := 0))), e.rec.(seqNo := 0))
    ensures PosInRange(copy.pos) && copy.rec.key == e.rec.key && Storable(e.rec.(seqNo := 0))
    ensures 0 < |e.rec.key| < TWO_32
    ensures Rewrite(cfg, out, e) == Output(out.entries + [copy], out.hint + [copy], Rewrite(cfg, out, e).active)
  {
    hide Size, UvarintBytes;
    RewriteIsStorable(e.rec);
    copy := Placed(Target(cfg.maxFile, out.active, Size(e.rec.(seqNo := 0))), e.rec.(seqNo := 0));
  }

  lemma {:induction false} OutputIs(mergeDB: DB, hintFile: DataFile, out: Output)
    requires MergeOutput(mergeDB, hintFile, out)
    ensures mergeDB.activeFile == null <==> out.active.NoFile?
    ensures mergeDB.activeFile != null ==> mergeDB.activeFile.fileId == out.active.fid
  {
  }

  /** Copying leaves the database itself alone. */
  method CopyBeside(db: DB, mergeDB: DB, hintFile: DataFile, record: Record, ghost e: Entry, ghost out: Output)
    requires db.Valid() && db != mergeDB && db.Files() !! mergeDB.Files() && hintFile !in db.Files()
    requires MergeOutput(mergeDB, hintFile, out) && mergeDB.cfg == db.cfg.(syncWrites := false)
    requires record == e.rec && Storable(record) && db.cfg.maxFile < TWO_63
    requires mergeDB.activeFile != null ==> mergeDB.activeFile.fileId + 1 < TWO_32
    modifies mergeDB, mergeDB.activeFile, hintFile
    ensures db.Valid() && db.Core() == old(db.Core())
    ensures MergeOutput(mergeDB, hintFile, Rewrite(db.cfg, out, e))
    ensures forall f :: f in mergeDB.Files() ==> f in old(mergeDB.Files()) || fresh(f)
  {
    hide Size, Rewrite, Storable, MergeOutput;
    hide DB.Valid, DB.Entries, DB.Synced, DB.ActiveState;
    OutputIs(mergeDB, hintFile, out);
    CopyRecord(mergeDB, hintFile, record.key, record.value, record.kind, e, db.cfg, out);
  }

  // ---------------------------------------------------------------- the scan

  /** The entry that a scan finds in the i-th of some files after j of its records. */
  lemma {:induction false} CursorEntry(ids: seq<nat>, recs: map<nat, seq<Record>>, i: nat, j: nat)
    requires i < |ids| && j <= |RecordsIn(recs, ids[i])|
    ensures
      var records, at := RecordsIn(recs, ids[i]), |Flatten(ids[..i], recs)| + j;
      && |Flatten(ids[..i + 1], recs)| == |Flatten(ids[..i], recs)| + |records| <= |Flatten(ids, recs)|
      && (j < |records| ==>
            && at < |Flatten(ids, recs)|
            && Flatten(ids, recs)[at] == Entry(Pos(ids[i], Fill(records[..j]), Size(records[j])), records[j]))
    decreases |ids|
  {
    hide Size, Fill, EntriesOf, RecordsIn;
    var n := |ids|;
    var records := RecordsIn(recs, ids[i]);
    if j < |records| {
      EntryAt(ids[i], records, j);
    }
    if i < n - 1 {
      var front := ids[..n - 1];
      CursorEntry(front, recs, i, j);
      assert front[..i] == ids[..i] && front[..i + 1] == ids[..i + 1];
    } else {
      assert ids[..i + 1] == ids;
    }
  }

  /** The record at an offset of a frozen file, its key freed of the sequence number; nothing at the end of the file. */
  method ReadFrozen(dataFile: DataFile, offset: nat, ghost records: seq<Record>, ghost j: nat)
    returns (r: Option<(Record, nat)>)
    requires Holds(dataFile, dataFile.fileId, records) && j <= |records| && offset == Fill(records[..j])
    ensures r == if j < |records| then Some((records[j], Size(records[j]))) else None
    ensures j < |records| ==> Storable(records[j])
  {
    hide Holds, Size, ReadAt, Storable, Stored, Fill;
    HeldFileReads(dataFile, dataFile.fileId, records, j);
    var read := dataFile.ReadLogRecord(offset);
    if read.Err? {
      return None;
    }
    ParsedStored(records[j]);
    r := Some((Parsed(read.value.record).value, read.value.size));
  }

  /**
   * One turn of the scan loop, at a file of which j records have been scanned: at its end nothing happens; otherwise
   * the record is copied if the live index still points at this very place. The result is the size to advance by.
   */
  method MergeScanTurn(db: DB, mergeDB: DB, hintFile: DataFile, dataFile: DataFile, offset: nat,
    ghost records: seq<Record>, ghost j: nat)
    returns (size: Option<nat>)
    requires db.Valid() && db != mergeDB && db.Files() !! mergeDB.Files() && hintFile !in db.Files()
    requires db.outside.job.Scanning? && mergeDB.cfg == db.cfg.(syncWrites := false)
    requires MergeOutput(mergeDB, hintFile, db.outside.job.out)
    requires Holds(dataFile, dataFile.fileId, records) && j <= |records| && offset == Fill(records[..j])
    requires j < |records| ==>
      && db.outside.job.scanned < |db.Entries()|
      && db.Entries()[db.outside.job.scanned] == Entry(Pos(dataFile.fileId, offset, Size(records[j])), records[j])
    requires db.cfg.maxFile < TWO_63
    requires mergeDB.activeFile != null ==> mergeDB.activeFile.fileId + 1 < TWO_32
    modifies db`outside, mergeDB, mergeDB.activeFile, hintFile
    ensures db.Valid() && db.outside.job.Scanning?
    ensures if j < |records| then size == Some(Size(records[j])) && db.Core() == MergeScanStep(db.cfg, old(db.Core()))
            else size == None && db.Core() == old(db.Core())
    ensures MergeOutput(mergeDB, hintFile, db.outside.job.out)
    ensures forall f :: f in mergeDB.Files() ==> f in old(mergeDB.Files()) || fresh(f)
  {
    hide Size, Rewrite, Storable, MergeOutput, IsLive, Holds, Fill;
    hide DB.Valid, DB.Entries, DB.Synced, DB.ActiveState;
    var read := ReadFrozen(dataFile, offset, records, j);
    if read.None? {
      return None;
    }
    ghost var e, job := db.Entries()[db.outside.job.scanned], db.outside.job;
    var record := read.value.0;
    ghost var out := CopyIfLive(db, mergeDB, hintFile, record, dataFile.fileId, offset, e, job.out);
    db.Outside(db.outside.(job := Scanning(job.barrier, job.scanned + 1, out)));
    size := Some(read.value.1);
  }

  /** The body of the scan loop after the read. */
  method CopyIfLive(db: DB, mergeDB: DB, hintFile: DataFile, record: Record, fid: nat, offset: nat, ghost e: Entry,
    ghost out: Output)
    returns (ghost next: Output)
    requires db.Valid() && db != mergeDB && db.Files() !! mergeDB.Files() && hintFile !in db.Files()
    requires MergeOutput(mergeDB, hintFile, out) && mergeDB.cfg == db.cfg.(syncWrites := false)
    requires record == e.rec && Storable(record) && db.cfg.maxFile < TWO_63
    requires fid == e.pos.fid && offset == e.pos.offset
    requires mergeDB.activeFile != null ==> mergeDB.activeFile.fileId + 1 < TWO_32
    modifies mergeDB, mergeDB.activeFile, hintFile
    ensures db.Valid() && db.Core() == old(db.Core())
    ensures next == if IsLive(db.live, e) then Rewrite(db.cfg, out, e) else out
    ensures MergeOutput(mergeDB, hintFile, next)
    ensures forall f :: f in mergeDB.Files() ==> f in old(mergeDB.Files()) || fresh(f)
  {
    hide Size, Rewrite, Storable, MergeOutput, IsLive;
    hide DB.Valid, DB.Entries, DB.Synced, DB.ActiveState;
    next := out;
    var live := StillLive(db, record.key, fid, offset, e);
    if live {
      CopyBeside(db, mergeDB, hintFile, record, e, out);
      next := Rewrite(db.cfg, out, e);
    }
  }

  /** The comparison with the live index. */
  method StillLive(db: DB, realKey: Key, fid: nat, offset: nat, ghost e: Entry) returns (live: bool)
    requires db.Valid() && realKey == e.rec.key && fid == e.pos.fid && offset == e.pos.offset
    ensures live == IsLive(db.live, e)
  {
    hide db.Valid, db.Entries;
    db.SameKeys();
    live := realKey in db.index && db.index[realKey].fid == fid && db.index[realKey].offset == offset;
  }

  /** The copies and their hints are all on stable storage. */
  ghost predicate OutputDurable(mergeDB: DB, hintFile: DataFile)
    reads mergeDB, mergeDB.activeFile, hintFile
  {
    mergeDB.Synced() == |mergeDB.Entries()| && hintFile.durable == |hintFile.records|
  }

  /** The syncs at the end of a complete scan. */
  method SyncOutput(mergeDB: DB, hintFile: DataFile, ghost out: Output)
    requires MergeOutput(mergeDB, hintFile, out)
    modifies mergeDB.activeFile, hintFile
    ensures MergeOutput(mergeDB, hintFile, out) && OutputDurable(mergeDB, hintFile)
  {
    hide HintRecords, HintFits, Flatten, FileBytes;
    hide DB.Valid, DB.Entries;
    hintFile.Sync();
    mergeDB.Sync();
  }

  /**
   * The end of a successful `Merge`, once every frozen record has been looked at: hint file and merge instance are
   * synced, and after them the finish marker, which names the barrier.
   */
  method MergeFinish(db: DB, mergeDB: DB, hintFile: DataFile, nonMergeFileId: nat) returns (marker: DataFile)
    requires db.Valid() && db != mergeDB && db.Files() !! mergeDB.Files() && hintFile !in db.Files()
    requires db.outside.job.Scanning? && db.outside.job.scanned == Below(db.Entries(), nonMergeFileId)
    requires MergeOutput(mergeDB, hintFile, db.outside.job.out)
    requires nonMergeFileId == db.outside.job.barrier < TWO_32
    modifies db`isMerging, db`outside, mergeDB.activeFile, hintFile
    ensures db.Valid() && db.Core() == MergeFinishStep(old(db.Core()))
    ensures MergeOutput(mergeDB, hintFile, old(db.outside.job.out)) && OutputDurable(mergeDB, hintFile)
    ensures fresh(marker) && MarkerIs(marker, nonMergeFileId) && marker.durable == 1
  {
    hide FinishMarker, FileBytes, MergeOutput, OutputDurable, Below;
    hide DB.Valid, DB.Entries, DB.Synced, DB.ActiveState;
    SyncOutput(mergeDB, hintFile, db.outside.job.out);
    marker := WriteFinishMarker(nonMergeFileId);
    db.MergeEnd(MergeFinishStep(db.outside));
  }

  /** A `Merge` that returns early leaves the merge directory as it is. */
  method MergeAbort(db: DB)
    requires db.Valid() && !db.outside.job.Idle?
    modifies db`isMerging, db`outside
    ensures db.Valid() && db.Core() == old(db.Core()).(job := Idle)
  {
    hide db.Valid, db.Entries;
    db.MergeEnd(db.outside.(job := Idle));
  }
}
