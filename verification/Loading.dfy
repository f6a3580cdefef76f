/** Rebuilding the index: `loadIndexFromHintFile` and `loadIndexFromDataFiles`, tied to the replay of the log. */
module Loading {
  import opened Bytes
  import opened Varints
  import opened Wrappers
  import opened LogRecords
  import opened DataFiles
  import opened Storage
  import opened Log
  import opened Database
  import opened Merging

  /** The index and the counter of reclaimable bytes are those of this replay state. */
  ghost predicate Rebuilt(db: DB, st: ReplayState)
    reads db`index, db`reclaimSize
  {
    db.index == Positions(st.index) && db.reclaimSize == st.reclaim
  }

  // ---------------------------------------------------------------- the hint file

  lemma {:induction false} LoadHintMore(hint: seq<Entry>, n: nat)
    requires n < |hint|
    ensures LoadHint(hint[..n + 1]) == LoadHint(hint[..n])[hint[n].rec.key := hint[n]]
  {
    assert hint[..n + 1][..n] == hint[..n];
  }

  lemma {:induction false} HintRecordsWritable(hint: seq<Entry>, n: nat)
    requires n < |hint| && 0 < |hint[n].rec.key| < TWO_32 && PosInRange(hint[n].pos)
    ensures Writable(HintRecords(hint)[n]) && DecodeLogRecordPos(HintRecords(hint)[n].value) == Some(hint[n].pos)
    ensures HintRecords(hint)[n].key == hint[n].rec.key
  {
    hide VarintBytes;
    VarintFits32(hint[n].pos.fid);
    VarintFits64(hint[n].pos.offset);
    VarintFits32(hint[n].pos.size);
    PosRoundTrip(hint[n].pos);
  }

  lemma {:induction false} EndOfRecords(records: seq<LogRecord>)
    ensures ReadAt(FileBytes(records), |FileBytes(records)|) == Err(EOF)
    ensures FileBytes(records[..|records|]) == FileBytes(records)
  {
    EndOfFile(FileBytes(records));
    assert records[..|records|] == records;
  }

  lemma {:induction false} NextRecord(records: seq<LogRecord>, n: nat)
    requires n < |records|
    ensures |FileBytes(records[..n + 1])| == |FileBytes(records[..n])| + |RecordBytes(records[n])|
  {
    hide RecordBytes;
    assert records[..n + 1][..n] == records[..n];
  }

  /** The hint file of a directory; without one there are no hints. */
  ghost predicate HintIs(hintFile: DataFile?, hint: seq<Entry>)
    reads hintFile
  {
    HintFits(hint) && (if hintFile == null then hint == []
                       else hintFile.Valid() && hintFile.records == HintRecords(hint))
  }

  /** `loadIndexFromHintFile`: one index entry for each hint record. */
  method LoadIndexFromHintFile(db: DB, hintFile: DataFile?, ghost hint: seq<Entry>)
    requires Rebuilt(db, EMPTY)
    requires HintIs(hintFile, hint)
    modifies db`index
    ensures Rebuilt(db, EMPTY.(index := LoadHint(hint)))
  {
    hide ReadAt, RecordBytes, FileBytes, HintRecords, Positions, DecodeLogRecordPos, Writable, PosInRange;
    PositionsPut(map[], [], Entry(Pos(0, 0, 0), Record(0, [], [], Normal)));
    if hintFile == null {
      return;
    }
    ghost var records := HintRecords(hint);
    var offset := 0;
    ghost var n := 0;
    NoBytes(records);
    EndOfRecords(records);
    while true
      invariant n <= |hint| && offset == |FileBytes(records[..n])|
      invariant db.index == Positions(LoadHint(hint[..n]))
      decreases |hint| - n
    {
      if n < |hint| {
        HintRecordsWritable(hint, n);
        ReadsRecord(records, n);
        NextRecord(records, n);
        LoadHintMore(hint, n);
        PositionsPut(LoadHint(hint[..n]), hint[n].rec.key, hint[n]);
      }
      var read := hintFile.ReadLogRecord(offset);
      if read.Err? {
        break;
      }
      var pos := DecodeLogRecordPos(read.value.record.value).value;
      db.index := db.index[read.value.record.key := pos];
      offset := offset + read.value.size;
      n := n + 1;
    }
    assert hint[..n] == hint;
  }

  // ---------------------------------------------------------------- the data files

  /** The closure `updateIndex`. */
  method UpdateIndex(db: DB, key: Key, typ: byte, pos: Pos, ghost st: ReplayState, ghost e: Entry)
    requires Rebuilt(db, st) && HeldBack(e) == TransactionRecord(key, typ, pos)
    modifies db`index, db`reclaimSize
    ensures Rebuilt(db, Log.UpdateIndex(st, e))
  {
    PositionsPut(st.index, key, e);
    PositionsDelete(st.index, key);
    var oldPos := if key in db.index then Some(db.index[key]) else None;
    if typ == DELETED {
      db.index := db.index - {key};
      db.reclaimSize := db.reclaimSize + pos.size;
    } else {
      db.index := db.index[key := pos];
    }
    if oldPos.Some? {
      db.reclaimSize := db.reclaimSize + oldPos.value.size;
    }
  }

  lemma {:induction false} UpdateAllMore(st: ReplayState, es: seq<Entry>, n: nat)
    requires n < |es|
    ensures UpdateAll(st, es[..n + 1]) == Log.UpdateIndex(UpdateAll(st, es[..n]), es[n])
  {
    assert es[..n + 1][..n] == es[..n];
  }

  /** A finish marker releases the records held back for its batch, in the order they were read. */
  method Release(db: DB, held: seq<TransactionRecord>, ghost st: ReplayState, ghost es: seq<Entry>)
    requires Rebuilt(db, st) && held == HeldBackAll(es)
    modifies db`index, db`reclaimSize
    ensures Rebuilt(db, UpdateAll(st, es))
  {
    hide Rebuilt;
    for i := 0 to |held|
      invariant Rebuilt(db, UpdateAll(st, es[..i]))
    {
      UpdateAllMore(st, es, i);
      UpdateIndex(db, held[i].key, held[i].typ, held[i].pos, UpdateAll(st, es[..i]), es[i]);
    }
    assert es[..|held|] == es;
  }

  /** What the replay loop has in hand: the records held back and the largest sequence number so far. */
  ghost predicate Replayed(db: DB, transactionRecords: map<nat, seq<TransactionRecord>>, currentSeqNo: nat,
    st: ReplayState)
    reads db`index, db`reclaimSize
  {
    Rebuilt(db, st) && transactionRecords == Waiting(st.pending) && currentSeqNo == st.maxSeq
  }

  /** One turn of the replay loop, for the record just read. */
  method ReplayRecord(db: DB, logRecord: LogRecord, pos: Pos, transactionRecords: map<nat, seq<TransactionRecord>>,
    currentSeqNo: nat,
                      ghost st: ReplayState, ghost e: Entry)
    returns (held: map<nat, seq<TransactionRecord>>, maxSeqNo: nat)
    requires Replayed(db, transactionRecords, currentSeqNo, st)
    requires logRecord == Stored(e.rec) && Storable(e.rec) && pos == e.pos
    modifies db`index, db`reclaimSize
    ensures Replayed(db, held, maxSeqNo, ReplayStep(st, e))
  {
    hide UpdateAll, Rebuilt, Log.UpdateIndex, Waiting;
    ParsedStored(e.rec);
    StoredParts(e.rec);
    held := transactionRecords;
    var parsed := ParseLogRecordKey(logRecord.key).value;
    var realKey, seqNo := parsed.0, parsed.1;
    if seqNo == NON_TRANSACTION_SEQ_NO {
      UpdateIndex(db, realKey, logRecord.typ, pos, st, e);
      UpdateKeepsRest(st, e);
    } else {
      WaitingOf(st.pending, seqNo);
      var waiting := if seqNo in held then held[seqNo] else [];
      if logRecord.typ == TXN_FINISHED {
        Release(db, waiting, st, PendingOf(st, seqNo));
        UpdateAllKeepsRest(st, PendingOf(st, seqNo));
        RebuiltSame(db, UpdateAll(st, PendingOf(st, seqNo)), ReplayStep(st, e));
        WaitingLess(st.pending, seqNo);
        held := held - {seqNo};
      } else {
        WaitingMore(st.pending, seqNo, PendingOf(st, seqNo), e);
        RebuiltSame(db, st, ReplayStep(st, e));
        held := held[seqNo := waiting + [TransactionRecord(realKey, logRecord.typ, pos)]];
      }
    }
    maxSeqNo := currentSeqNo;
    if seqNo > currentSeqNo {
      maxSeqNo := seqNo;
    }
  }

  lemma {:induction false} RebuiltSame(db: DB, st: ReplayState, other: ReplayState)
    requires Rebuilt(db, st) && other.index == st.index && other.reclaim == st.reclaim
    ensures Rebuilt(db, other)
  {
  }

  lemma {:induction false} UpdateKeepsRest(st: ReplayState, e: Entry)
    ensures Log.UpdateIndex(st, e).pending == st.pending && Log.UpdateIndex(st, e).maxSeq == st.maxSeq
  {
  }

  lemma {:induction false} WaitingOf(pending: map<nat, seq<Entry>>, s: nat)
    ensures s in Waiting(pending) <==> s in pending
    ensures s in pending ==> Waiting(pending)[s] == HeldBackAll(pending[s])
  {
  }

  lemma {:induction false} ReplayMore(st: ReplayState, fid: nat, records: seq<Record>, n: nat)
    requires n < |records|
    ensures
      var e := EntriesOf(fid, records)[n];
      && e == Entry(Pos(fid, Fill(records[..n]), Size(records[n])), records[n])
      && ReplayFrom(st, EntriesOf(fid, records[..n + 1])) == ReplayStep(ReplayFrom(st, EntriesOf(fid, records[..n])), e)
      && Fill(records[..n + 1]) == Fill(records[..n]) + e.pos.size
  {
    hide Size, ReplayStep;
    EntryAt(fid, records, n);
    assert records[..n + 1] == records[..n] + [records[n]];
    EntriesAppend(fid, records[..n], records[n]);
    assert records[..n + 1][..n] == records[..n];
    var es := EntriesOf(fid, records[..n]);
    assert (es + [EntriesOf(fid, records)[n]])[..|es|] == es;
  }

  /** The inner loop of `loadIndexFromDataFiles`: one file from its first record to its end. */
  method ReplayFile(db: DB, dataFile: DataFile, fileId: nat, transactionRecords: map<nat, seq<TransactionRecord>>,
    currentSeqNo: nat,
                    ghost st: ReplayState, ghost records: seq<Record>)
    returns (held: map<nat, seq<TransactionRecord>>, maxSeqNo: nat, offset: nat)
    requires Holds(dataFile, fileId, records) && Replayed(db, transactionRecords, currentSeqNo, st)
    modifies db`index, db`reclaimSize
    ensures Replayed(db, held, maxSeqNo, ReplayFrom(st, EntriesOf(fileId, records)))
    ensures offset == |dataFile.content|
  {
    hide Replayed, Holds, ReplayStep, ReplayFrom, EntriesOf, Fill, Size, Stored, Storable, ReadAt;
    held, maxSeqNo, offset := transactionRecords, currentSeqNo, 0;
    ghost var n := 0;
    ReplayNone(st, fileId, records);
    while true
      invariant n <= |records| && offset == Fill(records[..n])
      invariant Replayed(db, held, maxSeqNo, ReplayFrom(st, EntriesOf(fileId, records[..n])))
      decreases |records| - n
    {
      HeldFileReads(dataFile, fileId, records, n);
      var read := dataFile.ReadLogRecord(offset);
      if read.Err? {
        break;
      }
      ReplayMore(st, fileId, records, n);
      held, maxSeqNo := ReplayRecord(db, read.value.record, Pos(fileId, offset, read.value.size), held, maxSeqNo,
                                     ReplayFrom(st, EntriesOf(fileId, records[..n])), EntriesOf(fileId, records)[n]);
      offset := offset + read.value.size;
      n := n + 1;
    }
    HeldFileReads(dataFile, fileId, records, n);
    assert records[..n] == records;
  }

  lemma {:induction false} ReplayNone(st: ReplayState, fid: nat, records: seq<Record>)
    ensures ReplayFrom(st, EntriesOf(fid, records[..0])) == st && Fill(records[..0]) == 0
  {
  }

  // ---------------------------------------------------------------- all data files

  /** A directory just opened: each file in place, every `WriteOff` still zero. */
  ghost predicate Opened(db: DB)
    reads db`ids, db`recs, db`activeFile, db`olderFiles, db.activeFile, db.olderFiles.Values
  {
    var n := |db.ids|;
    && Increasing(db.ids) && (db.activeFile == null <==> n == 0)
    && (n > 0 ==> Holds(db.activeFile, db.ids[n - 1], RecordsIn(db.recs, db.ids[n - 1])) && db.OlderOk(db.ids[..n - 1]))
    && (n == 0 ==> db.OlderOk([]))
  }

  /** The file with the i-th id. */
  method FindFile(db: DB, i: nat, fileId: nat) returns (dataFile: DataFile)
    requires Opened(db) && i < |db.ids| && fileId == db.ids[i]
    ensures Holds(dataFile, fileId, RecordsIn(db.recs, fileId))
    ensures i == |db.ids| - 1 ==> dataFile == db.activeFile
  {
    hide Holds, RecordsIn;
    HoldsId(db.activeFile, db.ids[|db.ids| - 1], RecordsIn(db.recs, db.ids[|db.ids| - 1]));
    if fileId == db.activeFile.fileId {
      dataFile := db.activeFile;
    } else {
      assert db.ids[i] == db.ids[..|db.ids| - 1][i];
      dataFile := db.olderFiles[fileId];
    }
  }

  lemma {:induction false} FromMore(ids: seq<nat>, recs: map<nat, seq<Record>>, barrier: nat, i: nat, st: ReplayState)
    requires i < |ids|
    ensures
      var now, next := Flatten(From(ids[..i], barrier), recs), Flatten(From(ids[..i + 1], barrier), recs);
      ReplayFrom(st, next) == if ids[i] < barrier then ReplayFrom(st, now)
                              else ReplayFrom(ReplayFrom(st, now), EntriesOf(ids[i], RecordsIn(recs, ids[i])))
  {
    hide EntriesOf, ReplayFrom;
    assert ids[..i + 1][..i] == ids[..i];
    var front := From(ids[..i], barrier);
    if ids[i] >= barrier {
      assert (front + [ids[i]])[..|front|] == front;
      ReplayConcat(st, Flatten(front, recs), EntriesOf(ids[i], RecordsIn(recs, ids[i])));
    }
  }

  /** `loadIndexFromDataFiles`: files below the barrier are skipped, the active file's `WriteOff` becomes its length. */
  method LoadIndexFromDataFiles(db: DB, fileIds: seq<nat>, nonMergeFileId: Option<nat>, ghost st: ReplayState)
    requires Opened(db) && fileIds == db.ids && Rebuilt(db, st) && st.pending == map[] && st.maxSeq == 0
    requires nonMergeFileId.Some? && |fileIds| > 0 ==> nonMergeFileId.value <= fileIds[|fileIds| - 1]
    requires |fileIds| == 0 ==> db.seqNo == 0
    modifies db`index, db`reclaimSize, db`seqNo, (if db.activeFile == null then {} else {db.activeFile})`writeOff
    ensures
      var r := ReplayFrom(st, Flatten(From(db.ids, if nonMergeFileId.Some? then nonMergeFileId.value else 0), db.recs));
      Rebuilt(db, r) && db.seqNo == r.maxSeq
    ensures Opened(db) && (db.activeFile != null ==> db.activeFile.writeOff == |db.activeFile.content|)
    ensures db.activeFile != null ==> db.activeFile.durable == old(db.activeFile.durable)
  {
    hide Opened, Holds, ReplayFrom, Flatten, EntriesOf, Rebuilt, From;
    ghost var barrier := if nonMergeFileId.Some? then nonMergeFileId.value else 0;
    NothingToReplay(db.recs, barrier, st);
    OpenedFiles(db);
    if |fileIds| == 0 {
      assert fileIds[..0] == db.ids;
      return;
    }
    var transactionRecords, currentSeqNo := map[], 0;
    for i := 0 to |fileIds|
      invariant Opened(db)
      invariant Replayed(db, transactionRecords, currentSeqNo,
                         ReplayFrom(st, Flatten(From(fileIds[..i], barrier), db.recs)))
      invariant i == |fileIds| ==> db.activeFile.writeOff == |db.activeFile.content|
    {
      var fileId := fileIds[i];
      FromMore(fileIds, db.recs, barrier, i, st);
      if nonMergeFileId.Some? && fileId < nonMergeFileId.value {
        continue;
      }
      var dataFile := FindFile(db, i, fileId);
      var offset;
      transactionRecords, currentSeqNo, offset := ReplayFile(db, dataFile, fileId, transactionRecords, currentSeqNo,
        ReplayFrom(st, Flatten(From(fileIds[..i], barrier), db.recs)), RecordsIn(db.recs, fileId));
      if i == |fileIds| - 1 {
        SetWriteOff(db, offset);
      }
    }
    assert fileIds[..|fileIds|] == fileIds;
    db.seqNo := currentSeqNo;
  }

  lemma {:induction false} NothingToReplay(recs: map<nat, seq<Record>>, barrier: nat, st: ReplayState)
    ensures ReplayFrom(st, Flatten(From([], barrier), recs)) == st
    ensures st.pending == map[] ==> Waiting(st.pending) == map[]
  {
  }

  lemma {:induction false} OpenedFiles(db: DB)
    requires Opened(db)
    ensures db.activeFile == null <==> |db.ids| == 0
  {
  }

  method SetWriteOff(db: DB, offset: nat)
    requires Opened(db) && db.activeFile != null && offset == |db.activeFile.content|
    modifies db.activeFile`writeOff
    ensures Opened(db) && db.activeFile.writeOff == |db.activeFile.content|
  {
    hide FileBytes, StoredAll;
    db.activeFile.writeOff := offset;
  }
}
