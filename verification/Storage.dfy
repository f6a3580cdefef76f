/** Data files as objects: bytes on disk, with the records they stand for. */
module Storage {
  import opened Bytes
  import opened Varints
  import opened Wrappers
  import opened LogRecords
  import opened DataFiles
  import opened Log

  /**
   * What the format can hold: a key that is not empty; key with its sequence number, value and whole record
   * below 2^32 bytes; a 64-bit sequence number.
   */
  predicate Storable(r: Record) {
    r.key != [] && Encodable(Stored(r)) && r.seqNo < TWO_64 && Size(r) < TWO_32
  }

  function KindOf(typ: byte): Kind {
    if typ == DELETED then Deleted else if typ == TXN_FINISHED then TxnFinished else Normal
  }

  /** The record that stored bytes stand for: `parseLogRecordKey` takes the sequence number off the key. */
  function Parsed(r: LogRecord): Option<Record> {
    var k := ParseLogRecordKey(r.key);
    if k.None? then None else Some(Record(k.value.1, k.value.0, r.value, KindOf(r.typ)))
  }

  lemma {:induction false} ParsedStored(r: Record)
    requires Storable(r)
    ensures Parsed(Stored(r)) == Some(r)
  {
    KeyRoundTrip(r.key, r.seqNo);
  }

  lemma {:induction false} StoredParts(r: Record)
    ensures Stored(r).value == r.value && KindOf(Stored(r).typ) == r.kind && Stored(r).key == KeyWithSeq(r.key, r.seqNo)
  {
  }

  function StoredAll(records: seq<Record>): (s: seq<LogRecord>)
    ensures |s| == |records|
  {
    seq(|records|, i requires 0 <= i < |records| => Stored(records[i]))
  }

  /** The length of a file with these records. */
  function Fill(records: seq<Record>): nat {
    if |records| == 0 then 0 else Fill(records[..|records| - 1]) + Size(records[|records| - 1])
  }

  /** The records of a file with their positions. */
  function EntriesOf(fid: nat, records: seq<Record>): (es: seq<Entry>)
    ensures |es| == |records|
  {
    if |records| == 0 then []
    else
      var front, last := records[..|records| - 1], records[|records| - 1];
      EntriesOf(fid, front) + [Entry(Pos(fid, Fill(front), Size(last)), last)]
  }

  lemma {:induction false} EntryAt(fid: nat, records: seq<Record>, i: nat)
    requires i < |records|
    ensures EntriesOf(fid, records)[i] == Entry(Pos(fid, Fill(records[..i]), Size(records[i])), records[i])
  {
    var n := |records|;
    if i < n - 1 {
      EntryAt(fid, records[..n - 1], i);
      assert records[..n - 1][..i] == records[..i];
    }
  }

  lemma {:induction false} StoredAppend(records: seq<Record>, r: Record)
    ensures FileBytes(StoredAll(records + [r])) == FileBytes(StoredAll(records)) + RecordBytes(Stored(r))
  {
    hide RecordBytes, Stored;
    var all := StoredAll(records + [r]);
    assert all[..|all| - 1] == StoredAll(records);
  }

  lemma {:induction false} StoredLength(records: seq<Record>)
    ensures |FileBytes(StoredAll(records))| == Fill(records)
  {
    hide RecordBytes, Stored, Size;
    if |records| > 0 {
      var front, last := records[..|records| - 1], records[|records| - 1];
      StoredLength(front);
      StoredAppend(front, last);
      assert front + [last] == records;
      SizeIsStoredLength(last);
    }
  }

  /** The bytes of a file split at a record. */
  lemma {:induction false} FileSplit(records: seq<LogRecord>, i: nat)
    requires i < |records|
    ensures exists after :: FileBytes(records) == FileBytes(records[..i]) + RecordBytes(records[i]) + after
    decreases |records|
  {
    hide RecordBytes;
    var n := |records|;
    var front, last := records[..n - 1], RecordBytes(records[n - 1]);
    if i == n - 1 {
      assert FileBytes(records) == FileBytes(records[..i]) + RecordBytes(records[i]) + [];
    } else {
      FileSplit(front, i);
      assert front[..i] == records[..i];
      var after :| FileBytes(front) == FileBytes(front[..i]) + RecordBytes(front[i]) + after;
      assert FileBytes(records) == FileBytes(records[..i]) + RecordBytes(records[i]) + (after + last);
    }
  }

  lemma {:induction false} FileBytesPrefix(records: seq<LogRecord>, n: nat)
    requires n <= |records|
    ensures |FileBytes(records[..n])| <= |FileBytes(records)|
    ensures FileBytes(records)[..|FileBytes(records[..n])|] == FileBytes(records[..n])
  {
    hide RecordBytes;
    if n == |records| {
      assert records[..n] == records;
    } else {
      FileBytesPrefix(records[..|records| - 1], n);
      assert records[..|records| - 1][..n] == records[..n];
    }
  }

  /** Reading a file where one of its records starts gives that record and its length. */
  lemma {:induction false} ReadsRecord(records: seq<LogRecord>, i: nat)
    requires i < |records| && Writable(records[i])
    ensures |FileBytes(records[..i])| <= |FileBytes(records)|
    ensures ReadAt(FileBytes(records), |FileBytes(records[..i])|) == Ok(Read(records[i], |RecordBytes(records[i])|))
  {
    hide RecordBytes, ReadAt;
    FileSplit(records, i);
    var before := FileBytes(records[..i]);
    var after :| FileBytes(records) == before + RecordBytes(records[i]) + after;
    ReadsBack(before, records[i], after);
  }

  /** Reading a data file at the position of one of its records gives that record. */
  lemma {:induction false} ReadsEntry(records: seq<Record>, i: nat)
    requires i < |records| && Storable(records[i])
    ensures Fill(records[..i]) <= |FileBytes(StoredAll(records))|
    ensures ReadAt(FileBytes(StoredAll(records)), Fill(records[..i])) == Ok(Read(Stored(records[i]), Size(records[i])))
  {
    hide RecordBytes, Size, ReadAt, KeyWithSeq;
    var all := StoredAll(records);
    assert all[..i] == StoredAll(records[..i]);
    StoredLength(records[..i]);
    SizeIsStoredLength(records[i]);
    ReadsRecord(all, i);
  }

  /** A hint record: a key and the position of its entry, without a sequence number. */
  function HintRecord(key: Key, pos: Pos): LogRecord {
    LogRecord(key, PosBytes(pos), NORMAL)
  }

  /** Keys and positions of hint records are within the bounds of the format. */
  predicate HintFits(hint: seq<Entry>) {
    forall e :: e in hint ==> 0 < |e.rec.key| < TWO_32 && PosInRange(e.pos)
  }

  /** `DataFile`, for data files and for the hint file: the content is what the IO manager's file holds. */
  class DataFile {
    const fileId: nat
    var writeOff: nat
    var content: bytes
    /** How many bytes are on stable storage. */
    var synced: nat
    ghost var records: seq<LogRecord>
    /** How many records those bytes are. */
    ghost var durable: nat

    ghost predicate Valid()
      reads this
    {
      && content == FileBytes(records) && (forall r :: r in records ==> Writable(r))
      && durable <= |records| && synced == |FileBytes(records[..durable])|
    }

    /** The constructor of all `Open…File` functions, for a file that does not exist yet. */
    constructor (fileId: nat)
      ensures this.fileId == fileId && Valid() && records == [] && writeOff == 0 && content == [] && durable == 0
    {
      this.fileId := fileId;
      this.writeOff := 0;
      this.content := [];
      this.synced := 0;
      this.records := [];
      this.durable := 0;
    }

    /** `OpenDataFile` for a file that exists: a new handle on its content, with `WriteOff` still zero. */
    constructor Open(file: DataFile)
      requires file.Valid()
      ensures fileId == file.fileId && Valid() && records == file.records && content == file.content && writeOff == 0
      ensures synced == file.synced && durable == file.durable
    {
      this.fileId := file.fileId;
      this.writeOff := 0;
      this.content := file.content;
      this.synced := file.synced;
      this.records := file.records;
      this.durable := file.durable;
    }

    /** What a crash leaves of a file: its content up to the end of its n-th record, no less than what is durable. */
    constructor Cut(file: DataFile, end: nat, ghost n: nat)
      requires file.Valid() && file.durable <= n <= |file.records| && end == |FileBytes(file.records[..n])|
      ensures fileId == file.fileId && Valid() && records == file.records[..n] && writeOff == 0
      ensures synced == file.synced && durable == file.durable
    {
      FileBytesPrefix(file.records, n);
      assert file.records[..n][..file.durable] == file.records[..file.durable];
      this.fileId := file.fileId;
      this.writeOff := 0;
      this.content := file.content[..end];
      this.synced := file.synced;
      this.records := file.records[..n];
      this.durable := file.durable;
    }

    /** `Sync`: everything written so far is on stable storage. */
    method Sync()
      requires Valid()
      modifies this`synced, this`durable
      ensures Valid() && synced == |content| && durable == |records|
    {
      hide RecordBytes;
      assert records[..|records|] == records;
      synced := |content|;
      durable := |records|;
    }

    /** `Write`: the file is opened for appending; `r` is the record that the bytes encode. */
    method Write(buf: bytes, ghost r: LogRecord)
      requires Valid() && Writable(r) && buf == RecordBytes(r)
      modifies this`content, this`writeOff, this`records
      ensures Valid() && records == old(records) + [r]
      ensures content == old(content) + RecordBytes(r) && writeOff == old(writeOff) + |RecordBytes(r)|
    {
      hide RecordBytes;
      assert (records + [r])[..|records|] == records;
      assert (records + [r])[..durable] == records[..durable];
      content := content + buf;
      writeOff := writeOff + |buf|;
      records := records + [r];
    }

    /** `WriteHintRecord`. */
    method WriteHintRecord(key: Key, pos: Pos)
      requires Valid() && 0 < |key| < TWO_32 && PosInRange(pos)
      modifies this`content, this`writeOff, this`records
      ensures Valid() && records == old(records) + [HintRecord(key, pos)]
    {
      VarintFits32(pos.fid);
      VarintFits64(pos.offset);
      VarintFits32(pos.size);
      var value := EncodeLogRecordPos(pos);
      var encRecord, _ := EncodeLogRecord(LogRecord(key, value, NORMAL));
      Write(encRecord[..], HintRecord(key, pos));
    }

    /** `ReadNBytes`: a read past the end of the file is `io.EOF`; reading nothing always succeeds. */
    method ReadNBytes(n: nat, offset: nat) returns (b: Result<bytes, ReadError>)
      ensures b == if n == 0 then Ok([]) else if offset + n > |content| then Err(EOF)
        else Ok(content[offset..offset + n])
    {
      if n > 0 && offset + n > |content| {
        return Err(EOF);
      }
      return Ok(if n == 0 then [] else content[offset..offset + n]);
    }

    /** `ReadLogRecord`, first part: the header window and the header. */
    method ReadLogRecord(offset: nat) returns (r: Result<Read, ReadError>)
      requires offset <= |content|
      ensures r == ReadAt(content, offset)
    {
      hide DecodeLogRecordHeader, ReadPayload;
      var fileSize := |content|;
      var headerBytes := MAX_HEADER_SIZE;
      if offset + headerBytes > fileSize {
        headerBytes := fileSize - offset;
      }
      var read := ReadNBytes(headerBytes, offset);
      assert headerBytes == WindowSize(content, offset);
      assert content[offset..][..headerBytes] == if headerBytes == 0 then [] else content[offset..offset + headerBytes];
      assert read == Ok(content[offset..][..WindowSize(content, offset)]);
      var headerBuf := read.value;
      var decoded := DecodeLogRecordHeader(headerBuf);
      match decoded
      case NoHeader => r := Err(EOF);
      case BadSlice => r := Err(Panic);
      case HeaderOf(header, headerSize) => r := ReadBody(offset, headerBuf, header, headerSize);
    }

    /** `ReadLogRecord`, second part: end-of-file marks, payload, checksum. */
    method ReadBody(offset: nat, headerBuf: bytes, header: Header, headerSize: nat) returns (r: Result<Read, ReadError>)
      requires offset <= |content| && 5 <= headerSize <= |headerBuf| <= |content| - offset
      ensures r == ReadPayload(content[offset..], headerBuf, header, headerSize)
    {
      hide GetLogRecordCRC;
      if header.crc == 0 && header.keySize == 0 && header.valueSize == 0 {
        return Err(EOF);
      }
      var keySize, valueSize := header.keySize, header.valueSize;
      var record := LogRecord([], [], header.typ);
      if keySize > 0 || valueSize > 0 {
        var kvBuf := ReadNBytes(keySize + valueSize, offset + headerSize);
        if kvBuf.Err? {
          return Err(kvBuf.error);
        }
        assert kvBuf.value == content[offset..][headerSize..headerSize + keySize + valueSize];
        record := LogRecord(kvBuf.value[..keySize], kvBuf.value[keySize..], header.typ);
      } else {
        assert content[offset..][headerSize..headerSize] == [];
      }
      var crc := GetLogRecordCRC(record, headerBuf[4..headerSize]);
      if crc != header.crc {
        return Err(InvalidCRC);
      }
      return Ok(Read(record, headerSize + keySize + valueSize));
    }
  }
}
