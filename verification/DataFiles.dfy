/** Appending records to a file and scanning them back: data/data_file.go. */
module DataFiles {
  import opened Bytes
  import opened LogRecords
  import opened Varints
  import opened Wrappers
  import Crc32
  import LittleEndian

  /** How a read ends without a record. A run-time panic of Go is an outcome of its own. */
  datatype ReadError = EOF | InvalidCRC | Panic

  datatype Read = Read(record: LogRecord, size: nat)

  /** What `ReadLogRecord` yields at an offset of a file with this content. */
  function ReadAt(content: bytes, offset: nat): (r: Result<Read, ReadError>)
    requires offset <= |content|
    ensures r.Ok? ==> 5 <= r.value.size <= |content| - offset
  {
    var window := content[offset..][..WindowSize(content, offset)];
    match DecodeLogRecordHeader(window)
    case NoHeader => Err(EOF)
    case BadSlice => Err(Panic)
    case HeaderOf(h, headerSize) => ReadPayload(content[offset..], window, h, headerSize)
  }

  /** The header window: fifteen bytes, or what is left of the file. */
  function WindowSize(content: bytes, offset: nat): (n: nat)
    requires offset <= |content|
    ensures n <= |content| - offset
  {
    if offset + MAX_HEADER_SIZE > |content| then |content| - offset else MAX_HEADER_SIZE
  }

  function ReadPayload(rest: bytes, window: bytes, h: Header, headerSize: nat): (r: Result<Read, ReadError>)
    requires 5 <= headerSize <= |window| <= |rest|
    ensures r.Ok? ==> 5 <= r.value.size <= |rest|
  {
    if h.crc == 0 && h.keySize == 0 && h.valueSize == 0 then Err(EOF)
    else if headerSize + h.keySize + h.valueSize > |rest| then Err(EOF)
    else
      var kv := rest[headerSize..headerSize + h.keySize + h.valueSize];
      var record := LogRecord(kv[..h.keySize], kv[h.keySize..], h.typ);
      if GetLogRecordCRC(record, window[4..headerSize]) != h.crc then Err(InvalidCRC)
      else Ok(Read(record, headerSize + h.keySize + h.valueSize))
  }

  /** A record the engine may write: lengths within 32 bits and a key that is not empty. */
  predicate Writable(r: LogRecord) {
    Encodable(r) && |r.key| > 0
  }

  /** The content of a file after the given records were appended to it. */
  function FileBytes(records: seq<LogRecord>): bytes {
    if |records| == 0 then []
    else FileBytes(records[..|records| - 1]) + RecordBytes(records[|records| - 1])
  }

  /** The window of a record that starts a file's rest begins with its whole header. */
  lemma {:induction false} WindowHoldsHeader(before: bytes, header: bytes, payload: bytes)
    requires |header| <= MAX_HEADER_SIZE
    ensures
      var content := before + (header + payload);
      var n := WindowSize(content, |before|);
      n >= |header| && content[|before|..] == header + payload &&
      (header + payload)[..n] == header + payload[..n - |header|]
  {
  }

  lemma {:induction false} PayloadReads(r: LogRecord, rest: bytes, window: bytes, after: bytes, header: bytes,
    h: Header)
    requires 5 <= |header| <= |window| <= |rest| && rest == header + (r.key + r.value + after)
    requires h.keySize == |r.key| > 0 && h.valueSize == |r.value| && h.typ == r.typ
    requires GetLogRecordCRC(r, window[4..|header|]) == h.crc
    ensures ReadPayload(rest, window, h, |header|) == Ok(Read(r, |header| + |r.key| + |r.value|))
  {
    hide GetLogRecordCRC;
    var kv := rest[|header|..|header| + h.keySize + h.valueSize];
    assert kv == r.key + r.value;
    assert kv[..|r.key|] == r.key && kv[|r.key|..] == r.value;
  }

  /**
   * A record is read back from anywhere in a file: the fixed header window may reach into
   * the payload and into the next record without any effect on the result.
   */
  lemma {:induction false} ReadsBack(before: bytes, r: LogRecord, after: bytes)
    requires Writable(r)
    ensures ReadAt(before + RecordBytes(r) + after, |before|) == Ok(Read(r, |RecordBytes(r)|))
  {
    hide DecodeLogRecordHeader, GetLogRecordCRC, RecordCrc, HeaderTail, ReadPayload;
    var header, payload := HeaderBytes(r), r.key + r.value + after;
    var content := before + (header + payload);
    assert before + RecordBytes(r) + after == content;
    HeaderFits(r);
    WindowHoldsHeader(before, header, payload);
    var n := WindowSize(content, |before|);
    HeaderRoundTrip(r, payload[..n - |header|]);
    var window := content[|before|..][..n];
    assert window[4..|header|] == HeaderTail(r);
    CrcInPieces(r);
    PayloadReads(r, header + payload, window, after, header, Header(RecordCrc(r), r.typ, |r.key|, |r.value|));
  }

  /** At the end of a file the scan sees no header and stops. */
  lemma {:induction false} EndOfFile(content: bytes)
    ensures ReadAt(content, |content|) == Err(EOF)
  {
  }

  /** A tail of zero bytes, however long or short, reads as the end of the file and not as a record or an error. */
  lemma {:induction false} ZerosReadAsEnd(before: bytes, zeros: bytes)
    requires forall i :: 0 <= i < |zeros| ==> zeros[i] == 0
    ensures ReadAt(before + zeros, |before|) == Err(EOF)
  {
    hide Varint, Crc32.Update;
    var content := before + zeros;
    var window := content[|before|..][..WindowSize(content, |before|)];
    assert content[|before|..] == zeros;
    if |window| > 4 {
      assert window[..4] == [0, 0, 0, 0];
      ZeroWord();
      ZeroVarint(window[5..]);
      if |window| > 5 {
        ZeroVarint(window[6..]);
      }
    }
  }

  lemma {:induction false} ZeroWord()
    ensures LittleEndian.FromBytes([0, 0, 0, 0]) == 0
  {
    LittleEndian.RoundTrip(0, 4);
    assert LittleEndian.ToBytes(0, 4) == [0, 0, 0, 0];
  }

  lemma {:induction false} ZeroVarint(zeros: bytes)
    requires forall i :: 0 <= i < |zeros| ==> zeros[i] == 0
    ensures Varint(zeros) == Decoded(0, if |zeros| > 0 then 1 else 0)
  {
  }

  datatype Located = Located(record: LogRecord, offset: nat, size: nat)

  datatype Scanned = Scanned(records: seq<Located>, end: nat, why: ReadError)

  /** The loop over `ReadLogRecord` from an offset on, on any content: each record advances the offset by its size. */
  function Scan(content: bytes, offset: nat): (s: Scanned)
    requires offset <= |content|
    ensures offset <= s.end <= |content|
    decreases |content| - offset
  {
    match ReadAt(content, offset)
    case Err(e) => Scanned([], offset, e)
    case Ok(got) =>
      var rest := Scan(content, offset + got.size);
      Scanned([Located(got.record, offset, got.size)] + rest.records, rest.end, rest.why)
  }

  /** The records of a list with the offsets they get when appended one after the other from `offset` on. */
  function Locate(records: seq<LogRecord>, offset: nat): (located: seq<Located>)
    ensures |located| == |records|
  {
    if |records| == 0 then []
    else
      var size := |RecordBytes(records[0])|;
      [Located(records[0], offset, size)] + Locate(records[1..], offset + size)
  }

  lemma {:induction false} FileBytesHead(records: seq<LogRecord>)
    requires |records| > 0
    ensures FileBytes(records) == RecordBytes(records[0]) + FileBytes(records[1..])
  {
    hide RecordBytes;
    var n := |records|;
    if n == 1 {
      assert records[..0] == [] && records[1..] == [];
    } else {
      FileBytesHead(records[..n - 1]);
      assert records[..n - 1][1..] == records[1..][..n - 2];
      assert records[1..][n - 2] == records[n - 1];
      assert FileBytes(records[1..]) == FileBytes(records[1..][..n - 2]) + RecordBytes(records[n - 1]);
    }
  }

  /**
   * Scanning inverts writing: the scan of any appended records, started after any bytes,
   * yields exactly those records with their offsets and sizes and then stops at the end of the file.
   */
  lemma {:induction false} ScanInvertsWrite(before: bytes, records: seq<LogRecord>)
    requires forall i :: 0 <= i < |records| ==> Writable(records[i])
    ensures Scan(before + FileBytes(records), |before|)
         == Scanned(Locate(records, |before|), |before| + |FileBytes(records)|, EOF)
    decreases |records|
  {
    hide ReadAt, RecordBytes;
    if |records| == 0 {
      EndOfFile(before);
      assert before + [] == before;
    } else {
      var first, rest := RecordBytes(records[0]), records[1..];
      FileBytesHead(records);
      assert before + FileBytes(records) == before + first + FileBytes(rest);
      ReadsBack(before, records[0], FileBytes(rest));
      ScanInvertsWrite(before + first, rest);
    }
  }
}
