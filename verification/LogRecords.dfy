/** The on-disk record format: data/log_record.go and the sequence-prefixed keys of batch.go. */
module LogRecords {
  import opened Bytes
  import opened Varints
  import opened Wrappers
  import Crc32
  import LittleEndian

  const NORMAL: byte := 0
  const DELETED: byte := 1
  const TXN_FINISHED: byte := 2

  /** 4 bytes of CRC, 1 of type and two varints of at most 5 bytes. */
  const MAX_HEADER_SIZE: nat := MAX_VARINT_LEN_32 * 2 + 5

  const NON_TRANSACTION_SEQ_NO: nat := 0

  datatype LogRecord = LogRecord(key: bytes, value: bytes, typ: byte)

  datatype Header = Header(crc: Crc32.uint32, typ: byte, keySize: nat, valueSize: nat)

  /** No header, or a slice bound that Go refuses at run time, or a header and its length. */
  datatype HeaderResult = NoHeader | BadSlice | HeaderOf(header: Header, size: nat)

  /** Where a record lies: file, offset and length. */
  datatype Pos = Pos(fid: nat, offset: nat, size: nat)

  /** The lengths a record may have: key and value each below 2^32 bytes. */
  predicate Encodable(r: LogRecord) {
    |r.key| < TWO_32 && |r.value| < TWO_32
  }

  /** The header after the CRC: type, key length, value length. */
  function HeaderTail(r: LogRecord): bytes {
    [r.typ] + VarintBytes(|r.key|) + VarintBytes(|r.value|)
  }

  function RecordCrc(r: LogRecord): Crc32.uint32 {
    Crc32.Checksum(HeaderTail(r) + r.key + r.value)
  }

  function HeaderBytes(r: LogRecord): bytes {
    LittleEndian.ToBytes(RecordCrc(r), 4) + HeaderTail(r)
  }

  function RecordBytes(r: LogRecord): bytes {
    HeaderBytes(r) + r.key + r.value
  }

  /** Writes type, key length and value length at index 4 of the scratch header and returns where they end. */
  method FillHeader(r: LogRecord, header: array<byte>) returns (index: nat)
    requires Encodable(r) && header.Length == MAX_HEADER_SIZE
    modifies header
    ensures index == 4 + |HeaderTail(r)| <= header.Length
    ensures header[4..index] == HeaderTail(r)
  {
    VarintFits32(|r.key|);
    VarintFits32(|r.value|);
    header[4] := r.typ;
    index := 5;
    var n := PutVarint(header, index, |r.key|);
    assert header[..index + n] == header[..index] + header[index..index + n];
    index := index + n;
    assert header[..index][4..] == [r.typ] + VarintBytes(|r.key|);
    n := PutVarint(header, index, |r.value|);
    assert header[4..index + n] == header[..index][4..] + header[index..index + n];
    index := index + n;
  }

  /** A new buffer with the header's first `index` bytes, then key and value. */
  method CopyParts(header: array<byte>, index: nat, key: bytes, value: bytes) returns (enc: array<byte>)
    requires 4 <= index <= header.Length
    ensures fresh(enc) && enc.Length >= 4
    ensures enc[4..] == header[4..index] + key + value
  {
    enc := new byte[index + |key| + |value|];
    forall i | 0 <= i < index {
      enc[i] := header[i];
    }
    forall i | 0 <= i < |key| {
      enc[index + i] := key[i];
    }
    forall i | 0 <= i < |value| {
      enc[index + |key| + i] := value[i];
    }
    assert enc[4..] == header[4..index] + key + value;
  }

  /**
   * `EncodeLogRecord`: a scratch header of fifteen bytes, then the record, then its CRC over everything after the
   * CRC.
   */
  method EncodeLogRecord(r: LogRecord) returns (enc: array<byte>, size: nat)
    requires Encodable(r)
    ensures fresh(enc)
    ensures enc[..] == RecordBytes(r) && size == |RecordBytes(r)|
  {
    var header := new byte[MAX_HEADER_SIZE];
    var index := FillHeader(r, header);
    enc := CopyParts(header, index, r.key, r.value);
    Seal(enc);
    size := enc.Length;
    RecordBytesSplit(r);
  }

  lemma {:induction false} RecordBytesSplit(r: LogRecord)
    ensures RecordBytes(r) == LittleEndian.ToBytes(RecordCrc(r), 4) + (HeaderTail(r) + r.key + r.value)
  {
  }

  /** Puts the CRC of everything after the first four bytes into the first four bytes. */
  method Seal(enc: array<byte>)
    requires enc.Length >= 4
    modifies enc
    ensures enc[..] == LittleEndian.ToBytes(Crc32.Checksum(old(enc[4..])), 4) + old(enc[4..])
  {
    var crc := Crc32.Checksum(enc[4..]);
    LittleEndian.PutUint(enc, 0, crc, 4);
    assert enc[..] == enc[..4] + enc[4..];
    assert enc[..4] == enc[0..0 + 4];
  }

  /**
   * `DecodeLogRecordHeader`, on any bytes: lengths wrap to 32 bits, and a varint that overflows moves the cursor
   * back.
   */
  function DecodeLogRecordHeader(buf: bytes): (r: HeaderResult)
    ensures r.HeaderOf? ==> 5 <= r.size <= |buf|
  {
    if |buf| <= 4 then NoHeader
    else
      LittleEndian.FromBytesBound(buf[..4]);
      LittleEndian.Widths();
      var crc := LittleEndian.FromBytes(buf[..4]);
      var k := Varint(buf[5..]);
      if k.n < 0 then BadSlice
      else
        var v := Varint(buf[5 + k.n..]);
        if v.n < 0 then BadSlice
        else HeaderOf(Header(crc, buf[4], k.value % TWO_32, v.value % TWO_32), 5 + k.n + v.n)
  }

  /** `GetLogRecordCRC`: the checksum taken in three pieces. */
  function GetLogRecordCRC(r: LogRecord, headerTail: bytes): Crc32.uint32 {
    Crc32.Update(Crc32.Update(Crc32.Checksum(headerTail), r.key), r.value)
  }

  /** The three-piece checksum of the reader is the one-piece checksum of the writer. */
  lemma {:induction false} CrcInPieces(r: LogRecord)
    ensures GetLogRecordCRC(r, HeaderTail(r)) == RecordCrc(r)
  {
    Crc32.UpdateConcat(0, HeaderTail(r), r.key);
    Crc32.UpdateConcat(0, HeaderTail(r) + r.key, r.value);
  }

  /** Every header fits the fifteen-byte window. */
  lemma {:induction false} HeaderFits(r: LogRecord)
    requires Encodable(r)
    ensures 7 <= |HeaderBytes(r)| <= MAX_HEADER_SIZE
  {
    VarintFits32(|r.key|);
    VarintFits32(|r.value|);
  }

  /** The window is no larger than it has to be. */
  lemma {:induction false} WindowIsTight(r: LogRecord)
    requires Encodable(r) && |r.key| >= 0x800_0000 && |r.value| >= 0x800_0000
    ensures |HeaderBytes(r)| == MAX_HEADER_SIZE == 15
  {
    HeaderFits(r);
    FiveBytes(Zigzag(|r.key|));
    FiveBytes(Zigzag(|r.value|));
  }

  lemma {:induction false} HeaderDecodes(crc: Crc32.uint32, r: LogRecord, rest: bytes)
    requires Encodable(r)
    ensures DecodeLogRecordHeader(LittleEndian.ToBytes(crc, 4) + HeaderTail(r) + rest)
         == HeaderOf(Header(crc, r.typ, |r.key|, |r.value|), 4 + |HeaderTail(r)|)
  {
    hide VarintBytes, Varint, LittleEndian.ToBytes, LittleEndian.FromBytes;
    var buf := LittleEndian.ToBytes(crc, 4) + HeaderTail(r) + rest;
    var keyPart, valuePart := VarintBytes(|r.key|), VarintBytes(|r.value|);
    assert buf[..4] == LittleEndian.ToBytes(crc, 4);
    LittleEndian.Widths();
    LittleEndian.RoundTrip(crc, 4);
    assert buf[5..] == keyPart + (valuePart + rest);
    SkipVarint(|r.key|, valuePart + rest);
    assert buf[5 + |keyPart|..] == buf[5..][|keyPart|..];
    SkipVarint(|r.value|, rest);
  }

  /** A header is decoded from any buffer that starts with it, whatever follows: payload, next record or nothing. */
  lemma {:induction false} HeaderRoundTrip(r: LogRecord, rest: bytes)
    requires Encodable(r)
    ensures DecodeLogRecordHeader(HeaderBytes(r) + rest)
         == HeaderOf(Header(RecordCrc(r), r.typ, |r.key|, |r.value|), |HeaderBytes(r)|)
  {
    HeaderDecodes(RecordCrc(r), r, rest);
  }

  function PosBytes(pos: Pos): bytes {
    VarintBytes(pos.fid) + VarintBytes(pos.offset) + VarintBytes(pos.size)
  }

  /** The integer widths of `LogRecordPos`. */
  predicate PosInRange(pos: Pos) {
    pos.fid < TWO_32 && pos.offset < TWO_63 && pos.size < TWO_32
  }

  /** `EncodeLogRecordPos`, in a scratch buffer of twenty bytes. */
  method EncodeLogRecordPos(pos: Pos) returns (enc: bytes)
    requires PosInRange(pos)
    ensures enc == PosBytes(pos)
  {
    VarintFits32(pos.fid);
    VarintFits64(pos.offset);
    VarintFits32(pos.size);
    var buf := new byte[MAX_VARINT_LEN_32 * 2 + MAX_VARINT_LEN_64];
    var index := 0;
    var n := PutVarint(buf, index, pos.fid);
    index := index + n;
    assert buf[..index] == VarintBytes(pos.fid);
    n := PutVarint(buf, index, pos.offset);
    assert buf[..index + n] == buf[..index] + buf[index..index + n];
    index := index + n;
    assert buf[..index] == VarintBytes(pos.fid) + VarintBytes(pos.offset);
    n := PutVarint(buf, index, pos.size);
    assert buf[..index + n] == buf[..index] + buf[index..index + n];
    index := index + n;
    return buf[..index];
  }

  /**
   * `DecodeLogRecordPos`; fields wrap to their widths. A buffer Go's slices refuse, or a negative offset, gives
   * nothing.
   */
  function DecodeLogRecordPos(buf: bytes): (pos: Option<Pos>)
  {
    var f := Varint(buf);
    if f.n < 0 then None else
    var o := Varint(buf[f.n..]);
    if o.n < 0 || o.value < 0 then None else
    var s := Varint(buf[f.n..][o.n..]);
    Some(Pos(f.value % TWO_32, o.value, s.value % TWO_32))
  }

  lemma {:induction false} DecodePosSteps(buf: bytes, rest1: bytes, rest2: bytes, pos: Pos, n: nat, m: nat, k: int)
    requires PosInRange(pos)
    requires Varint(buf) == Decoded(pos.fid, n) && n <= |buf| && rest1 == buf[n..]
    requires Varint(rest1) == Decoded(pos.offset, m) && m <= |rest1| && rest2 == rest1[m..]
    requires Varint(rest2) == Decoded(pos.size, k)
    ensures DecodeLogRecordPos(buf) == Some(pos)
  {
  }

  /** A position is read back from the bytes of a hint record over the whole range of its fields. */
  lemma {:induction false} PosRoundTrip(pos: Pos)
    requires PosInRange(pos)
    ensures DecodeLogRecordPos(PosBytes(pos)) == Some(pos)
  {
    var f, o, s := VarintBytes(pos.fid), VarintBytes(pos.offset), VarintBytes(pos.size);
    Skips(f, o, s, pos);
    assert f + o + s == f + (o + (s + []));
    DecodePosSteps(f + (o + (s + [])), o + (s + []), s + [], pos, |f|, |o|, |s|);
  }

  lemma {:induction false} Skips(f: bytes, o: bytes, s: bytes, pos: Pos)
    requires PosInRange(pos)
    requires f == VarintBytes(pos.fid) && o == VarintBytes(pos.offset) && s == VarintBytes(pos.size)
    ensures Varint(f + (o + (s + []))) == Decoded(pos.fid, |f|) && (f + (o + (s + [])))[|f|..] == o + (s + [])
    ensures Varint(o + (s + [])) == Decoded(pos.offset, |o|) && (o + (s + []))[|o|..] == s + []
    ensures Varint(s + []) == Decoded(pos.size, |s|)
  {
    SkipVarint(pos.fid, o + (s + []));
    SkipVarint(pos.offset, s + []);
    SkipVarint(pos.size, []);
  }

  /** `logRecordKeyWithSeq`: the sequence number as an unsigned varint, then the key. */
  function KeyWithSeq(key: bytes, seqNo: nat): (enc: bytes)
    ensures |enc| > |key|
  {
    UvarintBytes(seqNo) + key
  }

  /** `parseLogRecordKey`; a key whose sequence number overflows is refused by the slice. */
  function ParseLogRecordKey(enc: bytes): Option<(bytes, nat)> {
    var d := Uvarint(enc);
    if d.n < 0 || d.value < 0 then None else Some((enc[d.n..], d.value))
  }

  /** A key and its sequence number are recovered from the stored key, for every 64-bit sequence number. */
  lemma {:induction false} KeyRoundTrip(key: bytes, seqNo: nat)
    requires seqNo < TWO_64
    ensures ParseLogRecordKey(KeyWithSeq(key, seqNo)) == Some((key, seqNo))
  {
    UvarintRoundTrip(seqNo, key);
  }
}
