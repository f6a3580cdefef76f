/** Encodings by example: bytes as the code writes them, spelled out. */
module Formats {
  import opened Bytes
  import opened Varints
  import opened LogRecords
  import opened Log
  import opened Engine
  import opened Merging
  import opened RedisMeta
  import opened RedisModel
  import Crc32
  import CrcExamples
  import LittleEndian
  import Storage

  /** The bytes of a text of plain characters. */
  function Ascii(text: string): (s: bytes)
    requires forall i :: 0 <= i < |text| ==> text[i] < 128 as char
    ensures |s| == |text|
  {
    seq(|text|, i requires 0 <= i < |text| => text[i] as int)
  }

  lemma {:induction false} SmallLength(n: nat)
    requires n < 64
    ensures VarintBytes(n) == [2 * n]
  {
  }

  /** A record with the key "name" and the value "wsx": checksum, type, both lengths, key, value. */
  lemma {:induction false} RecordOnDisk()
    ensures RecordBytes(LogRecord(Ascii("name"), Ascii("wsx"), NORMAL))
         == [141, 49, 52, 224, 0, 8, 6] + Ascii("name") + Ascii("wsx")
    ensures DecodeLogRecordHeader([141, 49, 52, 224, 0, 8, 6]) == HeaderOf(Header(3761516941, 0, 4, 3), 7)
  {
    hide VarintBytes, Crc32.Checksum, DecodeLogRecordHeader;
    var r := LogRecord(Ascii("name"), Ascii("wsx"), NORMAL);
    SmallLength(4);
    SmallLength(3);
    assert HeaderTail(r) + r.key + r.value == [0, 8, 6, 110, 97, 109, 101, 119, 115, 120];
    CrcExamples.NameRecord();
    LowestFirst(141, 49, 52, 224);
    HeaderRoundTrip(r, []);
    assert HeaderBytes(r) + [] == [141, 49, 52, 224, 0, 8, 6];
  }

  /** The record that deletes "name". */
  lemma {:induction false} DeletionOnDisk()
    ensures RecordBytes(LogRecord(Ascii("name"), [], DELETED)) == [189, 247, 47, 168, 1, 8, 0] + Ascii("name")
    ensures DecodeLogRecordHeader([189, 247, 47, 168, 1, 8, 0]) == HeaderOf(Header(2821715901, 1, 4, 0), 7)
  {
    hide VarintBytes, Crc32.Checksum, DecodeLogRecordHeader;
    var r := LogRecord(Ascii("name"), [], DELETED);
    SmallLength(4);
    SmallLength(0);
    assert HeaderTail(r) + r.key + r.value == [1, 8, 0, 110, 97, 109, 101];
    CrcExamples.NameDeleted();
    LowestFirst(189, 247, 47, 168);
    HeaderRoundTrip(r, []);
    assert HeaderBytes(r) + [] == [189, 247, 47, 168, 1, 8, 0];
  }

  lemma {:induction false} LowestFirst(a: byte, b: byte, c: byte, d: byte)
    ensures LittleEndian.ToBytes(a + 256 * (b + 256 * (c + 256 * d)), 4) == [a, b, c, d]
  {
    var x2 := c + 256 * d;
    var x1 := b + 256 * x2;
    assert LittleEndian.ToBytes(d, 1) == [d];
    assert LittleEndian.ToBytes(x2, 2) == [c] + LittleEndian.ToBytes(d, 1);
    assert LittleEndian.ToBytes(x1, 3) == [b] + LittleEndian.ToBytes(x2, 2);
  }

  /** How a write outside a batch, a deletion in one, and the end of one are stored. */
  lemma {:induction false} StoredOnDisk(key: Key, value: Value, seqNo: nat)
    requires 0 < seqNo < 128
    ensures Log.Stored(Record(0, key, value, Normal)) == LogRecord([0] + key, value, 0)
    ensures Log.Stored(Record(seqNo, key, [], Deleted)) == LogRecord([seqNo] + key, [], 1)
    ensures Log.Stored(FinishRecord(seqNo)) == LogRecord([seqNo] + Ascii("txn-fin"), [], 2)
  {
    assert TXN_FIN_KEY == Ascii("txn-fin");
  }

  lemma {:induction false} TwoDigits()
    ensures Itoa(12) == [49, 50]
  {
  }

  /** The finish marker of a merge of the files below 12. */
  lemma {:induction false} MarkerOnDisk()
    ensures FinishMarker(12) == LogRecord(Ascii("merge.finished"), Ascii("12"), 0)
  {
    TwoDigits();
    assert MERGE_FINISHED_KEY == Ascii("merge.finished");
    assert [49, 50] == Ascii("12");
  }

  /** A text, and the metadata of a hash, a set and a list of one element each. */
  lemma {:induction false} MetadataOnDisk(text: bytes)
    ensures StringBytes(0, text) == [0, 0] + text
    ensures MetadataBytes(Fresh(HASH, 5).(size := 1)) == [1, 0, 10, 2]
    ensures MetadataBytes(Fresh(SET, 5).(size := 1)) == [2, 0, 10, 2]
    ensures MetadataBytes(Pushed(Fresh(LIST, 5), false))
         == [3, 0, 10, 2] + UvarintBytes(0x7FFF_FFFF_FFFF_FFFF) + UvarintBytes(0x8000_0000_0000_0000)
  {
    hide VarintBytes, UvarintBytes;
    SmallLength(0);
    SmallLength(5);
    SmallLength(1);
  }

  /** The position of a record of 70 bytes at offset 3 of file 2, as a hint record stores it. */
  lemma {:induction false} HintOnDisk(key: Key)
    ensures Storage.HintRecord(key, Pos(2, 3, 70)) == LogRecord(key, [4, 6, 140, 1], 0)
  {
    SmallLength(2);
    SmallLength(3);
    assert UvarintBytes(140) == [140] + UvarintBytes(1) == [140, 1];
  }

  lemma {:induction false} NextByte(low: byte, rest: nat, n: nat)
    ensures LittleEndian.ToBytes(low + 256 * rest, n + 1) == [low] + LittleEndian.ToBytes(rest, n)
  {
    assert (low + 256 * rest) % 256 == low && (low + 256 * rest) / 256 == rest;
  }

  lemma {:induction false} TwoBytes(low: byte, high: byte, rest: nat, n: nat)
    ensures LittleEndian.ToBytes(low + 256 * (high + 256 * rest), n + 2) == [low, high] + LittleEndian.ToBytes(rest, n)
  {
    hide LittleEndian.ToBytes;
    NextByte(high, rest, n);
    NextByte(low, high + 256 * rest, n + 1);
  }

  lemma {:induction false} WordOnDisk()
    ensures LittleEndian.ToBytes(258, 8) == [2, 1, 0, 0, 0, 0, 0, 0]
    ensures LittleEndian.ToBytes(TWO_64 - 2, 8) == [254, 255, 255, 255, 255, 255, 255, 255]
  {
    hide LittleEndian.ToBytes;
    TwoBytes(2, 1, 0, 6);
    TwoBytes(0, 0, 0, 4);
    TwoBytes(0, 0, 0, 2);
    TwoBytes(0, 0, 0, 0);
    TwoBytes(254, 255, 0xFFFF_FFFF_FFFF, 6);
    TwoBytes(255, 255, 0xFFFF_FFFF, 4);
    TwoBytes(255, 255, 0xFFFF, 2);
    TwoBytes(255, 255, 0, 0);
    NoBytes();
  }

  lemma {:induction false} NoBytes()
    ensures LittleEndian.ToBytes(0, 0) == []
  {
  }

  /** The internal key of a field or member, and of an element: the key, the version, then field or index. */
  lemma {:induction false} InternalKeysOnDisk(key: bytes, field: bytes)
    ensures FieldKey(key, 258, field) == key + [2, 1, 0, 0, 0, 0, 0, 0] + field
    ensures FieldKey(key, -2, field) == key + [254, 255, 255, 255, 255, 255, 255, 255] + field
    ensures IndexKey(key, 258, TWO_64 - 2)
         == key + [2, 1, 0, 0, 0, 0, 0, 0] + [254, 255, 255, 255, 255, 255, 255, 255]
  {
    hide LittleEndian.ToBytes;
    WordOnDisk();
    assert -2 % TWO_64 == TWO_64 - 2;
  }
}
