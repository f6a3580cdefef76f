/** What the scan makes of a record that was written only in part: data/data_file.go. */
module TornTails {
  import opened Bytes
  import opened Varints
  import opened Wrappers
  import opened LogRecords
  import opened DataFiles
  import Crc32
  import LittleEndian

  // ---------------------------------------------------------------- lengths cut short

  /** A varint that is cut short reads as nothing, and the cursor stays where it is. */
  lemma {:induction false} CutUvarint(x: nat, k: nat, i: nat, acc: nat, scale: nat)
    requires i <= 9 && x < Room(i) && k < |UvarintBytes(x)|
    ensures UvarintFrom(UvarintBytes(x)[..k], i, acc, scale) == Decoded(0, 0)
    decreases x
  {
    if k > 0 {
      var s := UvarintBytes(x);
      assert x >= 128 && i < 9 && x / 128 < Room(i + 1);
      assert s[..k][0] == x % 128 + 128;
      assert s[..k][1..] == UvarintBytes(x / 128)[..k - 1];
      CutUvarint(x / 128, k - 1, i + 1, acc + (x % 128) * scale, scale * 128);
    }
  }

  lemma {:induction false} CutVarint(x: int, k: nat)
    requires -TWO_63 <= x < TWO_63 && k < |VarintBytes(x)|
    ensures Varint(VarintBytes(x)[..k]) == Decoded(0, 0)
  {
    CutUvarint(Zigzag(x), k, 0, 0, 1);
  }

  /** Where the key length ends in the record. */
  function KeyLengthEnd(r: LogRecord): nat {
    5 + |VarintBytes(|r.key|)|
  }

  /** What is left of a record that is cut inside type and lengths. */
  function TornTail(r: LogRecord, cut: nat): bytes
    requires 5 <= cut < |HeaderBytes(r)|
  {
    [r.typ] + (VarintBytes(|r.key|) + VarintBytes(|r.value|))[..cut - 5]
  }

  lemma {:induction false} TornSplits(r: LogRecord, cut: nat)
    requires 5 <= cut < |HeaderBytes(r)|
    ensures RecordBytes(r)[..cut] == LittleEndian.ToBytes(RecordCrc(r), 4) + TornTail(r, cut)
  {
    hide RecordCrc, LittleEndian.ToBytes, VarintBytes;
    var crc, lengths := LittleEndian.ToBytes(RecordCrc(r), 4), VarintBytes(|r.key|) + VarintBytes(|r.value|);
    assert HeaderTail(r) == [r.typ] + lengths;
    assert RecordBytes(r)[..cut] == HeaderBytes(r)[..cut] == crc + ([r.typ] + lengths)[..cut - 4];
    assert ([r.typ] + lengths)[..cut - 4] == [r.typ] + lengths[..cut - 5];
  }

  /** The header that is decoded from such a tail. */
  lemma {:induction false} TornHeader(r: LogRecord, cut: nat, torn: bytes)
    requires Encodable(r) && 5 <= cut < |HeaderBytes(r)|
    requires torn == LittleEndian.ToBytes(RecordCrc(r), 4) + TornTail(r, cut)
    ensures DecodeLogRecordHeader(torn)
         == if cut < KeyLengthEnd(r) then HeaderOf(Header(RecordCrc(r), r.typ, 0, 0), 5)
            else HeaderOf(Header(RecordCrc(r), r.typ, |r.key|, 0), KeyLengthEnd(r))
  {
    hide VarintBytes, Varint, LittleEndian.ToBytes, LittleEndian.FromBytes, RecordCrc;
    var keyPart, valuePart := VarintBytes(|r.key|), VarintBytes(|r.value|);
    assert torn[..4] == LittleEndian.ToBytes(RecordCrc(r), 4) && torn[4] == r.typ;
    LittleEndian.Widths();
    LittleEndian.RoundTrip(RecordCrc(r), 4);
    assert torn[5..] == (keyPart + valuePart)[..cut - 5];
    if cut < KeyLengthEnd(r) {
      assert torn[5..] == keyPart[..cut - 5];
      CutVarint(|r.key|, cut - 5);
    } else {
      var left := valuePart[..cut - 5 - |keyPart|];
      assert torn[5..] == keyPart + left;
      SkipVarint(|r.key|, left);
      assert torn[5 + |keyPart|..] == torn[5..][|keyPart|..] == left;
      CutVarint(|r.value|, |left|);
    }
  }

  // ---------------------------------------------------------------- the outcome for every cut

  /** What a read makes of the tail of a record that was cut after so many bytes. */
  function TornOutcome(r: LogRecord, cut: nat): Result<Read, ReadError>
    requires cut < |RecordBytes(r)|
  {
    if cut <= 4 || cut >= |HeaderBytes(r)| then Err(EOF)
    else if cut < KeyLengthEnd(r) then
      if RecordCrc(r) == 0 then Err(EOF)
      else if Crc32.Checksum([r.typ]) != RecordCrc(r) then Err(InvalidCRC)
      else Ok(Read(LogRecord([], [], r.typ), 5))
    else
      var left := VarintBytes(|r.value|)[..cut - KeyLengthEnd(r)];
      if |r.key| > |left| then Err(EOF)
      else
        var phantom := LogRecord(left[..|r.key|], [], r.typ);
        if GetLogRecordCRC(phantom, [r.typ] + VarintBytes(|r.key|)) != RecordCrc(r) then Err(InvalidCRC)
        else Ok(Read(phantom, KeyLengthEnd(r) + |r.key|))
  }

  lemma {:induction false} NothingDecodes(window: bytes)
    requires |window| <= 4
    ensures DecodeLogRecordHeader(window) == NoHeader
  {
  }

  lemma {:induction false} TornPayload(before: bytes, r: LogRecord, cut: nat)
    requires Writable(r) && |HeaderBytes(r)| <= cut < |RecordBytes(r)|
    ensures ReadAt(before + RecordBytes(r)[..cut], |before|) == Err(EOF)
  {
    hide DecodeLogRecordHeader, GetLogRecordCRC, RecordCrc, HeaderTail;
    var torn, header := RecordBytes(r)[..cut], HeaderBytes(r);
    HeaderFits(r);
    var payload := torn[|header|..];
    assert torn == header + payload;
    WindowHoldsHeader(before, header, payload);
    HeaderRoundTrip(r, payload[..WindowSize(before + torn, |before|) - |header|]);
  }

  /** A read with its header decoded. */
  lemma {:induction false} ReadOfTail(before: bytes, torn: bytes, h: Header, headerSize: nat)
    requires 5 <= |torn| <= MAX_HEADER_SIZE && DecodeLogRecordHeader(torn) == HeaderOf(h, headerSize)
    ensures ReadAt(before + torn, |before|) == ReadPayload(torn, torn, h, headerSize)
  {
    hide DecodeLogRecordHeader, ReadPayload;
    assert (before + torn)[|before|..] == torn && torn[..|torn|] == torn;
  }

  /** Cut inside the key length: both lengths read as zero. */
  lemma {:induction false} TornKeyLength(r: LogRecord, cut: nat, torn: bytes)
    requires 5 <= cut < KeyLengthEnd(r) && cut < |HeaderBytes(r)| <= |RecordBytes(r)|
    requires torn == LittleEndian.ToBytes(RecordCrc(r), 4) + TornTail(r, cut)
    ensures ReadPayload(torn, torn, Header(RecordCrc(r), r.typ, 0, 0), 5) == TornOutcome(r, cut)
  {
    hide GetLogRecordCRC, RecordCrc, VarintBytes, LittleEndian.ToBytes, HeaderBytes, RecordBytes;
    assert torn[4..5] == [r.typ] && torn[5..5] == [];
    NoPayloadCrc(LogRecord([], [], r.typ), [r.typ]);
  }

  /** Cut inside the value length: the key would start there, and the value has no length. */
  lemma {:induction false} TornValueLength(r: LogRecord, cut: nat, torn: bytes)
    requires Writable(r) && KeyLengthEnd(r) <= cut < |HeaderBytes(r)| <= |RecordBytes(r)|
    requires torn == LittleEndian.ToBytes(RecordCrc(r), 4) + TornTail(r, cut)
    ensures ReadPayload(torn, torn, Header(RecordCrc(r), r.typ, |r.key|, 0), KeyLengthEnd(r)) == TornOutcome(r, cut)
  {
    hide GetLogRecordCRC, RecordCrc, VarintBytes, LittleEndian.ToBytes, RecordBytes;
    var keyPart, end := VarintBytes(|r.key|), KeyLengthEnd(r);
    var left := VarintBytes(|r.value|)[..cut - end];
    assert torn[4..end] == [r.typ] + keyPart;
    assert torn[end..] == left;
    if |r.key| <= |left| {
      var kv := torn[end..end + |r.key| + 0];
      assert kv == left[..|r.key|] && kv[..|r.key|] == kv && kv[|r.key|..] == [];
    }
  }

  lemma {:induction false} TornLengths(before: bytes, r: LogRecord, cut: nat)
    requires Writable(r) && 5 <= cut < |HeaderBytes(r)| <= |RecordBytes(r)|
    ensures ReadAt(before + RecordBytes(r)[..cut], |before|) == TornOutcome(r, cut)
  {
    hide DecodeLogRecordHeader, TornOutcome, TornTail, RecordBytes, HeaderBytes, ReadPayload, VarintBytes;
    var torn := RecordBytes(r)[..cut];
    HeaderFits(r);
    TornSplits(r, cut);
    TornHeader(r, cut, torn);
    if cut < KeyLengthEnd(r) {
      ReadOfTail(before, torn, Header(RecordCrc(r), r.typ, 0, 0), 5);
      TornKeyLength(r, cut, torn);
    } else {
      ReadOfTail(before, torn, Header(RecordCrc(r), r.typ, |r.key|, 0), KeyLengthEnd(r));
      TornValueLength(r, cut, torn);
    }
  }

  lemma {:induction false} NoPayloadCrc(r: LogRecord, headerTail: bytes)
    requires r.key == [] && r.value == []
    ensures GetLogRecordCRC(r, headerTail) == Crc32.Checksum(headerTail)
  {
    hide Crc32.Step;
  }

  /** The read at a torn tail, for every cut and whatever lies before it. */
  lemma {:induction false} TornRead(before: bytes, r: LogRecord, cut: nat)
    requires Writable(r) && cut < |RecordBytes(r)|
    ensures ReadAt(before + RecordBytes(r)[..cut], |before|) == TornOutcome(r, cut)
  {
    hide TornOutcome, DecodeLogRecordHeader, RecordBytes, HeaderBytes;
    if cut <= 4 {
      var content := before + RecordBytes(r)[..cut];
      NothingDecodes(content[|before|..][..WindowSize(content, |before|)]);
      OutcomeOutside(r, cut);
    } else if cut >= |HeaderBytes(r)| {
      TornPayload(before, r, cut);
      OutcomeOutside(r, cut);
    } else {
      HeaderInside(r);
      TornLengths(before, r, cut);
    }
  }

  lemma {:induction false} HeaderInside(r: LogRecord)
    ensures |RecordBytes(r)| == |HeaderBytes(r)| + |r.key| + |r.value|
  {
  }

  lemma {:induction false} OutcomeOutside(r: LogRecord, cut: nat)
    requires cut < |RecordBytes(r)| && (cut <= 4 || cut >= |HeaderBytes(r)|)
    ensures TornOutcome(r, cut) == Err(EOF)
  {
  }

  // ---------------------------------------------------------------- whole files

  /** Any bytes after whole records do not disturb the scan of those records. */
  lemma {:induction false} ScanGoesOn(before: bytes, records: seq<LogRecord>, tail: bytes)
    requires forall i :: 0 <= i < |records| ==> Writable(records[i])
    ensures
      var content, end := before + FileBytes(records) + tail, |before| + |FileBytes(records)|;
      var rest := Scan(content, end);
      Scan(content, |before|) == Scanned(Locate(records, |before|) + rest.records, rest.end, rest.why)
    decreases |records|
  {
    hide ReadAt, RecordBytes, FileBytes, Scan;
    var content := before + FileBytes(records) + tail;
    if |records| == 0 {
      NoBytes(records);
      var rest := Scan(content, |before|);
      assert [] + rest.records == rest.records;
    } else {
      var first, rest := RecordBytes(records[0]), records[1..];
      FileBytesHead(records);
      assert content == before + first + FileBytes(rest) + tail == before + first + (FileBytes(rest) + tail);
      ReadsBack(before, records[0], FileBytes(rest) + tail);
      ScanStep(content, |before|, records[0], |first|);
      ScanGoesOn(before + first, rest, tail);
      var end := Scan(content, |before| + |FileBytes(records)|);
      var located := Located(records[0], |before|, |first|);
      assert [located] + (Locate(rest, |before + first|) + end.records) == Locate(records, |before|) + end.records;
    }
  }

  lemma {:induction false} NoBytes(records: seq<LogRecord>)
    requires |records| == 0
    ensures FileBytes(records) == [] && Locate(records, 0) == []
  {
  }

  lemma {:induction false} ScanStep(content: bytes, offset: nat, r: LogRecord, size: nat)
    requires offset <= |content| && ReadAt(content, offset) == Ok(Read(r, size))
    ensures offset + size <= |content|
    ensures
      var rest := Scan(content, offset + size);
      Scan(content, offset) == Scanned([Located(r, offset, size)] + rest.records, rest.end, rest.why)
  {
    hide ReadAt;
  }

  /**
   * A file with a torn last record is taken for exactly its whole records if and only if the read at the tear
   * says end of file; any other outcome is an error or a record that nobody wrote.
   */
  lemma {:induction false} TornTailIsDropped(records: seq<LogRecord>, r: LogRecord, cut: nat)
    requires forall i :: 0 <= i < |records| ==> Writable(records[i])
    requires Writable(r) && cut < |RecordBytes(r)|
    ensures
      var content := FileBytes(records) + RecordBytes(r)[..cut];
      && ReadAt(content, |FileBytes(records)|) == TornOutcome(r, cut)
      && (Scan(content, 0) == Scanned(Locate(records, 0), |FileBytes(records)|, EOF) <==>
        TornOutcome(r, cut) == Err(EOF))
      && (TornOutcome(r, cut).Err? ==>
        Scan(content, 0) == Scanned(Locate(records, 0), |FileBytes(records)|, TornOutcome(r, cut).error))
  {
    hide ReadAt, RecordBytes, TornOutcome, FileBytes;
    var torn, end := RecordBytes(r)[..cut], |FileBytes(records)|;
    TornRead(FileBytes(records), r, cut);
    ScanGoesOn([], records, torn);
    assert [] + FileBytes(records) + torn == FileBytes(records) + torn;
    var rest := Scan(FileBytes(records) + torn, end);
    if TornOutcome(r, cut).Ok? {
      assert |Locate(records, 0) + rest.records| > |Locate(records, 0)|;
    } else {
      assert Locate(records, 0) + [] == Locate(records, 0);
    }
  }

  // ---------------------------------------------------------------- a tail that is not dropped

  lemma {:induction false} XorZero(b: nat, n: nat)
    requires b < Crc32.Pow2(n)
    ensures Crc32.Xor(0, b, n) == b
  {
    if n > 0 {
      XorZero(b / 2, n - 1);
    }
  }

  lemma {:induction false} XorSame(a: nat, b: nat, n: nat)
    requires a < Crc32.Pow2(n) && b < Crc32.Pow2(n) && Crc32.Xor(a, b, n) == 0
    ensures a == b
  {
    if n > 0 {
      XorSame(a / 2, b / 2, n - 1);
    }
  }

  /** Where the low k bits agree, the exclusive or has none. */
  lemma {:induction false} XorLow(a: nat, b: nat, n: nat, k: nat)
    requires k <= n && Agree(a, b, k)
    ensures exists q: nat :: Crc32.Xor(a, b, n) == q * Crc32.Pow2(k)
  {
    if k == 0 {
      assert Crc32.Xor(a, b, n) == Crc32.Xor(a, b, n) * Crc32.Pow2(0);
    } else {
      XorLow(a / 2, b / 2, n - 1, k - 1);
      var q: nat :| Crc32.Xor(a / 2, b / 2, n - 1) == q * Crc32.Pow2(k - 1);
      assert 2 * (q * Crc32.Pow2(k - 1)) == q * (2 * Crc32.Pow2(k - 1));
      assert Crc32.Xor(a, b, n) == q * Crc32.Pow2(k);
    }
  }

  predicate Agree(a: nat, b: nat, k: nat) {
    k == 0 || (a % 2 == b % 2 && Agree(a / 2, b / 2, k - 1))
  }

  lemma {:induction false} AgreeModulo(a: nat, b: nat, k: nat, q: nat)
    requires a == b + q * Crc32.Pow2(k)
    ensures Agree(a, b, k)
  {
    if k > 0 {
      assert q * (2 * Crc32.Pow2(k - 1)) == 2 * (q * Crc32.Pow2(k - 1));
      AgreeModulo(a / 2, b / 2, k - 1, q);
    }
  }

  /** A byte that repeats the low byte of the register shifts the register and nothing else. */
  lemma {:induction false} StepOnItself(c: Crc32.uint32)
    ensures Crc32.Step(c, c % 256) == c / 256
  {
    hide Crc32.Xor, Agree, Crc32.ShiftBit;
    var b := c % 256;
    assert Crc32.Pow2(8) == 256 by {
      assert Crc32.Pow2(4) == 16;
    }
    Crc32.Pow2Of32();
    AgreeModulo(c, b, 8, c / 256);
    XorLow(c, b, 32, 8);
    var q: nat :| Crc32.Xor(c, b, 32) == q * Crc32.Pow2(8);
    assert Crc32.Xor32(c, b) % 256 == 0;
    ZeroEntry();
    XorZero(c / 256, 32);
  }

  lemma {:induction false} ZeroEntry()
    ensures Crc32.TableEntry(0) == 0
  {
    hide Crc32.Xor32;
  }

  lemma {:induction false} RegisterOnItself(c: Crc32.uint32, n: nat)
    requires c < LittleEndian.Pow256(n)
    ensures Crc32.Register(c, LittleEndian.ToBytes(c, n)) == 0
  {
    hide Crc32.Step;
    if n > 0 {
      StepOnItself(c);
      assert LittleEndian.ToBytes(c, n)[1..] == LittleEndian.ToBytes(c / 256, n - 1);
      RegisterOnItself(c / 256, n - 1);
    }
  }

  /** A shift that takes the polynomial in leaves the top bit set. */
  lemma {:induction false} ShiftTop(c: Crc32.uint32)
    ensures Crc32.ShiftBit(c) < 0x8000_0000 ==> Crc32.ShiftBit(c) * 2 == c
  {
    hide Crc32.Xor;
    Crc32.Pow2Of32();
    assert Crc32.Pow2(32) == 2 * Crc32.Pow2(31);
    if c % 2 == 1 {
      XorTop(Crc32.POLYNOMIAL, c / 2, 31);
    }
  }

  lemma {:induction false} XorTop(a: nat, b: nat, n: nat)
    requires b < Crc32.Pow2(n) <= a < 2 * Crc32.Pow2(n)
    ensures Crc32.Xor(a, b, n + 1) >= Crc32.Pow2(n)
  {
    if n > 0 {
      XorTop(a / 2, b / 2, n - 1);
    }
  }

  /** No single byte leaves a register of zero. */
  lemma {:induction false} OneByteNotZero(b: byte)
    ensures Crc32.Step(Crc32.MAX_UINT32, b) != 0
  {
    hide Crc32.Xor, Crc32.ShiftBit;
    var n := Crc32.Xor32(Crc32.MAX_UINT32, b) % 256;
    Crc32.Pow2Of32();
    if Crc32.Step(Crc32.MAX_UINT32, b) == 0 {
      XorSame(Crc32.TableEntry(n), 0xFF_FFFF, 32);
    }
    NoSuchEntry(n);
  }

  lemma {:induction false} NoSuchEntry(n: byte)
    ensures Crc32.TableEntry(n) != 0xFF_FFFF
  {
    hide Crc32.ShiftBit;
    var c1 := Crc32.ShiftBit(n);
    var c2 := Crc32.ShiftBit(c1);
    var c3 := Crc32.ShiftBit(c2);
    var c4 := Crc32.ShiftBit(c3);
    var c5 := Crc32.ShiftBit(c4);
    var c6 := Crc32.ShiftBit(c5);
    var c7 := Crc32.ShiftBit(c6);
    ShiftTop(n);
    ShiftTop(c1);
    ShiftTop(c2);
    ShiftTop(c3);
    ShiftTop(c4);
    ShiftTop(c5);
    ShiftTop(c6);
    ShiftTop(c7);
  }

  /** What the checksum register holds before the value of a record with a value of four bytes. */
  function BeforeValue(key: bytes, typ: byte): Crc32.uint32 {
    Crc32.Register(Crc32.MAX_UINT32, [typ] + VarintBytes(|key|) + VarintBytes(4) + key)
  }

  /** A record under any key whose value is those four bytes, lowest first. */
  function Blocking(key: bytes, typ: byte): LogRecord {
    LogRecord(key, LittleEndian.ToBytes(BeforeValue(key, typ), 4), typ)
  }

  lemma {:induction false} BlockingCrc(key: bytes, typ: byte)
    ensures RecordCrc(Blocking(key, typ)) == Crc32.MAX_UINT32
  {
    hide Crc32.Step, VarintBytes, LittleEndian.ToBytes;
    var r := Blocking(key, typ);
    Crc32.RegisterConcat(Crc32.MAX_UINT32, HeaderTail(r) + key, r.value);
    LittleEndian.Widths();
    RegisterOnItself(BeforeValue(key, typ), 4);
  }

  /**
   * The tear that stops an opening: under every key there is a value with which the record, cut right behind its
   * type byte, is neither end of file nor a record but a checksum error, so the scan of the file fails.
   */
  lemma {:induction false} BlockedByTornTail(records: seq<LogRecord>, key: bytes, typ: byte)
    requires forall i :: 0 <= i < |records| ==> Writable(records[i])
    requires 0 < |key| < TWO_32
    ensures
      var r := Blocking(key, typ);
      && Writable(r) && 5 < |RecordBytes(r)|
      && Scan(FileBytes(records) + RecordBytes(r)[..5], 0)
         == Scanned(Locate(records, 0), |FileBytes(records)|, InvalidCRC)
  {
    hide Crc32.Step, VarintBytes, LittleEndian.ToBytes, Scan, RecordCrc, ReadAt, FileBytes;
    var r := Blocking(key, typ);
    BlockingCrc(key, typ);
    HeaderFits(r);
    HeaderInside(r);
    OneByteNotZero(typ);
    var none := [typ][1..];
    assert none == [] && Crc32.Register(Crc32.MAX_UINT32, [typ]) == Crc32.Step(Crc32.MAX_UINT32, typ);
    assert Crc32.Checksum([typ]) != Crc32.MAX_UINT32;
    assert TornOutcome(r, 5) == Err(InvalidCRC);
    TornTailIsDropped(records, r, 5);
  }

  // ---------------------------------------------------------------- writes after a torn tail

  /** Whatever is read, its type is the byte behind the checksum. */
  lemma {:induction false} ReadKeepsType(content: bytes, offset: nat)
    requires offset <= |content| && ReadAt(content, offset).Ok?
    ensures offset + 4 < |content| && ReadAt(content, offset).value.record.typ == content[offset + 4]
  {
    hide Varint, LittleEndian.FromBytes, GetLogRecordCRC;
  }

  lemma {:induction false} AllOnes()
    ensures LittleEndian.ToBytes(Crc32.MAX_UINT32, 4) == [255, 255, 255, 255]
  {
    assert LittleEndian.ToBytes(0xFF_FFFF, 3) == [255] + LittleEndian.ToBytes(0xFFFF, 2);
    assert LittleEndian.ToBytes(0xFFFF, 2) == [255] + LittleEndian.ToBytes(0xFF, 1);
  }

  /** A record that cannot be read back at the start of a torn tail behind which it was written. */
  function Misplaced(r: LogRecord, cut: nat): LogRecord {
    if cut <= 4 then Blocking([1], NORMAL) else LogRecord([1], [], if r.typ == NORMAL then DELETED else NORMAL)
  }

  lemma {:induction false} MisplacedIsLost(before: bytes, r: LogRecord, cut: nat)
    requires 0 < cut < |RecordBytes(r)|
    ensures
      var x := Misplaced(r, cut);
      Writable(x) && ReadAt(before + RecordBytes(r)[..cut] + RecordBytes(x), |before|) != Ok(Read(x, |RecordBytes(x)|))
  {
    hide ReadAt, RecordCrc, VarintBytes, LittleEndian.ToBytes, Crc32.Register;
    var x, torn := Misplaced(r, cut), RecordBytes(r)[..cut];
    var content := before + torn + RecordBytes(x);
    if ReadAt(content, |before|).Ok? {
      ReadKeepsType(content, |before|);
    }
    if cut <= 4 {
      BlockingCrc([1], NORMAL);
      AllOnes();
      assert content[|before| + 4] == RecordBytes(x)[4 - cut] == LittleEndian.ToBytes(RecordCrc(x), 4)[4 - cut];
    } else {
      assert content[|before| + 4] == RecordBytes(r)[4] == r.typ;
    }
  }

  /**
   * After the opening the write offset is where the torn tail begins, but the file is opened for appending: what is
   * written next can be read back at its recorded position, whatever it is, if and only if nothing was torn off.
   */
  lemma {:induction false} WritesAfterTornTail(before: bytes, r: LogRecord, cut: nat)
    requires Writable(r) && cut < |RecordBytes(r)|
    ensures (forall x | Writable(x) ::
               ReadAt(before + RecordBytes(r)[..cut] + RecordBytes(x), |before|) == Ok(Read(x, |RecordBytes(x)|)))
       <==> cut == 0
  {
    hide ReadAt, RecordBytes;
    if cut == 0 {
      forall x | Writable(x)
        ensures ReadAt(before + RecordBytes(r)[..0] + RecordBytes(x), |before|) == Ok(Read(x, |RecordBytes(x)|))
      {
        ReadsBack(before, x, []);
        assert before + RecordBytes(r)[..0] + RecordBytes(x) == before + RecordBytes(x) + [];
      }
    } else {
      MisplacedIsLost(before, r, cut);
    }
  }
}
