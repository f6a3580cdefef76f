/** Metadata records and internal keys of the Redis structures: redis/meta.go. */
module RedisMeta {
  import opened Bytes
  import opened Varints
  import opened Wrappers
  import LittleEndian

  const STRING: byte := 0
  const HASH: byte := 1
  const SET: byte := 2
  const LIST: byte := 3

  const MAX_METADATA_SIZE: nat := 1 + MAX_VARINT_LEN_64 * 2 + MAX_VARINT_LEN_32
  const EXTRA_LIST_SIZE: nat := MAX_VARINT_LEN_64 * 2
  const INITIAL_LIST_MARK: nat := 0x7FFF_FFFF_FFFF_FFFF

  datatype Metadata = Metadata(dataType: byte, expire: int, version: int, size: nat, head: nat, tail: nat)

  /** The integer widths of the fields; head and tail belong to lists only. */
  predicate InRange(md: Metadata) {
    && -TWO_63 <= md.expire < TWO_63 && -TWO_63 <= md.version < TWO_63
    && md.size < TWO_32 && md.head < TWO_64 && md.tail < TWO_64
    && (md.dataType != LIST ==> md.head == 0 && md.tail == 0)
  }

  function MetadataBytes(md: Metadata): bytes {
    [md.dataType] + VarintBytes(md.expire) + VarintBytes(md.version) + VarintBytes(md.size)
    + if md.dataType == LIST then UvarintBytes(md.head) + UvarintBytes(md.tail) else []
  }

  /** The largest metadata of a list, and of anything else. */
  lemma {:induction false} BuffersAreTight(dataType: byte)
    ensures
      var rest := if dataType == LIST then TWO_64 - 1 else 0;
      var md := Metadata(dataType, -TWO_63, -TWO_63, TWO_32 - 1, rest, rest);
      && InRange(md)
      && |MetadataBytes(md)| == (if dataType == LIST then 46 else 26)
      && |MetadataBytes(md)| == MAX_METADATA_SIZE + (if dataType == LIST then EXTRA_LIST_SIZE else 0)
  {
    hide UvarintBytes;
    VarintFits64(-TWO_63);
    VarintFits32(TWO_32 - 1);
    UvarintFits64(TWO_64 - 1);
    TenBytes(Zigzag(-TWO_63));
    TenBytes(TWO_64 - 1);
    FiveBytes(Zigzag(TWO_32 - 1));
  }

  /** Appends a varint to what is filled of a buffer. */
  method AddVarint(buf: array<byte>, index: nat, x: int) returns (next: nat)
    requires index + |VarintBytes(x)| <= buf.Length
    modifies buf
    ensures next == index + |VarintBytes(x)| && buf[..next] == old(buf[..index]) + VarintBytes(x)
  {
    hide VarintBytes;
    var n := PutVarint(buf, index, x);
    next := index + n;
    assert buf[..next] == buf[..index] + buf[index..index + n];
  }

  method AddUvarint(buf: array<byte>, index: nat, x: nat) returns (next: nat)
    requires index + |UvarintBytes(x)| <= buf.Length
    modifies buf
    ensures next == index + |UvarintBytes(x)| && buf[..next] == old(buf[..index]) + UvarintBytes(x)
  {
    hide UvarintBytes;
    var n := PutUvarint(buf, index, x);
    next := index + n;
    assert buf[..next] == buf[..index] + buf[index..index + n];
  }

  /** `encode`: the buffer of 26 bytes, or 46 for a list, is always large enough. */
  method Encode(md: Metadata) returns (enc: bytes)
    requires InRange(md)
    ensures enc == MetadataBytes(md)
  {
    hide VarintBytes, UvarintBytes;
    VarintFits64(md.expire);
    VarintFits64(md.version);
    VarintFits32(md.size);
    UvarintFits64(md.head);
    UvarintFits64(md.tail);
    var size := MAX_METADATA_SIZE;
    if md.dataType == LIST {
      size := size + EXTRA_LIST_SIZE;
    }
    var buf := new byte[size];
    buf[0] := md.dataType;
    assert buf[..1] == [md.dataType];
    var index := AddVarint(buf, 1, md.expire);
    index := AddVarint(buf, index, md.version);
    index := AddVarint(buf, index, md.size);
    if md.dataType == LIST {
      index := AddUvarint(buf, index, md.head);
      index := AddUvarint(buf, index, md.tail);
    }
    return buf[..index];
  }

  /** A value read and the cursor after it; an overflowing varint moves the cursor back. */
  datatype Cursor = Cursor(value: int, index: int)

  /** `binary.Varint(buf[index:])`; a slice from outside the buffer is a run-time panic. */
  function ReadVarint(buf: bytes, index: int): Option<Cursor> {
    if 0 <= index <= |buf| then
      var d := Varint(buf[index..]);
      Some(Cursor(d.value, index + d.n))
    else None
  }

  function ReadUvarint(buf: bytes, index: int): Option<Cursor> {
    if 0 <= index <= |buf| then
      var d := Uvarint(buf[index..]);
      Some(Cursor(d.value, index + d.n))
    else None
  }

  function ToUint(x: int): nat {
    if x < 0 then 0 else x
  }

  /** `decodeMedtadata` on any stored value; nothing stands for a run-time panic. */
  function Decode(buf: bytes): Option<Metadata> {
    if |buf| == 0 then None else
    var e := ReadVarint(buf, 1);
    if e.None? then None else
    var v := ReadVarint(buf, e.value.index);
    if v.None? then None else
    var s := ReadVarint(buf, v.value.index);
    if s.None? then None else
    var size := s.value.value % TWO_32;
    if buf[0] != LIST then Some(Metadata(buf[0], e.value.value, v.value.value, size, 0, 0))
    else
      var h := ReadUvarint(buf, s.value.index);
      if h.None? then None else
      var t := ReadUvarint(buf, h.value.index);
      if t.None? then None
      else Some(Metadata(buf[0], e.value.value, v.value.value, size, ToUint(h.value.value), ToUint(t.value.value)))
  }

  /** `decodeMedtadata`, advancing its cursor. */
  method DecodeMetadata(buf: bytes) returns (md: Option<Metadata>)
    ensures md == Decode(buf)
  {
    hide ReadVarint, ReadUvarint;
    if |buf| == 0 {
      return None;
    }
    var dataType := buf[0];
    var expire := ReadVarint(buf, 1);
    if expire.None? {
      return None;
    }
    var version := ReadVarint(buf, expire.value.index);
    if version.None? {
      return None;
    }
    var size := ReadVarint(buf, version.value.index);
    if size.None? {
      return None;
    }
    var head, tail := 0, 0;
    if dataType == LIST {
      var h := ReadUvarint(buf, size.value.index);
      if h.None? {
        return None;
      }
      var t := ReadUvarint(buf, h.value.index);
      if t.None? {
        return None;
      }
      head, tail := ToUint(h.value.value), ToUint(t.value.value);
    }
    return Some(Metadata(dataType, expire.value.value, version.value.value, size.value.value % TWO_32, head, tail));
  }

  lemma {:induction false} ReadsVarint(buf: bytes, index: nat, x: int, rest: bytes)
    requires -TWO_63 <= x < TWO_63 && index <= |buf| && buf[index..] == VarintBytes(x) + rest
    ensures ReadVarint(buf, index) == Some(Cursor(x, index + |VarintBytes(x)|))
    ensures index + |VarintBytes(x)| <= |buf| && buf[index + |VarintBytes(x)|..] == rest
  {
    hide VarintBytes;
    SkipVarint(x, rest);
    assert buf[index..][|VarintBytes(x)|..] == buf[index + |VarintBytes(x)|..];
  }

  lemma {:induction false} ReadsUvarint(buf: bytes, index: nat, x: nat, rest: bytes)
    requires x < TWO_64 && index <= |buf| && buf[index..] == UvarintBytes(x) + rest
    ensures ReadUvarint(buf, index) == Some(Cursor(x, index + |UvarintBytes(x)|))
    ensures index + |UvarintBytes(x)| <= |buf| && buf[index + |UvarintBytes(x)|..] == rest
  {
    hide UvarintBytes;
    SkipUvarint(x, rest);
    assert buf[index..][|UvarintBytes(x)|..] == buf[index + |UvarintBytes(x)|..];
  }

  /** The three signed fields, then the cursor is at the list marks. */
  lemma {:induction false} FieldsRead(md: Metadata, marks: bytes, buf: bytes, at: nat)
    requires InRange(md)
    requires buf
          == [md.dataType] + (VarintBytes(md.expire) + (VarintBytes(md.version) + (VarintBytes(md.size) + marks)))
    requires at == 1 + |VarintBytes(md.expire)| + |VarintBytes(md.version)| + |VarintBytes(md.size)|
    ensures
      var e := ReadVarint(buf, 1);
      e.Some? && e.value.value == md.expire &&
      var v := ReadVarint(buf, e.value.index);
      v.Some? && v.value.value == md.version &&
      var s := ReadVarint(buf, v.value.index);
      s == Some(Cursor(md.size, at))
    ensures at <= |buf| && buf[at..] == marks
  {
    hide VarintBytes, UvarintBytes, ReadVarint;
    var e, v, s := VarintBytes(md.expire), VarintBytes(md.version), VarintBytes(md.size);
    assert buf[1..] == e + (v + (s + marks));
    ReadsVarint(buf, 1, md.expire, v + (s + marks));
    ReadsVarint(buf, 1 + |e|, md.version, s + marks);
    ReadsVarint(buf, 1 + |e| + |v|, md.size, marks);
  }

  lemma {:induction false} MarksRead(md: Metadata, buf: bytes, at: nat)
    requires InRange(md) && at <= |buf| && buf[at..] == UvarintBytes(md.head) + UvarintBytes(md.tail)
    ensures
      var h := ReadUvarint(buf, at);
      h.Some? && h.value.value == md.head &&
      var t := ReadUvarint(buf, h.value.index);
      t.Some? && t.value.value == md.tail
  {
    hide UvarintBytes, ReadUvarint;
    ReadsUvarint(buf, at, md.head, UvarintBytes(md.tail));
    assert UvarintBytes(md.tail) + [] == UvarintBytes(md.tail);
    ReadsUvarint(buf, at + |UvarintBytes(md.head)|, md.tail, []);
  }

  /** Metadata is read back as it was written, over the whole range of its fields. */
  lemma {:induction false} MetadataRoundTrip(md: Metadata)
    requires InRange(md)
    ensures Decode(MetadataBytes(md)) == Some(md)
  {
    hide VarintBytes, UvarintBytes, ReadVarint, ReadUvarint;
    var buf := MetadataBytes(md);
    var marks := if md.dataType == LIST then UvarintBytes(md.head) + UvarintBytes(md.tail) else [];
    var e, v, s := VarintBytes(md.expire), VarintBytes(md.version), VarintBytes(md.size);
    assert buf == [md.dataType] + (e + (v + (s + marks)));
    FieldsRead(md, marks, buf, 1 + |e| + |v| + |s|);
    if md.dataType == LIST {
      MarksRead(md, buf, 1 + |e| + |v| + |s|);
    }
  }

  // ---------------------------------------------------------------- string values read as metadata

  /** What `Set` stores: the type byte, the expiry as a varint, the text. */
  function StringBytes(expire: int, text: bytes): (s: bytes)
    ensures s != []
  {
    [STRING] + VarintBytes(expire) + text
  }

  /** `Set`'s encoding: a scratch buffer of eleven bytes, then a buffer of the exact length. */
  method EncodeString(expire: int, text: bytes) returns (enc: bytes)
    requires -TWO_63 <= expire < TWO_63
    ensures enc == StringBytes(expire, text)
  {
    hide VarintBytes;
    VarintFits64(expire);
    var buf := new byte[MAX_VARINT_LEN_64 + 1];
    buf[0] := STRING;
    assert buf[..1] == [STRING];
    var index := AddVarint(buf, 1, expire);
    return buf[..index] + text;
  }

  /** The cursor after the varint that `decodeMedtadata` takes for the version would lie before the buffer. */
  predicate TextPanics(expire: int, text: bytes) {
    1 + |VarintBytes(expire)| + Varint(text).n < 0
  }

  /**
   * A string read as metadata: the decoder panics if and only if the text begins like a varint that overflows
   * and is longer than type and expiry together; otherwise it sees the type of a string.
   */
  lemma {:induction false} StringDecodes(expire: int, text: bytes)
    requires -TWO_63 <= expire < TWO_63
    ensures Decode(StringBytes(expire, text)).None? <==> TextPanics(expire, text)
    ensures Decode(StringBytes(expire, text)).Some? ==> Decode(StringBytes(expire, text)).value.dataType == STRING
  {
    hide VarintBytes, Varint;
    var buf := StringBytes(expire, text);
    assert buf[1..] == VarintBytes(expire) + text;
    ReadsVarint(buf, 1, expire, text);
  }

  /** Such a text: `Set(key, 0, text)` is accepted, and any later hash, set or list command on the key panics. */
  const OVERFLOWING_TEXT: bytes := [255, 255, 255, 255, 255, 255, 255, 255, 255, 2]

  lemma {:induction false} OverflowingTextPanics()
    ensures Varint(OVERFLOWING_TEXT).n == -10
    ensures TextPanics(0, OVERFLOWING_TEXT) && Decode(StringBytes(0, OVERFLOWING_TEXT)) == None
  {
    var t := OVERFLOWING_TEXT;
    TenthByteOverflows(t, 0, 0, 1);
    StringDecodes(0, t);
  }

  /** From any of the nine leading bytes on, the loop of `Uvarint` ends in the overflow at the tenth. */
  lemma {:induction false} TenthByteOverflows(buf: bytes, i: nat, acc: nat, scale: nat)
    requires i <= 9 && buf == OVERFLOWING_TEXT[i..]
    ensures UvarintFrom(buf, i, acc, scale) == Decoded(0, -10)
    decreases 9 - i
  {
    if i < 9 {
      assert buf[1..] == OVERFLOWING_TEXT[i + 1..];
      TenthByteOverflows(buf[1..], i + 1, acc + (buf[0] - 128) * scale, scale * 128);
    }
  }

  // ---------------------------------------------------------------- internal keys

  /** `uint64(version)`. */
  function VersionBytes(version: int): (b: bytes)
    ensures |b| == 8
  {
    LittleEndian.ToBytes(version % TWO_64, 8)
  }

  function Signed(x: nat): int {
    if x < TWO_63 then x else x - TWO_64
  }

  /** What precedes field or index in the internal keys of one version of a structure. */
  function Prefix(key: bytes, version: int): (p: bytes)
    ensures |p| == |key| + 8
  {
    key + VersionBytes(version)
  }

  /** `hashInternalKey.enocde` and `setInternalKey.enocde`. */
  function FieldKey(key: bytes, version: int, field: bytes): (k: bytes)
    ensures |k| == |key| + 8 + |field|
  {
    Prefix(key, version) + field
  }

  /** `listInternalKey.encode`. */
  function IndexKey(key: bytes, version: int, index: nat): (k: bytes)
    ensures |k| == |key| + 16
  {
    Prefix(key, version) + LittleEndian.ToBytes(index, 8)
  }

  /** `decodeHashInternalKey`. */
  function DecodeFieldKey(encKey: bytes, keyLen: nat): (bytes, int, bytes)
    requires |encKey| >= keyLen + 8
  {
    (encKey[..keyLen], Signed(LittleEndian.FromBytes(encKey[keyLen..keyLen + 8]) % TWO_64), encKey[keyLen + 8..])
  }

  /** Copies bytes to an index of the buffer. */
  method Copy(buf: array<byte>, at: nat, part: bytes)
    requires at + |part| <= buf.Length
    modifies buf
    ensures buf[at..at + |part|] == part
    ensures buf[..at] == old(buf[..at])
  {
    forall i | 0 <= i < |part| {
      buf[at + i] := part[i];
    }
  }

  /** `enocde` of hash and set keys: key, eight bytes of version, field. */
  method EncodeFieldKey(key: bytes, version: int, field: bytes) returns (enc: bytes)
    ensures enc == FieldKey(key, version, field)
  {
    var buf := new byte[8 + |key| + |field|];
    Copy(buf, 0, key);
    assert buf[..|key|] == key;
    LittleEndian.PutUint(buf, |key|, version % TWO_64, 8);
    assert buf[..|key| + 8] == buf[..|key|] + buf[|key|..|key| + 8];
    Copy(buf, |key| + 8, field);
    assert buf[..] == buf[..|key| + 8] + buf[|key| + 8..|key| + 8 + |field|];
    return buf[..];
  }

  /** `encodePrefix`. */
  method EncodePrefix(key: bytes, version: int) returns (enc: bytes)
    ensures enc == Prefix(key, version)
  {
    var buf := new byte[8 + |key|];
    Copy(buf, 0, key);
    assert buf[..|key|] == key;
    LittleEndian.PutUint(buf, |key|, version % TWO_64, 8);
    assert buf[..] == buf[..|key|] + buf[|key|..|key| + 8];
    return buf[..];
  }

  /** `encode` of list keys: key, version, index. */
  method EncodeIndexKey(key: bytes, version: int, index: nat) returns (enc: bytes)
    ensures enc == IndexKey(key, version, index)
  {
    var buf := new byte[8 + 8 + |key|];
    Copy(buf, 0, key);
    assert buf[..|key|] == key;
    LittleEndian.PutUint(buf, |key|, version % TWO_64, 8);
    assert buf[..|key| + 8] == buf[..|key|] + buf[|key|..|key| + 8];
    LittleEndian.PutUint(buf, |key| + 8, index, 8);
    assert buf[..] == buf[..|key| + 8] + buf[|key| + 8..|key| + 8 + 8];
    return buf[..];
  }

  lemma {:induction false} VersionRoundTrip(version: int)
    requires -TWO_63 <= version < TWO_63
    ensures Signed(LittleEndian.FromBytes(VersionBytes(version)) % TWO_64) == version
  {
    hide LittleEndian.ToBytes, LittleEndian.FromBytes, LittleEndian.Pow256;
    var u := version % TWO_64;
    assert u == if version >= 0 then version else version + TWO_64;
    LittleEndian.Widths();
    LittleEndian.RoundTrip(u, 8);
  }

  /** An internal key is taken apart into the key, version and field it was made of. */
  lemma {:induction false} FieldKeyRoundTrip(key: bytes, version: int, field: bytes)
    requires -TWO_63 <= version < TWO_63
    ensures DecodeFieldKey(FieldKey(key, version, field), |key|) == (key, version, field)
  {
    var enc := FieldKey(key, version, field);
    assert enc[..|key|] == key && enc[|key|..|key| + 8] == VersionBytes(version) && enc[|key| + 8..] == field;
    VersionRoundTrip(version);
  }

  /** Within one key, different versions or fields give different internal keys. */
  lemma {:induction false} FieldKeyInjective(key: bytes, v: int, f: bytes, w: int, g: bytes)
    requires -TWO_63 <= v < TWO_63 && -TWO_63 <= w < TWO_63 && FieldKey(key, v, f) == FieldKey(key, w, g)
    ensures v == w && f == g
  {
    hide FieldKey, DecodeFieldKey;
    FieldKeyRoundTrip(key, v, f);
    FieldKeyRoundTrip(key, w, g);
  }

  lemma {:induction false} IndexKeyInjective(key: bytes, v: int, i: nat, j: nat)
    requires i < TWO_64 && j < TWO_64 && IndexKey(key, v, i) == IndexKey(key, v, j)
    ensures i == j
  {
    hide Prefix;
    var p := Prefix(key, v);
    assert IndexKey(key, v, i)[|p|..] == LittleEndian.ToBytes(i, 8);
    assert IndexKey(key, v, j)[|p|..] == LittleEndian.ToBytes(j, 8);
    LittleEndian.Widths();
    LittleEndian.RoundTrip(i, 8);
    LittleEndian.RoundTrip(j, 8);
  }

  // ---------------------------------------------------------------- isolation of user keys

  /** Neither key is a prefix of the other. */
  predicate Apart(a: bytes, b: bytes) {
    !HasPrefix(a, b) && !HasPrefix(b, a)
  }

  lemma {:induction false} CommonPrefix(a: bytes, b: bytes, s: bytes)
    requires HasPrefix(s, a) && HasPrefix(s, b)
    ensures !Apart(a, b)
  {
    if |a| <= |b| {
      assert b[..|a|] == s[..|b|][..|a|] == s[..|a|];
    } else {
      assert a[..|b|] == s[..|a|][..|b|] == s[..|b|];
    }
  }

  /** Nothing that belongs to one of two keys that are apart belongs to the other. */
  lemma {:induction false} ApartRegions(a: bytes, b: bytes, s: bytes)
    requires Apart(a, b) && HasPrefix(s, a)
    ensures !HasPrefix(s, b)
  {
    if HasPrefix(s, b) {
      CommonPrefix(a, b, s);
    }
  }
}
