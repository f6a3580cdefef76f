/** What a key-value map holds for each Redis key, and how single writes change that. */
module RedisModel {
  import opened Bytes
  import opened Varints
  import opened Wrappers
  import opened Log
  import opened KeyValue
  import opened RedisMeta

  datatype RedisError = WrongType | KeyExpired | Panic | Engine(error: KeyError)

  type Stored = map<Key, Value>

  /** The fields of a hash, members of a set or indices of a list that are stored for one version of a key. */
  function FieldNames(m: Stored, key: bytes, version: int): set<bytes> {
    set k | k in m && HasPrefix(k, Prefix(key, version)) :: k[|key| + 8..]
  }

  function Fields(m: Stored, key: bytes, version: int): map<bytes, Value> {
    map f | f in FieldNames(m, key, version) && FieldKey(key, version, f) in m :: m[FieldKey(key, version, f)]
  }

  lemma {:induction false} FieldStored(m: Stored, key: bytes, version: int, f: bytes)
    ensures f in FieldNames(m, key, version) <==> FieldKey(key, version, f) in m
    ensures f in Fields(m, key, version) <==> FieldKey(key, version, f) in m
    ensures f in Fields(m, key, version) ==> Fields(m, key, version)[f] == m[FieldKey(key, version, f)]
  {
    var p, k := Prefix(key, version), FieldKey(key, version, f);
    assert k[..|p|] == p && k[|p|..] == f;
    if f in FieldNames(m, key, version) {
      var s :| s in m && HasPrefix(s, p) && s[|key| + 8..] == f;
      assert s == s[..|p|] + s[|p|..] == k;
    }
  }

  lemma {:induction false} FieldsKeys(m: Stored, key: bytes, version: int)
    ensures Fields(m, key, version).Keys == FieldNames(m, key, version)
  {
    hide FieldNames, FieldKey;
    forall f ensures f in Fields(m, key, version) <==> f in FieldNames(m, key, version) {
      FieldStored(m, key, version, f);
    }
  }

  // ---------------------------------------------------------------- single writes

  /** Metadata is stored under the key itself, which is not among its own internal keys. */
  lemma {:induction false} MetadataApart(m: Stored, key: bytes, version: int, meta: Value)
    ensures Fields(m[key := meta], key, version) == Fields(m, key, version)
  {
    hide FieldKey, FieldNames;
    forall f ensures f in Fields(m[key := meta], key, version) <==> f in Fields(m, key, version)
      ensures f in Fields(m, key, version) && f in Fields(m[key := meta], key, version) ==>
        Fields(m[key := meta], key, version)[f] == Fields(m, key, version)[f]
    {
      FieldStored(m, key, version, f);
      FieldStored(m[key := meta], key, version, f);
    }
  }

  lemma {:induction false} FieldPut(m: Stored, key: bytes, version: int, field: bytes, value: Value)
    requires -TWO_63 <= version < TWO_63
    ensures Fields(m[FieldKey(key, version, field) := value], key, version) == Fields(m, key, version)[field := value]
  {
    hide FieldKey, FieldNames;
    var after := m[FieldKey(key, version, field) := value];
    forall f ensures f in Fields(after, key, version) <==> f in Fields(m, key, version)[field := value]
      ensures f in Fields(after, key, version) && f in Fields(m, key, version)[field := value] ==>
        Fields(after, key, version)[f] == Fields(m, key, version)[field := value][f]
    {
      FieldStored(m, key, version, f);
      FieldStored(after, key, version, f);
      if FieldKey(key, version, f) == FieldKey(key, version, field) {
        FieldKeyInjective(key, version, f, version, field);
      }
    }
  }

  lemma {:induction false} FieldDelete(m: Stored, key: bytes, version: int, field: bytes)
    requires -TWO_63 <= version < TWO_63
    ensures Fields(m - {FieldKey(key, version, field)}, key, version) == Fields(m, key, version) - {field}
  {
    hide FieldKey, FieldNames;
    var after := m - {FieldKey(key, version, field)};
    forall f ensures f in Fields(after, key, version) <==> f in Fields(m, key, version) - {field}
      ensures f in Fields(after, key, version) && f in Fields(m, key, version) - {field} ==>
        Fields(after, key, version)[f] == (Fields(m, key, version) - {field})[f]
    {
      FieldStored(m, key, version, f);
      FieldStored(after, key, version, f);
      if FieldKey(key, version, f) == FieldKey(key, version, field) {
        FieldKeyInjective(key, version, f, version, field);
      }
    }
  }

  // ---------------------------------------------------------------- what a key means

  /** The metadata of a hash, set or list, if that is what the key holds. */
  function MetaOf(m: Stored, key: bytes, dataType: byte): Option<Metadata> {
    if key in m && Decode(m[key]).Some? && Decode(m[key]).value.dataType == dataType then Decode(m[key]) else None
  }

  function HashOf(m: Stored, key: bytes): map<bytes, Value> {
    var md := MetaOf(m, key, HASH);
    if md.Some? then Fields(m, key, md.value.version) else map[]
  }

  function SetOf(m: Stored, key: bytes): set<bytes> {
    var md := MetaOf(m, key, SET);
    if md.Some? then FieldNames(m, key, md.value.version) else {}
  }

  function IndexBytes(i: nat): bytes {
    LittleEndian.ToBytes(i, 8)
  }

  function ElementAt(m: Stored, key: bytes, version: int, i: nat): Value {
    if IndexKey(key, version, i) in m then m[IndexKey(key, version, i)] else []
  }

  function Elements(m: Stored, key: bytes, md: Metadata): (s: seq<Value>)
    requires md.head <= md.tail
    ensures |s| == md.tail - md.head
  {
    seq(md.tail - md.head, i requires 0 <= i => ElementAt(m, key, md.version, md.head + i))
  }

  function ListOf(m: Stored, key: bytes): seq<Value> {
    var md := MetaOf(m, key, LIST);
    if md.Some? && md.value.head <= md.value.tail then Elements(m, key, md.value) else []
  }

  /** A list stores an element at exactly the indices from head to tail, and its size is their number. */
  ghost predicate ListExact(m: Stored, key: bytes, md: Metadata) {
    && md.head <= md.tail && md.size == md.tail - md.head
    && FieldNames(m, key, md.version) == Range(md.head, md.tail)
  }

  /** Internal keys of this key carry versions below the clock. */
  predicate VersionsBelow(m: Stored, key: bytes, now: int) {
    forall s :: s in m && HasPrefix(s, key) && |s| >= |key| + 8 ==> DecodeFieldKey(s, |key|).1 < now
  }

  /** The metadata is exact: a hash's or set's size is the number of stored fields or members. */
  ghost predicate Exact(m: Stored, key: bytes, md: Metadata) {
    && InRange(md) && md.expire == 0
    && (md.dataType == HASH || md.dataType == SET ==> md.size == |FieldNames(m, key, md.version)|)
    && (md.dataType == LIST ==> ListExact(m, key, md))
  }

  /** What the operations keep for every key; a string is only known to be one. */
  ghost predicate Sound(m: Stored, key: bytes, now: int) {
    && VersionsBelow(m, key, now)
    && (key in m ==> m[key] != [])
    && (key in m && m[key][0] in {HASH, SET, LIST} ==>
          Decode(m[key]).Some? && Exact(m, key, Decode(m[key]).value) && Decode(m[key]).value.version < now)
  }

  // ---------------------------------------------------------------- other keys

  /** Everything that does not begin with this key is as before. */
  ghost predicate SameElsewhere(m: Stored, after: Stored, key: bytes) {
    forall s :: !HasPrefix(s, key) ==> (s in m <==> s in after) && (s in m && s in after ==> m[s] == after[s])
  }

  lemma {:induction false} SameFields(m: Stored, after: Stored, key: bytes, other: bytes, version: int)
    requires SameElsewhere(m, after, key) && Apart(key, other)
    ensures FieldNames(after, other, version) == FieldNames(m, other, version)
    ensures Fields(after, other, version) == Fields(m, other, version)
  {
    hide FieldNames, HasPrefix, FieldKey;
    forall f
      ensures f in FieldNames(after, other, version) <==> f in FieldNames(m, other, version)
      ensures f in Fields(after, other, version) <==> f in Fields(m, other, version)
      ensures f in Fields(m, other, version) && f in Fields(after, other, version) ==>
        Fields(after, other, version)[f] == Fields(m, other, version)[f]
    {
      FieldStored(m, other, version, f);
      FieldStored(after, other, version, f);
      BelongsTo(other, version, f);
      ApartRegions(other, key, FieldKey(other, version, f));
    }
  }

  lemma {:induction false} BelongsTo(key: bytes, version: int, f: bytes)
    ensures HasPrefix(FieldKey(key, version, f), key) && HasPrefix(key, key)
  {
    assert FieldKey(key, version, f)[..|key|] == key;
  }

  /** An operation on one key leaves every key apart from it alone: what it means, and that its metadata is exact. */
  lemma {:induction false} OthersUntouched(m: Stored, after: Stored, key: bytes, other: bytes, now: int)
    requires SameElsewhere(m, after, key) && Apart(key, other)
    ensures HashOf(after, other) == HashOf(m, other) && SetOf(after, other) == SetOf(m, other)
      && ListOf(after, other) == ListOf(m, other)
    ensures Sound(m, other, now) ==> Sound(after, other, now)
  {
    hide FieldNames, Fields, HasPrefix, IndexKey, Decode;
    BelongsTo(other, 0, []);
    ApartRegions(other, key, other);
    SameMeta(m, after, key, other);
    if other in m && Decode(m[other]).Some? {
      var md := Decode(m[other]).value;
      SameFields(m, after, key, other, md.version);
      SameElements(m, after, key, other, md);
    }
    forall s | s in after && HasPrefix(s, other) ensures s in m {
      ApartRegions(other, key, s);
    }
  }

  lemma {:induction false} SameMeta(m: Stored, after: Stored, key: bytes, other: bytes)
    requires SameElsewhere(m, after, key) && !HasPrefix(other, key)
    ensures other in m <==> other in after
    ensures other in m ==> after[other] == m[other]
  {
  }

  lemma {:induction false} SameElements(m: Stored, after: Stored, key: bytes, other: bytes, md: Metadata)
    requires SameElsewhere(m, after, key) && Apart(key, other)
    ensures md.head <= md.tail ==> Elements(after, other, md) == Elements(m, other, md)
  {
    hide HasPrefix, IndexKey;
    forall i: nat ensures ElementAt(after, other, md.version, i) == ElementAt(m, other, md.version, i) {
      BelongsTo(other, md.version, IndexBytes(i));
      IndexIsField(other, md.version, i);
      ApartRegions(other, key, IndexKey(other, md.version, i));
    }
  }

  lemma {:induction false} IndexIsField(key: bytes, version: int, i: nat)
    ensures IndexKey(key, version, i) == FieldKey(key, version, IndexBytes(i))
  {
  }

  /** Soundness only looks at versions below the clock, so it lasts. */
  lemma {:induction false} SoundLater(m: Stored, key: bytes, now: int, later: int)
    requires Sound(m, key, now) && now <= later
    ensures Sound(m, key, later)
  {
    hide Exact, HasPrefix;
  }

  // ---------------------------------------------------------------- looking metadata up

  /** The metadata of a key that does not exist yet: its version is the clock. */
  function Fresh(dataType: byte, now: int): Metadata {
    var mark := if dataType == LIST then INITIAL_LIST_MARK else 0;
    Metadata(dataType, 0, now, 0, mark, mark)
  }

  /** `findMetadata`. */
  function FindMetadata(m: Stored, key: bytes, dataType: byte, now: int): Result<Metadata, RedisError> {
    if key == [] then Err(Engine(KeyIsEmpty))
    else if key !in m then Ok(Fresh(dataType, now))
    else
      var md := Decode(m[key]);
      if md.None? then Err(Panic)
      else if md.value.dataType != dataType then Err(WrongType)
      else if md.value.expire > 0 && now >= md.value.expire then Ok(Fresh(dataType, now))
      else Ok(md.value)
  }

  /** Stored metadata is found again from its type, until it expires: then the key starts anew under the clock. */
  lemma {:induction false} MetadataExpires(m: Stored, key: bytes, md: Metadata, dataType: byte, now: int)
    requires key != [] && key in m && InRange(md) && m[key] == MetadataBytes(md)
    ensures
      var found := FindMetadata(m, key, dataType, now);
      if md.dataType != dataType then found == Err(WrongType)
      else if md.expire <= 0 || now < md.expire then found == Ok(md)
      else found.Ok? && found.value.version == now && found.value.size == 0 && found.value.expire == 0
           && found.value.dataType == dataType && found.value.head == found.value.tail
  {
    hide Decode, MetadataBytes;
    MetadataRoundTrip(md);
  }

  /** The metadata with its size changed by one. */
  function Sized(md: Metadata, delta: int): Metadata {
    if md.size + delta < 0 then md else md.(size := md.size + delta)
  }

  predicate Clock(now: int) {
    0 <= now < TWO_63
  }

  /** What the metadata found for a key says of what the key holds. */
  ghost predicate Describes(m: Stored, key: bytes, md: Metadata) {
    && Exact(m, key, md)
    && (md.dataType == HASH ==> HashOf(m, key) == Fields(m, key, md.version) && |HashOf(m, key)| == md.size)
    && (md.dataType == SET ==> SetOf(m, key) == FieldNames(m, key, md.version) && |SetOf(m, key)| == md.size)
    && (md.dataType == LIST ==> ListOf(m, key) == Elements(m, key, md) && |ListOf(m, key)| == md.size)
  }

  /** Nothing is stored yet under a version that the clock has only just reached. */
  lemma {:induction false} NothingAtClock(m: Stored, key: bytes, now: int)
    requires VersionsBelow(m, key, now) && Clock(now)
    ensures FieldNames(m, key, now) == {} && Fields(m, key, now) == map[]
  {
    forall k | k in m ensures !HasPrefix(k, Prefix(key, now)) {
      if HasPrefix(k, Prefix(key, now)) {
        var f := k[|key| + 8..];
        assert k == k[..|key| + 8] + f == FieldKey(key, now, f);
        BelongsTo(key, now, f);
        FieldKeyRoundTrip(key, now, f);
      }
    }
  }

  /** `findMetadata` on a sound key: what it finds describes what the key holds. */
  lemma {:induction false} Found(m: Stored, key: bytes, dataType: byte, now: int)
    requires Sound(m, key, now) && Clock(now) && dataType in {HASH, SET, LIST}
      && FindMetadata(m, key, dataType, now).Ok?
    ensures
      var md := FindMetadata(m, key, dataType, now).value;
      Describes(m, key, md) && md.dataType == dataType && md.version <= now && (md.size > 0 ==> key in m)
  {
    hide FieldNames, Fields, Prefix, IndexKey, VersionsBelow;
    var md := FindMetadata(m, key, dataType, now).value;
    if key in m {
      DecodedType(m[key]);
      FieldsKeys(m, key, md.version);
    } else {
      NothingAtClock(m, key, now);
    }
  }

  lemma {:induction false} DecodedType(buf: bytes)
    requires Decode(buf).Some?
    ensures buf != [] && Decode(buf).value.dataType == buf[0]
  {
    hide ReadVarint, ReadUvarint;
  }

  /** What an operation on a field or member may rely on once the metadata is found. */
  lemma {:induction false} FoundField(m: Stored, key: bytes, dataType: byte, md: Metadata, field: bytes, now: int)
    requires Sound(m, key, now) && Clock(now) && dataType in {HASH, SET}
      && FindMetadata(m, key, dataType, now) == Ok(md)
    ensures key != [] && md.dataType == dataType && md.version <= now && InRange(md) && Describes(m, key, md)
    ensures (FieldKey(key, md.version, field) in m ==> MetaOf(m, key, dataType) == Some(md) && md.size > 0)
    ensures field in FieldNames(m, key, md.version) <==> FieldKey(key, md.version, field) in m
    ensures dataType == HASH ==>
      md.size == |HashOf(m, key)| && (field in HashOf(m, key) <==> FieldKey(key, md.version, field) in m)
    ensures dataType == HASH && field in HashOf(m, key) ==> HashOf(m, key)[field] == m[FieldKey(key, md.version, field)]
    ensures dataType == SET ==>
      md.size == |SetOf(m, key)| && (field in SetOf(m, key) <==> FieldKey(key, md.version, field) in m)
  {
    hide Sound, FieldNames, Fields, FieldKey, VersionsBelow, ListExact, HashOf, SetOf, ListOf;
    Found(m, key, dataType, now);
    FieldStored(m, key, md.version, field);
    FieldsKeys(m, key, md.version);
    SomethingFound(m, key, dataType, md, now);
  }

  lemma {:induction false} SomethingFound(m: Stored, key: bytes, dataType: byte, md: Metadata, now: int)
    requires Sound(m, key, now) && Clock(now) && dataType in {HASH, SET, LIST}
      && FindMetadata(m, key, dataType, now) == Ok(md)
    ensures MetaOf(m, key, dataType) == Some(md) || FieldNames(m, key, md.version) == {}
    ensures dataType in {HASH, SET} && FieldNames(m, key, md.version) != {} ==> md.size > 0
  {
    hide FieldNames, Fields, VersionsBelow, ListExact;
    if key in m {
      DecodedType(m[key]);
      var names := FieldNames(m, key, md.version);
      assert names != {} ==> |names| > 0;
    } else {
      NothingAtClock(m, key, now);
    }
  }

  /** An operation that writes nothing. */
  lemma {:induction false} NothingDone(m: Stored, key: bytes, now: int)
    requires Sound(m, key, now)
    ensures Sound(m, key, now + 1) && SameElsewhere(m, m, key)
  {
    hide Sound;
    SoundLater(m, key, now, now + 1);
  }

  // ---------------------------------------------------------------- effects of the operations

  lemma {:induction false} VersionsKept(m: Stored, after: Stored, key: bytes, version: int, field: bytes, now: int)
    requires VersionsBelow(m, key, now) && -TWO_63 <= version < TWO_63 && version <= now
    requires forall s :: s in after ==> s in m || s == key || s == FieldKey(key, version, field)
    ensures VersionsBelow(after, key, now + 1)
  {
    hide DecodeFieldKey, FieldKey;
    FieldKeyRoundTrip(key, version, field);
  }

  /** After its metadata is written, a key holds what the new metadata describes. */
  lemma {:induction false} MetaWritten(m: Stored, key: bytes, md: Metadata, now: int)
    requires InRange(md) && md.dataType in {HASH, SET, LIST} && key in m && m[key] == MetadataBytes(md)
    requires Exact(m, key, md) && VersionsBelow(m, key, now + 1) && md.version <= now
    ensures Sound(m, key, now + 1) && MetaOf(m, key, md.dataType) == Some(md)
  {
    hide FieldNames, VersionsBelow, ListExact;
    MetadataRoundTrip(md);
  }

  /** Both writes of an operation belong to the key. */
  lemma {:induction false} OnlyHere(m: Stored, after: Stored, key: bytes, version: int, field: bytes)
    requires forall s :: s != key && s != FieldKey(key, version, field) ==>
      (s in m <==> s in after) && (s in m && s in after ==> m[s] == after[s])
    ensures SameElsewhere(m, after, key)
  {
    hide FieldKey, HasPrefix;
    BelongsTo(key, version, field);
  }

  /** A field or member is stored: with new metadata when it is new, alone when it is not. */
  lemma {:induction false} FieldStoredEffect(m: Stored, key: bytes, md: Metadata, field: bytes, value: Value, now: int)
    requires Sound(m, key, now) && Describes(m, key, md) && md.dataType in {HASH, SET} && md.version <= now
    requires field in FieldNames(m, key, md.version) ==> MetaOf(m, key, md.dataType) == Some(md)
    requires md.size + 1 < TWO_32
    ensures
      var isNew := FieldKey(key, md.version, field) !in m;
      var after := if isNew
                   then m[key := MetadataBytes(md.(size := md.size + 1))][FieldKey(key, md.version, field) := value]
                   else m[FieldKey(key, md.version, field) := value];
      && Sound(after, key, now + 1) && SameElsewhere(m, after, key)
      && MetaOf(after, key, md.dataType) == Some(if isNew then md.(size := md.size + 1) else md)
      && (md.dataType == HASH ==>
        HashOf(after, key) == HashOf(m, key)[field := value] && (isNew <==> field !in HashOf(m, key)))
      && (md.dataType == SET ==> SetOf(after, key) == SetOf(m, key) + {field} && (isNew <==> field !in SetOf(m, key)))
  {
    hide FieldNames, Fields, FieldKey, MetadataBytes, Decode, VersionsBelow;
    var encKey := FieldKey(key, md.version, field);
    FieldStored(m, key, md.version, field);
    FieldsKeys(m, key, md.version);
    if encKey !in m {
      var grown := md.(size := md.size + 1);
      var meta := m[key := MetadataBytes(grown)];
      var after := meta[encKey := value];
      MetadataApart(m, key, md.version, MetadataBytes(grown));
      FieldPut(meta, key, md.version, field, value);
      FieldsKeys(after, key, md.version);
      VersionsKept(m, after, key, md.version, field, now);
      FieldKeyIsLonger(key, md.version, field);
      MetaWritten(after, key, grown, now);
      OnlyHere(m, after, key, md.version, field);
    } else {
      var after := m[encKey := value];
      FieldPut(m, key, md.version, field, value);
      FieldsKeys(after, key, md.version);
      VersionsKept(m, after, key, md.version, field, now);
      FieldKeyIsLonger(key, md.version, field);
      OnlyHere(m, after, key, md.version, field);
    }
  }

  lemma {:induction false} FieldKeyIsLonger(key: bytes, version: int, field: bytes)
    ensures FieldKey(key, version, field) != key && FieldKey(key, version, field) != []
  {
  }

  /** A stored field or member is removed together with the smaller size. */
  lemma {:induction false} FieldRemovedEffect(m: Stored, key: bytes, md: Metadata, field: bytes, now: int)
    requires Sound(m, key, now) && Describes(m, key, md) && md.dataType in {HASH, SET} && md.version <= now
    requires FieldKey(key, md.version, field) in m
    ensures md.size > 0
    ensures
      var after := m[key := MetadataBytes(md.(size := md.size - 1))] - {FieldKey(key, md.version, field)};
      && Sound(after, key, now + 1) && SameElsewhere(m, after, key)
      && MetaOf(after, key, md.dataType) == Some(md.(size := md.size - 1))
      && (md.dataType == HASH ==> HashOf(after, key) == HashOf(m, key) - {field} && field in HashOf(m, key))
      && (md.dataType == SET ==> SetOf(after, key) == SetOf(m, key) - {field} && field in SetOf(m, key))
  {
    hide FieldNames, Fields, FieldKey, MetadataBytes, Decode, VersionsBelow;
    var encKey := FieldKey(key, md.version, field);
    FieldStored(m, key, md.version, field);
    FieldsKeys(m, key, md.version);
    var names := FieldNames(m, key, md.version);
    assert |names - {field}| == |names| - 1;
    var shrunk := md.(size := md.size - 1);
    var meta := m[key := MetadataBytes(shrunk)];
    var after := meta - {encKey};
    MetadataApart(m, key, md.version, MetadataBytes(shrunk));
    FieldDelete(meta, key, md.version, field);
    FieldsKeys(after, key, md.version);
    assert FieldNames(after, key, md.version) == names - {field};
    VersionsKept(m, after, key, md.version, field, now);
    FieldKeyIsLonger(key, md.version, field);
    MetaWritten(after, key, shrunk, now);
    OnlyHere(m, after, key, md.version, field);
  }

  /** Removing the key itself leaves only what lies under versions below the clock. */
  lemma {:induction false} RemovedEffect(m: Stored, key: bytes, now: int)
    requires Sound(m, key, now)
    ensures Sound(m - {key}, key, now + 1) && SameElsewhere(m, m - {key}, key)
  {
    hide DecodeFieldKey;
    BelongsTo(key, 0, []);
  }

  // ---------------------------------------------------------------- lists

  function Range(head: nat, tail: nat): set<bytes> {
    set i | head <= i < tail :: IndexBytes(i)
  }

  lemma {:induction false} IndexBytesInjective(i: nat, j: nat)
    requires i < TWO_64 && j < TWO_64 && IndexBytes(i) == IndexBytes(j)
    ensures i == j
  {
    hide LittleEndian.ToBytes, LittleEndian.FromBytes, LittleEndian.Pow256;
    LittleEndian.Widths();
    LittleEndian.RoundTrip(i, 8);
    LittleEndian.RoundTrip(j, 8);
  }

  lemma {:induction false} RangeGrows(head: nat, tail: nat)
    requires head <= tail
    ensures Range(head, tail + 1) == Range(head, tail) + {IndexBytes(tail)}
    ensures head > 0 ==> Range(head - 1, tail) == Range(head, tail) + {IndexBytes(head - 1)}
  {
    hide IndexBytes;
  }

  lemma {:induction false} RangeShrinks(head: nat, tail: nat)
    requires head < tail < TWO_64
    ensures Range(head, tail - 1) == Range(head, tail) - {IndexBytes(tail - 1)}
    ensures Range(head + 1, tail) == Range(head, tail) - {IndexBytes(head)}
  {
    hide IndexBytes;
    forall i, j | head <= i < tail && head <= j < tail && IndexBytes(i) == IndexBytes(j) ensures i == j {
      IndexBytesInjective(i, j);
    }
    assert IndexBytes(tail - 1) in Range(head, tail) && IndexBytes(head) in Range(head, tail);
  }

  /** Elements at other indices do not notice a write at one index or of the metadata. */
  lemma {:induction false} OtherElements(m: Stored, after: Stored, key: bytes, version: int, at: nat, i: nat)
    requires at < TWO_64 && i < TWO_64 && i != at
    requires forall s :: s != key && s != IndexKey(key, version, at) ==>
      (s in m <==> s in after) && (s in m && s in after ==> m[s] == after[s])
    ensures ElementAt(after, key, version, i) == ElementAt(m, key, version, i)
  {
    hide IndexKey, IndexBytes;
    if IndexKey(key, version, i) == IndexKey(key, version, at) {
      IndexKeyInjective(key, version, i, at);
    }
    IndexIsField(key, version, i);
    FieldKeyIsLonger(key, version, IndexBytes(i));
  }

  /** The elements of a longer or shorter stretch of indices, on either side. */
  lemma {:induction false} ElementsChange(m: Stored, after: Stored, key: bytes, md: Metadata, next: Metadata, at: nat)
    requires md.head <= md.tail < TWO_64 && next.head <= next.tail < TWO_64 && next.version == md.version && at < TWO_64
    requires forall s :: s != key && s != IndexKey(key, md.version, at) ==>
      (s in m <==> s in after) && (s in m && s in after ==> m[s] == after[s])
    ensures at == md.tail && next.head == md.head && next.tail == md.tail + 1 ==>
      Elements(after, key, next) == Elements(m, key, md) + [ElementAt(after, key, md.version, at)]
    ensures at + 1 == md.head && next.head == at && next.tail == md.tail ==>
      Elements(after, key, next) == [ElementAt(after, key, md.version, at)] + Elements(m, key, md)
    ensures at + 1 == md.tail && next.head == md.head && next.tail == at ==>
      Elements(m, key, md) == Elements(after, key, next) + [ElementAt(m, key, md.version, at)]
    ensures at == md.head && next.head == md.head + 1 && next.tail == md.tail ==>
      Elements(m, key, md) == [ElementAt(m, key, md.version, at)] + Elements(after, key, next)
  {
    hide IndexKey, ElementAt;
    forall i: nat | i < TWO_64 && i != at
      ensures ElementAt(after, key, md.version, i) == ElementAt(m, key, md.version, i)
    {
      OtherElements(m, after, key, md.version, at, i);
    }
  }

  /** A list whose head and tail are still inside the range of their integers on the side that is pushed to. */
  predicate RoomToPush(md: Metadata, isLeft: bool) {
    md.size + 1 < TWO_32 && (if isLeft then md.head > 0 else md.tail + 1 < TWO_64)
  }

  function PushAt(md: Metadata, isLeft: bool): nat
    requires isLeft ==> md.head > 0
  {
    if isLeft then md.head - 1 else md.tail
  }

  function Pushed(md: Metadata, isLeft: bool): Metadata
    requires isLeft ==> md.head > 0
  {
    if isLeft then md.(size := md.size + 1, head := md.head - 1) else md.(size := md.size + 1, tail := md.tail + 1)
  }

  /** A push stores the element next to the list's end and moves that end. */
  lemma {:induction false} PushEffect(m: Stored, key: bytes, md: Metadata, isLeft: bool, element: Value, now: int)
    requires Sound(m, key, now) && Describes(m, key, md) && md.dataType == LIST && md.version <= now
    requires RoomToPush(md, isLeft)
    ensures
      var encKey := IndexKey(key, md.version, PushAt(md, isLeft));
      var after := m[key := MetadataBytes(Pushed(md, isLeft))][encKey := element];
      && Sound(after, key, now + 1) && SameElsewhere(m, after, key)
      && MetaOf(after, key, LIST) == Some(Pushed(md, isLeft))
      && ListOf(after, key) == if isLeft then [element] + ListOf(m, key) else ListOf(m, key) + [element]
  {
    hide FieldNames, Fields, FieldKey, IndexKey, MetadataBytes, Decode, VersionsBelow, Elements, IndexBytes, Range;
    var at, next := PushAt(md, isLeft), Pushed(md, isLeft);
    var encKey := IndexKey(key, md.version, at);
    var meta := m[key := MetadataBytes(next)];
    var after := meta[encKey := element];
    IndexIsField(key, md.version, at);
    FieldKeyIsLonger(key, md.version, IndexBytes(at));
    MetadataApart(m, key, md.version, MetadataBytes(next));
    FieldPut(meta, key, md.version, IndexBytes(at), element);
    FieldsKeys(m, key, md.version);
    FieldsKeys(after, key, md.version);
    assert FieldNames(after, key, md.version) == FieldNames(m, key, md.version) + {IndexBytes(at)};
    RangeGrows(md.head, md.tail);
    VersionsKept(m, after, key, md.version, IndexBytes(at), now);
    MetaWritten(after, key, next, now);
    OnlyHere(m, after, key, md.version, IndexBytes(at));
    ElementsChange(m, after, key, md, next, at);
  }

  function PopAt(md: Metadata, isLeft: bool): nat
    requires md.tail > 0
  {
    if isLeft then md.head else md.tail - 1
  }

  function Popped(md: Metadata, isLeft: bool): Metadata
    requires md.size > 0 && md.tail > 0
  {
    if isLeft then md.(size := md.size - 1, head := md.head + 1) else md.(size := md.size - 1, tail := md.tail - 1)
  }

  lemma {:induction false} ElementsIndex(m: Stored, key: bytes, md: Metadata, i: nat)
    requires md.head <= md.tail && i < md.tail - md.head
    ensures Elements(m, key, md)[i] == ElementAt(m, key, md.version, md.head + i)
  {
  }

  /** The element at the end that a pop takes from is there. */
  lemma {:induction false} PopFinds(m: Stored, key: bytes, md: Metadata, isLeft: bool)
    requires Describes(m, key, md) && md.dataType == LIST && md.size > 0
    ensures md.tail > 0
    ensures IndexKey(key, md.version, PopAt(md, isLeft)) in m
    ensures m[IndexKey(key, md.version, PopAt(md, isLeft))]
         == ListOf(m, key)[if isLeft then 0 else |ListOf(m, key)| - 1]
  {
    hide IndexBytes, IndexKey, FieldNames, Fields, FieldKey, MetaOf, Elements;
    var at := PopAt(md, isLeft);
    IndexIsField(key, md.version, at);
    ElementsIndex(m, key, md, if isLeft then 0 else md.size - 1);
    FieldStored(m, key, md.version, IndexBytes(at));
    assert IndexBytes(at) in Range(md.head, md.tail);
  }

  /** A pop deletes that element and moves the end inwards. */
  lemma {:induction false} PopEffect(m: Stored, key: bytes, md: Metadata, isLeft: bool, now: int)
    requires Sound(m, key, now) && Describes(m, key, md) && md.dataType == LIST && md.version <= now && md.size > 0
    ensures
      var list := ListOf(m, key);
      var after := (m - {IndexKey(key, md.version, PopAt(md, isLeft))})[key := MetadataBytes(Popped(md, isLeft))];
      && Sound(after, key, now + 1) && SameElsewhere(m, after, key)
      && MetaOf(after, key, LIST) == Some(Popped(md, isLeft))
      && ListOf(after, key) == if isLeft then list[1..] else list[..|list| - 1]
  {
    hide FieldNames, Fields, FieldKey, IndexKey, MetadataBytes, Decode, VersionsBelow, Elements, IndexBytes, Range;
    var at, next := PopAt(md, isLeft), Popped(md, isLeft);
    var encKey := IndexKey(key, md.version, at);
    var rest := m - {encKey};
    var after := rest[key := MetadataBytes(next)];
    IndexIsField(key, md.version, at);
    FieldKeyIsLonger(key, md.version, IndexBytes(at));
    FieldDelete(m, key, md.version, IndexBytes(at));
    MetadataApart(rest, key, md.version, MetadataBytes(next));
    FieldsKeys(m, key, md.version);
    FieldsKeys(after, key, md.version);
    assert FieldNames(after, key, md.version) == FieldNames(m, key, md.version) - {IndexBytes(at)};
    RangeShrinks(md.head, md.tail);
    VersionsKept(m, after, key, md.version, IndexBytes(at), now);
    MetaWritten(after, key, next, now);
    OnlyHere(m, after, key, md.version, IndexBytes(at));
    ElementsChange(m, after, key, md, next, at);
  }

  /** What an operation on a list may rely on once the metadata is found. */
  lemma {:induction false} FoundList(m: Stored, key: bytes, md: Metadata, now: int)
    requires Sound(m, key, now) && Clock(now) && FindMetadata(m, key, LIST, now) == Ok(md)
    ensures key != [] && md.dataType == LIST && md.version <= now && InRange(md) && Describes(m, key, md)
    ensures md.head <= md.tail && md.size == md.tail - md.head == |ListOf(m, key)|
  {
    hide Sound, FieldNames, VersionsBelow, ListOf, Range;
    Found(m, key, LIST, now);
  }

  lemma {:induction false} IndexKeyIsLonger(key: bytes, version: int, i: nat)
    ensures IndexKey(key, version, i) != key && IndexKey(key, version, i) != []
  {
  }

  /** Every index from head to tail has its element stored. */
  lemma {:induction false} ElementStored(m: Stored, key: bytes, md: Metadata, i: nat)
    requires Describes(m, key, md) && md.dataType == LIST && i < md.size
    ensures IndexKey(key, md.version, md.head + i) in m && i < |ListOf(m, key)|
    ensures m[IndexKey(key, md.version, md.head + i)] == ListOf(m, key)[i]
  {
    hide IndexBytes, IndexKey, FieldNames, Fields, FieldKey, MetaOf, Elements;
    var at := md.head + i;
    IndexIsField(key, md.version, at);
    ElementsIndex(m, key, md, i);
    FieldStored(m, key, md.version, IndexBytes(at));
    assert IndexBytes(at) in Range(md.head, md.tail);
  }

  // ---------------------------------------------------------------- strings

  /**
   * What a hash, set or list command answers on a string: a panic on exactly the texts that overflow, else wrong
   * type.
   */
  lemma {:induction false} StringRefused(m: Stored, key: bytes, dataType: byte, expire: int, text: bytes, now: int)
    requires key != [] && key in m && m[key] == StringBytes(expire, text) && -TWO_63 <= expire < TWO_63
      && dataType != STRING
    ensures FindMetadata(m, key, dataType, now) == Err(if TextPanics(expire, text) then Panic else WrongType)
  {
    hide Decode, StringBytes;
    StringDecodes(expire, text);
  }

  /** After `Set(key, 0, text)` with such a text every command that looks the key up as a hash, set or list panics. */
  lemma {:induction false} OverflowingStringPanics(m: Stored, key: bytes, dataType: byte, now: int)
    requires key != [] && dataType != STRING
    ensures FindMetadata(m[key := StringBytes(0, OVERFLOWING_TEXT)], key, dataType, now) == Err(Panic)
  {
    hide StringBytes, Decode;
    OverflowingTextPanics();
    StringRefused(m[key := StringBytes(0, OVERFLOWING_TEXT)], key, dataType, 0, OVERFLOWING_TEXT, now);
  }

  /** `Get` of a string; `now` is the clock. */
  function GetString(m: Stored, key: bytes, now: int): Result<Value, RedisError> {
    if key == [] then Err(Engine(KeyIsEmpty))
    else if key !in m then Err(Engine(KeyNotFound))
    else
      var encValue := m[key];
      if encValue == [] then Err(Panic)
      else if encValue[0] != STRING then Err(WrongType)
      else
        var d := Varint(encValue[1..]);
        if d.value > 0 && d.value < now then Err(KeyExpired)
        else if 1 + d.n < 0 then Err(Panic)
        else Ok(encValue[1 + d.n..])
  }

  /** The text comes back until it expires. */
  lemma {:induction false} StringComesBack(m: Stored, key: bytes, expire: int, text: bytes, now: int)
    requires key != [] && key in m && m[key] == StringBytes(expire, text) && -TWO_63 <= expire < TWO_63
    ensures GetString(m, key, now) == if expire > 0 && expire < now then Err(KeyExpired) else Ok(text)
  {
    hide VarintBytes, Varint;
    assert m[key][1..] == VarintBytes(expire) + text;
    SkipVarint(expire, text);
    assert m[key][1 + |VarintBytes(expire)|..] == m[key][1..][|VarintBytes(expire)|..];
  }

  lemma {:induction false} StringSet(m: Stored, key: bytes, expire: int, text: bytes, now: int)
    requires Sound(m, key, now)
    ensures Sound(m[key := StringBytes(expire, text)], key, now + 1)
    ensures SameElsewhere(m, m[key := StringBytes(expire, text)], key)
  {
    hide VarintBytes, DecodeFieldKey;
    BelongsTo(key, 0, []);
  }
}
