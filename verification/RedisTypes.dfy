/** `RedisDataStructure`: the hash, set and list commands of redis/types.go over the engine's client interface. */
module RedisTypes {
  import opened Bytes
  import opened Varints
  import opened Wrappers
  import opened Log
  import opened Staging
  import opened Iterators
  import opened KeyValue
  import opened RedisMeta
  import opened RedisModel
  import opened RedisScan

  // ---------------------------------------------------------------- batches of one or two writes

  lemma {:induction false} OnePut(m: Stored, k: Key, v: Value)
    ensures Applied(m, StagePut(map[], k, v)) == m[k := v]
  {
  }

  lemma {:induction false} TwoPuts(m: Stored, k: Key, v: Value, l: Key, w: Value)
    requires k != l
    ensures Applied(m, StagePut(StagePut(map[], k, v), l, w)) == m[k := v][l := w]
  {
  }

  lemma {:induction false} PutAndDelete(m: Stored, k: Key, v: Value, l: Key)
    requires k != l && l in m
    ensures Applied(m, StageDelete(StagePut(map[], k, v), l, true)) == m[k := v] - {l}
  {
  }

  class RedisDataStructure {
    const db: Store

    constructor (db: Store)
      ensures this.db == db
    {
      this.db := db;
    }

    /** `findMetadata`; `now` is the clock. */
    method FindMeta(key: Key, dataType: byte, now: int) returns (r: Result<Metadata, RedisError>)
      requires db.Valid()
      ensures r == FindMetadata(db.Map(), key, dataType, now)
    {
      hide Decode;
      var metaBuf := db.Get(key);
      if metaBuf.Err? && metaBuf.error != KeyNotFound {
        return Err(RedisError.Engine(metaBuf.error));
      }
      var exist := true;
      var meta: Metadata := Fresh(dataType, now);
      if metaBuf.Err? {
        exist := false;
      } else {
        var decoded := DecodeMetadata(metaBuf.value);
        if decoded.None? {
          return Err(Panic);
        }
        meta := decoded.value;
        if meta.dataType != dataType {
          return Err(WrongType);
        }
        if meta.expire > 0 && now >= meta.expire {
          exist := false;
        }
      }
      if !exist {
        meta := Fresh(dataType, now);
      }
      return Ok(meta);
    }

    /** Whether the engine holds a key that is not empty. */
    method Exists(encKey: Key) returns (exist: bool)
      requires db.Valid() && encKey != []
      ensures exist <==> encKey in db.Map()
    {
      var got := db.Get(encKey);
      exist := got != Err(KeyNotFound);
    }

    /** New metadata and a new value under an internal key, in one batch. */
    method PutBoth(key: Key, meta: Metadata, encKey: Key, value: Value)
      requires db.Valid() && key != [] && encKey != [] && key != encKey && InRange(meta)
      modifies db
      ensures db.Valid() && db.Map() == old(db.Map())[key := MetadataBytes(meta)][encKey := value]
    {
      hide MetadataBytes, Applied, InRange;
      var wb := new Batch(db);
      var metaBuf := Encode(meta);
      var _ := wb.Put(key, metaBuf);
      var _ := wb.Put(encKey, value);
      TwoPuts(db.Map(), key, metaBuf, encKey, value);
      wb.Commit();
    }

    /** New metadata, and an internal key gone, in one batch. */
    method PutAndRemove(key: Key, meta: Metadata, encKey: Key)
      requires db.Valid() && key != [] && encKey in db.Map() && key != encKey && InRange(meta)
      modifies db
      ensures db.Valid() && db.Map() == old(db.Map())[key := MetadataBytes(meta)] - {encKey}
    {
      hide MetadataBytes, Applied, InRange;
      var wb := new Batch(db);
      var metaBuf := Encode(meta);
      var _ := wb.Put(key, metaBuf);
      var _ := wb.Delete(encKey);
      PutAndDelete(db.Map(), key, metaBuf, encKey);
      wb.Commit();
    }

    /** An internal key gone, then new metadata: two writes that no batch holds together. */
    method RemoveAndPut(key: Key, meta: Metadata, encKey: Key)
      requires db.Valid() && key != [] && encKey != [] && InRange(meta)
      modifies db
      ensures db.Valid() && db.Map() == (old(db.Map()) - {encKey})[key := MetadataBytes(meta)]
    {
      hide MetadataBytes, InRange;
      var metaBuf := Encode(meta);
      var _ := db.Delete(encKey);
      var _ := db.Put(key, metaBuf);
    }

    // -------------------------------------------------------------- strings

    /** `Set`: no value is no write; the expiry is the clock plus the time to live, or 0 for none. */
    method Set(key: Key, ttl: int, value: Option<Value>, now: int) returns (r: Option<RedisError>)
      requires db.Valid() && Sound(db.Map(), key, now) && -TWO_63 <= now + ttl < TWO_63
      modifies db
      ensures db.Valid()
      ensures
        var m := old(db.Map());
        if value.None? then r == None && db.Map() == m
        else if key == [] then r == Some(Engine(KeyIsEmpty)) && db.Map() == m
        else r == None && db.Map() == m[key := StringBytes(if ttl != 0 then now + ttl else 0, value.value)]
      ensures Sound(db.Map(), key, now + 1) && SameElsewhere(old(db.Map()), db.Map(), key)
    {
      hide Sound, StringBytes;
      NothingDone(db.Map(), key, now);
      if value.None? {
        return None;
      }
      var expire := 0;
      if ttl != 0 {
        expire := now + ttl;
      }
      StringSet(db.Map(), key, expire, value.value, now);
      var encValue := EncodeString(expire, value.value);
      var put := db.Put(key, encValue);
      r := if put.Some? then Some(Engine(put.value)) else None;
    }

    /** `Get`. */
    method Get(key: Key, now: int) returns (r: Result<Value, RedisError>)
      requires db.Valid()
      ensures r == GetString(db.Map(), key, now)
    {
      hide Varint;
      var encValue := db.Get(key);
      if encValue.Err? {
        return Err(Engine(encValue.error));
      }
      if |encValue.value| == 0 {
        return Err(Panic);
      }
      if encValue.value[0] != STRING {
        return Err(WrongType);
      }
      var expire := Varint(encValue.value[1..]);
      var index := 1 + expire.n;
      if expire.value > 0 && expire.value < now {
        return Err(KeyExpired);
      }
      r := if index < 0 then Err(Panic) else Ok(encValue.value[index..]);
    }

    // -------------------------------------------------------------- hashes

    /** `HSet`: the field has the value afterwards; the result says whether it is new. */
    method HSet(key: Key, field: bytes, value: Value, now: int) returns (r: Result<bool, RedisError>)
      requires db.Valid() && Clock(now) && Sound(db.Map(), key, now) && |HashOf(db.Map(), key)| + 1 < TWO_32
      modifies db
      ensures db.Valid()
      ensures
        var m, found := old(db.Map()), FindMetadata(old(db.Map()), key, HASH, now);
        if found.Err? then r == Err(found.error) && db.Map() == m
        else
          && r == Ok(field !in HashOf(m, key)) && HashOf(db.Map(), key) == HashOf(m, key)[field := value]
          && MetaOf(db.Map(), key, HASH) == Some(if r.value then Sized(found.value, 1) else found.value)
      ensures Sound(db.Map(), key, now + 1) && SameElsewhere(old(db.Map()), db.Map(), key)
    {
      hide Sound, SameElsewhere, HashOf, Describes, FieldKey, FieldNames, FindMetadata, MetadataBytes, Decode, Applied;
      ghost var m := db.Map();
      var found := FindMeta(key, HASH, now);
      if found.Err? {
        NothingDone(m, key, now);
        return Err(found.error);
      }
      var meta := found.value;
      FoundField(m, key, HASH, meta, field, now);
      var encKey := EncodeFieldKey(key, meta.version, field);
      FieldStoredEffect(m, key, meta, field, value, now);
      FieldKeyIsLonger(key, meta.version, field);
      var exist := Exists(encKey);
      if !exist {
        PutBoth(key, meta.(size := meta.size + 1), encKey, value);
      } else {
        var wb := new Batch(db);
        var _ := wb.Put(encKey, value);
        OnePut(m, encKey, value);
        wb.Commit();
      }
      return Ok(!exist);
    }

    /** `HGet`: nothing for an empty hash, the engine's error for a missing field. */
    method HGet(key: Key, field: bytes, now: int) returns (r: Result<Option<Value>, RedisError>)
      requires db.Valid() && Clock(now) && Sound(db.Map(), key, now)
      ensures
        var m, found := db.Map(), FindMetadata(db.Map(), key, HASH, now);
        r == if found.Err? then Err(found.error)
             else if HashOf(m, key) == map[] then Ok(None)
             else if field in HashOf(m, key) then Ok(Some(HashOf(m, key)[field]))
             else Err(Engine(KeyNotFound))
    {
      hide Sound, HashOf, Describes, FieldKey, FieldNames, FindMetadata, Decode;
      var found := FindMeta(key, HASH, now);
      if found.Err? {
        return Err(found.error);
      }
      var meta := found.value;
      FoundField(db.Map(), key, HASH, meta, field, now);
      assert HashOf(db.Map(), key) == map[] <==> |HashOf(db.Map(), key)| == 0;
      if meta.size == 0 {
        return Ok(None);
      }
      var encKey := EncodeFieldKey(key, meta.version, field);
      FieldKeyIsLonger(key, meta.version, field);
      var got := db.Get(encKey);
      r := if got.Ok? then Ok(Some(got.value)) else Err(Engine(got.error));
    }

    /** `HDel`: the field is gone afterwards; the result says whether it was there. */
    method HDel(key: Key, field: bytes, now: int) returns (r: Result<bool, RedisError>)
      requires db.Valid() && Clock(now) && Sound(db.Map(), key, now)
      modifies db
      ensures db.Valid()
      ensures
        var m, found := old(db.Map()), FindMetadata(old(db.Map()), key, HASH, now);
        if found.Err? then r == Err(found.error) && db.Map() == m
        else if field !in HashOf(m, key) then r == Ok(false) && db.Map() == m
        else
          && r == Ok(true) && HashOf(db.Map(), key) == HashOf(m, key) - {field}
          && MetaOf(db.Map(), key, HASH) == Some(Sized(found.value, -1))
      ensures Sound(db.Map(), key, now + 1) && SameElsewhere(old(db.Map()), db.Map(), key)
    {
      hide Sound, SameElsewhere, HashOf, Describes, FieldKey, FieldNames, FindMetadata, MetadataBytes, Decode;
      ghost var m := db.Map();
      NothingDone(m, key, now);
      var found := FindMeta(key, HASH, now);
      if found.Err? {
        return Err(found.error);
      }
      var meta := found.value;
      FoundField(m, key, HASH, meta, field, now);
      if meta.size == 0 {
        return Ok(false);
      }
      var encKey := EncodeFieldKey(key, meta.version, field);
      FieldKeyIsLonger(key, meta.version, field);
      var exist := Exists(encKey);
      if exist {
        FieldRemovedEffect(m, key, meta, field, now);
        PutAndRemove(key, meta.(size := meta.size - 1), encKey);
      }
      return Ok(exist);
    }

    // -------------------------------------------------------------- sets

    /** `SAdd`: the member is in the set afterwards; the result says whether it is new. */
    method SAdd(key: Key, member: bytes, now: int) returns (r: Result<bool, RedisError>)
      requires db.Valid() && Clock(now) && Sound(db.Map(), key, now) && |SetOf(db.Map(), key)| + 1 < TWO_32
      modifies db
      ensures db.Valid()
      ensures
        var m, found := old(db.Map()), FindMetadata(old(db.Map()), key, SET, now);
        if found.Err? then r == Err(found.error) && db.Map() == m
        else if member in SetOf(m, key) then r == Ok(false) && db.Map() == m
        else
          && r == Ok(true) && SetOf(db.Map(), key) == SetOf(m, key) + {member}
          && MetaOf(db.Map(), key, SET) == Some(Sized(found.value, 1))
      ensures Sound(db.Map(), key, now + 1) && SameElsewhere(old(db.Map()), db.Map(), key)
    {
      hide Sound, SameElsewhere, SetOf, Describes, FieldKey, FieldNames, FindMetadata, MetadataBytes, Decode;
      ghost var m := db.Map();
      NothingDone(m, key, now);
      var found := FindMeta(key, SET, now);
      if found.Err? {
        return Err(found.error);
      }
      var meta := found.value;
      FoundField(m, key, SET, meta, member, now);
      var encKey := EncodeFieldKey(key, meta.version, member);
      FieldKeyIsLonger(key, meta.version, member);
      var ok := false;
      var exist := Exists(encKey);
      if !exist {
        FieldStoredEffect(m, key, meta, member, [], now);
        PutBoth(key, meta.(size := meta.size + 1), encKey, []);
        ok := true;
      }
      return Ok(ok);
    }

    /** `SIsMember`. */
    method SIsMember(key: Key, member: bytes, now: int) returns (r: Result<bool, RedisError>)
      requires db.Valid() && Clock(now) && Sound(db.Map(), key, now)
      ensures
        var found := FindMetadata(db.Map(), key, SET, now);
        r == if found.Err? then Err(found.error) else Ok(member in SetOf(db.Map(), key))
    {
      hide Sound, SetOf, Describes, FieldKey, FieldNames, FindMetadata, Decode;
      var found := FindMeta(key, SET, now);
      if found.Err? {
        return Err(found.error);
      }
      var meta := found.value;
      FoundField(db.Map(), key, SET, meta, member, now);
      if meta.size == 0 {
        return Ok(false);
      }
      var encKey := EncodeFieldKey(key, meta.version, member);
      FieldKeyIsLonger(key, meta.version, member);
      var exist := Exists(encKey);
      return Ok(exist);
    }

    /** `SRem`: the member is gone afterwards; the result says whether it was there. */
    method SRem(key: Key, member: bytes, now: int) returns (r: Result<bool, RedisError>)
      requires db.Valid() && Clock(now) && Sound(db.Map(), key, now)
      modifies db
      ensures db.Valid()
      ensures
        var m, found := old(db.Map()), FindMetadata(old(db.Map()), key, SET, now);
        if found.Err? then r == Err(found.error) && db.Map() == m
        else if member !in SetOf(m, key) then r == Ok(false) && db.Map() == m
        else
          && r == Ok(true) && SetOf(db.Map(), key) == SetOf(m, key) - {member}
          && MetaOf(db.Map(), key, SET) == Some(Sized(found.value, -1))
      ensures Sound(db.Map(), key, now + 1) && SameElsewhere(old(db.Map()), db.Map(), key)
    {
      hide Sound, SameElsewhere, SetOf, Describes, FieldKey, FieldNames, FindMetadata, MetadataBytes, Decode;
      ghost var m := db.Map();
      NothingDone(m, key, now);
      var found := FindMeta(key, SET, now);
      if found.Err? {
        return Err(found.error);
      }
      var meta := found.value;
      FoundField(m, key, SET, meta, member, now);
      if meta.size == 0 {
        return Ok(false);
      }
      var encKey := EncodeFieldKey(key, meta.version, member);
      FieldKeyIsLonger(key, meta.version, member);
      var exist := Exists(encKey);
      if !exist {
        return Ok(false);
      }
      FieldRemovedEffect(m, key, meta, member, now);
      PutAndRemove(key, meta.(size := meta.size - 1), encKey);
      return Ok(true);
    }

    // -------------------------------------------------------------- lists

    /** `pushInner`, that is `LPush` and `RPush`: one element more at one end; the result is the new size. */
    method PushInner(key: Key, element: Value, isLeft: bool, now: int) returns (r: Result<nat, RedisError>)
      requires db.Valid() && Clock(now) && Sound(db.Map(), key, now)
      requires FindMetadata(db.Map(), key, LIST, now).Ok? ==>
        RoomToPush(FindMetadata(db.Map(), key, LIST, now).value, isLeft)
      modifies db
      ensures db.Valid()
      ensures
        var m, found := old(db.Map()), FindMetadata(old(db.Map()), key, LIST, now);
        if found.Err? then r == Err(found.error) && db.Map() == m
        else
          && r == Ok(|ListOf(m, key)| + 1) && MetaOf(db.Map(), key, LIST) == Some(Pushed(found.value, isLeft))
          && ListOf(db.Map(), key) == if isLeft then [element] + ListOf(m, key) else ListOf(m, key) + [element]
      ensures Sound(db.Map(), key, now + 1) && SameElsewhere(old(db.Map()), db.Map(), key)
    {
      hide Sound, SameElsewhere, ListOf, Describes, IndexKey, FindMetadata, MetadataBytes, Decode;
      ghost var m := db.Map();
      NothingDone(m, key, now);
      var found := FindMeta(key, LIST, now);
      if found.Err? {
        return Err(found.error);
      }
      var meta := found.value;
      FoundList(m, key, meta, now);
      PushEffect(m, key, meta, isLeft, element, now);
      var index := if isLeft then meta.head - 1 else meta.tail;
      var encKey := EncodeIndexKey(key, meta.version, index);
      IndexKeyIsLonger(key, meta.version, index);
      meta := meta.(size := meta.size + 1);
      if isLeft {
        meta := meta.(head := meta.head - 1);
      } else {
        meta := meta.(tail := meta.tail + 1);
      }
      PutBoth(key, meta, encKey, element);
      return Ok(meta.size);
    }

    /**
     * `popInner`, that is `LPop` and `RPop`: the element at one end; nothing for an empty list. Deletion and
     * metadata are two separate writes.
     */
    method PopInner(key: Key, isLeft: bool, now: int) returns (r: Result<Option<Value>, RedisError>)
      requires db.Valid() && Clock(now) && Sound(db.Map(), key, now)
      modifies db
      ensures db.Valid()
      ensures
        var m, found := old(db.Map()), FindMetadata(old(db.Map()), key, LIST, now);
        var list := ListOf(m, key);
        if found.Err? then r == Err(found.error) && db.Map() == m
        else if list == [] then r == Ok(None) && db.Map() == m
        else
          && r == Ok(Some(list[if isLeft then 0 else |list| - 1]))
          && found.value.size > 0 && found.value.tail > 0
            && MetaOf(db.Map(), key, LIST) == Some(Popped(found.value, isLeft))
          && ListOf(db.Map(), key) == if isLeft then list[1..] else list[..|list| - 1]
      ensures Sound(db.Map(), key, now + 1) && SameElsewhere(old(db.Map()), db.Map(), key)
    {
      hide Sound, SameElsewhere, ListOf, Describes, IndexKey, FindMetadata, MetadataBytes, Decode;
      ghost var m := db.Map();
      NothingDone(m, key, now);
      var found := FindMeta(key, LIST, now);
      if found.Err? {
        return Err(found.error);
      }
      var meta := found.value;
      FoundList(m, key, meta, now);
      if meta.size == 0 {
        return Ok(None);
      }
      PopFinds(m, key, meta, isLeft);
      PopEffect(m, key, meta, isLeft, now);
      var index := if isLeft then meta.head else meta.tail - 1;
      var encKey := EncodeIndexKey(key, meta.version, index);
      IndexKeyIsLonger(key, meta.version, index);
      var element := db.Get(encKey);
      meta := meta.(size := meta.size - 1);
      if isLeft {
        meta := meta.(head := meta.head + 1);
      } else {
        meta := meta.(tail := meta.tail - 1);
      }
      RemoveAndPut(key, meta, encKey);
      return Ok(Some(element.value));
    }

    /** `LAll`: the list in order, numbered from 0; its error for a missing element cannot come up. */
    method LAll(key: Key, now: int) returns (r: Result<map<nat, Value>, RedisError>)
      requires db.Valid() && Clock(now) && Sound(db.Map(), key, now)
      ensures
        var m, found := db.Map(), FindMetadata(db.Map(), key, LIST, now);
        var list := ListOf(m, key);
        r == if found.Err? then Err(found.error) else Ok(map i | 0 <= i < |list| :: list[i])
    {
      hide Sound, ListOf, Describes, IndexKey, FindMetadata, Decode;
      var found := FindMeta(key, LIST, now);
      if found.Err? {
        return Err(found.error);
      }
      var meta := found.value;
      FoundList(db.Map(), key, meta, now);
      ghost var list := ListOf(db.Map(), key);
      var result: map<nat, Value> := map[];
      if meta.size == 0 {
        return Ok(result);
      }
      var count := 0;
      for i := meta.head to meta.tail
        invariant count == i - meta.head && result == map j | 0 <= j < count :: list[j]
      {
        var encKey := EncodeIndexKey(key, meta.version, i);
        IndexKeyIsLonger(key, meta.version, i);
        ElementStored(db.Map(), key, meta, count);
        var element := db.Get(encKey);
        result := result[count := element.value];
        count := count + 1;
      }
      return Ok(result);
    }

    /** `LSize`: errors count as an empty list. */
    method LSize(key: Key, now: int) returns (n: nat)
      requires db.Valid() && Clock(now) && Sound(db.Map(), key, now)
      ensures n == if FindMetadata(db.Map(), key, LIST, now).Ok? then |ListOf(db.Map(), key)| else 0
    {
      hide Sound, ListOf, Describes, FindMetadata, Decode;
      var found := FindMeta(key, LIST, now);
      if found.Err? {
        return 0;
      }
      FoundList(db.Map(), key, found.value, now);
      return found.value.size;
    }

    /** `Delete` of generic.go removes the metadata only; the internal keys of its version stay behind. */
    method Delete(key: Key, now: int) returns (r: Option<RedisError>)
      requires db.Valid() && Sound(db.Map(), key, now)
      modifies db
      ensures db.Valid()
      ensures if key == [] then r == Some(Engine(KeyIsEmpty)) && db.Map() == old(db.Map())
              else r == None && db.Map() == old(db.Map()) - {key}
      ensures Sound(db.Map(), key, now + 1) && SameElsewhere(old(db.Map()), db.Map(), key)
    {
      hide Sound;
      NothingDone(db.Map(), key, now);
      RemovedEffect(db.Map(), key, now);
      var deleted := db.Delete(key);
      r := if deleted.Some? then Some(Engine(deleted.value)) else None;
    }

    // -------------------------------------------------------------- whole hashes

    /** The start of the three loops below: an iterator at the first key of the hash. */
    method SeekHash(key: Key, meta: Metadata, now: int) returns (it: Iterator, prefix: bytes, ghost run: seq<Item>)
      requires db.Valid() && Clock(now) && Sound(db.Map(), key, now)
        && FindMetadata(db.Map(), key, HASH, now) == Ok(meta)
      ensures fresh(it) && fresh(it.indexIter) && Walking(it, prefix, run, 0)
      ensures InOrder(db.Map(), key, meta.version, run, FieldsIn(run, |key|))
        && Fields(db.Map(), key, meta.version) == HashOf(db.Map(), key)
      ensures Positioned(db, run)
    {
      hide Sound, FindMetadata, Decode, Prefix, PrefixRun, Select, InOrder, HashOf, Fields;
      hide Iterator.Valid, Iterator.Rest;
      FoundHash(db.Map(), key, meta, now);
      prefix := EncodePrefix(key, meta.version);
      it := db.NewIterator();
      it.Seek(prefix);
      RunIsHash(it.indexIter.values[..], db.index, db.Map(), key, meta.version);
      run := PrefixRun(it.Rest(), prefix);
    }

    /** `HKeys`: every field once, in ascending order. */
    method HKeys(key: Key, now: int) returns (r: Result<seq<bytes>, RedisError>)
      requires db.Valid() && Clock(now) && Sound(db.Map(), key, now)
      ensures
        var found := FindMetadata(db.Map(), key, HASH, now);
        if found.Err? then r == Err(found.error)
        else
          && r.Ok? && Ascending(r.value) && InByteOrder(r.value)
          && forall f :: f in r.value <==> f in HashOf(db.Map(), key)
    {
      hide Sound, HashOf, FindMetadata, Decode, FieldsIn, Fields, Walking, Positioned, InOrder, DecodeFieldKey;
      hide Ascending;
      var found := FindMeta(key, HASH, now);
      if found.Err? {
        return Err(found.error);
      }
      var meta := found.value;
      if meta.size == 0 {
        EmptyHash(db.Map(), key, meta, now);
        return Ok([]);
      }
      var it, prefix;
      ghost var run;
      it, prefix, run := SeekHash(key, meta, now);
      ghost var fields := FieldsIn(run, |key|);
      var keys: seq<bytes> := [];
      var item := Peek(it, prefix, run, 0);
      while item.Some?
        invariant Walking(it, prefix, run, |keys|) && |keys| <= |run| && keys == fields[..|keys|]
        invariant item == if |keys| < |run| then Some(run[|keys|]) else None
        decreases |run| - |keys|
      {
        FieldAt(db.Map(), key, meta.version, run, |keys|);
        var hk := DecodeFieldKey(item.value.key, |key|);
        Advance(it, prefix, run, |keys|);
        keys := keys + [hk.2];
        item := Peek(it, prefix, run, |keys|);
      }
      it.Close();
      assert keys == fields;
      AscendingIsByteOrder(keys);
      OrderFacts(db.Map(), key, meta.version, run, fields);
      return Ok(keys);
    }

    /** `HValues`: the value of every field, in the ascending order of the fields. */
    method HValues(key: Key, now: int) returns (r: Result<seq<Value>, RedisError>)
      requires db.Valid() && Clock(now) && Sound(db.Map(), key, now)
      ensures
        var hash, found := HashOf(db.Map(), key), FindMetadata(db.Map(), key, HASH, now);
        if found.Err? then r == Err(found.error)
        else r.Ok? && exists fields :: ListsHash(hash, fields, r.value)
    {
      hide Sound, HashOf, FindMetadata, Decode, FieldsIn, Fields, Walking, Positioned, InOrder, DecodeFieldKey;
      hide Ascending;
      var found := FindMeta(key, HASH, now);
      if found.Err? {
        return Err(found.error);
      }
      var meta := found.value;
      if meta.size == 0 {
        EmptyHash(db.Map(), key, meta, now);
        assert ListsHash(HashOf(db.Map(), key), [], []);
        return Ok([]);
      }
      var it, prefix;
      ghost var run;
      it, prefix, run := SeekHash(key, meta, now);
      ghost var fields, hash := FieldsIn(run, |key|), HashOf(db.Map(), key);
      var values: seq<Value> := [];
      var item := Peek(it, prefix, run, 0);
      while item.Some?
        invariant Walking(it, prefix, run, |values|) && |values| <= |run|
        invariant forall i :: 0 <= i < |values| ==> fields[i] in hash && values[i] == hash[fields[i]]
        invariant item == if |values| < |run| then Some(run[|values|]) else None
        decreases |run| - |values|
      {
        FieldAt(db.Map(), key, meta.version, run, |values|);
        RunPosition(db, run, |values|);
        var val := db.ValueAt(item.value.pos);
        Advance(it, prefix, run, |values|);
        values := values + [val];
        item := Peek(it, prefix, run, |values|);
      }
      it.Close();
      OrderFacts(db.Map(), key, meta.version, run, fields);
      AscendingIsByteOrder(fields);
      assert ListsHash(hash, fields, values);
      return Ok(values);
    }

    /** `HGetAll`: the whole hash. */
    method HGetAll(key: Key, now: int) returns (r: Result<map<bytes, Value>, RedisError>)
      requires db.Valid() && Clock(now) && Sound(db.Map(), key, now)
      ensures
        var found := FindMetadata(db.Map(), key, HASH, now);
        r == if found.Err? then Err(found.error) else Ok(HashOf(db.Map(), key))
    {
      hide Sound, HashOf, FindMetadata, Decode, FieldsIn, Fields, Walking, Positioned, InOrder, DecodeFieldKey;
      hide Ascending;
      var found := FindMeta(key, HASH, now);
      if found.Err? {
        return Err(found.error);
      }
      var meta := found.value;
      if meta.size == 0 {
        EmptyHash(db.Map(), key, meta, now);
        return Ok(map[]);
      }
      var it, prefix;
      ghost var run;
      it, prefix, run := SeekHash(key, meta, now);
      ghost var fields, hash, n := FieldsIn(run, |key|), HashOf(db.Map(), key), 0;
      var result: map<bytes, Value> := map[];
      var item := Peek(it, prefix, run, 0);
      while item.Some?
        invariant Walking(it, prefix, run, n) && n <= |run|
        invariant forall f :: f in result <==> f in fields[..n]
        invariant forall f :: f in result ==> f in hash && result[f] == hash[f]
        invariant item == if n < |run| then Some(run[n]) else None
        decreases |run| - n
      {
        FieldAt(db.Map(), key, meta.version, run, n);
        RunPosition(db, run, n);
        var hk := DecodeFieldKey(item.value.key, |key|);
        var val := db.ValueAt(item.value.pos);
        Advance(it, prefix, run, n);
        result := result[hk.2 := val];
        assert fields[..n + 1] == fields[..n] + [fields[n]];
        n := n + 1;
        item := Peek(it, prefix, run, n);
      }
      it.Close();
      assert fields[..n] == fields;
      OrderFacts(db.Map(), key, meta.version, run, fields);
      assert result == hash;
      return Ok(result);
    }
  }

  /** These fields in ascending order are those of the hash, and these are their values. */
  ghost predicate ListsHash(hash: map<bytes, Value>, fields: seq<bytes>, values: seq<Value>) {
    && Ascending(fields) && InByteOrder(fields) && (forall f :: f in fields <==> f in hash)
    && |values| == |fields| && forall i :: 0 <= i < |fields| ==> fields[i] in hash && values[i] == hash[fields[i]]
  }

  /** The items of a run carry the positions that the index has. */
  ghost predicate Positioned(db: Store, run: seq<Item>)
    reads db
  {
    forall i :: 0 <= i < |run| ==> run[i].key in db.index && db.index[run[i].key] == run[i].pos
  }

  lemma {:induction false} RunPosition(db: Store, run: seq<Item>, n: nat)
    requires db.Valid() && Positioned(db, run) && n < |run|
    ensures run[n].pos.offset < |db.written| && run[n].key in db.Map()
      && db.Map()[run[n].key] == db.written[run[n].pos.offset]
  {
  }
}
