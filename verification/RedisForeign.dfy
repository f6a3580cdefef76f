/** Why user keys must be prefix-free: what writes of any other use of the store do to a hash, set or list. */
module RedisForeign {
  import opened Bytes
  import opened Wrappers
  import opened Log
  import opened RedisMeta
  import opened RedisModel

  lemma {:induction false} FieldKeyIs(key: bytes, version: int, f: bytes)
    ensures FieldKey(key, version, f) == Prefix(key, version) + f
    ensures HasPrefix(FieldKey(key, version, f), Prefix(key, version))
  {
    var p := Prefix(key, version);
    assert (p + f)[..|p|] == p;
  }

  /** A write at this place is seen by the structure of that key and version. */
  predicate Hits(u: Key, key: Key, version: int) {
    HasPrefix(u, Prefix(key, version))
  }

  lemma {:induction false} FieldOfHit(m: Stored, key: Key, version: int, u: Key)
    requires Hits(u, key, version)
    ensures
      var f := u[|key| + 8..];
      u == FieldKey(key, version, f) && (f in FieldNames(m, key, version) <==> u in m)
  {
    hide FieldNames;
    var p := Prefix(key, version);
    assert u == u[..|p|] + u[|p|..];
    FieldStored(m, key, version, u[|p|..]);
  }

  /** Puts add exactly the names that they spell out. */
  lemma {:induction false} NamesAfterPuts(m: Stored, w: Stored, key: Key, version: int)
    ensures FieldNames(m, key, version) <= FieldNames(m + w, key, version)
    ensures FieldNames(m + w, key, version) == FieldNames(m, key, version)
       <==> forall u :: u in w && Hits(u, key, version) ==> u in m
  {
    hide FieldNames, Hits, FieldKey;
    var before, after := FieldNames(m, key, version), FieldNames(m + w, key, version);
    forall f ensures f in before <==> FieldKey(key, version, f) in m
      ensures f in after <==> FieldKey(key, version, f) in m || FieldKey(key, version, f) in w
      ensures Hits(FieldKey(key, version, f), key, version)
    {
      FieldStored(m, key, version, f);
      FieldStored(m + w, key, version, f);
      FieldHits(key, version, f);
    }
    forall u | u in w && Hits(u, key, version) && u !in m ensures after != before {
      FieldOfHit(m, key, version, u);
      FieldOfHit(m + w, key, version, u);
    }
  }

  lemma {:induction false} FieldHits(key: Key, version: int, f: bytes)
    ensures Hits(FieldKey(key, version, f), key, version)
  {
    FieldKeyIs(key, version, f);
  }

  /** Deletions take away exactly the names that they spell out. */
  lemma {:induction false} NamesAfterDeletes(m: Stored, gone: set<Key>, key: Key, version: int)
    ensures FieldNames(m - gone, key, version) <= FieldNames(m, key, version)
    ensures FieldNames(m - gone, key, version) == FieldNames(m, key, version)
       <==> forall u :: u in gone && Hits(u, key, version) ==> u !in m
  {
    hide FieldNames, Hits, FieldKey;
    var before, after := FieldNames(m, key, version), FieldNames(m - gone, key, version);
    forall f ensures f in before <==> FieldKey(key, version, f) in m
      ensures f in after <==> FieldKey(key, version, f) in m && FieldKey(key, version, f) !in gone
      ensures Hits(FieldKey(key, version, f), key, version)
    {
      FieldStored(m, key, version, f);
      FieldStored(m - gone, key, version, f);
      FieldHits(key, version, f);
    }
    forall u | u in gone && Hits(u, key, version) && u in m ensures after != before {
      FieldOfHit(m, key, version, u);
      FieldOfHit(m - gone, key, version, u);
    }
  }

  lemma {:induction false} SameSizeSubset(a: set<bytes>, b: set<bytes>)
    requires a <= b
    ensures |a| == |b| <==> a == b
  {
    if a != b {
      assert b == a + (b - a);
      var x :| x in b - a;
      assert |b - a| > 0;
    }
  }

  /** With its metadata in place, a structure stays exact if and only if its names stay the same. */
  lemma {:induction false} ExactMeansSameNames(m: Stored, after: Stored, key: Key, md: Metadata)
    requires Exact(m, key, md) && md.dataType in {HASH, SET, LIST}
    requires var a, b := FieldNames(m, key, md.version), FieldNames(after, key, md.version); a <= b || b <= a
    ensures Exact(after, key, md) <==> FieldNames(after, key, md.version) == FieldNames(m, key, md.version)
  {
    hide FieldNames, Range;
    var a, b := FieldNames(m, key, md.version), FieldNames(after, key, md.version);
    if a <= b {
      SameSizeSubset(a, b);
    } else {
      SameSizeSubset(b, a);
    }
  }

  /**
   * Any puts of other uses keep a hash, set or list exact if and only if none of them creates a key
   * that spells out one of its internal keys.
   */
  lemma {:induction false} ForeignPutsExact(m: Stored, w: Stored, key: Key, md: Metadata)
    requires MetaOf(m, key, md.dataType) == Some(md) && md.dataType in {HASH, SET, LIST} && Exact(m, key, md)
      && key !in w
    ensures MetaOf(m + w, key, md.dataType) == Some(md)
    ensures Exact(m + w, key, md) <==> forall u :: u in w && Hits(u, key, md.version) ==> u in m
  {
    hide FieldNames, Hits, Exact, Decode;
    NamesAfterPuts(m, w, key, md.version);
    ExactMeansSameNames(m, m + w, key, md);
  }

  /** Any deletions keep it exact if and only if none of them removes one of its internal keys. */
  lemma {:induction false} ForeignDeletesExact(m: Stored, gone: set<Key>, key: Key, md: Metadata)
    requires MetaOf(m, key, md.dataType) == Some(md) && md.dataType in {HASH, SET, LIST} && Exact(m, key, md)
      && key !in gone
    ensures MetaOf(m - gone, key, md.dataType) == Some(md)
    ensures Exact(m - gone, key, md) <==> forall u :: u in gone && Hits(u, key, md.version) ==> u !in m
  {
    hide FieldNames, Hits, Exact, Decode;
    NamesAfterDeletes(m, gone, key, md.version);
    ExactMeansSameNames(m, m - gone, key, md);
  }

  // ---------------------------------------------------------------- what a client sees

  /** A hash looks the same after puts of other uses if and only if they repeat what its internal keys already hold. */
  lemma {:induction false} ForeignPutsHash(m: Stored, w: Stored, key: Key, md: Metadata)
    requires MetaOf(m, key, HASH) == Some(md) && key !in w
    ensures HashOf(m + w, key) == HashOf(m, key)
       <==> forall u :: u in w && Hits(u, key, md.version) ==> u in m && m[u] == w[u]
  {
    hide FieldNames, Fields, Hits, FieldKey, Decode;
    var before, after := Fields(m, key, md.version), Fields(m + w, key, md.version);
    forall u | u in w && Hits(u, key, md.version) && !(u in m && m[u] == w[u]) ensures after != before {
      FieldOfHit(m, key, md.version, u);
      FieldStored(m, key, md.version, u[|key| + 8..]);
      FieldStored(m + w, key, md.version, u[|key| + 8..]);
    }
    if forall u :: u in w && Hits(u, key, md.version) ==> u in m && m[u] == w[u] {
      forall f ensures f in after <==> f in before
        ensures f in after && f in before ==> after[f] == before[f]
      {
        FieldStored(m, key, md.version, f);
        FieldStored(m + w, key, md.version, f);
        FieldHits(key, md.version, f);
      }
      assert after == before;
    }
  }

  /** A set looks the same if and only if no put creates one of its internal keys. */
  lemma {:induction false} ForeignPutsSet(m: Stored, w: Stored, key: Key, md: Metadata)
    requires MetaOf(m, key, SET) == Some(md) && key !in w
    ensures SetOf(m + w, key) == SetOf(m, key) <==> forall u :: u in w && Hits(u, key, md.version) ==> u in m
  {
    hide FieldNames, Hits, Decode;
    NamesAfterPuts(m, w, key, md.version);
  }

  /** The elements of an exact list look the same if and only if no put changes one of its internal keys. */
  lemma {:induction false} ForeignPutsList(m: Stored, w: Stored, key: Key, md: Metadata)
    requires MetaOf(m, key, LIST) == Some(md) && Exact(m, key, md) && key !in w
    ensures ListOf(m + w, key) == ListOf(m, key)
       <==> forall u :: u in w && Hits(u, key, md.version) && u in m ==> m[u] == w[u]
  {
    hide FieldNames, Hits, Decode, IndexKey, FieldKey, IndexBytes, Elements, ElementAt, Range;
    var after := m + w;
    forall i: nat | i < md.tail - md.head
      ensures Elements(m, key, md)[i] == ElementAt(m, key, md.version, md.head + i)
      ensures Elements(after, key, md)[i] == ElementAt(after, key, md.version, md.head + i)
      ensures IndexKey(key, md.version, md.head + i) in m
        && Hits(IndexKey(key, md.version, md.head + i), key, md.version)
    {
      ElementsIndex(m, key, md, i);
      ElementsIndex(after, key, md, i);
      IndexInside(m, key, md, md.head + i);
    }
    forall u | u in w && Hits(u, key, md.version) && u in m && m[u] != w[u]
      ensures ListOf(after, key) != ListOf(m, key)
    {
      var i := ElementOfHit(m, key, md, u);
      ElementIs(m, key, md.version, i);
      ElementIs(after, key, md.version, i);
      assert Elements(m, key, md)[i - md.head] != Elements(after, key, md)[i - md.head];
    }
    if forall u :: u in w && Hits(u, key, md.version) && u in m ==> m[u] == w[u] {
      forall i: nat | i < md.tail - md.head ensures Elements(after, key, md)[i] == Elements(m, key, md)[i] {
        ElementIs(m, key, md.version, md.head + i);
        ElementIs(after, key, md.version, md.head + i);
      }
      assert Elements(after, key, md) == Elements(m, key, md);
    }
  }

  lemma {:induction false} ElementIs(m: Stored, key: Key, version: int, i: nat)
    ensures IndexKey(key, version, i) in m ==> ElementAt(m, key, version, i) == m[IndexKey(key, version, i)]
  {
  }

  lemma {:induction false} IndexInside(m: Stored, key: Key, md: Metadata, i: nat)
    requires ListExact(m, key, md) && md.head <= i < md.tail
    ensures IndexKey(key, md.version, i) in m && Hits(IndexKey(key, md.version, i), key, md.version)
  {
    hide FieldNames, FieldKey, IndexKey, IndexBytes, Hits;
    assert IndexBytes(i) in Range(md.head, md.tail);
    IndexIsField(key, md.version, i);
    FieldStored(m, key, md.version, IndexBytes(i));
    FieldHits(key, md.version, IndexBytes(i));
  }

  /** A stored key that hits an exact list is one of its elements. */
  lemma {:induction false} ElementOfHit(m: Stored, key: Key, md: Metadata, u: Key) returns (i: nat)
    requires ListExact(m, key, md) && u in m && Hits(u, key, md.version)
    ensures md.head <= i < md.tail && u == IndexKey(key, md.version, i)
  {
    hide FieldNames, FieldKey, IndexKey, IndexBytes, Hits;
    FieldOfHit(m, key, md.version, u);
    assert u[|key| + 8..] in Range(md.head, md.tail);
    i :| md.head <= i < md.tail && IndexBytes(i) == u[|key| + 8..];
    IndexIsField(key, md.version, i);
  }

  // ---------------------------------------------------------------- whole commands

  /** The two keys that a command on `b` writes: its metadata and one internal key. */
  function WriteSet(b: Key, meta: Value, version: int, field: bytes, value: Value): Stored {
    map[b := meta, FieldKey(b, version, field) := value]
  }

  /**
   * A command that stores a field, member or element under the key b keeps the structure of another key exact
   * if and only if neither of the two keys it writes is a new one that spells out an internal key of that structure.
   */
  lemma {:induction false} StoringCommand(m: Stored, key: Key, md: Metadata, b: Key, meta: Value, version: int,
    field: bytes, value: Value)
    requires MetaOf(m, key, md.dataType) == Some(md) && md.dataType in {HASH, SET, LIST} && Exact(m, key, md)
    requires b != key && FieldKey(b, version, field) != key
    ensures
      var u, after := FieldKey(b, version, field), m[b := meta][FieldKey(b, version, field) := value];
      Exact(after, key, md) <==> (Hits(b, key, md.version) ==> b in m) && (Hits(u, key, md.version) ==> u in m)
  {
    hide FieldKey, Hits, Exact, MetaOf;
    var w := WriteSet(b, meta, version, field, value);
    ForeignPutsExact(m, w, key, md);
    assert m[b := meta][FieldKey(b, version, field) := value] == m + w by {
      FieldKeyIsLonger(b, version, field);
    }
    assert b in w && FieldKey(b, version, field) in w;
  }

  /**
   * A command that removes a stored field, member or element under b: if and only if that was not an internal key
   * of it.
   */
  lemma {:induction false} RemovingCommand(m: Stored, key: Key, md: Metadata, b: Key, meta: Value, version: int,
    field: bytes)
    requires MetaOf(m, key, md.dataType) == Some(md) && md.dataType in {HASH, SET, LIST} && Exact(m, key, md)
    requires b != key && FieldKey(b, version, field) != key && b in m && FieldKey(b, version, field) in m
    ensures
      var u, after := FieldKey(b, version, field), m[b := meta] - {FieldKey(b, version, field)};
      Exact(after, key, md) <==> !Hits(u, key, md.version)
  {
    hide FieldKey, Hits, Exact, MetaOf;
    var u := FieldKey(b, version, field);
    ForeignPutsExact(m, map[b := meta], key, md);
    assert m + map[b := meta] == m[b := meta];
    ForeignDeletesExact(m[b := meta], {u}, key, md);
  }

  /** The keys of a command hit nothing of a key that is apart from its own. */
  lemma {:induction false} ApartNeverHits(key: Key, version: int, b: Key, w: int, field: bytes)
    requires Apart(key, b)
    ensures !Hits(b, key, version) && !Hits(FieldKey(b, w, field), key, version)
    ensures b != key && FieldKey(b, w, field) != key
  {
    hide FieldKey, HasPrefix;
    BelongsTo(b, w, field);
    ApartRegions(b, key, b);
    ApartRegions(b, key, FieldKey(b, w, field));
    BelongsTo(key, 0, []);
    if Hits(b, key, version) {
      HitBegins(b, key, version);
    }
    if Hits(FieldKey(b, w, field), key, version) {
      HitBegins(FieldKey(b, w, field), key, version);
    }
  }

  lemma {:induction false} HitBegins(u: Key, key: Key, version: int)
    requires Hits(u, key, version)
    ensures HasPrefix(u, key)
  {
    assert u[..|key|] == u[..|key| + 8][..|key|];
  }

  /**
   * Two commands of a client that collide: a hash `key` is created at time v with one field; then a hash is created
   * on the user key that spells out the internal key of another field. The first hash now has a field that its size
   * does not count.
   */
  lemma {:induction false} CollidingCommands(key: Key, v: int, f: bytes, x: Value, g: bytes, now: int, h: bytes,
    y: Value)
    requires Clock(v) && Clock(now) && g != f
    ensures
      var other := FieldKey(key, v, g);
      var md := Fresh(HASH, v).(size := 1);
      var first: Stored := map[key := MetadataBytes(md)][FieldKey(key, v, f) := x];
      var second := first[other := MetadataBytes(Fresh(HASH, now).(size := 1))][FieldKey(other, now, h) := y];
      && MetaOf(first, key, HASH) == Some(md) && HashOf(first, key) == map[f := x] && Exact(first, key, md)
      && MetaOf(second, key, HASH) == Some(md) && g in HashOf(second, key) && !Exact(second, key, md)
  {
    hide MetadataBytes, Decode, Prefix, FieldNames, Fields, Hits;
    var other, md := FieldKey(key, v, g), Fresh(HASH, v).(size := 1);
    var first: Stored := map[key := MetadataBytes(md)][FieldKey(key, v, f) := x];
    FieldKeyIsLonger(key, v, f);
    FieldKeyIsLonger(key, v, g);
    MetadataRoundTrip(md);
    FirstHash(key, v, f, x, md);
    if FieldKey(key, v, f) == other {
      FieldKeyInjective(key, v, f, v, g);
    }
    var second := first[other := MetadataBytes(Fresh(HASH, now).(size := 1))][FieldKey(other, now, h) := y];
    FieldHits(key, v, g);
    StoringCommand(first, key, md, other, MetadataBytes(Fresh(HASH, now).(size := 1)), now, h, y);
    FieldStored(second, key, v, g);
  }

  lemma {:induction false} FirstHash(key: Key, v: int, f: bytes, x: Value, md: Metadata)
    requires Clock(v) && md == Fresh(HASH, v).(size := 1)
    ensures
      var first: Stored := map[key := MetadataBytes(md)][FieldKey(key, v, f) := x];
      Fields(first, key, v) == map[f := x] && FieldNames(first, key, v) == {f} && Exact(first, key, md)
  {
    hide MetadataBytes, Fields, FieldNames, FieldKey;
    var none: Stored := map[];
    FieldsEmpty(key, v);
    MetadataApart(none, key, v, MetadataBytes(md));
    FieldPut(none[key := MetadataBytes(md)], key, v, f, x);
    var first := none[key := MetadataBytes(md)][FieldKey(key, v, f) := x];
    assert Fields(none, key, v)[f := x] == map[f := x];
    FieldsKeys(first, key, v);
    assert FieldNames(first, key, v) == {f};
  }

  lemma {:induction false} FieldsEmpty(key: Key, v: int)
    ensures Fields(map[], key, v) == map[]
  {
  }
}
