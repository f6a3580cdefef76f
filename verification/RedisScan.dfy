/** The fields of a hash in the order of a sorted snapshot. */
module RedisScan {
  import opened Bytes
  import opened Wrappers
  import opened LogRecords
  import opened Iterators
  import opened KeyValue
  import opened RedisMeta
  import opened RedisModel

  /** The fields of a hash in ascending order, each once, with the items of an iterator that stand for them. */
  ghost predicate InOrder(m: Stored, key: bytes, version: int, run: seq<Item>, fields: seq<bytes>) {
    && |fields| == |run| && Ascending(fields)
    && (forall f :: f in fields <==> f in Fields(m, key, version))
    && (forall i :: 0 <= i < |run| ==>
      run[i].key == FieldKey(key, version, fields[i]) && fields[i] in Fields(m, key, version))
  }

  function FieldOf(item: Item, keyLen: nat): bytes {
    if |item.key| >= keyLen + 8 then item.key[keyLen + 8..] else []
  }

  function FieldsIn(run: seq<Item>, keyLen: nat): (fields: seq<bytes>)
    ensures |fields| == |run|
  {
    seq(|run|, i requires 0 <= i < |run| => FieldOf(run[i], keyLen))
  }

  /** The keys with the prefix of a hash, in the order of a sorted snapshot, are its fields in ascending order. */
  lemma {:induction false} RunIsHash(tree: seq<Item>, index: map<bytes, Pos>, m: Stored, key: bytes, version: int)
    requires Lists(tree, index) && forall k :: k in index <==> k in m
    ensures
      var prefix := Prefix(key, version);
      var run := PrefixRun(Select(tree, [], Some(prefix), false), prefix);
      InOrder(m, key, version, run, FieldsIn(run, |key|)) && forall i :: 0 <= i < |run| ==> run[i] in tree
  {
    hide Compare, Select, Fields, PrefixRun, Prefix, Sorted, Lists, HasPrefix, FieldsIn, FieldKey, Ascending;
    var prefix := Prefix(key, version);
    var run := PrefixRun(Select(tree, [], Some(prefix), false), prefix);
    var fields := FieldsIn(run, |key|);
    TreeSorted(tree, index);
    SeekFindsRun(tree, prefix);
    forall i | 0 <= i < |run|
      ensures run[i] in tree && run[i].key == FieldKey(key, version, fields[i]) && fields[i] in Fields(m, key, version)
    {
      assert run[i] in run;
      RunItem(tree, index, run[i], key, version);
      FieldStored(m, key, version, fields[i]);
      FieldsInAt(run, |key|, i);
    }
    RunAscends(run, key, version);
    forall f | f in Fields(m, key, version) ensures f in fields {
      FieldStored(m, key, version, f);
      var i := FieldFound(tree, index, run, key, version, f);
      FieldsInAt(run, |key|, i);
    }
  }

  lemma {:induction false} TreeSorted(tree: seq<Item>, index: map<bytes, Pos>)
    requires Lists(tree, index)
    ensures Sorted(tree, false)
  {
  }

  lemma {:induction false} FieldsInAt(run: seq<Item>, keyLen: nat, i: nat)
    requires i < |run|
    ensures FieldsIn(run, keyLen)[i] == FieldOf(run[i], keyLen)
  {
  }

  /** An item with the prefix of a hash stands for a field. */
  lemma {:induction false} RunItem(tree: seq<Item>, index: map<bytes, Pos>, item: Item, key: bytes, version: int)
    requires Lists(tree, index) && item in tree && HasPrefix(item.key, Prefix(key, version))
    ensures item.key in index && item.key == FieldKey(key, version, FieldOf(item, |key|))
  {
    var prefix := Prefix(key, version);
    assert item.key == item.key[..|prefix|] + item.key[|prefix|..];
  }

  lemma {:induction false} RunAscends(run: seq<Item>, key: bytes, version: int)
    requires Sorted(run, false)
    requires forall i :: 0 <= i < |run| ==> run[i].key == FieldKey(key, version, FieldsIn(run, |key|)[i])
    ensures Ascending(FieldsIn(run, |key|))
  {
    hide Compare, FieldsIn;
    var fields := FieldsIn(run, |key|);
    forall i, j | 0 <= i < j < |run| ensures Compare(fields[i], fields[j]) < 0 {
      assert Precedes(run[i].key, run[j].key, false);
      CompareAfterPrefix(Prefix(key, version), fields[i], fields[j]);
    }
  }

  /** Every stored field is in the run. */
  lemma {:induction false} FieldFound(tree: seq<Item>, index: map<bytes, Pos>, run: seq<Item>, key: bytes,
    version: int, f: bytes)
    returns (i: nat)
    requires Lists(tree, index) && FieldKey(key, version, f) in index
    requires forall x :: x in run <==> x in tree && HasPrefix(x.key, Prefix(key, version))
    ensures i < |run| && FieldOf(run[i], |key|) == f
  {
    var prefix, k := Prefix(key, version), FieldKey(key, version, f);
    assert k[..|prefix|] == prefix && k[|prefix|..] == f;
    var item := Item(k, index[k]);
    assert item in run;
    i :| 0 <= i < |run| && run[i] == item;
  }

  /** One turn of a loop over the keys with a prefix: the current item is the next of the run, or the run is over. */
  lemma {:induction false} RunStep(run: seq<Item>, n: nat, rest: seq<Item>, prefix: bytes)
    requires |rest| > 0 && n <= |run| && PrefixRun(rest, prefix) == run[n..]
    ensures HasPrefix(rest[0].key, prefix) ==>
      n < |run| && run[n] == rest[0] && PrefixRun(rest[1..], prefix) == run[n + 1..]
    ensures !HasPrefix(rest[0].key, prefix) ==> n == |run|
  {
    if HasPrefix(rest[0].key, prefix) {
      assert run[n..] == [rest[0]] + PrefixRun(rest[1..], prefix);
      assert run[n + 1..] == run[n..][1..];
    }
  }

  lemma {:induction false} CompareAfterPrefix(p: bytes, a: bytes, b: bytes)
    ensures Compare(p + a, p + b) == Compare(a, b)
  {
    if |p| == 0 {
      assert p + a == a && p + b == b;
    } else {
      assert (p + a)[1..] == p[1..] + a && (p + b)[1..] == p[1..] + b;
      CompareAfterPrefix(p[1..], a, b);
    }
  }

  lemma {:induction false} FoundHash(m: Stored, key: bytes, md: Metadata, now: int)
    requires Sound(m, key, now) && Clock(now) && FindMetadata(m, key, HASH, now) == Ok(md)
    ensures HashOf(m, key) == Fields(m, key, md.version) && |HashOf(m, key)| == md.size
  {
    hide Sound, FieldNames, VersionsBelow, Fields;
    Found(m, key, HASH, now);
  }

  lemma {:induction false} EmptyHash(m: Stored, key: bytes, md: Metadata, now: int)
    requires Sound(m, key, now) && Clock(now) && FindMetadata(m, key, HASH, now) == Ok(md) && md.size == 0
    ensures HashOf(m, key) == map[] && Ascending([])
  {
    hide Sound, HashOf;
    FoundHash(m, key, md, now);
    assert |HashOf(m, key)| == 0;
  }

  lemma {:induction false} OrderFacts(m: Stored, key: bytes, version: int, run: seq<Item>, fields: seq<bytes>)
    requires InOrder(m, key, version, run, fields)
    ensures Ascending(fields) && forall f :: f in fields <==> f in Fields(m, key, version)
  {
  }

  lemma {:induction false} FieldAt(m: Stored, key: bytes, version: int, run: seq<Item>, n: nat)
    requires InOrder(m, key, version, run, FieldsIn(run, |key|)) && n < |run|
    ensures |run[n].key| >= |key| + 8
    ensures DecodeFieldKey(run[n].key, |key|).2 == FieldsIn(run, |key|)[n] == run[n].key[|key| + 8..]
    ensures run[n].key in m && FieldsIn(run, |key|)[n] in Fields(m, key, version)
    ensures Fields(m, key, version)[FieldsIn(run, |key|)[n]] == m[run[n].key]
  {
    hide Fields, FieldKey;
    FieldStored(m, key, version, FieldsIn(run, |key|)[n]);
  }

  lemma {:induction false} RunEnds(rest: seq<Item>, prefix: bytes)
    ensures |rest| == 0 || !HasPrefix(rest[0].key, prefix) ==> PrefixRun(rest, prefix) == []
  {
  }

  // ---------------------------------------------------------------- walking an iterator over a prefix

  /** The iterator stands before the n-th item of the run. */
  ghost predicate Walking(it: Iterator, prefix: bytes, run: seq<Item>, n: nat)
    reads it, it.indexIter, it.indexIter.values
  {
    it.Valid() && n <= |run| && PrefixRun(it.Rest(), prefix) == run[n..]
  }

  /** The condition of the loops: the current item, if the iterator is valid and the key has the prefix. */
  method Peek(it: Iterator, prefix: bytes, ghost run: seq<Item>, ghost n: nat) returns (item: Option<Item>)
    requires Walking(it, prefix, run, n)
    ensures item == if n < |run| then Some(run[n]) else None
  {
    hide HasPrefix, PrefixRun, Select;
    hide Iterator.Valid, Iterator.Rest;
    RunEnds(it.Rest(), prefix);
    var valid := it.HasCurrent();
    if !valid {
      return None;
    }
    RunStep(run, n, it.Rest(), prefix);
    var current := it.Current();
    if !HasPrefix(current.key, prefix) {
      return None;
    }
    return Some(current);
  }

  /** `Next` inside the run. */
  method Advance(it: Iterator, prefix: bytes, ghost run: seq<Item>, ghost n: nat)
    requires Walking(it, prefix, run, n) && n < |run|
    modifies it.indexIter`currIndex
    ensures Walking(it, prefix, run, n + 1)
  {
    hide HasPrefix, PrefixRun, Select;
    hide Iterator.Valid, Iterator.Rest;
    RunEnds(it.Rest(), prefix);
    RunStep(run, n, it.Rest(), prefix);
    it.Next();
  }
}
