/** Runs of Redis commands over many keys against texts, lists, maps and sets. */
module RedisRuns {
  import opened Bytes
  import opened Listings
  import opened Varints
  import opened Wrappers
  import opened Log
  import opened RedisMeta
  import opened RedisModel
  import opened RedisCommands
  import opened RedisTypes

  lemma {:induction false} SizesCounted(m: Stored, key: Key, now: int, n: nat)
    requires KeyOk(m, key, now, n)
    ensures |HashOf(m, key)| <= n && |SetOf(m, key)| <= n
  {
    hide Fields, FieldNames, VersionsBelow, ListExact, TextOk, Contents;
    if key in m && Decode(m[key]).Some? {
      DecodedType(m[key]);
      FieldsKeys(m, key, Decode(m[key]).value.version);
      assert |Fields(m, key, Decode(m[key]).value.version)| == |Fields(m, key, Decode(m[key]).value.version).Keys|;
    }
  }

  /** After a write: the key holds what its metadata says, and the counters have moved by at most one. */
  lemma {:induction false} ContentAfter(after: Stored, key: Key, md: Metadata, now: int, n: nat)
    requires key != [] && Sound(after, key, now) && md.dataType in {HASH, SET, LIST}
      && MetaOf(after, key, md.dataType) == Some(md)
    requires md.size <= n && (md.dataType == LIST ==>
      INITIAL_LIST_MARK - n <= md.head && md.tail <= INITIAL_LIST_MARK + n)
    ensures KeyOk(after, key, now, n)
    ensures Contents(after, key) ==
      if md.dataType == HASH then AHash(HashOf(after, key))
      else if md.dataType == SET then ASet(SetOf(after, key))
      else AList(ListOf(after, key))
  {
    hide Sound, HashOf, SetOf, ListOf, StringBytes;
    DecodedType(after[key]);
  }

  /** After a text is stored. */
  lemma {:induction false} TextAfter(m: Stored, key: Key, expire: int, text: bytes, now: int, n: nat)
    requires key != [] && Sound(m, key, now) && -TWO_63 <= expire < TWO_63
    ensures
      var after := m[key := StringBytes(expire, text)];
      Contents(after, key) == AText(expire, text) && KeyOk(after, key, now + 1, n) && SameElsewhere(m, after, key)
  {
    hide Sound, VarintBytes, Varint, Decode, SameElsewhere;
    var stored := StringBytes(expire, text);
    StringSet(m, key, expire, text, now);
    if Decode(stored).Some? {
      DecodedType(stored);
    }
    assert stored[1..] == VarintBytes(expire) + text;
    SkipVarint(expire, text);
    assert stored[1 + |VarintBytes(expire)|..] == stored[1..][|VarintBytes(expire)|..];
  }

  lemma {:induction false} GetAnswers(m: Stored, key: Key, now: int, n: nat)
    requires KeyOk(m, key, now, n)
    ensures
      var got := GetString(m, key, now);
      TextSpec(Contents(m, key), GetText(key), now)
        == (Contents(m, key), if got.Ok? then Bulk(got.value) else Failed(got.error))
  {
    hide HashOf, SetOf, ListOf, VersionsBelow, Exact, StringBytes;
    if key in m && Decode(m[key]).Some? {
      DecodedType(m[key]);
    }
    var content := Contents(m, key);
    if content.AText? {
      StringComesBack(m, key, content.expire, content.text, now);
    }
  }

  lemma {:induction false} Unchanged(m: Stored, key: Key, now: int, n: nat)
    requires KeyOk(m, key, now, n)
    ensures KeyOk(m, key, now + 1, n + 1)
    ensures SameElsewhere(m, m, key)
  {
    hide Sound, Contents;
    SoundLater(m, key, now, now + 1);
  }

  // ---------------------------------------------------------------- single commands

  /** The clock is in range, and so is the expiry that a text would get. */
  predicate Timely(c: Command, now: int) {
    Clock(now) && (c.SetText? ==> -TWO_63 <= now + c.ttl < TWO_63)
  }

  ghost predicate Ready(rds: RedisDataStructure, c: Command, now: int, n: nat)
    reads rds.db
  {
    rds.db.Valid() && Timely(c, now) && KeyOk(rds.db.Map(), c.key, now, n) && n + 1 < TWO_32
  }

  ghost predicate Done(m: Stored, rds: RedisDataStructure, c: Command, now: int, n: nat, reply: Reply)
    reads rds.db
  {
    rds.db.Valid() && Performs(m, c, now, reply, rds.db.Map()) && KeyOk(rds.db.Map(), c.key, now + 1, n + 1)
  }

  /** One command against its reference semantics. */
  method Execute(rds: RedisDataStructure, c: Command, now: int, ghost n: nat) returns (reply: Reply)
    requires Ready(rds, c, now, n)
    modifies rds.db
    ensures Done(old(rds.db.Map()), rds, c, now, n, reply)
  {
    hide Ready, Done;
    match c {
      case SetText(_, _, _) => reply := ExecuteSet(rds, c, now, n);
      case GetText(_) => reply := ExecuteGet(rds, c, now, n);
      case HSet(_, _, _) => reply := ExecuteHSet(rds, c, now, n);
      case HGet(_, _) => reply := ExecuteHGet(rds, c, now, n);
      case HDel(_, _) => reply := ExecuteHDel(rds, c, now, n);
      case HKeys(_) => reply := ExecuteHKeys(rds, c, now, n);
      case HValues(_) => reply := ExecuteHValues(rds, c, now, n);
      case HGetAll(_) => reply := ExecuteHGetAll(rds, c, now, n);
      case SAdd(_, _) => reply := ExecuteSAdd(rds, c, now, n);
      case SIsMember(_, _) => reply := ExecuteSIsMember(rds, c, now, n);
      case SRem(_, _) => reply := ExecuteSRem(rds, c, now, n);
      case Push(_, _, _) => reply := ExecutePush(rds, c, now, n);
      case Pop(_, _) => reply := ExecutePop(rds, c, now, n);
      case LAll(_) => reply := ExecuteLAll(rds, c, now, n);
      case LSize(_) => reply := ExecuteLSize(rds, c, now, n);
      case Remove(_) => reply := ExecuteRemove(rds, c, now, n);
    }
  }

  method ExecuteSet(rds: RedisDataStructure, c: Command, now: int, ghost n: nat) returns (reply: Reply)
    requires c.SetText? && Ready(rds, c, now, n)
    modifies rds.db
    ensures Done(old(rds.db.Map()), rds, c, now, n, reply)
  {
    hide Sound, SameElsewhere, Contents, StringBytes;
    ghost var m := rds.db.Map();
    Unchanged(m, c.key, now, n);
    if c.text.Some? {
      TextAfter(m, c.key, if c.ttl != 0 then now + c.ttl else 0, c.text.value, now, n + 1);
    }
    var r := rds.Set(c.key, c.ttl, c.text, now);
    reply := match r case None => Nothing case Some(error) => Failed(error);
  }

  method ExecuteGet(rds: RedisDataStructure, c: Command, now: int, ghost n: nat) returns (reply: Reply)
    requires c.GetText? && Ready(rds, c, now, n)
    modifies rds.db
    ensures Done(old(rds.db.Map()), rds, c, now, n, reply)
  {
    hide KeyOk, SameElsewhere, Contents, GetString, TextSpec;
    Unchanged(rds.db.Map(), c.key, now, n);
    GetAnswers(rds.db.Map(), c.key, now, n);
    var r := rds.Get(c.key, now);
    reply := if r.Ok? then Bulk(r.value) else Failed(r.error);
  }

  method ExecuteHSet(rds: RedisDataStructure, c: Command, now: int, ghost n: nat) returns (reply: Reply)
    requires c.HSet? && Ready(rds, c, now, n)
    modifies rds.db
    ensures Done(old(rds.db.Map()), rds, c, now, n, reply)
  {
    hide Sound, HashOf, SetOf, ListOf, MetaOf, FindMetadata, SameElsewhere, Contents, Counted, TextOk, Spec;
    ghost var m, found := rds.db.Map(), FindMetadata(rds.db.Map(), c.key, HASH, now);
    HashAnswers(m, c, now, n);
    Unchanged(m, c.key, now, n);
    SizesCounted(m, c.key, now, n);
    var r := rds.HSet(c.key, c.field, c.value, now);
    if r.Ok? {
      ContentAfter(rds.db.Map(), c.key, if r.value then Sized(found.value, 1) else found.value, now + 1, n + 1);
    }
    reply := if r.Ok? then Flag(r.value) else Failed(r.error);
  }

  method ExecuteHGet(rds: RedisDataStructure, c: Command, now: int, ghost n: nat) returns (reply: Reply)
    requires c.HGet? && Ready(rds, c, now, n)
    modifies rds.db
    ensures Done(old(rds.db.Map()), rds, c, now, n, reply)
  {
    hide Sound, HashOf, SetOf, ListOf, FindMetadata, SameElsewhere, Contents, Counted, TextOk, Spec;
    HashAnswers(rds.db.Map(), c, now, n);
    Unchanged(rds.db.Map(), c.key, now, n);
    var r := rds.HGet(c.key, c.field, now);
    reply := if r.Err? then Failed(r.error) else if r.value.None? then Nothing else Bulk(r.value.value);
  }

  method ExecuteHDel(rds: RedisDataStructure, c: Command, now: int, ghost n: nat) returns (reply: Reply)
    requires c.HDel? && Ready(rds, c, now, n)
    modifies rds.db
    ensures Done(old(rds.db.Map()), rds, c, now, n, reply)
  {
    hide Sound, HashOf, SetOf, ListOf, MetaOf, FindMetadata, SameElsewhere, Contents, Counted, TextOk, Spec;
    ghost var m, found := rds.db.Map(), FindMetadata(rds.db.Map(), c.key, HASH, now);
    HashAnswers(m, c, now, n);
    Unchanged(m, c.key, now, n);
    var r := rds.HDel(c.key, c.field, now);
    if r == Ok(true) {
      ContentAfter(rds.db.Map(), c.key, Sized(found.value, -1), now + 1, n + 1);
    }
    reply := if r.Ok? then Flag(r.value) else Failed(r.error);
  }

  method ExecuteHKeys(rds: RedisDataStructure, c: Command, now: int, ghost n: nat) returns (reply: Reply)
    requires c.HKeys? && Ready(rds, c, now, n)
    modifies rds.db
    ensures Done(old(rds.db.Map()), rds, c, now, n, reply)
  {
    hide Sound, HashOf, SetOf, ListOf, FindMetadata, SameElsewhere, Contents, Counted, TextOk, Spec;
    hide Ascending;
    ghost var m := rds.db.Map();
    HashAnswers(m, c, now, n);
    Unchanged(m, c.key, now, n);
    var r := rds.HKeys(c.key, now);
    if r.Ok? {
      ListedIs(HashOf(m, c.key).Keys, r.value);
    }
    reply := if r.Ok? then Many(r.value) else Failed(r.error);
  }

  /** Values listed along the fields of a hash are the listing of that hash. */
  lemma {:induction false} ValuesListed(hash: map<bytes, Value>, fields: seq<bytes>, values: seq<Value>)
    requires ListsHash(hash, fields, values)
    ensures values == ValuesOf(hash, Listed(hash.Keys))
  {
    hide Ascending;
    ListedIs(hash.Keys, fields);
  }

  method ExecuteHValues(rds: RedisDataStructure, c: Command, now: int, ghost n: nat) returns (reply: Reply)
    requires c.HValues? && Ready(rds, c, now, n)
    modifies rds.db
    ensures Done(old(rds.db.Map()), rds, c, now, n, reply)
  {
    hide Sound, HashOf, SetOf, ListOf, FindMetadata, SameElsewhere, Contents, Counted, TextOk, Spec;
    hide ListsHash, ValuesOf;
    ghost var m := rds.db.Map();
    HashAnswers(m, c, now, n);
    Unchanged(m, c.key, now, n);
    var r := rds.HValues(c.key, now);
    if r.Ok? {
      ghost var fields :| ListsHash(HashOf(m, c.key), fields, r.value);
      ValuesListed(HashOf(m, c.key), fields, r.value);
    }
    reply := if r.Ok? then Many(r.value) else Failed(r.error);
  }

  method ExecuteHGetAll(rds: RedisDataStructure, c: Command, now: int, ghost n: nat) returns (reply: Reply)
    requires c.HGetAll? && Ready(rds, c, now, n)
    modifies rds.db
    ensures Done(old(rds.db.Map()), rds, c, now, n, reply)
  {
    hide Sound, HashOf, SetOf, ListOf, FindMetadata, SameElsewhere, Contents, Counted, TextOk, Spec;
    HashAnswers(rds.db.Map(), c, now, n);
    Unchanged(rds.db.Map(), c.key, now, n);
    var r := rds.HGetAll(c.key, now);
    reply := if r.Ok? then Pairs(r.value) else Failed(r.error);
  }

  method ExecuteSAdd(rds: RedisDataStructure, c: Command, now: int, ghost n: nat) returns (reply: Reply)
    requires c.SAdd? && Ready(rds, c, now, n)
    modifies rds.db
    ensures Done(old(rds.db.Map()), rds, c, now, n, reply)
  {
    hide Sound, HashOf, SetOf, ListOf, MetaOf, FindMetadata, SameElsewhere, Contents, Counted, TextOk, Spec;
    ghost var m, found := rds.db.Map(), FindMetadata(rds.db.Map(), c.key, SET, now);
    SetAnswers(m, c, now, n);
    Unchanged(m, c.key, now, n);
    SizesCounted(m, c.key, now, n);
    var r := rds.SAdd(c.key, c.member, now);
    if r == Ok(true) {
      ContentAfter(rds.db.Map(), c.key, Sized(found.value, 1), now + 1, n + 1);
    }
    reply := if r.Ok? then Flag(r.value) else Failed(r.error);
  }

  method ExecuteSIsMember(rds: RedisDataStructure, c: Command, now: int, ghost n: nat) returns (reply: Reply)
    requires c.SIsMember? && Ready(rds, c, now, n)
    modifies rds.db
    ensures Done(old(rds.db.Map()), rds, c, now, n, reply)
  {
    hide Sound, HashOf, SetOf, ListOf, FindMetadata, SameElsewhere, Contents, Counted, TextOk, Spec;
    SetAnswers(rds.db.Map(), c, now, n);
    Unchanged(rds.db.Map(), c.key, now, n);
    var r := rds.SIsMember(c.key, c.member, now);
    reply := if r.Ok? then Flag(r.value) else Failed(r.error);
  }

  method ExecuteSRem(rds: RedisDataStructure, c: Command, now: int, ghost n: nat) returns (reply: Reply)
    requires c.SRem? && Ready(rds, c, now, n)
    modifies rds.db
    ensures Done(old(rds.db.Map()), rds, c, now, n, reply)
  {
    hide Sound, HashOf, SetOf, ListOf, MetaOf, FindMetadata, SameElsewhere, Contents, Counted, TextOk, Spec;
    ghost var m, found := rds.db.Map(), FindMetadata(rds.db.Map(), c.key, SET, now);
    SetAnswers(m, c, now, n);
    Unchanged(m, c.key, now, n);
    var r := rds.SRem(c.key, c.member, now);
    if r == Ok(true) {
      ContentAfter(rds.db.Map(), c.key, Sized(found.value, -1), now + 1, n + 1);
    }
    reply := if r.Ok? then Flag(r.value) else Failed(r.error);
  }

  method ExecutePush(rds: RedisDataStructure, c: Command, now: int, ghost n: nat) returns (reply: Reply)
    requires c.Push? && Ready(rds, c, now, n)
    modifies rds.db
    ensures Done(old(rds.db.Map()), rds, c, now, n, reply)
  {
    hide Sound, HashOf, SetOf, ListOf, MetaOf, FindMetadata, SameElsewhere, Contents, Counted, TextOk, Spec;
    ghost var m, found := rds.db.Map(), FindMetadata(rds.db.Map(), c.key, LIST, now);
    ListAnswers(m, c, now, n);
    Unchanged(m, c.key, now, n);
    var r := rds.PushInner(c.key, c.element, c.isLeft, now);
    if r.Ok? {
      ContentAfter(rds.db.Map(), c.key, Pushed(found.value, c.isLeft), now + 1, n + 1);
    }
    reply := if r.Ok? then Number(r.value) else Failed(r.error);
  }

  method ExecutePop(rds: RedisDataStructure, c: Command, now: int, ghost n: nat) returns (reply: Reply)
    requires c.Pop? && Ready(rds, c, now, n)
    modifies rds.db
    ensures Done(old(rds.db.Map()), rds, c, now, n, reply)
  {
    hide Sound, HashOf, SetOf, ListOf, MetaOf, FindMetadata, SameElsewhere, Contents, Counted, TextOk, Spec;
    ghost var m, found := rds.db.Map(), FindMetadata(rds.db.Map(), c.key, LIST, now);
    ListAnswers(m, c, now, n);
    Unchanged(m, c.key, now, n);
    var r := rds.PopInner(c.key, c.isLeft, now);
    if r.Ok? && r.value.Some? {
      ContentAfter(rds.db.Map(), c.key, Popped(found.value, c.isLeft), now + 1, n + 1);
    }
    reply := if r.Err? then Failed(r.error) else if r.value.None? then Nothing else Bulk(r.value.value);
  }

  method ExecuteLAll(rds: RedisDataStructure, c: Command, now: int, ghost n: nat) returns (reply: Reply)
    requires c.LAll? && Ready(rds, c, now, n)
    modifies rds.db
    ensures Done(old(rds.db.Map()), rds, c, now, n, reply)
  {
    hide Sound, HashOf, SetOf, ListOf, FindMetadata, SameElsewhere, Contents, Counted, TextOk, Spec;
    ListAnswers(rds.db.Map(), c, now, n);
    Unchanged(rds.db.Map(), c.key, now, n);
    var r := rds.LAll(c.key, now);
    reply := if r.Ok? then Numbered(r.value) else Failed(r.error);
  }

  method ExecuteLSize(rds: RedisDataStructure, c: Command, now: int, ghost n: nat) returns (reply: Reply)
    requires c.LSize? && Ready(rds, c, now, n)
    modifies rds.db
    ensures Done(old(rds.db.Map()), rds, c, now, n, reply)
  {
    hide Sound, HashOf, SetOf, ListOf, FindMetadata, SameElsewhere, Contents, Counted, TextOk, Spec;
    ListAnswers(rds.db.Map(), c, now, n);
    Unchanged(rds.db.Map(), c.key, now, n);
    var size := rds.LSize(c.key, now);
    reply := Number(size);
  }

  method ExecuteRemove(rds: RedisDataStructure, c: Command, now: int, ghost n: nat) returns (reply: Reply)
    requires c.Remove? && Ready(rds, c, now, n)
    modifies rds.db
    ensures Done(old(rds.db.Map()), rds, c, now, n, reply)
  {
    hide Sound, MetaOf, SameElsewhere, StringBytes;
    var r := rds.Delete(c.key, now);
    reply := match r case None => Nothing case Some(error) => Failed(error);
  }

  // ---------------------------------------------------------------- runs over many keys

  /** A command and what the clock shows when it starts. */
  datatype Call = Call(now: int, command: Command)

  predicate PrefixFree(keys: set<Key>) {
    [] !in keys && forall a, b :: a in keys && b in keys && a != b ==> Apart(a, b)
  }

  /** The calls of a run that name this key. */
  function OnKey(calls: seq<Call>, key: Key): seq<Call> {
    if |calls| == 0 then []
    else
      var front, last := OnKey(calls[..|calls| - 1], key), calls[|calls| - 1];
      if last.command.key == key then front + [last] else front
  }

  /** The replies to those calls. */
  function RepliesOn(calls: seq<Call>, replies: seq<Reply>, key: Key): seq<Reply>
    requires |replies| == |calls|
  {
    if |calls| == 0 then []
    else
      var front := RepliesOn(calls[..|calls| - 1], replies[..|calls| - 1], key);
      if calls[|calls| - 1].command.key == key then front + [replies[|calls| - 1]] else front
  }

  /** The calls one after the other on plain values, starting from a key that does not exist. */
  ghost function SpecRun(calls: seq<Call>): (Content, seq<Reply>) {
    if |calls| == 0 then (Absent, [])
    else
      var before, last := SpecRun(calls[..|calls| - 1]), calls[|calls| - 1];
      var step := Spec(before.0, last.command, last.now);
      (step.0, before.1 + [step.1])
  }

  /** The key behaves as if its own calls had been the only ones. */
  ghost predicate Alone(m: Stored, calls: seq<Call>, replies: seq<Reply>, key: Key)
    requires |replies| == |calls|
  {
    (Contents(m, key), RepliesOn(calls, replies, key)) == SpecRun(OnKey(calls, key))
  }

  lemma {:induction false} ContentsUntouched(m: Stored, after: Stored, key: Key, other: Key, now: int, n: nat)
    requires SameElsewhere(m, after, key) && Apart(key, other)
    ensures Contents(after, other) == Contents(m, other)
    ensures KeyOk(m, other, now, n) ==> KeyOk(after, other, now + 1, n + 1)
  {
    hide HashOf, SetOf, ListOf, Sound, StringBytes, TextIn;
    OthersUntouched(m, after, key, other, now);
    if Sound(after, other, now) {
      SoundLater(after, other, now, now + 1);
    }
    BelongsTo(other, 0, []);
    ApartRegions(other, key, other);
    SameMeta(m, after, key, other);
  }

  lemma {:induction false} AloneStep(m: Stored, after: Stored, calls: seq<Call>, replies: seq<Reply>, call: Call,
    reply: Reply, key: Key)
    requires |replies| == |calls| && Alone(m, calls, replies, key) && Performs(m, call.command, call.now, reply, after)
    requires call.command.key == key || Contents(after, key) == Contents(m, key)
    ensures Alone(after, calls + [call], replies + [reply], key)
  {
    hide Contents, Spec, SameElsewhere;
    assert (calls + [call])[..|calls|] == calls && (replies + [reply])[..|calls|] == replies;
    if call.command.key == key {
      var mine := OnKey(calls, key);
      assert (mine + [call])[..|mine|] == mine;
    }
  }

  /** The clock never shows the same time twice within a run. */
  predicate Ordered(calls: seq<Call>) {
    && (forall i :: 0 <= i < |calls| ==> Timely(calls[i].command, calls[i].now))
    && (forall i, j :: 0 <= i < j < |calls| ==> calls[i].now < calls[j].now)
  }

  /**
   * A whole run of calls over prefix-free keys, from an empty store with a strictly increasing clock:
   * every key holds and answers what its own calls alone would make of a plain text, deque, map or set.
   */
  method ExecuteAll(rds: RedisDataStructure, calls: seq<Call>, ghost keys: set<Key>) returns (replies: seq<Reply>)
    requires rds.db.Valid() && rds.db.Map() == map[] && PrefixFree(keys)
    requires Ordered(calls) && |calls| + 1 < TWO_32
    requires forall i :: 0 <= i < |calls| ==> calls[i].command.key in keys
    modifies rds.db
    ensures rds.db.Valid() && |replies| == |calls|
    ensures forall k :: k in keys ==> Alone(rds.db.Map(), calls, replies, k)
  {
    hide Performs, Contents, KeyOk, Spec, Apart, SameElsewhere;
    hide Alone;
    replies := [];
    forall k | k in keys ensures Alone(rds.db.Map(), [], [], k) && KeyOk(rds.db.Map(), k, 0, 0) {
      NothingStored(k);
    }
    ghost var now := 0;
    for i := 0 to |calls|
      invariant rds.db.Valid() && |replies| == i && (i < |calls| ==> now <= calls[i].now)
      invariant forall k :: k in keys ==>
        KeyOk(rds.db.Map(), k, now, i) && Alone(rds.db.Map(), calls[..i], replies, k)
    {
      ghost var m := rds.db.Map();
      var call := calls[i];
      Until(m, keys, now, call.now, i);
      var reply := Execute(rds, call.command, call.now, i);
      Together(m, rds.db.Map(), calls[..i], replies, call, reply, keys, i);
      assert calls[..i] + [call] == calls[..i + 1];
      replies := replies + [reply];
      now := call.now + 1;
    }
    assert calls[..|calls|] == calls;
  }

  lemma {:induction false} NothingStored(k: Key)
    ensures Alone(map[], [], [], k)
    ensures k != [] ==> KeyOk(map[], k, 0, 0)
  {
  }

  lemma {:induction false} Until(m: Stored, keys: set<Key>, now: int, later: int, n: nat)
    requires now <= later && forall k :: k in keys ==> KeyOk(m, k, now, n)
    ensures forall k :: k in keys ==> KeyOk(m, k, later, n)
  {
    hide Sound, Contents, TextOk;
    forall k | k in keys ensures KeyOk(m, k, later, n) {
      SoundLater(m, k, now, later);
    }
  }

  /** One command seen from all keys. */
  lemma {:induction false} Together(m: Stored, after: Stored, calls: seq<Call>, replies: seq<Reply>, call: Call,
    reply: Reply, keys: set<Key>, n: nat)
    requires |replies| == |calls| && PrefixFree(keys) && call.command.key in keys
    requires Performs(m, call.command, call.now, reply, after) && KeyOk(after, call.command.key, call.now + 1, n + 1)
    requires forall k :: k in keys ==> KeyOk(m, k, call.now, n) && Alone(m, calls, replies, k)
    ensures forall k :: k in keys ==>
      KeyOk(after, k, call.now + 1, n + 1) && Alone(after, calls + [call], replies + [reply], k)
  {
    hide Alone, KeyOk, Contents, Spec, SameElsewhere, Apart;
    forall k | k in keys
      ensures KeyOk(after, k, call.now + 1, n + 1) && Alone(after, calls + [call], replies + [reply], k)
    {
      if k != call.command.key {
        ContentsUntouched(m, after, call.command.key, k, call.now, n);
      }
      AloneStep(m, after, calls, replies, call, reply, k);
    }
  }
}
