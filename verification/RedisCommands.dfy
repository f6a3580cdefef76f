/** The commands of redis/types.go and what they mean on plain values: texts, maps, sets and deques. */
module RedisCommands {
  import opened Bytes
  import opened Listings
  import opened Varints
  import opened Wrappers
  import opened Log
  import opened KeyValue
  import opened RedisMeta
  import opened RedisModel

  /** What a client takes a key for. */
  datatype Content =
    | Absent
    | AText(expire: int, text: bytes)
    | AHash(fields: map<bytes, Value>)
    | ASet(members: set<bytes>)
    | AList(elements: seq<Value>)
    | Other

  datatype Command =
    | SetText(key: Key, ttl: int, text: Option<Value>)
    | GetText(key: Key)
    | HSet(key: Key, field: bytes, value: Value)
    | HGet(key: Key, field: bytes)
    | HDel(key: Key, field: bytes)
    | HKeys(key: Key)
    | HValues(key: Key)
    | HGetAll(key: Key)
    | SAdd(key: Key, member: bytes)
    | SIsMember(key: Key, member: bytes)
    | SRem(key: Key, member: bytes)
    | Push(key: Key, element: Value, isLeft: bool)
    | Pop(key: Key, isLeft: bool)
    | LAll(key: Key)
    | LSize(key: Key)
    | Remove(key: Key)

  datatype Reply =
    | Number(n: nat)
    | Flag(b: bool)
    | Bulk(value: Value)
    | Many(values: seq<Value>)
    | Pairs(pairs: map<bytes, Value>)
    | Numbered(numbered: map<nat, Value>)
    | Nothing
    | Failed(error: RedisError)

  function Contents(m: Stored, key: Key): Content {
    if key !in m then Absent
    else if MetaOf(m, key, HASH).Some? then AHash(HashOf(m, key))
    else if MetaOf(m, key, SET).Some? then ASet(SetOf(m, key))
    else if MetaOf(m, key, LIST).Some? then AList(ListOf(m, key))
    else TextIn(m[key])
  }

  function TextIn(stored: Value): (content: Content)
    ensures content.AText? || content.Other?
  {
    if stored == [] || stored[0] != STRING then Other
    else
      var d := Varint(stored[1..]);
      if d.n <= 0 then Other else AText(d.value, stored[1 + d.n..])
  }

  // ---------------------------------------------------------------- reference semantics

  /** What a command of another type answers: a panic on the texts that overflow when read as metadata. */
  function Refusal(content: Content): RedisError {
    if content.AText? && TextPanics(content.expire, content.text) then Panic else WrongType
  }

  function ValuesOf(hash: map<bytes, Value>, fields: seq<bytes>): (values: seq<Value>)
    ensures |values| == |fields|
  {
    seq(|fields|, i requires 0 <= i < |fields| => if fields[i] in hash then hash[fields[i]] else [])
  }

  /** Text commands; expiry is against the clock. */
  function TextSpec(content: Content, c: Command, now: int): (Content, Reply)
    requires c.SetText? || c.GetText?
  {
    match c
    case SetText(_, ttl, text) =>
      if text.None? then (content, Nothing) else (AText(if ttl != 0 then now + ttl else 0, text.value), Nothing)
    case GetText(_) =>
      if content.Absent? then (content, Failed(Engine(KeyNotFound)))
      else if !content.AText? then (content, Failed(WrongType))
      else if content.expire > 0 && content.expire < now then (content, Failed(KeyExpired))
      else (content, Bulk(content.text))
  }

  ghost function HashSpec(hash: map<bytes, Value>, content: Content, c: Command): (Content, Reply)
    requires IsHashCommand(c)
  {
    match c
    case HSet(_, field, value) => (AHash(hash[field := value]), Flag(field !in hash))
    case HGet(_, field) =>
      (content, if hash == map[] then Nothing
                else if field in hash then Bulk(hash[field])
                else Failed(Engine(KeyNotFound)))
    case HDel(_, field) =>
      if field in hash then (AHash(hash - {field}), Flag(true)) else (content, Flag(false))
    case HKeys(_) => (content, Many(Listed(hash.Keys)))
    case HValues(_) => (content, Many(ValuesOf(hash, Listed(hash.Keys))))
    case HGetAll(_) => (content, Pairs(hash))
  }

  function SetSpec(members: set<bytes>, content: Content, c: Command): (Content, Reply)
    requires IsSetCommand(c)
  {
    match c
    case SAdd(_, member) =>
      if member in members then (content, Flag(false)) else (ASet(members + {member}), Flag(true))
    case SIsMember(_, member) => (content, Flag(member in members))
    case SRem(_, member) =>
      if member in members then (ASet(members - {member}), Flag(true)) else (content, Flag(false))
  }

  function ListSpec(list: seq<Value>, content: Content, c: Command): (Content, Reply)
    requires IsListCommand(c)
  {
    match c
    case Push(_, element, isLeft) => (AList(if isLeft then [element] + list else list + [element]), Number(|list| + 1))
    case Pop(_, isLeft) =>
      if list == [] then (content, Nothing)
      else if isLeft then (AList(list[1..]), Bulk(list[0]))
      else (AList(list[..|list| - 1]), Bulk(list[|list| - 1]))
    case LAll(_) => (content, Numbered(map i | 0 <= i < |list| :: list[i]))
    case LSize(_) => (content, Number(|list|))
  }

  predicate IsHashCommand(c: Command) {
    c.HSet? || c.HGet? || c.HDel? || c.HKeys? || c.HValues? || c.HGetAll?
  }

  predicate IsSetCommand(c: Command) {
    c.SAdd? || c.SIsMember? || c.SRem?
  }

  predicate IsListCommand(c: Command) {
    c.Push? || c.Pop? || c.LAll? || c.LSize?
  }

  /** The content of the key after a command, and the reply. */
  ghost function Spec(content: Content, c: Command, now: int): (Content, Reply) {
    if c.Remove? then (Absent, Nothing)
    else if c.SetText? || c.GetText? then TextSpec(content, c, now)
    else if IsHashCommand(c) then
      if content.Absent? then HashSpec(map[], content, c)
      else if content.AHash? then HashSpec(content.fields, content, c)
      else (content, Failed(Refusal(content)))
    else if IsSetCommand(c) then
      if content.Absent? then SetSpec({}, content, c)
      else if content.ASet? then SetSpec(content.members, content, c)
      else (content, Failed(Refusal(content)))
    else
      if content.Absent? then ListSpec([], content, c)
      else if content.AList? then ListSpec(content.elements, content, c)
      else (content, if c.LSize? then Number(0) else Failed(Refusal(content)))
  }

  // ---------------------------------------------------------------- what a run keeps

  /** No counter can overflow within the next command: at most n commands have touched this key. */
  ghost predicate Counted(m: Stored, key: Key, n: nat) {
    key in m && m[key] != [] && m[key][0] in {HASH, SET, LIST} && Decode(m[key]).Some? ==>
      var md := Decode(m[key]).value;
      md.size <= n && (md.dataType == LIST ==> INITIAL_LIST_MARK - n <= md.head && md.tail <= INITIAL_LIST_MARK + n)
  }

  /** A text is stored as `Set` stores it. */
  predicate TextOk(m: Stored, key: Key) {
    var content := Contents(m, key);
    content.AText? ==>
      -TWO_63 <= content.expire < TWO_63 && key in m && m[key] == StringBytes(content.expire, content.text)
  }

  /** Everything the run keeps for one key. */
  ghost predicate KeyOk(m: Stored, key: Key, now: int, n: nat) {
    key != [] && Sound(m, key, now) && Counted(m, key, n) && !Contents(m, key).Other? && TextOk(m, key)
  }

  /** What one command does: the reference semantics on its own key, nothing anywhere else. */
  ghost predicate Performs(m: Stored, c: Command, now: int, reply: Reply, after: Stored) {
    (Contents(after, c.key), reply) == Spec(Contents(m, c.key), c, now) && SameElsewhere(m, after, c.key)
  }

  function TypeOf(content: Content): byte {
    match content
    case AHash(_) => HASH
    case ASet(_) => SET
    case AList(_) => LIST
    case _ => STRING
  }

  /** The metadata looked up for a command agrees with what the key holds. */
  lemma {:induction false} FoundIsContent(m: Stored, key: Key, dataType: byte, now: int, n: nat)
    requires KeyOk(m, key, now, n) && Clock(now) && dataType in {HASH, SET, LIST} && n + 1 < TWO_32
    ensures
      var found, content := FindMetadata(m, key, dataType, now), Contents(m, key);
      if content.Absent? || TypeOf(content) == dataType then
        && found.Ok? && found.value.size <= n && found.value.dataType == dataType && Describes(m, key, found.value)
        && (dataType == LIST ==> INITIAL_LIST_MARK - n <= found.value.head && found.value.tail <= INITIAL_LIST_MARK + n)
      else found == Err(Refusal(content))
  {
    hide Fields, FieldNames, VersionsBelow, Describes, ListExact, Elements, StringBytes, TextIn;
    if FindMetadata(m, key, dataType, now).Ok? {
      Found(m, key, dataType, now);
    }
    if key in m && Decode(m[key]).Some? {
      DecodedType(m[key]);
    }
    var content := Contents(m, key);
    if content.AText? {
      StringRefused(m, key, dataType, content.expire, content.text, now);
    }
  }

  /** The content is what the typed views say. */
  lemma {:induction false} ContentViews(m: Stored, key: Key)
    ensures
      var content := Contents(m, key);
      && HashOf(m, key) == (if content.AHash? then content.fields else map[])
      && (content.ASet? ==> SetOf(m, key) == content.members) && (content.Absent? ==> SetOf(m, key) == {})
      && (content.AList? ==> ListOf(m, key) == content.elements) && (content.Absent? ==> ListOf(m, key) == [])
  {
    hide Fields, FieldNames, Elements, Decode, TextIn;
  }

  /** A hash command in terms of the metadata found and of the hash stored. */
  lemma {:induction false} HashAnswers(m: Stored, c: Command, now: int, n: nat)
    requires KeyOk(m, c.key, now, n) && Clock(now) && n + 1 < TWO_32 && IsHashCommand(c)
    ensures
      var found, content := FindMetadata(m, c.key, HASH, now), Contents(m, c.key);
      && (found.Ok? ==> found.value.size <= n && found.value.dataType == HASH)
      && Spec(content, c, now) == if found.Ok? then HashSpec(HashOf(m, c.key), content, c)
                                  else (content, Failed(found.error))
  {
    hide KeyOk, FindMetadata, Contents, HashOf, SetOf, ListOf, HashSpec, Describes, Refusal;
    FoundIsContent(m, c.key, HASH, now, n);
    ContentViews(m, c.key);
  }

  lemma {:induction false} SetAnswers(m: Stored, c: Command, now: int, n: nat)
    requires KeyOk(m, c.key, now, n) && Clock(now) && n + 1 < TWO_32 && IsSetCommand(c)
    ensures
      var found, content := FindMetadata(m, c.key, SET, now), Contents(m, c.key);
      && (found.Ok? ==> found.value.size <= n && found.value.dataType == SET)
      && Spec(content, c, now) == if found.Ok? then SetSpec(SetOf(m, c.key), content, c)
                                  else (content, Failed(found.error))
  {
    hide KeyOk, FindMetadata, Contents, HashOf, SetOf, ListOf, SetSpec, Describes, Refusal;
    FoundIsContent(m, c.key, SET, now, n);
    ContentViews(m, c.key);
  }

  lemma {:induction false} ListAnswers(m: Stored, c: Command, now: int, n: nat)
    requires KeyOk(m, c.key, now, n) && Clock(now) && n + 1 < TWO_32 && IsListCommand(c)
    ensures
      var found, content := FindMetadata(m, c.key, LIST, now), Contents(m, c.key);
      && (found.Ok? ==>
            && found.value.size <= n && found.value.dataType == LIST
            && INITIAL_LIST_MARK - n <= found.value.head && found.value.tail <= INITIAL_LIST_MARK + n)
      && Spec(content, c, now) == if found.Ok? then ListSpec(ListOf(m, c.key), content, c)
                                  else (content, if c.LSize? then Number(0) else Failed(found.error))
  {
    hide KeyOk, FindMetadata, Contents, HashOf, SetOf, ListOf, ListSpec, Describes, Refusal;
    FoundIsContent(m, c.key, LIST, now, n);
    ContentViews(m, c.key);
  }
}
