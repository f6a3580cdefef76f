/**
 * The log of a data directory and its replay: the records of all data files in file order,
 * and the fold by which `loadIndexFromDataFiles` (db.go) rebuilds the index from them.
 */
module Log {
  import opened Bytes
  import opened Varints
  import opened LogRecords

  type Key = bytes

  type Value = bytes

  datatype Kind = Normal | Deleted | TxnFinished

  /** A record with its key and sequence number apart; sequence number 0 means outside any batch. */
  datatype Record = Record(seqNo: nat, key: Key, value: Value, kind: Kind)

  /** A record together with the place it was appended at. */
  datatype Entry = Entry(pos: Pos, rec: Record)

  function KindByte(kind: Kind): byte {
    match kind
    case Normal => NORMAL
    case Deleted => DELETED
    case TxnFinished => TXN_FINISHED
  }

  /** The record as it is written to a data file. */
  function Stored(r: Record): LogRecord {
    LogRecord(KeyWithSeq(r.key, r.seqNo), r.value, KindByte(r.kind))
  }

  /** The length of the stored record, without building it. */
  function Size(r: Record): (n: nat)
    ensures n > 0
  {
    var keyLength := |UvarintBytes(r.seqNo)| + |r.key|;
    5 + |VarintBytes(keyLength)| + |VarintBytes(|r.value|)| + keyLength + |r.value|
  }

  lemma {:induction false} SizeIsStoredLength(r: Record)
    ensures Size(r) == |RecordBytes(Stored(r))|
  {
    hide UvarintBytes, RecordCrc;
  }

  /** Clearing the sequence number, as merge does, never makes a record longer. */
  lemma {:induction false} RewriteIsNoLonger(r: Record)
    ensures Size(r.(seqNo := 0)) <= Size(r)
  {
    hide UvarintBytes;
    UvarintLengthMonotone(0, r.seqNo);
    var short, long := |UvarintBytes(0)| + |r.key|, |UvarintBytes(r.seqNo)| + |r.key|;
    UvarintLengthMonotone(Zigzag(short), Zigzag(long));
  }

  /** Position p lies wholly before position q. */
  predicate Before(p: Pos, q: Pos) {
    p.fid < q.fid || (p.fid == q.fid && p.offset + p.size <= q.offset)
  }

  predicate Ordered(log: seq<Entry>) {
    && (forall i :: 0 <= i < |log| ==> log[i].pos.size > 0)
    && (forall i, j :: 0 <= i < j < |log| ==> Before(log[i].pos, log[j].pos))
  }

  /** How many leading entries lie in files with an id below `fid`. */
  function Below(log: seq<Entry>, fid: nat): (n: nat)
    ensures n <= |log|
  {
    if |log| == 0 then 0
    else if log[|log| - 1].pos.fid < fid then |log|
    else Below(log[..|log| - 1], fid)
  }

  lemma {:induction false} BelowSplits(log: seq<Entry>, fid: nat)
    requires Ordered(log)
    ensures forall i :: 0 <= i < |log| ==> (log[i].pos.fid < fid <==> i < Below(log, fid))
  {
    if |log| == 0 {
    } else if log[|log| - 1].pos.fid < fid {
    } else {
      var rest := log[..|log| - 1];
      BelowSplits(rest, fid);
      forall i | 0 <= i < |log|
        ensures log[i].pos.fid < fid <==> i < Below(log, fid)
      {
        if i < |log| - 1 {
          assert rest[i] == log[i];
        }
      }
    }
  }

  /** A split point is `Below` if it separates the file ids. */
  lemma {:induction false} BelowIs(log: seq<Entry>, fid: nat, n: nat)
    requires Ordered(log) && n <= |log|
    requires forall i :: 0 <= i < n ==> log[i].pos.fid < fid
    requires forall i :: n <= i < |log| ==> log[i].pos.fid >= fid
    ensures Below(log, fid) == n
  {
    BelowSplits(log, fid);
    var b := Below(log, fid);
    assert b < |log| ==> log[b].pos.fid >= fid;
    assert n < |log| ==> log[n].pos.fid >= fid;
  }

  // ---------------------------------------------------------------- replay

  /** The index, the records of batches not yet finished, the largest sequence number seen, and reclaimable bytes. */
  datatype ReplayState = ReplayState(index: map<Key, Entry>, pending: map<nat, seq<Entry>>, maxSeq: nat, reclaim: nat)

  const EMPTY: ReplayState := ReplayState(map[], map[], 0, 0)

  function Max(a: nat, b: nat): nat {
    if a < b then b else a
  }

  /** Bytes freed when the index entry of a key is replaced or removed. */
  function OldSize(index: map<Key, Entry>, key: Key): nat {
    if key in index then index[key].pos.size else 0
  }

  /** What one record does to an index: a tombstone removes its key, anything else sets it. */
  function ApplyEntry(index: map<Key, Entry>, e: Entry): map<Key, Entry> {
    if e.rec.kind == Deleted then index - {e.rec.key} else index[e.rec.key := e]
  }

  function ApplyAll(index: map<Key, Entry>, es: seq<Entry>): map<Key, Entry> {
    if |es| == 0 then index else ApplyEntry(ApplyAll(index, es[..|es| - 1]), es[|es| - 1])
  }

  /** `updateIndex`: a deletion also frees the bytes of the tombstone itself. */
  function UpdateIndex(st: ReplayState, e: Entry): ReplayState {
    var freed := OldSize(st.index, e.rec.key) + if e.rec.kind == Deleted then e.pos.size else 0;
    st.(index := ApplyEntry(st.index, e), reclaim := st.reclaim + freed)
  }

  function UpdateAll(st: ReplayState, es: seq<Entry>): ReplayState {
    if |es| == 0 then st else UpdateIndex(UpdateAll(st, es[..|es| - 1]), es[|es| - 1])
  }

  function PendingOf(st: ReplayState, seqNo: nat): seq<Entry> {
    if seqNo in st.pending then st.pending[seqNo] else []
  }

  /** One record of the replay: applied at once outside a batch, otherwise held back until the batch's finish marker. */
  function ReplayStep(st: ReplayState, e: Entry): ReplayState {
    var seqNo := e.rec.seqNo;
    var next :=
      if seqNo == 0 then UpdateIndex(st, e)
      else if e.rec.kind == TxnFinished then
        var released := UpdateAll(st, PendingOf(st, seqNo));
        released.(pending := released.pending - {seqNo})
      else st.(pending := st.pending[seqNo := PendingOf(st, seqNo) + [e]]);
    next.(maxSeq := Max(st.maxSeq, seqNo))
  }

  function ReplayFrom(st: ReplayState, log: seq<Entry>): ReplayState {
    if |log| == 0 then st else ReplayStep(ReplayFrom(st, log[..|log| - 1]), log[|log| - 1])
  }

  function Replay(log: seq<Entry>): ReplayState {
    ReplayFrom(EMPTY, log)
  }

  /** The map a client sees through an index. */
  function View(index: map<Key, Entry>): map<Key, Value> {
    map k | k in index :: index[k].rec.value
  }

  lemma {:induction false} ReplayConcat(st: ReplayState, a: seq<Entry>, b: seq<Entry>)
    ensures ReplayFrom(st, a + b) == ReplayFrom(ReplayFrom(st, a), b)
    decreases |b|
  {
    if |b| == 0 {
      assert a + b == a;
    } else {
      var front := b[..|b| - 1];
      assert (a + b)[..|a + b| - 1] == a + front;
      ReplayConcat(st, a, front);
    }
  }

  lemma {:induction false} ReplayAppend(log: seq<Entry>, e: Entry)
    ensures Replay(log + [e]) == ReplayStep(Replay(log), e)
  {
    assert (log + [e])[..|log|] == log;
  }

  lemma {:induction false} UpdateAllKeepsRest(st: ReplayState, es: seq<Entry>)
    ensures UpdateAll(st, es).pending == st.pending && UpdateAll(st, es).maxSeq == st.maxSeq
  {
    if |es| > 0 {
      UpdateAllKeepsRest(st, es[..|es| - 1]);
    }
  }

  // ---------------------------------------------------------------- what a replay state says about its log

  /** Records of finished batches carry a sequence number. */
  predicate MarkersNumbered(log: seq<Entry>) {
    forall e :: e in log && e.rec.kind == TxnFinished ==> e.rec.seqNo > 0
  }

  predicate IndexSound(index: map<Key, Entry>, log: seq<Entry>) {
    forall k :: k in index ==> index[k] in log && index[k].rec.key == k && index[k].rec.kind == Normal
  }

  predicate PendingSound(pending: map<nat, seq<Entry>>, log: seq<Entry>) {
    forall s :: s in pending ==> s > 0 && |pending[s]| > 0 && forall e :: e in pending[s] ==>
      e in log && e.rec.seqNo == s && e.rec.kind != TxnFinished
  }

  predicate SeqBounded(log: seq<Entry>, maxSeq: nat) {
    forall e :: e in log ==> e.rec.seqNo <= maxSeq
  }

  lemma {:induction false} UpdateAllSound(st: ReplayState, es: seq<Entry>, log: seq<Entry>)
    requires IndexSound(st.index, log)
    requires forall e :: e in es ==> e in log && e.rec.kind != TxnFinished
    ensures IndexSound(UpdateAll(st, es).index, log)
  {
    if |es| > 0 {
      UpdateAllSound(st, es[..|es| - 1], log);
      assert es[|es| - 1] in es;
    }
  }

  lemma {:induction false} ReplayStepSound(st: ReplayState, log: seq<Entry>, e: Entry)
    requires IndexSound(st.index, log) && PendingSound(st.pending, log)
    requires e.rec.kind == TxnFinished ==> e.rec.seqNo > 0
    ensures IndexSound(ReplayStep(st, e).index, log + [e])
    ensures PendingSound(ReplayStep(st, e).pending, log + [e])
  {
    if e.rec.seqNo > 0 && e.rec.kind == TxnFinished {
      UpdateAllSound(st, PendingOf(st, e.rec.seqNo), log);
      UpdateAllKeepsRest(st, PendingOf(st, e.rec.seqNo));
    } else if e.rec.seqNo > 0 {
      var s := e.rec.seqNo;
      var next := ReplayStep(st, e).pending;
      forall x | x in next[s]
        ensures x in log + [e] && x.rec.seqNo == s && x.rec.kind != TxnFinished
      {
        assert x in PendingOf(st, s) || x == e;
      }
    }
  }

  /**
   * The index points only at live records of the log; pending records belong to batches without a marker; numbers
   * are bounded.
   */
  lemma {:induction false} ReplaySound(log: seq<Entry>)
    requires MarkersNumbered(log)
    ensures IndexSound(Replay(log).index, log)
    ensures PendingSound(Replay(log).pending, log)
    ensures SeqBounded(log, Replay(log).maxSeq)
  {
    if |log| > 0 {
      var front, e := log[..|log| - 1], log[|log| - 1];
      assert log == front + [e];
      forall x | x in front ensures x in log {
      }
      ReplaySound(front);
      ReplayAppend(front, e);
      ReplayStepSound(Replay(front), front, e);
    }
  }

  // ---------------------------------------------------------------- batches

  predicate DistinctKeys(es: seq<Entry>) {
    forall i, j :: 0 <= i < j < |es| ==> es[i].rec.key != es[j].rec.key
  }

  /** The records of one unfinished batch. */
  predicate BatchRecords(es: seq<Entry>, seqNo: nat) {
    seqNo > 0 && forall e :: e in es ==> e.rec.seqNo == seqNo && e.rec.kind != TxnFinished
  }

  /** What a batch does to an index, said key by key and without any order. */
  ghost predicate BatchEffect(before: map<Key, Entry>, es: seq<Entry>, after: map<Key, Entry>) {
    && (forall e :: e in es && e.rec.kind != Deleted ==> e.rec.key in after && after[e.rec.key] == e)
    && (forall e :: e in es && e.rec.kind == Deleted ==> e.rec.key !in after)
    && (forall k :: (forall e :: e in es ==> e.rec.key != k) ==>
          (k in after <==> k in before) && (k in after ==> after[k] == before[k]))
  }

  lemma {:induction false} UpdateAllIndex(st: ReplayState, es: seq<Entry>)
    ensures UpdateAll(st, es).index == ApplyAll(st.index, es)
  {
    if |es| > 0 {
      UpdateAllIndex(st, es[..|es| - 1]);
    }
  }

  /** Applied in any order, the records of a batch have the batch's effect. */
  lemma {:induction false} ApplyAllEffect(index: map<Key, Entry>, es: seq<Entry>)
    requires DistinctKeys(es)
    ensures BatchEffect(index, es, ApplyAll(index, es))
  {
    if |es| > 0 {
      var front, last := es[..|es| - 1], es[|es| - 1];
      ApplyAllEffect(index, front);
      var mid, after := ApplyAll(index, front), ApplyAll(index, es);
      assert es == front + [last];
      assert last in es;
      forall e | e in front
        ensures e in es && e.rec.key != last.rec.key
      {
        var i :| 0 <= i < |front| && front[i] == e;
        assert es[i] == e;
      }
      forall e | e in es
        ensures e.rec.kind != Deleted ==> e.rec.key in after && after[e.rec.key] == e
        ensures e.rec.kind == Deleted ==> e.rec.key !in after
      {
        assert e == last || e in front;
      }
      forall k | forall e :: e in es ==> e.rec.key != k
        ensures (k in after <==> k in index) && (k in after ==> after[k] == index[k])
      {
        assert k != last.rec.key;
        assert k in after <==> k in mid;
      }
    }
  }

  /** Two orders of the same records have the same effect. */
  lemma {:induction false} BatchEffectUnique(before: map<Key, Entry>, es: seq<Entry>, fs: seq<Entry>,
    a: map<Key, Entry>, b: map<Key, Entry>)
    requires forall e :: e in es <==> e in fs
    requires BatchEffect(before, es, a) && BatchEffect(before, fs, b)
    ensures a == b
  {
    forall k
      ensures k in a <==> k in b
      ensures k in a && k in b ==> a[k] == b[k]
    {
      if e :| e in es && e.rec.key == k {
        assert e in fs;
      }
    }
    assert a.Keys == b.Keys;
  }

  /** The records of an unfinished batch only wait: index and reclaimable bytes do not move. */
  lemma {:induction false} UnfinishedBatchWaits(st: ReplayState, es: seq<Entry>, seqNo: nat)
    requires BatchRecords(es, seqNo) && seqNo !in st.pending && |es| > 0
    ensures ReplayFrom(st, es) == st.(pending := st.pending[seqNo := es], maxSeq := Max(st.maxSeq, seqNo))
  {
    var front, last := es[..|es| - 1], es[|es| - 1];
    assert last in es;
    if |front| == 0 {
      assert ReplayFrom(st, front) == st;
      assert [] + [last] == es;
    } else {
      forall e | e in front ensures e in es {
      }
      UnfinishedBatchWaits(st, front, seqNo);
      assert front + [last] == es;
    }
  }

  /** A finished batch is applied as a whole, in the order its records were appended. */
  lemma {:induction false} FinishedBatchApplies(st: ReplayState, es: seq<Entry>, fin: Entry, seqNo: nat)
    requires BatchRecords(es, seqNo) && seqNo !in st.pending && |es| > 0
    requires fin.rec.seqNo == seqNo && fin.rec.kind == TxnFinished
    ensures ReplayFrom(st, es + [fin]) == UpdateAll(st, es).(maxSeq := Max(st.maxSeq, seqNo))
  {
    hide UpdateAll, UpdateIndex, ReplayFrom, ReplayStep;
    UnfinishedBatchWaits(st, es, seqNo);
    ReplayMore(st, es, fin);
    MarkerReleases(st, es, fin, seqNo);
  }

  lemma {:induction false} ReplayMore(st: ReplayState, es: seq<Entry>, e: Entry)
    ensures ReplayFrom(st, es + [e]) == ReplayStep(ReplayFrom(st, es), e)
  {
    hide ReplayStep;
    assert (es + [e])[..|es|] == es;
  }

  lemma {:induction false} MarkerReleases(st: ReplayState, es: seq<Entry>, fin: Entry, seqNo: nat)
    requires seqNo > 0 && seqNo !in st.pending && fin.rec.seqNo == seqNo && fin.rec.kind == TxnFinished
    ensures
      var waiting := st.(pending := st.pending[seqNo := es], maxSeq := Max(st.maxSeq, seqNo));
      ReplayStep(waiting, fin) == UpdateAll(st, es).(maxSeq := Max(st.maxSeq, seqNo))
  {
    hide UpdateAll, UpdateIndex;
    var waiting := st.(pending := st.pending[seqNo := es], maxSeq := Max(st.maxSeq, seqNo));
    UpdateAllIgnoresRest(st, waiting, es);
    UpdateAllKeepsRest(st, es);
    UpdateAllKeepsRest(waiting, es);
    assert st.pending[seqNo := es] - {seqNo} == st.pending;
  }

  lemma {:induction false} UpdateAllIgnoresRest(st: ReplayState, other: ReplayState, es: seq<Entry>)
    requires st.index == other.index && st.reclaim == other.reclaim
    ensures UpdateAll(st, es).index == UpdateAll(other, es).index
    ensures UpdateAll(st, es).reclaim == UpdateAll(other, es).reclaim
  {
    if |es| > 0 {
      UpdateAllIgnoresRest(st, other, es[..|es| - 1]);
    }
  }

  // ---------------------------------------------------------------- merged files

  /** What merge leaves in the files it writes: plain values, no batch, each key once. */
  predicate Merged(log: seq<Entry>) {
    && DistinctKeys(log)
    && (forall e :: e in log ==> e.rec.kind == Normal && e.rec.seqNo == 0)
  }

  /**
   * `loadIndexFromHintFile`: the index from hint records alone. A hint record is a key and the position of its
   * entry.
   */
  function LoadHint(hint: seq<Entry>): map<Key, Entry> {
    if |hint| == 0 then map[]
    else LoadHint(hint[..|hint| - 1])[hint[|hint| - 1].rec.key := hint[|hint| - 1]]
  }

  lemma {:induction false} LoadHintKeys(hint: seq<Entry>, k: Key)
    ensures k in LoadHint(hint) <==> exists e :: e in hint && e.rec.key == k
    ensures k in LoadHint(hint) ==> LoadHint(hint)[k] in hint && LoadHint(hint)[k].rec.key == k
  {
    if |hint| > 0 {
      var front, last := hint[..|hint| - 1], hint[|hint| - 1];
      LoadHintKeys(front, k);
      assert hint == front + [last];
      assert last in hint;
      forall e | e in front ensures e in hint {
      }
      if k in LoadHint(hint) && k != last.rec.key {
        assert LoadHint(front)[k] in hint;
      }
    }
  }

  /** Loading the hint file gives the very state that replaying the merged data files record by record gives. */
  lemma {:induction false} HintIsReplay(log: seq<Entry>)
    requires Merged(log)
    ensures Replay(log) == EMPTY.(index := LoadHint(log))
  {
    if |log| > 0 {
      var front, last := log[..|log| - 1], log[|log| - 1];
      assert last in log;
      forall e | e in front ensures e in log {
      }
      HintIsReplay(front);
      LoadHintKeys(front, last.rec.key);
      forall i | 0 <= i < |front| ensures front[i].rec.key != last.rec.key {
        assert front[i] == log[i];
      }
    }
  }
}
