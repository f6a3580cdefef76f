/**
 * The storage engine as a state machine: the data directory, the live index, a merge in progress,
 * and one step for every operation of db.go, batch.go and merge.go.
 */
module Engine {
  import opened LogRecords
  import opened Log

  /** The options that matter: file size limit, sync on every write, sync after so many bytes (0: never). */
  datatype Config = Config(maxFile: nat, syncWrites: bool, bytesPerSync: nat)

  /** The active file's id and `WriteOff`, if there is an active file. */
  datatype Active = NoFile | Active(fid: nat, fill: nat)

  /** The files a merge has written so far: data entries, hint records, and the merge instance's own active file. */
  datatype Output = Output(entries: seq<Entry>, hint: seq<Entry>, active: Active)

  /**
   * A running merge. `barrier` is `nonMergeFileId`: the files to merge are those below it.
   * Frozen: the files were frozen under the lock, the merge directory is not prepared yet.
   * Scanning: `scanned` entries of the frozen files have been looked at.
   */
  datatype Job =
    | Idle
    | Frozen(barrier: nat)
    | Scanning(barrier: nat, scanned: nat, out: Output)

  /** The merge directory on disk: without a finish marker it is discarded by the next `Open`. */
  datatype MergeDir = NoMerge | Unfinished | Finished(barrier: nat, out: Output)

  /**
   * log: the entries of all data files in file order.
   * synced: how many of them are known to be on stable storage.
   * hint, barrier: hint file and finish marker of the data directory (0: no marker).
   * index: each key with the entry its position denotes; the code keeps the position only.
   */
  datatype Store = Store(
    log: seq<Entry>,
    active: Active,
    synced: nat,
    bytesWrite: nat,
    index: map<Key, Entry>,
    seqNo: nat,
    reclaim: nat,
    hint: seq<Entry>,
    barrier: nat,
    job: Job,
    dir: MergeDir)

  const NEW_STORE: Store := Store([], NoFile, 0, 0, map[], 0, 0, [], 0, Idle, NoMerge)

  // ---------------------------------------------------------------- appending

  /** The file a record of this size goes to: file 0 is opened on first use, a full file is rotated. */
  function Target(maxFile: nat, active: Active, size: nat): (t: Active)
    ensures t.Active?
  {
    var a := if active.NoFile? then Active(0, 0) else active;
    if a.fill + size > maxFile then Active(a.fid + 1, 0) else a
  }

  function Placed(t: Active, rec: Record): Entry
    requires t.Active?
  {
    Entry(Pos(t.fid, t.fill, Size(rec)), rec)
  }

  function Advance(t: Active, size: nat): Active
    requires t.Active?
  {
    Active(t.fid, t.fill + size)
  }

  /** `appendLogRecord`: rotation syncs the file it retires; a write may itself be due for a sync. */
  function Append(cfg: Config, s: Store, rec: Record): Store {
    var t := Target(cfg.maxFile, s.active, Size(rec));
    var log := s.log + [Placed(t, rec)];
    var bytes := s.bytesWrite + Size(rec);
    var needSync := cfg.syncWrites || (cfg.bytesPerSync > 0 && bytes >= cfg.bytesPerSync);
    var rotated := s.active.Active? && t.fid != s.active.fid;
    s.(log := log,
       active := Advance(t, Size(rec)),
       bytesWrite := if needSync then 0 else bytes,
       synced := if needSync then |log| else if rotated then |s.log| else s.synced)
  }

  function AppendAll(cfg: Config, s: Store, recs: seq<Record>): Store {
    if |recs| == 0 then s else Append(cfg, AppendAll(cfg, s, recs[..|recs| - 1]), recs[|recs| - 1])
  }

  // ---------------------------------------------------------------- operations

  /** A write staged in a batch. */
  datatype Staged = Staged(key: Key, value: Value, kind: Kind)

  /** "txn-fin" */
  const TXN_FIN_KEY: Key := [116, 120, 110, 45, 102, 105, 110]

  function PutStep(cfg: Config, s: Store, key: Key, value: Value): Store {
    var s1 := Append(cfg, s, Record(0, key, value, Normal));
    s1.(index := s.index[key := s1.log[|s.log|]], reclaim := s.reclaim + OldSize(s.index, key))
  }

  /** Deleting an absent key writes nothing. */
  function DeleteStep(cfg: Config, s: Store, key: Key): Store {
    if key !in s.index then s
    else
      var s1 := Append(cfg, s, Record(0, key, [], Deleted));
      s1.(index := s.index - {key}, reclaim := s.reclaim + s1.log[|s.log|].pos.size + OldSize(s.index, key))
  }

  function BatchRecord(w: Staged, seqNo: nat): Record {
    Record(seqNo, w.key, w.value, w.kind)
  }

  function RecordsOf(batch: seq<Staged>, seqNo: nat): (recs: seq<Record>)
    ensures |recs| == |batch|
  {
    seq(|batch|, i requires 0 <= i < |batch| => BatchRecord(batch[i], seqNo))
  }

  predicate Permutation(order: seq<nat>, n: nat) {
    && |order| == n
    && (forall i :: 0 <= i < n ==> order[i] < n)
    && (forall j :: 0 <= j < n ==> j in order)
    && (forall i, j :: 0 <= i < j < n ==> order[i] != order[j])
  }

  function Reorder(es: seq<Entry>, order: seq<nat>): seq<Entry>
    requires Permutation(order, |es|)
  {
    seq(|es|, i requires 0 <= i < |es| => es[order[i]])
  }

  /** Bytes freed by index updates alone; the live index update of a batch does not count its tombstones. */
  function Freed(index: map<Key, Entry>, es: seq<Entry>): nat {
    if |es| == 0 then 0
    else
      var front, last := es[..|es| - 1], es[|es| - 1];
      Freed(index, front) + OldSize(ApplyAll(index, front), last.rec.key)
  }

  function FinishRecord(seqNo: nat): Record {
    Record(seqNo, TXN_FIN_KEY, [], TxnFinished)
  }

  /** The log part of a commit: the next sequence number, all records, the finish marker. */
  function CommitLog(cfg: Config, s: Store, batch: seq<Staged>): Store {
    var seqNo := s.seqNo + 1;
    Append(cfg, AppendAll(cfg, s.(seqNo := seqNo), RecordsOf(batch, seqNo)), FinishRecord(seqNo))
  }

  lemma {:induction false} AppendAllLength(cfg: Config, s: Store, recs: seq<Record>)
    ensures |AppendAll(cfg, s, recs).log| == |s.log| + |recs|
  {
    if |recs| > 0 {
      AppendAllLength(cfg, s, recs[..|recs| - 1]);
    }
  }

  /** The entries a commit appended for its batch. */
  function BatchEntries(cfg: Config, s: Store, batch: seq<Staged>): (es: seq<Entry>)
    ensures |es| == |batch|
  {
    AppendAllLength(cfg, s.(seqNo := s.seqNo + 1), RecordsOf(batch, s.seqNo + 1));
    CommitLog(cfg, s, batch).log[|s.log|..|s.log| + |batch|]
  }

  /**
   * `Commit`. Go walks the staged map twice, in two unrelated orders:
   * `batch` is the order of appending and `order` the order of the index update.
   */
  function CommitStep(cfg: Config, s: Store, batch: seq<Staged>, order: seq<nat>, sync: bool): Store
    requires Permutation(order, |batch|)
  {
    var s1 := CommitLog(cfg, s, batch);
    var es := Reorder(BatchEntries(cfg, s, batch), order);
    s1.(synced := if sync then |s1.log| else s1.synced,
        index := ApplyAll(s.index, es),
        reclaim := s.reclaim + Freed(s.index, es))
  }

  /** A commit that fails after some appends: the sequence number is spent, the records stay, no index update. */
  function AbortStep(cfg: Config, s: Store, batch: seq<Staged>, written: nat): Store
    requires written <= |batch|
  {
    AppendAll(cfg, s.(seqNo := s.seqNo + 1), RecordsOf(batch[..written], s.seqNo + 1))
  }

  // ---------------------------------------------------------------- merge

  /** The critical section of `Merge`: sync and retire the active file, open the next one. */
  function MergeBeginStep(s: Store): Store
    requires s.active.Active?
  {
    s.(synced := |s.log|, active := Active(s.active.fid + 1, 0), job := Frozen(s.active.fid + 1))
  }

  /** The merge directory is recreated, whatever it held, and a second instance is opened in it. */
  function MergeOpenStep(s: Store): Store
    requires s.job.Frozen?
  {
    s.(job := Scanning(s.job.barrier, 0, Output([], [], NoFile)), dir := Unfinished)
  }

  /** The live index still points at this very place. */
  predicate IsLive(index: map<Key, Entry>, e: Entry) {
    e.rec.key in index && index[e.rec.key].pos.fid == e.pos.fid && index[e.rec.key].pos.offset == e.pos.offset
  }

  /**
   * Copying a record: its sequence number is cleared, it is appended to the merge instance, a hint record is
   * written.
   */
  function Rewrite(cfg: Config, out: Output, e: Entry): Output {
    var rec := e.rec.(seqNo := 0);
    var t := Target(cfg.maxFile, out.active, Size(rec));
    var copy := Placed(t, rec);
    Output(out.entries + [copy], out.hint + [copy], Advance(t, Size(rec)))
  }

  /** One turn of the scan loop, which runs without the lock. */
  function MergeScanStep(cfg: Config, s: Store): Store
    requires s.job.Scanning? && s.job.scanned < |s.log|
  {
    var e := s.log[s.job.scanned];
    var out := if IsLive(s.index, e) then Rewrite(cfg, s.job.out, e) else s.job.out;
    s.(job := Scanning(s.job.barrier, s.job.scanned + 1, out))
  }

  function MergeFinishStep(s: Store): Store
    requires s.job.Scanning?
  {
    s.(dir := Finished(s.job.barrier, s.job.out), job := Idle)
  }

  // ---------------------------------------------------------------- opening

  /** The length of a file in the log: where its last record ends. */
  function FillOf(log: seq<Entry>, fid: nat): nat {
    if |log| > 0 && log[|log| - 1].pos.fid == fid then log[|log| - 1].pos.offset + log[|log| - 1].pos.size else 0
  }

  /** `LoadMergeFiles`: with a finish marker, files below the barrier are removed and the merged files moved in. */
  function LoadMergeFiles(s: Store): Store {
    if s.dir.Finished? then
      var b, out := s.dir.barrier, s.dir.out;
      var frozen := Below(s.log, b);
      var unsyncedFrom := if s.synced < frozen then 0 else s.synced - frozen;
      s.(log := out.entries + s.log[frozen..], synced := |out.entries| + unsyncedFrom,
         hint := out.hint, barrier := b, dir := NoMerge)
    else s.(dir := NoMerge)
  }

  /** `loadIndexFromHintFile`, then `loadIndexFromDataFiles` over the files that are not below the barrier. */
  function LoadIndex(s: Store): ReplayState {
    ReplayFrom(EMPTY.(index := LoadHint(s.hint)), s.log[Below(s.log, s.barrier)..])
  }

  /** `Open` on the directory a store left behind, of whose log only the first `kept` entries survived. */
  function ReopenStep(s: Store, kept: nat): Store
    requires kept <= |s.log|
  {
    var synced := if s.synced < kept then s.synced else kept;
    var d := LoadMergeFiles(s.(log := s.log[..kept], synced := synced, job := Idle));
    var r := LoadIndex(d);
    d.(active := if s.active.NoFile? then NoFile else Active(s.active.fid, FillOf(d.log, s.active.fid)),
       bytesWrite := 0,
       index := r.index, seqNo := r.maxSeq, reclaim := r.reclaim)
  }

  // ---------------------------------------------------------------- steps and runs

  datatype Label =
    | Put(key: Key, value: Value)
    | Delete(key: Key)
    | Commit(batch: seq<Staged>, order: seq<nat>, sync: bool)
    | AbortedCommit(batch: seq<Staged>, written: nat)
    | Sync
    | MergeBegin
    | MergeOpen
    | MergeScan
    | MergeFinish
    | MergeAbort
    | Restart
    | Crash(kept: nat)

  /** What `pendingWrites` can hold: each key once, no empty key, puts and deletions only. */
  predicate ValidBatch(batch: seq<Staged>) {
    && |batch| > 0
    && (forall i :: 0 <= i < |batch| ==> batch[i].key != [] && batch[i].kind != TxnFinished)
    && (forall i, j :: 0 <= i < j < |batch| ==> batch[i].key != batch[j].key)
  }

  /**
   * A crash loses at most what was not synced, at a record boundary; then, as after a restart, the directory is
   * opened again.
   */
  predicate Enabled(s: Store, l: Label) {
    match l
    case Put(key, _) => key != []
    case Delete(key) => key != []
    case Commit(batch, order, _) => ValidBatch(batch) && Permutation(order, |batch|)
    case AbortedCommit(batch, written) => ValidBatch(batch) && written <= |batch|
    case Sync => true
    case MergeBegin => s.active.Active? && s.job.Idle?
    case MergeOpen => s.job.Frozen?
    case MergeScan => s.job.Scanning? && s.job.scanned < Below(s.log, s.job.barrier)
    case MergeFinish => s.job.Scanning? && s.job.scanned == Below(s.log, s.job.barrier)
    case MergeAbort => !s.job.Idle?
    case Restart => true
    case Crash(kept) => s.synced <= kept <= |s.log|
  }

  function Step(cfg: Config, s: Store, l: Label): Store
    requires Enabled(s, l)
  {
    match l
    case Put(key, value) => PutStep(cfg, s, key, value)
    case Delete(key) => DeleteStep(cfg, s, key)
    case Commit(batch, order, sync) => CommitStep(cfg, s, batch, order, sync)
    case AbortedCommit(batch, written) => AbortStep(cfg, s, batch, written)
    case Sync => s.(synced := |s.log|)
    case MergeBegin => MergeBeginStep(s)
    case MergeOpen => MergeOpenStep(s)
    case MergeScan => MergeScanStep(cfg, s)
    case MergeFinish => MergeFinishStep(s)
    case MergeAbort => s.(job := Idle)
    case Restart => ReopenStep(s, |s.log|)
    case Crash(kept) => ReopenStep(s, kept)
  }
}
