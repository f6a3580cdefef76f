# bitcask-go: a model of the engine and of the Redis structures on it

bitcask-go is a Bitcask storage engine. Writes are appended to an active data file that rotates at a size limit; an
in-memory index maps every key to a file id, an offset and a size; opening a directory rebuilds that index from the
files. A batch writes its records under one sequence number and ends with a finish marker. A merge copies the live
records of all older files into new ones while clients go on writing, and the next opening swaps the copies in.
Lists, hashes and sets in the style of Redis are laid over the engine's keys.

This project states that behaviour in Dafny and proves it, from bytes to whole runs. `dafny verify dfyconfig.toml`
checks all of it.

## How the model is built

**Bytes and files.** `Varints`, `LittleEndian`, `Crc32` and `LogRecords` are the encodings, as functions and as the
methods that fill buffers step by step. `Polynomials` shows that the checksum is the remainder of a division by the
generator of RFC 1952; `CrcExamples` and `Formats` spell out checksums and records byte by byte. `DataFiles` specifies
reading at an offset of any content, run-time panics of Go included, and shows that scanning inverts writing;
`TornTails` says what a scan makes of a record written only in part. `Storage` is the `DataFile` class over that.

**Log, engine, invariant.** `Log` is the sequence of records with their positions and the fold by which replay rebuilds
an index. `Engine` is the whole store as a state machine: one function for each operation (`PutStep`, `DeleteStep`,
`CommitStep`, `AbortStep`, the five merge steps, `ReopenStep`) and `Step` over the labels Put, Delete, Commit,
AbortedCommit, Sync, MergeBegin, MergeOpen, MergeScan, MergeFinish, MergeAbort, Restart and Crash. Steps of a merge
interleave freely with everything else. `Invariant` says what every reachable store satisfies; `Preservation`,
`MergeScan`, `Recovery` and `Reopening` show that each step keeps it. `Rotation` says when a file is full, `SyncBounds`
how much the option `BytesPerSync` lets a crash take.

**What clients are promised.** `Runs` compares whole runs with an abstract map. `History` keeps the list of client
operations beside the store through any number of crashes and shows that what survives is a prefix of whole operations.
`Durability` adds that operations acknowledged with a sync stay in that prefix for good, and which crashes a finished
merge survives. `Space` accounts for every byte. `Staging` compares a batch with its calls made one by one.

**Objects.** `Database`, `Merging`, `Batches`, `Loading`, `Directories`, `Opening` and `Clients` follow the code method
by method, as classes over data files of bytes with a synced length. Every method is proved to perform exactly the
engine step it stands for (`Core()` is the store an object is), and `Opening.Open` rebuilds from files alone the store
that `ReopenStep` gives. `Sessions` puts the pieces together: a database, its two directories and a running merge, with
one invariant that every client operation, every turn of the merge in between, `Merge` as a whole and, in `Restarts`,
every restart and crash keep; `OwnFiles` shows that there the files are always what the next opening expects.
`Leftovers`, `StoppedRemoval` and `MergeStops` are about stops inside a step: what the next openings make of a marker
written in part, and of a merge directory that is partly removed or partly moved.
`Iterators` is the sorted snapshot with its binary search and prefix filter.

**Redis.** `KeyValue` is the engine by the contract shown for it in `Clients`: a map, batches, sorted snapshots;
`Refinement` runs both side by side. `RedisMeta` holds metadata and internal keys, `RedisModel` what a key-value map
means as texts, hashes, sets and lists, `RedisForeign` what writes of any other use do to them, `RedisTypes` the
commands, `RedisScan` and `Listings` the order of a hash's fields, `RedisCommands` the commands on plain values,
`RedisRuns` whole runs of commands over many keys.

## Questions the source asks, and where it falls short

- merge.go:80-82 asks whether a merge that fails on the way leaves a barrier behind that invalidates files. Between the
  engine's steps it does not, also when an earlier merge left its hint file and its barrier in the data directory:
  `MergeScan.MergeAbortKeepsInv`, `Reopening.RestartKeepsView`. Inside two of the steps the answer is another one:
  - A merge that ends while it writes its own marker (merge.go:170-183), by a crash or the return at merge.go:179-181,
    leaves a marker that invalidates no file but makes the next opening fail, exactly when any part of it is missing
    (`MergeStops.TornMarker`). The merge directory is gone then, and the opening after that finds the map
    (`MergeStops.OpenTwice`, `MergeStops.RestartTwice`).
  - A merge that is stopped while it removes the directory of an earlier finished one (merge.go:101-105) can leave that
    one's marker, and then the barrier does invalidate files: the next opening deletes the data files below it and moves
    in what is left. The same goes for an opening that is stopped while it moves merged files (merge.go:236-256): the
    next one deletes those already moved. `StoppedRemoval.StoppedRemovalLoses` is a reachable store that loses its only
    value. `Leftovers.LeftoversServe` says for any rest of the directory exactly when the map survives,
    `Leftovers.WithOwnHints` and `Leftovers.WithoutHints` what this comes to, `MergeStops.AnsweredAlike` what clients
    read; without the marker nothing is lost (`Leftovers.MarkerGone`).
- merge.go:145-146 asks why rewriting needs no lock. Because a frozen position that left the index never comes back
  (`MergeScan.OldEntryWasFrozen`) and a key is copied at most once (`MergeScan.NotCopiedYet`), whatever writers do.
- A merge that ran beside a writer can lose synced data in a later crash: it drops a frozen value because the index
  has a newer one, and the crash loses the newer one. `LostTail.LostTailAfterMerge` is such a run.
  `Durability.MergeSafeForCrashes` says exactly on which stores no crash can do this: those whose synced part uses no
  frozen position without a copy. `History` covers crashes from a floor on, which a finished merge raises to the
  shortest log that its copies cover and no further (`Durability.FloorIsExact`); without a finished merge it is zero.
- A record torn by a crash is dropped when it breaks off in the checksum or behind the header. In between, the scan may
  stop at a checksum error, so that the directory cannot be opened, or find a record that nobody wrote:
  `TornTails.TornRead` gives the outcome for every length, `TornTails.BlockedByTornTail` a record for every key.
- A torn tail that is dropped stays in the file. Later records are appended behind it (fio/file_io.go:14-21) while the
  index takes them to be where it begins (db.go:594-596). Unless nothing was torn off, there is a record that cannot be
  read back from there, whatever the tear: `TornTails.WritesAfterTornTail`.
- `BytesPerSync` bounds the unsynced bytes of one opening only. Closing does not sync (db.go:144-190) and the counter
  starts again (db.go:407-420): `SyncBounds.RestartForgetsUnsynced`, and `SyncBounds.UnsyncedIsBounded` for the bound
  that holds.
- batch.go:60-66 decides at staging whether a deletion is needed. With another writer before the commit the deletion
  can be lost: `Staging.DroppedDeletionIsLost`, and `Staging.BatchEqualsCalls` for the exact condition.
- batch.go:131-136 does not count the tombstones of a batch as reclaimable while replay does. `Space.LiveReclaim`
  states the difference.
- At merge.go:112-114 the merge instance shares the options of the database, so setting its directory and switching
  off its syncing changes the database's own options too. The model gives the merge instance a copy.
- Redis keys are not escaped, so a user key can spell out another key's internal key.
  `RedisForeign.CollidingCommands` is such a pair of commands. `RedisForeign` says for hashes, sets and lists exactly
  which writes, deletions and commands under other keys do harm; keys that are apart never do
  (`RedisForeign.ApartNeverHits`), and the results over several keys ask for prefix-free keys.
- A hash, set or list command on a text should answer wrong-type. Decoding the text as metadata can leave the buffer and
  panic instead (redis/meta.go:43-67): `RedisModel.OverflowingStringPanics` names a text, `RedisMeta.StringDecodes` and
  `RedisModel.StringRefused` say exactly which texts do.

## Model

| member | source | states |
|---|---|---|
| `Varints.PutUvarint` | batch.go:150-157 | writes exactly the base-128 groups of the number at the given index of the buffer and touches nothing else |
| `Varints.PutVarint` | data/log_record.go:63-66 | the same for the zigzag form of a signed number |
| `Varints.UvarintRoundTrip` | batch.go:150-164 | every 64-bit unsigned number is read back from its bytes, whatever follows them, and the cursor ends behind them |
| `Varints.VarintRoundTrip` | data/log_record.go:84-108 | every 64-bit signed number is read back from its zigzag bytes, whatever follows them |
| `Varints.UvarintLayout` | batch.go:150-157 | the bytes of a number are its groups of seven bits, lowest first, the top bit set on all but the last, and no empty last group |
| `Varints.UvarintIsOutcome` | redis/meta.go:43-67 | the decoding of any bytes at all: too few, more than ten, too large for 64 bits, each with its count, and otherwise the number of the groups up to the first end |
| `Varints.ZigzagIsShifted` | data/log_record.go:63-66 | the zigzag form of a signed 64-bit number is its word shifted up by one, complemented if it is negative |
| `Varints.VarintFits32` | data/log_record.go:18 | a length or file id below 2^32 takes at most five bytes even after zigzag |
| `Varints.VarintFits64` | redis/meta.go:10 | a 64-bit signed number takes at most ten bytes |
| `Varints.UvarintLengthMonotone` | merge.go:143 | a smaller number never has a longer varint |
| `Crc32.UpdateConcat` | data/log_record.go:132-141 | a CRC-32 (RFC 1952, section 8) continued over a second piece is the CRC of the two pieces together |
| `Polynomials.PolynomialIsGenerator` | data/log_record.go:77 | the constant of the shift register is the generator of RFC 1952, given by its exponents |
| `Polynomials.ChecksumIsRemainder` | data/log_record.go:77 | the checksum of any bytes is the remainder of long division of their polynomial by that generator, complemented as RFC 1952 says |
| `Polynomials.ChecksumIsDetermined` | data/log_record.go:77 | and no other number is |
| `CrcExamples.Residue` | data/data_file.go:148-152 | any bytes followed by their own checksum, lowest byte first, have the checksum 0x2144DF1C |
| `CrcExamples.CheckValue` | data/log_record.go:77 | the digits 1 to 9 have the checksum 0xCBF43926 |
| `CrcExamples.NameRecord` | data/log_record_test.go:47-51 | the checksum that the tests expect of their first record |
| `CrcExamples.NameDeleted` | data/log_record_test.go:67-71 | and of the deletion |
| `LittleEndian.RoundTrip` | redis/meta.go:83 | fixed-width little-endian bytes give back the number |
| `LittleEndian.FromBytesIsWeighted` | redis/meta.go:83 | the first byte counts once, each further one 256 times the one before |
| `LittleEndian.PutUint` | redis/meta.go:158-162 | fills its n bytes of the buffer and touches nothing else |
| `LogRecords.EncodeLogRecord` | data/log_record.go:55-81 | the returned buffer is CRC, type, key length, value length, key, value, and its length is the returned size; `Polynomials.ChecksumIsRemainder` says which CRC, `Formats.RecordOnDisk` spells out a record |
| `LogRecords.HeaderFits` | data/log_record.go:18 | every header of a record with lengths below 2^32 fits the fifteen-byte window and has at least seven bytes |
| `LogRecords.WindowIsTight` | data/log_record.go:16-18 | key and value of 2^27 bytes or more need all fifteen |
| `LogRecords.HeaderRoundTrip` | data/log_record.go:111-130 | a header is decoded from any buffer that begins with it, whatever payload or record follows |
| `LogRecords.CrcInPieces` | data/log_record.go:132-141 | the CRC taken over header tail, key and value one after the other is the one written over all of them at once |
| `LogRecords.EncodeLogRecordPos` | data/log_record.go:84-93 | a position within its integer widths always fits the scratch buffer and is encoded as three signed varints |
| `LogRecords.PosRoundTrip` | data/log_record.go:84-108 | file id, offset and size are read back over their whole ranges |
| `LogRecords.KeyRoundTrip` | batch.go:150-164 | key and sequence number are recovered from the stored key for every 64-bit sequence number |
| `Formats.RecordOnDisk` | data/log_record_test.go:44-53 | the record of name and wsx is, byte for byte, what the tests decode, and decodes to what they expect |
| `Formats.DeletionOnDisk` | data/log_record_test.go:65-73 | so is the deletion of name |
| `Formats.StoredOnDisk` | batch.go:83-112 | type and stored key of a write outside a batch, of a deletion in one, and of the record that ends one |
| `Formats.MarkerOnDisk` | merge.go:174-178 | the finish marker before file 12: key merge.finished, value 12 |
| `Formats.HintOnDisk` | data/data_file.go:92-99 | a hint record: file id, offset and size in that order |
| `Formats.MetadataOnDisk` | redis/meta.go:25-41 | the bytes of a text and of the metadata of a hash, a set and a list with one element each |
| `Formats.InternalKeysOnDisk` | redis/meta.go:75-165 | the bytes of the internal keys of fields, members and elements: the version lowest byte first, a negative one in two's complement |
| `DataFiles.ReadsBack` | data/data_file.go:102-154 | a record is read back from anywhere in a file with its exact size: the fixed header window may reach into the payload and the next record without effect |
| `DataFiles.ZerosReadAsEnd` | data/data_file.go:121-127 | a tail of zero bytes, however long, reads as the end of the file |
| `DataFiles.ScanInvertsWrite` | data/data_file.go:82-154 | scanning the concatenated encodings of any records from any offset yields exactly those records with their offsets and sizes and stops at the end |
| `TornTails.TornRead` | data/data_file.go:102-154 | what the read at the tail of a half-written record gives, for every length at which it was cut and whatever lies before it: end of file, a checksum error, or a record that nobody wrote |
| `TornTails.TornTailIsDropped` | data/data_file.go:126-154 | scanning a file with a torn last record returns exactly the whole records if and only if that read says end of file; otherwise the scan ends in its error or goes on with a phantom |
| `TornTails.BlockedByTornTail` | data/data_file.go:148-152 | under every key there is a value whose record, torn right behind its type byte, makes the scan end in a checksum error |
| `TornTails.WritesAfterTornTail` | db.go:594-596 | after an opening that dropped a torn tail, what is appended next is read back at its recorded position, for every record, if and only if nothing was torn off |
| `Storage.DataFile.Write` | data/data_file.go:82-89 | the file's records are the old ones and the new one, content and write offset grow by exactly its bytes |
| `Storage.DataFile.Sync` | data/data_file.go:74-76 | every byte written so far, and with it every record, is on stable storage |
| `Storage.DataFile.WriteHintRecord` | data/data_file.go:92-99 | the file gains the hint record of key and encoded position |
| `Storage.DataFile.ReadNBytes` | data/data_file.go:156-163 | the bytes asked for, or end of file when they reach past it |
| `Storage.DataFile.ReadLogRecord` | data/data_file.go:102-154 | on any content and offset: the record, or end of file, checksum error or run-time panic, exactly as the specified read |
| `Storage.DataFile.Open` | data/data_file.go:60-72 | a handle on an existing file has its content and records, and write offset zero |
| `Storage.ReadsEntry` | data/data_file.go:102-154 | in a data file of stored records, reading at the sum of the sizes before the i-th gives the i-th with its size |
| `Storage.ParsedStored` | batch.go:150-164 | a stored record gives back sequence number, key, value and kind |
| `Storage.StoredLength` | data/data_file.go:82-89 | the length of a data file is the sum of the sizes of its records |
| `Log.SizeIsStoredLength` | data/log_record.go:55-81 | the size the engine computes with is the length of the encoded record |
| `Log.RewriteIsNoLonger` | merge.go:143-147 | clearing the sequence number never makes a stored record longer |
| `Log.ReplaySound` | db.go:504-603 | in the rebuilt state every index entry is a live record of the log under its own key, every record held back belongs to an unfinished batch, and no record exceeds the largest sequence number |
| `Log.ReplayConcat` | db.go:539-592 | replaying a log is replaying its parts one after the other |
| `Log.UnfinishedBatchWaits` | db.go:570-582 | any number of records of a batch without its finish marker change neither index nor reclaimable bytes |
| `Log.FinishedBatchApplies` | db.go:571-575 | the finish marker applies the batch's records, all of them, in the order they were appended |
| `Log.ApplyAllEffect` | batch.go:122-136 | applying the records of a batch in any order sets every put key, removes every deleted key and leaves all other keys alone |
| `Log.BatchEffectUnique` | batch.go:98-136 | that effect determines the index, so two orders of the same batch give the same index |
| `Log.HintIsReplay` | merge.go:276-303 | loading the hint records of merged files gives the very state that replaying those files record by record gives |
| `Invariant.AppendOk` | db.go:374-426 | one append keeps the log ordered and well formed, only adds at the end, and keeps everything outside the active file on stable storage |
| `Invariant.PlaceOk` | db.go:386-405 | a placed record lies behind all others; it fits the size limit or is an oversized record at the start of a file that rotation opened |
| `Rotation.AppendPlace` | db.go:386-405 | an append puts its record behind the last one if both fit the size limit together, else at the start of the next file |
| `Rotation.NoEarlyRotation` | db.go:386-405 | over every run without merges and crashes, restarts included, a file is followed by another one only where the next record would not have fitted |
| `SyncBounds.UnsyncedSinceOpening` | db.go:407-420 | in every reachable state fewer bytes than `BytesPerSync` of those written since the last opening are not on stable storage, whatever rotated, synced or merged in between |
| `SyncBounds.UnsyncedIsBounded` | db.go:407-420 | so all unsynced bytes together are fewer than that, not counting what was unsynced at the last opening and still is |
| `SyncBounds.RestartForgetsUnsynced` | db.go:407-420 | and that part does count: a run of two puts with a restart in between that leaves more unsynced than the option says |
| `Preservation.PutKeepsInv` | db.go:229-256 | a put keeps the invariant and sets exactly its key in the client's map |
| `Preservation.DeleteKeepsInv` | db.go:336-365 | a delete keeps the invariant and removes exactly its key; deleting an absent key changes nothing |
| `Preservation.CommitKeepsInv` | batch.go:75-147 | a commit keeps the invariant for any order of appending and any order of index update, and applies the staged writes as a whole |
| `Preservation.AbortKeepsInv` | batch.go:98-120 | a commit that fails after any number of appends keeps the invariant and changes nothing a client sees |
| `Preservation.FreshSeqNo` | batch.go:93 | a number above every number in the log has no records waiting for it |
| `Preservation.CommitIndex` | batch.go:122-136 | the live index after a commit is the index a replay of the longer log builds |
| `Preservation.OrphansWait` | db.go:570-582 | records without a finish marker leave the replayed index and reclaimable bytes as they were |
| `MergeScan.OldEntryWasFrozen` | merge.go:136-141 | a frozen position that the replayed index still uses is the one the frozen index had: one that left never returns |
| `MergeScan.PackingStaysBehind` | db.go:386-405 | packing a record no larger than the scanned one keeps the merge output at or before the end of the scanned record, oversized records included |
| `MergeScan.NotCopiedYet` | merge.go:136-155 | a key is copied at most once although writers run during the scan |
| `MergeScan.RewriteOk` | merge.go:142-155 | copying a live record keeps the output a well-formed log of plain values whose hint file lists it exactly |
| `MergeScan.MergeScanKeepsInv` | merge.go:124-159 | one turn of the scan keeps the invariant, at any moment between other operations |
| `MergeScan.MergeBeginKeepsInv` | merge.go:64-90 | freezing keeps the invariant: no batch reaches across the barrier |
| `MergeScan.MergeOpenKeepsInv` | merge.go:99-123 | discarding a whole earlier merge directory and opening a new one, as one step, keeps the invariant |
| `MergeScan.MergeFinishKeepsInv` | merge.go:162-187 | when all frozen files are scanned, every frozen position still in use has its copy |
| `MergeScan.MergeAbortKeepsInv` | merge.go:58-60 | giving up a merge between any two of its steps keeps the invariant |
| `MergeScan.MergedFilesFit` | merge.go:240-256 | no merged file has an id at or above the barrier, so moving merged files in overwrites no newer file |
| `Recovery.LoadIsReplay` | db.go:539-592 | hint file plus the files not below the barrier give the index of replaying every file from its first record |
| `Recovery.MergeSimulation` | merge.go:236-256 | at every length of the newer files, replaying merged files and newer files mirrors replaying the original files |
| `Recovery.MergeRecovery` | merge.go:236-256 | swapping frozen files for their copies gives the same client map if and only if every frozen position still used was copied |
| `Recovery.FrozenIsStable` | db.go:388-397 | the files below any barrier are on stable storage |
| `Reopening.ReopenKeepsInv` | db.go:53-141 | opening after a restart or a crash at any record boundary keeps the invariant, with or without a finished merge |
| `Reopening.RestartFindsLiveIndex` | db.go:504-603 | without a finished merge a restart finds exactly the live map from keys to file, offset and size, and a write offset equal to the active file's length |
| `Reopening.MergeThenCrash` | merge.go:199-258 | after a crash with a finished merge the map of the surviving log is found if and only if the merge copied every frozen position that log still uses |
| `Reopening.RestartKeepsView` | merge.go:199-258 | merge is invisible: a restart gives back the live client map whether a merge finished, was given up between any two of its steps or never ran |
| `Runs.ReachableOk` | db.go:53-141 | the invariant holds in every state reachable by any interleaving of puts, deletes, commits, aborted commits, syncs, merge steps, restarts and crashes |
| `Runs.StepRefines` | db.go:229-365 | every step but a crash has exactly the effect of its client operation on the map; merge steps, syncs and restarts have none |
| `Runs.EngineRefinesMap` | db.go:258-275 | in every state reachable without a crash the client's map is its own operations applied in order to the empty map |
| `Runs.MergeLeavesNoTrace` | merge.go:19-188 | two runs with the same client operations show the same map, wherever merges ran, finished or were cut short |
| `Runs.RestartAnywhere` | db.go:53-141 | a restart at any reachable point gives back the live map |
| `Runs.NextSeqNoIsFresh` | batch.go:93 | in every reachable state the next sequence number exceeds every number in the log and no record waits for it, after restarts and merges too |
| `History.PartialBlock` | batch.go:98-120 | no proper prefix of the records of an operation has any effect on the recovered map |
| `History.TrackedStepOk` | db.go:386-420 | every step keeps: each surviving length of the log from the floor on gives the map after the operations complete at that length |
| `History.TrackGoesOn` | db.go:386-420 | the history can be kept through every step that the store allows and the floor covers |
| `History.CrashesLeaveAHistory` | db.go:567-583 | after any steps, aborted batches, merges, restarts and any crashes that keep what the last finished merge relied on, the client's map is a history of whole operations applied in order |
| `History.CrashKeepsSyncedOps` | db.go:407-420 | a crash leaves a prefix of the history with every operation that lies in the synced part of the log |
| `History.SyncedOperation` | batch.go:115-120 | an operation acknowledged with a sync lies in the synced part of the log |
| `History.EveryCrashIsCovered` | db.go:386-420 | until a merge finishes, the history covers every crash: no floor stands in the way of the prefix property |
| `Durability.MergeSafeForCrashes` | merge.go:136-187 | after a finished merge every crash leaves the map of the log that survives it, if and only if the copies cover what the synced part of the log uses: a condition known before the crash |
| `Durability.SyncedStoreIsSafe` | merge.go:162-187 | with everything synced after the merge, every crash gives back the live map |
| `Durability.FloorIsExact` | merge.go:136-187 | a crash after a merge is covered by the history exactly when it leaves the map of the log that survives it |
| `Durability.DurableStep` | db.go:407-420 | one step, restart or covered crash keeps the operations that are durable, in the history and durable |
| `Durability.DurableForever` | db.go:407-420 | over whole runs: operations durable at some point stay the first operations of the history through everything that follows |
| `Durability.AcknowledgedForever` | batch.go:115-120 | every operation acknowledged before or with a sync is in every later history, and the client later sees the map of those operations followed by the others |
| `LostTail.RunToMerged` | merge.go:136-187 | a concrete run of two puts and a merge, whose freeze syncs them, during which one of the keys is overwritten |
| `LostTail.LostTailAfterMerge` | merge.go:136-156 | a crash of that run that keeps everything synced leaves the map of no prefix of its history: the overwritten key has lost both values |
| `Space.ReplayAccounts` | db.go:521-532 | after any replay all bytes are indexed bytes, reclaimable bytes, finish markers and records held back |
| `Space.FreedInAnyOrder` | batch.go:131-136 | the bytes an index update frees do not depend on the order in which the batch is walked |
| `Space.LiveReclaim` | batch.go:122-136 | the live counter lags behind a replay's by exactly the batch tombstones committed since the last opening |
| `Space.SpaceConservation` | db.go:250-252 | in every reachable state the bytes of all data files are indexed bytes, reclaimable bytes, finish markers, orphaned batch records and this session's batch tombstones |
| `Space.PlainSpaceConservation` | db.go:357-363 | without batches indexed plus reclaimable bytes are all bytes, live and after recovery |
| `Staging.BatchEqualsCalls` | batch.go:37-72 | a committed batch equals its calls made directly if and only if no deletion was dropped at staging for a key the map holds at the commit |
| `Staging.BatchIsItsCalls` | batch.go:37-147 | with no other writer between staging and commit the commit gives the map of the calls one by one, in whatever orders the staged writes are walked |
| `Staging.EmptyBatchIsNothing` | batch.go:79-81 | a batch with nothing left to write changes nothing and its calls would change nothing |
| `Staging.DroppedDeletionIsLost` | batch.go:60-66 | a deletion staged while its key was absent is forgotten when another writer puts the key before the commit |
| `Iterators.SelectIsExact` | iterator.go:52-66 | a selection holds exactly the items with the prefix on the right side of the seek key, in the order of travel and each once |
| `Iterators.SeekIsExact` | index/btree.go:118-130 | after a seek exactly the items with the prefix at or above the key, in reverse at or below it, are left |
| `Iterators.SeekBeginsNearest` | index/btree.go:118-130 | in either direction a seek begins at the key sought if it is there, else at its nearest neighbour ahead, and finds nothing if and only if everything lies behind |
| `Iterators.SeekBothWays` | index/btree.go:118-130 | upward and downward from one key, every item with the prefix is found, and only that key's twice |
| `Iterators.BTreeIterator.Seek` | index/btree.go:120-130 | the binary search ends at the first item that is at or above the key on the way up, at or below it on the way down, compared as bytes; the key itself is never skipped |
| `Iterators.BTreeIterator.constructor` | index/btree.go:91-112 | the snapshot holds the tree's items in ascending or descending order, the cursor at the first |
| `Iterators.SaveValues` | index/btree.go:95-110 | the array holds the walk of the tree item by item |
| `Iterators.Iterator.SkipToNext` | iterator.go:52-66 | the loop ends, skips no item with the prefix, and stops only at one or at the end |
| `Iterators.Iterator.Rewind` | iterator.go:24-27 | what is left to visit is every item with the prefix |
| `Iterators.Iterator.Seek` | iterator.go:28-31 | what is left to visit is exactly the items with the prefix at or above the key on the way up, at or below it on the way down |
| `Iterators.Iterator.Next` | iterator.go:33-36 | exactly what came after the current item is left |
| `Iterators.Collect` | iterator.go:24-66 | the loop over Valid, Key and Next visits all that was left, in order, and ends |
| `Bytes.PrefixIsConvex` | redis/types.go:189-192 | nothing without the prefix sorts between the prefix and a string that has it |
| `Bytes.CompareTransitive` | index/btree.go:29 | byte comparison is transitive, strictly if either step is |
| `Bytes.CompareIsSmaller` | index/btree.go:29 | one key is less than another if and only if, where they first differ, it ends or has the smaller byte |
| `Bytes.AscendingIsByteOrder` | index/btree.go:29 | a list is ascending if and only if each key is so before all that follow it |
| `Database.DB.SetActiveDataFile` | db.go:430-444 | a fresh empty file with the next id becomes active; the log does not change |
| `Database.DB.MakeRoom` | db.go:378-405 | the active file is the one the record goes to, the retired file synced and kept among the older ones |
| `Database.DB.Rotate` | db.go:388-405 | the active file is synced before it joins the older files, so that all older files are durable, and an empty file takes its place |
| `Database.DB.SyncActive` | db.go:199 | with all older files durable, syncing the active one makes the whole log durable |
| `Database.DB.SyncIfDue` | db.go:407-420 | the byte counter and what is on stable storage after a write, with sync on every write, after enough bytes, or not |
| `Database.DB.AppendLogRecord` | db.go:374-426 | on the bytes of the files: the store afterwards is the engine's append of the record, and the returned position is where it lies |
| `Database.DB.IndexPut` | index/btree.go:33-42 | sets the key's position and hands back the old one, if any |
| `Database.DB.IndexDelete` | index/btree.go:52-61 | removes the key and hands back its position, or nothing if it was not there |
| `Database.DB.Put` | db.go:229-256 | an empty key is refused; otherwise files, index and counters change as the engine's put step says |
| `Database.DB.Delete` | db.go:336-365 | an empty key is refused, an absent one writes nothing; otherwise the engine's delete step |
| `Database.DB.Get` | db.go:258-275 | the value the client's map holds, read through index and files; an empty or absent key gives its error |
| `Database.DB.GetValueByPosition` | db.go:310-334 | any position ever issued for an entry of the log reads that entry's value; a deletion or a missing file gives its error |
| `Database.DB.Sync` | db.go:193-200 | everything in the log becomes durable |
| `Database.DB.Refusal` | merge.go:31-55 | what is refused and why, with the ratio as a product and the free space compared without and with wrap-around |
| `Database.DB.MergeBegin` | merge.go:19-90 | an empty database is left alone; a second merge, a reclaimable part less than the ratio times the whole, and a rest as large as the free space or larger are refused, each exactly then; otherwise every file is frozen and the barrier is the next file id |
| `Merging.MergeOpen` | merge.go:99-123 | a new instance without syncing and an empty hint file, as the engine's open step says |
| `Merging.MergeScanTurn` | merge.go:127-158 | on the bytes of a frozen file: at its end nothing happens; otherwise the record read, compared with the live index and copied or not is the engine's scan step, and the loop advances by its size |
| `Merging.CopyRecord` | merge.go:142-155 | merge instance and hint file gain exactly the copy and its position |
| `Merging.ReadFrozen` | merge.go:128-136 | after j records of a frozen file: the next one, its key freed of the sequence number, and its size, or nothing at the end |
| `Merging.MergeFinish` | merge.go:162-187 | called after a complete scan: copies, hints and the marker naming the barrier are all on stable storage, and the engine's finish step has happened |
| `Merging.MergeAbort` | merge.go:58-60 | the merge flag is cleared and nothing else changes |
| `Merging.WriteFinishMarker` | merge.go:169-185 | the marker file holds one synced record, whose value is the barrier in decimal digits, each counted by its place |
| `Merging.GetNonMergeFileId` | merge.go:260-274 | on any content: unreadable, not a number, or the number by the place of its digits, as 32 bits |
| `Merging.DecimalRoundTrip` | merge.go:176 | a file id is read back from its decimal digits, which begin with no sign |
| `Merging.AtoiIsPlaceValue` | merge.go:269 | a string of digits, with or without a sign, is the sum of its digits by their places, if that fits 64 bits |
| `Merging.ItoaIsPlaceValue` | merge.go:176 | the digits written for a file id: no leading zero, and by their places they are the id |
| `Merging.ItoaOrder` | merge.go:176 | of two ids with as many digits the smaller one has the smaller digit where they first differ |
| `Merging.MarkerReadsBack` | merge.go:169-185 | a finish marker names the barrier it was written for |
| `Merging.CursorEntry` | merge.go:124-159 | the record that the loop over files and offsets is at is the entry of the log as many places on as have been scanned |
| `Batches.WriteBatch.Put` | batch.go:37-49 | an empty key is refused; otherwise the last write staged for a key replaces earlier ones |
| `Batches.WriteBatch.Delete` | batch.go:52-72 | a key the index holds is staged for deletion, any other is only taken out of the batch |
| `Batches.WriteBatch.Commit` | batch.go:75-147 | empty and oversized batches change nothing; a failing append leaves the engine's aborted commit and the staged writes; otherwise the engine's commit for the orders in which the map was walked |
| `Batches.WriteBatch.AppendPending` | batch.go:98-110 | the records appended are the staged writes in the order walked, each with the position recorded for its key |
| `Batches.WriteBatch.UpdateIndexes` | batch.go:122-136 | the index and the reclaimable bytes after walking all staged writes in any order |
| `Batches.WriteBatch.Finish` | batch.go:112-120 | the finish marker is appended and the log synced if the batch asks for it |
| `Batches.BatchLies` | batch.go:96-110 | after the first walk every staged write lies in the log at the position kept for its key |
| `Loading.LoadIndexFromHintFile` | merge.go:276-303 | the index holds the position of every hint record, a later one for the same key replacing an earlier |
| `Loading.UpdateIndex` | db.go:521-532 | one replayed record sets or removes its key and frees the bytes replaced, a deletion its own bytes too |
| `Loading.Release` | db.go:572-574 | the records held back for a batch are applied one by one in the order read |
| `Loading.ReplayRecord` | db.go:561-588 | one record read is one step of the replay: applied at once, held back, or releasing its batch |
| `Loading.ReplayFile` | db.go:552-592 | scanning a file to its end replays all its records and ends at its length |
| `Loading.LoadIndexFromDataFiles` | db.go:504-603 | index, sequence number and reclaimable bytes are those of replaying all files not below the barrier in id order, and the active file's write offset is its length |
| `Directories.LoadMergeFiles` | merge.go:199-258 | without a marker, or with one that cannot be read, the data directory is left alone; otherwise files below the barrier go and merged files, hint and marker take their place; the merge directory is removed in every case |
| `Directories.MovedDurable` | merge.go:236-256 | after the move all merged entries are durable, and of the newer ones those that were durable before |
| `Directories.FlattenFrom` | db.go:541-544 | the files not below a barrier hold exactly the log from the barrier on |
| `Directories.MovedStore` | merge.go:236-256 | the moved files hold the merged entries followed by the newer ones |
| `Opening.ListFiles` | db.go:465-482 | the ids of the data files in increasing order, each once |
| `Opening.LoadDataFiles` | db.go:483-499 | every file gets a handle; the last id is active and all others are older files |
| `Opening.Open` | db.go:53-141 | on the files that a crash or restart leaves of any reachable store, with or without a finished merge beside them, the opened database is the engine's reopening step |
| `OwnFiles.FilesOfDatabase` | db.go:461-501 | the files of any valid database hold its log, the last one active, durable as far as its store says |
| `OwnFiles.FilesAfterCrash` | db.go:461-501 | with the active file cut after any record that is not yet durable, they hold that much of the log |
| `OwnFiles.FilesOfMerge` | merge.go:162-187 | the files of a finished merge hold its copies, all of them durable |
| `OwnFiles.DirectoriesSurvive` | merge.go:199-258 | data directory and merge directory of a running database, the latter whole, are what the next opening expects, with a whole finish marker or none |
| `Clients.Put` | db.go:229-256 | on files and index: the client's map gains exactly this key and value |
| `Clients.Delete` | db.go:336-365 | on files and index: the client's map loses exactly this key |
| `Clients.Commit` | batch.go:75-147 | on files and index: all staged writes take effect or, when the batch is too large or an append fails, none |
| `Clients.DBIterator.Value` | iterator.go:43-48 | the value the key had when the iterator was opened, whatever has been written since |
| `Clients.ListKeys` | db.go:278-288 | every key of the client's map exactly once, each before all that are larger in the order of unsigned bytes |
| `Clients.Fold` | db.go:291-307 | the function is called on every key with its value in ascending order until it first returns false |
| `Clients.LogOnlyGrows` | db.go:388-405 | over any run without opening the directory again the log keeps every entry where it is, through rotation and merge |
| `Clients.SnapshotSurvives` | iterator.go:43-48 | a position read from the index denotes the same record, and no other, after any such run |
| `Sessions.FrozenStays` | merge.go:92-96 | a put, delete, commit, aborted commit or sync beside a merge keeps the invariant, the frozen part of the log and both directories |
| `Sessions.Put` | db.go:229-256 | the engine's put step on database and files, with a merge in any phase beside it left as it was |
| `Sessions.Delete` | db.go:336-365 | the same for a delete |
| `Sessions.Commit` | batch.go:75-147 | the same for a commit that succeeds, is refused or fails at any append |
| `Sessions.Sync` | db.go:193-200 | the same for a sync |
| `Sessions.MergeBegin` | merge.go:19-102 | refusals as in the code; otherwise the engine's freeze step, and the files to merge, sorted, hold exactly the frozen part of the log |
| `Sessions.MergeOpen` | merge.go:99-123 | the engine's open step: a new merge directory, the scan at the first frozen file |
| `Sessions.NextTurn` | merge.go:124-132 | file and offset of the scan always denote the next frozen entry or the end of a file, whatever was written since the freeze |
| `Sessions.MergeTurn` | merge.go:124-159 | one turn of the two loops is the engine's scan step or, at the end of a file, nothing but the next file |
| `Sessions.ScanDone` | merge.go:124-159 | when the loops end every frozen entry has been scanned |
| `Sessions.MergeFinish` | merge.go:162-187 | the engine's finish step, enabled when the loops have ended; the directory holds durable copies, hints and marker |
| `Sessions.MergeAbort` | merge.go:58-60 | giving up in any phase is the engine's abort step; the merge directory stays as it is, an earlier merge's included |
| `Sessions.Merge` | merge.go:19-188 | the whole method: unless it is refused, the database has taken the engine's freeze, open, scan and finish steps in this order, and its index is as before |
| `Restarts.NewSession` | db.go:53-141 | opening an empty directory gives the engine's new store |
| `Restarts.SessionSurvives` | db.go:53-141 | the files of a session between any two steps are what the next opening expects, however much of the log is left |
| `Restarts.Restart` | db.go:53-141 | opening a database's own directories again, after any operations and any phase of a merge, gives the engine's restarted store and the map the client left |
| `Restarts.Crash` | db.go:53-141 | opening them after a crash that cut the active file behind any record, losing nothing synced, gives the engine's store after that crash |
| `MergeStops.TornMarker` | merge.go:170-185 | of the finish marker's bytes every proper prefix, the empty one included, is unreadable or no number; only the whole marker names its barrier |
| `MergeStops.OpenTwice` | merge.go:199-258 | with a marker written in part the opening fails, the merge directory is removed, and the opening after that gives the engine's reopened store, for every part of the log that survived |
| `MergeStops.RestartTwice` | merge.go:170-185 | the same for a session in any state: after the failed opening the client finds the map it left |
| `Leftovers.OverFrozen` | db.go:539-592 | a replay of all files is the replay of the newer ones laid over the frozen index, except for the keys that newer records decide |
| `Leftovers.LeftoversServe` | merge.go:101-105 | after a stop inside the removal of a finished merge's directory that left the marker, with any data files and any hint file left: the map is served if and only if every frozen position in use has a hint that leads to its value and no hint brings back a key that is gone |
| `Leftovers.WithOwnHints` | merge.go:236-256 | after an opening stopped while it moved the merged files, or a removal that left the hint file: if and only if the copy of every frozen position in use is in a file that the merge directory still holds |
| `Leftovers.OwnHintsMirror` | merge.go:276-303 | the index then is the surviving one with every frozen position replaced by its copy, or dropped if there is none |
| `Leftovers.WithoutHints` | merge.go:101-105 | without any hint file: if and only if no position in use lies below the barrier |
| `Leftovers.MarkerGone` | merge.go:101-105 | once the marker is gone nothing is lost, whatever else is left of the directory |
| `Leftovers.NothingMissing` | merge.go:199-258 | with nothing missing these are log and index of the engine's reopening step |
| `StoppedRemoval.RunToRemoving` | merge.go:19-105 | one write, a whole merge and the freeze of the next lead to a store whose removal of the first merge directory is pending |
| `StoppedRemoval.StoppedRemovalLoses` | merge.go:101-105 | stopped there with the marker left, the next opening loses the only key, or lists it and cannot read it; with hint and data file left it reads it |
| `MergeStops.OpenLeftovers` | db.go:53-141 | opening such directories, whatever lies below the barrier: the files that result hold the stated log and the rebuilt index is the stated one |
| `MergeStops.GetAfterStop` | db.go:258-275 | on a database opened so, a key whose data file is missing is answered with an error, any other key of the index with its value |
| `MergeStops.HintsDenote` | merge.go:276-303 | with the merge's own hint file or with none every indexed position denotes a record, unless its file is missing |
| `MergeStops.AnsweredAlike` | db.go:258-275 | with the merge's own hint file, every key is answered as from the surviving map if and only if the copy of every frozen position in use is in a file that is left |
| `MergeStops.LeftStore` | merge.go:236-256 | the files from the barrier on and the merged files that are left, moved together, hold the log that is left, in order |
| `MergeStops.SessionLeaves` | merge.go:162-187 | the directories of a session with a finished merge are of this kind |
| `MergeStops.WithoutMarker` | merge.go:199-258 | a directory without marker is, whatever it holds, what `Opening.Open` takes as an unfinished merge, and the surviving map is found |
| `KeyValue.AppliedIsCommit` | batch.go:98-136 | a batch's effect said key by key is the engine's commit of its writes in whatever order they are listed |
| `KeyValue.Listing` | index/btree.go:100-110 | the index in ascending order, each key once with its position |
| `KeyValue.RunIsContiguous` | redis/types.go:189-196 | in a sorted list the keys with a prefix are one contiguous run at the front of the keys at or above it |
| `KeyValue.SeekFindsRun` | redis/types.go:189-196 | after seeking a prefix the run at the front holds every key with it, in order |
| `Refinement.Get` | db.go:258-275 | engine and plain store with the same map answer alike |
| `Refinement.Put` | db.go:229-256 | the same put on both keeps their maps equal and answers alike |
| `Refinement.Delete` | db.go:336-365 | the same for a delete |
| `Refinement.StagePut` | batch.go:37-49 | the same for staging a put |
| `Refinement.StageDelete` | batch.go:52-72 | a deletion is staged in the one exactly when it is in the other |
| `Refinement.Commit` | batch.go:75-147 | a commit that succeeds keeps the maps equal; one that fails or is refused leaves both maps as they were |
| `Refinement.List` | db.go:278-288 | both list the same keys in the same order |
| `RedisMeta.Encode` | redis/meta.go:25-41 | the buffer of 26 bytes, 46 for a list, always suffices for metadata within its integer ranges |
| `RedisMeta.BuffersAreTight` | redis/meta.go:9-12 | and some metadata fills it |
| `RedisMeta.DecodeMetadata` | redis/meta.go:43-67 | the cursor-advancing decoder agrees with the specified one on any stored bytes, run-time panics included |
| `RedisMeta.MetadataRoundTrip` | redis/meta.go:25-67 | metadata is read back over the full ranges of all its fields |
| `RedisMeta.StringDecodes` | redis/meta.go:43-67 | decoding a stored text as metadata panics if and only if its payload begins with a varint that overflows further than type and expiry are long; otherwise it gives the type of a text |
| `RedisMeta.OverflowingTextPanics` | redis/meta.go:43-67 | a text of ten bytes without expiry that panics |
| `RedisMeta.EncodeFieldKey` | redis/meta.go:75-89 | the buffer holds key, eight bytes of version, field |
| `RedisMeta.EncodePrefix` | redis/meta.go:91-101 | the buffer holds key and version, the common prefix of a hash's internal keys |
| `RedisMeta.EncodeIndexKey` | redis/meta.go:149-165 | the buffer holds key, version and index |
| `RedisMeta.FieldKeyRoundTrip` | redis/meta.go:75-117 | an internal key is taken apart into key, version and field |
| `RedisMeta.FieldKeyInjective` | redis/meta.go:75-89 | different versions or fields of a key have different internal keys |
| `RedisMeta.IndexKeyInjective` | redis/meta.go:149-165 | different list indices have different internal keys |
| `RedisMeta.ApartRegions` | redis/meta.go:75-89 | nothing that begins with one of two keys that are apart begins with the other |
| `RedisModel.OthersUntouched` | redis/types.go:88-328 | an operation on one key changes neither hash, set nor list of any key apart from it, nor the exactness of its metadata |
| `RedisForeign.ForeignPutsExact` | redis/meta.go:75-89 | any writes under other keys keep the size of a hash, set or list exact if and only if none of them creates a key that spells out one of its internal keys |
| `RedisForeign.ForeignDeletesExact` | redis/meta.go:75-89 | any deletions do if and only if none of them removes one of its internal keys |
| `RedisForeign.ForeignPutsHash` | redis/meta.go:75-89 | a hash looks the same after writes under other keys if and only if they repeat what its internal keys hold |
| `RedisForeign.ForeignPutsSet` | redis/meta.go:125-140 | a set does if and only if they create none of its internal keys |
| `RedisForeign.ForeignPutsList` | redis/meta.go:149-165 | a list does if and only if they change none of its internal keys |
| `RedisForeign.StoringCommand` | redis/types.go:88-119 | a command that stores under another key keeps the structure exact if and only if neither of the two keys it writes is a new one that spells out an internal key |
| `RedisForeign.RemovingCommand` | redis/types.go:140-169 | a command that removes under another key does if and only if it does not remove an internal key |
| `RedisForeign.ApartNeverHits` | redis/meta.go:75-89 | the keys a command writes spell out no internal key of a key that is apart from its own |
| `RedisForeign.CollidingCommands` | redis/types.go:88-119 | two hash commands that collide: the first hash then has a field that its size does not count |
| `RedisModel.NothingAtClock` | redis/types.go:547-553 | under a version the clock has just reached nothing is stored yet, so a re-created key starts empty |
| `RedisModel.Found` | redis/types.go:527-560 | the metadata looked up for a sound key describes what the key holds: size is the exact number of fields, members or elements |
| `RedisModel.MetadataExpires` | redis/types.go:537-553 | stored metadata is found by its type up to the moment before its expiry; from then on the key begins anew under the clock's version |
| `RedisModel.FieldStoredEffect` | redis/types.go:102-119 | storing a field or member, with larger metadata exactly when it is new, sets just it and keeps the size exact |
| `RedisModel.FieldRemovedEffect` | redis/types.go:159-167 | removing a field or member with smaller metadata removes just it and keeps the size exact |
| `RedisModel.PushEffect` | redis/types.go:390-411 | a push puts the element at that end of the list and keeps size = tail - head with an element at exactly the indices from head to tail |
| `RedisModel.PopFinds` | redis/types.go:423-435 | the index a pop reads holds the element at that end |
| `RedisModel.PopEffect` | redis/types.go:437-449 | a pop removes just the element at that end and keeps the list exact |
| `RedisModel.StringRefused` | redis/types.go:537-545 | a hash, set or list command on a text answers wrong-type, or panics on exactly those texts |
| `RedisModel.OverflowingStringPanics` | redis/types.go:537-545 | after storing that text every such command on its key panics |
| `RedisModel.StringComesBack` | redis/types.go:45-86 | a stored text is read back until its expiry has passed |
| `RedisTypes.RedisDataStructure.FindMeta` | redis/types.go:527-560 | missing, expired, wrongly typed and undecodable metadata, each with its result |
| `RedisTypes.RedisDataStructure.Set` | redis/types.go:45-64 | the text is stored with the expiry that clock and time to live give; no value is no write; other keys are as before |
| `RedisTypes.RedisDataStructure.Get` | redis/types.go:66-85 | the text, or the error for a missing key, another type or a passed expiry |
| `RedisTypes.RedisDataStructure.HSet` | redis/types.go:88-120 | the hash has the value at the field; the result says whether the field is new; other keys are as before |
| `RedisTypes.RedisDataStructure.HGet` | redis/types.go:122-138 | the field's value; nothing for an empty hash, not-found for a missing field |
| `RedisTypes.RedisDataStructure.HDel` | redis/types.go:140-169 | the field is gone; the result says whether it was there; other keys are as before |
| `RedisTypes.RedisDataStructure.HKeys` | redis/types.go:171-198 | exactly the hash's fields, each once, in ascending order |
| `RedisTypes.RedisDataStructure.HValues` | redis/types.go:200-226 | the values of exactly the hash's fields, in the ascending order of the fields |
| `RedisTypes.RedisDataStructure.HGetAll` | redis/types.go:228-254 | exactly the hash |
| `RedisTypes.RedisDataStructure.SAdd` | redis/types.go:257-279 | the member is in the set; the result says whether it is new; other keys are as before |
| `RedisTypes.RedisDataStructure.SIsMember` | redis/types.go:281-302 | membership |
| `RedisTypes.RedisDataStructure.SRem` | redis/types.go:304-328 | the member is gone; the result says whether it was there; other keys are as before |
| `RedisTypes.RedisDataStructure.PushInner` | redis/types.go:385-413 | the list has the element at that end; the result is the new size; other keys are as before |
| `RedisTypes.RedisDataStructure.PopInner` | redis/types.go:415-451 | the element at that end is returned and gone; nothing for an empty list; other keys are as before |
| `RedisTypes.RedisDataStructure.LAll` | redis/types.go:356-383 | the list in order, numbered from 0 |
| `RedisTypes.RedisDataStructure.LSize` | redis/types.go:348-354 | the list's length, 0 on any error |
| `RedisTypes.RedisDataStructure.Delete` | redis/generic.go:6-8 | the metadata is gone, an empty key is refused; the key's own invariant holds on |
| `RedisScan.RunIsHash` | redis/types.go:184-196 | the run of a hash's prefix in a sorted snapshot is its fields in ascending order, each once and no other |
| `Listings.ListedIs` | index/btree.go:95-110 | a set of keys has exactly one ascending listing |
| `RedisCommands.FoundIsContent` | redis/types.go:527-560 | the metadata looked up for a command agrees with what its key holds, or is refused with the error that the content calls for |
| `RedisRuns.Execute` | redis/types.go:45-451 | each of the sixteen commands on texts, hashes, sets and lists, reading ones included, gives the reply and the content of a plain text, map, set or deque, and nothing else changes |
| `RedisRuns.ExecuteAll` | redis/types.go:45-451 | over a whole run of such commands on prefix-free keys with an increasing clock, every key holds and answers what its own commands alone make of a plain text, map, set or deque |
| `RedisRuns.Together` | redis/types.go:45-451 | one command keeps that property for all keys at once |
| `RedisRuns.ContentsUntouched` | redis/types.go:45-451 | a command on one key leaves the content and the invariant of every key apart from it |

## Left out

- File system calls, memory mapping and file locks: a file is its content. Directory and disk sizes are parameters of
  `MergeBegin`, and the merge ratio is compared as a real number, not as a 32-bit float.
- Errors of syncs and of opening files, and a write that fails after it reached the file: appends fail before they
  write. A commit may fail at any append; a single put that fails does nothing.
- Racing writers of single puts and deletes: each is one step, although db.go:250 and db.go:357-363 update index and
  counters outside the lock.
- Crashes inside a record, in runs: a crash cuts the log at a record boundary. What the next scan makes of a torn
  record, and of writes behind it, is stated for a single file in `TornTails`.
- Stops inside a step, in runs: the removal of a merge directory (merge.go:101-105), the writing of the finish marker
  (merge.go:170-183) and an opening (merge.go:236-256) are one step each there. `MergeStops` and `Leftovers` state what
  the next openings find after such a stop of any reachable store, but a run does not go on from a store whose index
  has lost a file.
- An error of removing or renaming a single file inside `LoadMergeFiles` (merge.go:239-254), after which the rest of the
  merge directory is removed all the same.
- MergeScan.MergeOpenKeepsInv: the earlier merge directory is there as a whole or gone.
- MergeScan.MergeAbortKeepsInv: a merge is given up between two steps, not inside the writing of its marker.
- Reopening.RestartKeepsView: a store has a whole merge directory or none, and a whole marker or none.
- OwnFiles.DirectoriesSurvive: asks for the whole merge directory, and for a whole marker or none.
- Sessions.MergeAbort: the return at merge.go:179-181, which leaves a marker file that is empty or incomplete, is in
  `MergeStops.RestartTwice` instead.
- Restarts.SessionSurvives: the moments inside those steps are no sessions.
- MergeStops.OpenLeftovers: gives files and index of the opened database; of operations on it only reading is stated.
- MergeStops.GetAfterStop: asks that a position denotes a record or its file is missing; under the hint file of an even
  earlier merge a position may lead into the middle of a record, and `Leftovers.LeftoversServe` counts that as unserved.
- File ids are unbounded in the engine; the objects ask for ids below 2^32 where a hint record or a finish marker is
  written.
- The B+ tree index with its sequence number file, the adaptive radix tree, and the inside of google/btree: an index is
  a map with sorted snapshots.
- The directory listing of `Opening.Open` and the merge directory's path: a directory is its data files by id, its hint
  file and its finish marker.
- Threads: other operations come between two turns of a merge (`Sessions.MergeTurn`), not inside one.
- Sorted sets, `Type`, and the wall clock: the clock is a parameter that increases.
- Crash atomicity of a list pop, which deletes and then writes metadata in two steps: commands are sequential.
- `Close`, `Stat`, `Backup`, the HTTP server, examples and benchmarks.
- Database.DB.Put: asks for a record within the format: key with sequence number, value and record below 2^32 bytes.
- Database.DB.Delete: asks for the same.
- Database.DB.AppendLogRecord: asks for the same and for a key that is not empty, which all its callers have checked.
- Batches.WriteBatch.Commit: asks for the same of every staged write, and that the sequence number does not overflow.
- Clients.Put: asks for the same as the database's own operation, as do `Delete` and `Commit` there.
- Opening.Open: asks that the directories are what a restart or a crash at a record boundary leaves of a reachable store
  between two steps; a marker written in part and a merge directory partly there are in `MergeStops`.
- Merging.MergeScanTurn: asks for a file size limit below 2^63.
- Sessions.MergeBegin: asks for file ids below 2^32, as do the other steps of a merge through it.
- Sessions.Put: asks for a record within the format, as do `Delete` and `Commit` there.
- Refinement.Put: asks for the same, as do `Delete` and `Commit` there.
- RedisTypes.RedisDataStructure.Set: asks that clock plus time to live stays within 64 bits.
- RedisTypes.RedisDataStructure.HSet: asks that the key is sound and that the 32-bit size has room for one more.
- RedisTypes.RedisDataStructure.SAdd: asks for the same.
- RedisTypes.RedisDataStructure.PushInner: asks for the same and that the 64-bit index of the list does not wrap.
- RedisTypes.RedisDataStructure.FindMeta: the other commands ask that their key is sound, that is, not written by
  anything but these commands with an increasing clock.
- RedisRuns.ExecuteAll: fewer than 2^32 commands, so that no counter wraps.
