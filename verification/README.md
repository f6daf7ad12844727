# Placement-center storage: Dafny model and proofs

The placement center keeps its cluster metadata under Raft, twice: once through the openraft
library and once through raft-rs. This project models the storage code under both and proves that
it keeps what a Raft node must not lose.

**The openraft pair.** `LogStore` keeps the log in a byte-ordered store under 8-byte big-endian
keys. `StateMachineStore` applies committed entries to a map in memory, cuts snapshots, installs
snapshots from other nodes, and reloads its stored snapshot on start. A snapshot builder is a
clone that shares the map with the live state machine through an `Arc`, so a snapshot can pair the
log position of one moment with the data of a later one.

* `RaftTypes`, `ByteOrder`, `OrderedStore`, `Disk`: values, key bytes, the ordered store, the database.
* `OpenraftLog`, `OpenraftStateMachine`: the two stores as classes, each method proved against a
  function on values. The shared map is a heap cell (`KvCell`) that builder and state machine alias.
* `LogRefinement`, `PurgePoint`: the stored bytes as a gap-free log, and what purging does to it.
* `Replay`: what applying entries means, and why a fuzzy snapshot still converges.
* `Recovery`: one node as a step machine (append, truncate, purge, save the committed id, apply, cut
  a builder, read the map, store the snapshot, install, crash, crash inside a purge) and crash
  recovery over all runs, by the applied id before the crash and by what is on disk alone.
* `OpenraftNode`: the heap objects driven by the same events, proved equal to the step machine.
* `Cluster`, `Agreement`: several nodes that apply one committed log and ship snapshots to each
  other; where they converge, and exactly when they agree before that.
* `SnapshotIds`: exactly when two snapshots carry the same id.
* `Hazards`: valid runs on which a stronger property fails.

**The raft-rs path.**

* `RaftKeys`, `RaftStorage`: key names, `RaftMachineStorage` with its read adapter as classes.
* `RaftRuns`: the storage as a step machine, with crashes between the writes of one call, and its
  invariant over all runs.
* `RaftReads`, `CommitLoop`, `UncommittedSet`, `SavedCommit`, `SavedRecords`, `TermOrder`: over all
  runs, what a read answers, which entries the commit loop handles and how often, what the uncommitted
  set holds, how the saved commit index and term move, what every saved record and the snapshot
  metadata are, and whether the log's terms ascend.
* `RaftNode`: the heap objects driven by the same events, proved equal to the step machine.
* `EventLoop`: the loop of `RaftMachine`: request bookkeeping and the order of its storage calls.
* `LoopStorage`: what the loop writes, over any number of process lives that end anywhere, is a run
  of the storage; and what each ready leaves on disk.
* `Waiters`: what becomes of each request, told by what arrived and what was committed.
* `Utf8Text`: what counts as text.
* `RocksEngine`: prefix scan, full scan, dump and restore over one column family.

The guards of the step machines are the calling order of the two libraries. For openraft: appended
entries are consecutive and start right after the last one; truncation stays above the applied and
the saved committed index; a committed id is saved in order and lies within the log or the snapshot;
`apply` gets the next stored entries; a purge stops at the stored snapshot and never moves back; no
install happens between cutting a builder and storing its snapshot; an install past the log's end is
followed by a purge before the next append; indices stay below 2^64-1. For raft-rs: batches are
consecutive, leave no gap and start above every index ever known to be committed; the commit loop goes
one by one; a saved commit index lies between the commit loop and the end of the log. A process may
end before or after any single write.

Arithmetic on `u64` wraps as in a release build (a debug build would panic where `WrapSucc` wraps).
JSON, bincode and protobuf encodings are taken as injective; a snapshot payload that came over the
network may fail to decode. A write is durable once the put returns.

## Where the code does not do what its comments say

* `entries(low, high)` is documented as half-open, but also returns whatever is stored under `high`
  (src/placement-center/src/raft/storage.rs:129, 164). `RaftReads.EntriesRead` gives the exact
  condition, `RaftReads.StaleTailIsRead` a run.
* `term` answers the snapshot index at the snapshot index
  (src/placement-center/src/raft/storage.rs:185): `RaftReads.TermRead`, `RaftReads.TermDeparts`.
* A start takes the snapshot metadata from the saved commit index, not from a snapshot
  (src/placement-center/src/storage/raft.rs:58, 415-425), so a node that restarts before its first
  snapshot answers that its whole committed log is compacted: `SavedRecords.RestartCompacts`,
  `SavedRecords.RestartCompactsBoth`.
* The snapshot id should be globally unique
  (src/placement-center/src/openraft/store/state_machine_store.rs:21-25), but its suffix restarts
  with the process: `SnapshotIds.IdsCoincide` says exactly when two ids are equal,
  `SnapshotIds.SnapshotIdRepeats` gives a run.
* A snapshot can hold data from after its own position, so a node that installs one may stand at an
  index and hold a later write: `Hazards.HurriedDisagrees`. `Agreement.ExactIffSharp` and
  `Agreement.AgreementExact` say exactly when this cannot happen, `Cluster.Convergence` what holds
  always.
* `truncate` and `purge` miss the largest index: `LogRefinement.TruncateExact`, `LogRefinement.PurgeExact`.
* A crash inside a purge that goes past the log's end leaves a last log id below the purge point:
  `PurgePoint.CrashInPurgeLastId`, `Hazards.CrashInPurgeReportsStaleId`.
* The raft-rs commit index is saved before the commit loop reaches it, and a restart resumes from
  the saved index (src/placement-center/src/raft/machine.rs:231-238, 333-334), so a crash in between
  skips committed entries: `CommitLoop.SkippedExact`, `CommitLoop.RestartSkips`.
* The loop routes an entry and saves its conf state before it moves the saved commit index
  (src/placement-center/src/raft/machine.rs:255, 288, 296), so a process that ends in between makes
  the next one do both again: `CommitLoop.HandledOnce`, `CommitLoop.BodyRunsTwice`.
* The commit loop overwrites the saved commit index with its own position and the saved term with the
  entry's, so both can move back, and a node can restart in a term below one it voted in
  (src/placement-center/src/storage/raft.rs:124-125): `SavedCommit.CommitLowers`,
  `SavedCommit.CommitBehind`, `SavedCommit.CommitRecedes`, `SavedCommit.CommitLowersTerm`,
  `SavedCommit.TermBehind`, `SavedCommit.SavedTermFalls`.
* `append` saves the uncommitted set after its entries, and `commmit_index` saves it before the hard
  state, so a crash inside either leaves a visible entry past the commit index unmarked
  (src/placement-center/src/storage/raft.rs:154-165, 119-126): `UncommittedSet.UncommittedExact`,
  `UncommittedSet.CrashInAppendUnmarks`, `UncommittedSet.CrashInCommitUnmarks`.
* `append` moves the last index only after it has stored an entry, so a crash after the first write
  of a conflict overwrite leaves the old entries visible after the new one, and terms that decrease
  (src/placement-center/src/storage/raft.rs:154-162): `TermOrder.AscendsExact`, `TermOrder.TornLog`.
* `read_prefix` never ends once it reaches a key that is not text
  (src/placement-center/src/storage/rocksdb.rs:130-133): `RocksEngine.RocksDBEngine.ReadPrefix` says
  exactly when.

## Model

| member | source | states |
|---|---|---|
| ByteOrder.IdRoundTrip | src/placement-center/src/openraft/store/mod.rs:28-38 | decoding the key of any u64 gives that u64 back |
| ByteOrder.BinRoundTrip | src/placement-center/src/openraft/store/mod.rs:28-38 | encoding the id of any 8-byte string gives those bytes back |
| ByteOrder.KeyOrderIsIdOrder | src/placement-center/src/openraft/store/mod.rs:28-38 | the store's lexicographic key order is numeric order of the ids, and equal ids mean equal keys |
| Disk.DeleteRangeById | src/placement-center/src/openraft/store/log_store.rs:202-222 | deleting a range of key bytes removes exactly the entries whose id lies in the half-open id range |
| Disk.PutById | src/placement-center/src/openraft/store/log_store.rs:184-195 | writing one key changes the entry of that id and of no other |
| OpenraftLog.LogStore.TryGetLogEntries | src/placement-center/src/openraft/store/log_store.rs:98-124 | for every kind of bound: the source's assertion fires if and only if the scan reaches an entry under a key not its own; on a well-keyed log it never does, and stopping at the first miss returns exactly the stored entries in range, ascending, without repeats |
| LogRefinement.ReadByIndex | src/placement-center/src/openraft/store/log_store.rs:98-124 | by indices: what `a..b`, `a..=b`, `a..`, `..b`, `..=b`, `..` and the forms without `a` itself return from a gap-free log, for all bounds |
| OpenraftLog.LogStore.TakeWhileInRange | src/placement-center/src/openraft/store/log_store.rs:107-123 | the iterator chain checks the key first, then the range, and keeps precisely the stretch up to the first entry that fails either |
| OpenraftLog.LogStore.GetLogState | src/placement-center/src/openraft/store/log_store.rs:134-158 | reports the purge point and the id of the entry under the greatest key, or the purge point if there is none; on a well-keyed log that entry is the one with the greatest index |
| OpenraftLog.LogStore.Append | src/placement-center/src/openraft/store/log_store.rs:179-199 | by id, the log becomes the old one overwritten by the batch in order; keys stay 8 bytes that decode to their entry's index |
| LogRefinement.BatchOverwrites | src/placement-center/src/openraft/store/log_store.rs:184-195 | after a batch each of its indices holds the last entry of that index, whatever was stored |
| LogRefinement.BatchSpares | src/placement-center/src/openraft/store/log_store.rs:184-195 | an index not in the batch keeps what it held |
| OpenraftLog.LogStore.Truncate | src/placement-center/src/openraft/store/log_store.rs:202-210 | by id, removes the indices from the given one up to but not including 2^64-1 and nothing else in the database |
| OpenraftLog.LogStore.Purge | src/placement-center/src/openraft/store/log_store.rs:213-222 | records the purge point and removes the indices below the wrapped successor, nothing else in the database |
| OpenraftLog.LogStore.SetLastPurged | src/placement-center/src/openraft/store/log_store.rs:44-55 | the new purge point reads back; log, committed id and snapshot are untouched |
| OpenraftLog.LogStore.SaveCommitted | src/placement-center/src/openraft/store/log_store.rs:57-69 | the committed id reads back; log, purge point and snapshot are untouched |
| OpenraftLog.LogStore.ReadCommitted | src/placement-center/src/openraft/store/log_store.rs:71-77 | reads the saved committed id, none if it is missing |
| LogRefinement.AppendRefines | src/placement-center/src/openraft/store/log_store.rs:179-199 | a consecutive batch starting right after the last entry extends the gap-free log by exactly the batch |
| LogRefinement.TruncateExact | src/placement-center/src/openraft/store/log_store.rs:202-210 | truncation keeps exactly the entries below the index if and only if no entry has index 2^64-1 |
| LogRefinement.PurgeExact | src/placement-center/src/openraft/store/log_store.rs:213-222 | purging keeps exactly the entries above the index if and only if the index is below 2^64-1 or the log is empty |
| LogRefinement.LastLogIdRefines | src/placement-center/src/openraft/store/log_store.rs:134-158 | on a gap-free log the reported last id is that of its last entry, else the purge point |
| LogRefinement.ReadRefines | src/placement-center/src/openraft/store/log_store.rs:98-124 | reading any range of a gap-free log gives exactly the stretch of it that the range covers |
| PurgePoint.PurgeKeepsLastId | src/placement-center/src/openraft/store/log_store.rs:134-158 | purging at or below the last entry leaves the reported last log id unchanged |
| PurgePoint.CrashInPurgeLastId | src/placement-center/src/openraft/store/log_store.rs:213-222 | a crash between recording the purge point and deleting reports the same last id as the finished purge if and only if the purge stops within the log or the log is empty; otherwise a stale, smaller one |
| PurgePoint.CrashInPurgeVisibleLog | src/placement-center/src/openraft/store/log_store.rs:213-222 | after that crash every range read above the purge point gives what it gives after the finished purge |
| Replay.LastWriteWins | src/placement-center/src/openraft/store/state_machine_store.rs:164-202 | after any entries each key holds the value of the last set or delete that touched it, or its old value |
| Replay.RepliesTell | src/placement-center/src/openraft/store/state_machine_store.rs:176-199 | a set is answered with the value its key then holds, everything else with none; after a delete the key is gone |
| Replay.MembershipIsLast | src/placement-center/src/openraft/store/state_machine_store.rs:192-194 | replay arrives at the membership of the last membership entry, under its id |
| Replay.MembershipStays | src/placement-center/src/openraft/store/state_machine_store.rs:192-194 | without membership entries the membership stays |
| Replay.BatchingIsInvisible | src/placement-center/src/openraft/store/state_machine_store.rs:164-202 | cutting the committed log into apply calls in any way gives the same state and the same concatenated replies |
| Replay.Absorb | src/placement-center/src/openraft/store/state_machine_store.rs:38-38 | if old metadata with the present map replays to the present, it still does after the map ran ahead by any entries |
| Replay.FuzzyConverges | src/placement-center/src/openraft/store/state_machine_store.rs:42-74 | metadata from position i with data from position j, replayed over i+1..n with n at or after j, equals replaying 1..n from empty |
| Replay.FuzzyShortReplay | src/placement-center/src/openraft/store/state_machine_store.rs:42-74 | stopping the replay before j is exact if and only if every key changed in between was written by the replayed entries |
| OpenraftStateMachine.StateMachineStore.Open | src/placement-center/src/openraft/store/state_machine_store.rs:78-95 | succeeds if and only if there is no stored snapshot or it decodes; then holds its ids and map, or nothing, in a map cell of its own |
| OpenraftStateMachine.StateMachineStore.UpdateStateMachine | src/placement-center/src/openraft/store/state_machine_store.rs:97-110 | takes over the snapshot's ids and map if the data decodes, else changes nothing |
| OpenraftStateMachine.StateMachineStore.Apply | src/placement-center/src/openraft/store/state_machine_store.rs:164-202 | the in-place loop reaches the replayed state in the shared map, with one reply per entry |
| OpenraftStateMachine.StateMachineStore.GetSnapshotBuilder | src/placement-center/src/openraft/store/state_machine_store.rs:204-207 | the clone has its own ids and suffix but the very same map cell and database |
| OpenraftStateMachine.StateMachineStore.StoreSnapshot | src/placement-center/src/openraft/store/state_machine_store.rs:42-73 | the second half of building: stores the clone's ids with the data read before; log, purge point and committed id stay |
| OpenraftStateMachine.StateMachineStore.InstallSnapshot | src/placement-center/src/openraft/store/state_machine_store.rs:215-230 | on a decodable payload memory and stored snapshot both become the sender's; otherwise neither changes |
| OpenraftStateMachine.ShipSnapshot | src/placement-center/src/openraft/store/state_machine_store.rs:42-74 | built without an interleaved apply and installed elsewhere, sender and receiver are equal, stay equal under the same entries, and the receiver's restart gives the shipped state |
| Recovery.StepKeepsInv | src/placement-center/src/openraft/store/state_machine_store.rs:164-230 | every step keeps: bytes are a gap-free log, purge point at most snapshot at most applied, the snapshot decodes, and stored and pending snapshots replay to memory |
| Recovery.BuilderAbsorbs | src/placement-center/src/openraft/store/state_machine_store.rs:204-207 | what a pending builder will store keeps replaying to the present however many entries are applied before it reads the map and before it stores it |
| Recovery.ReachableInv | src/placement-center/src/openraft/store/log_store.rs:98-222 | the invariant holds in every state of every run, crashes included |
| Recovery.ReachableRead | src/placement-center/src/openraft/store/log_store.rs:98-158 | in every reachable state range reads are stretches of the abstract log and the last id is its end |
| Recovery.CrashRecovery | src/placement-center/src/openraft/store/state_machine_store.rs:78-110 | in every reachable state, loading the stored snapshot and applying what a range read returns above it up to the applied id rebuilds map, applied id and membership exactly |
| Recovery.Recover | src/placement-center/src/openraft/store/state_machine_store.rs:78-110 | the same through the methods of both stores on the heap |
| Recovery.CommittedRecovery | src/placement-center/src/openraft/store/log_store.rs:57-77 | in every reachable state, loading the snapshot and replaying up to the committed id found on disk reaches the state before the crash carried on to that id, or one from which the log leads on to the state before the crash |
| Recovery.RestartNotBehind | src/placement-center/src/openraft/store/log_store.rs:160-166 | if the committed id is saved before entries are applied, such a start never stands behind the state before the crash |
| Recovery.RecoverCommitted | src/placement-center/src/openraft/store/log_store.rs:168-171 | a start by what is on disk alone, through the methods of both stores on the heap |
| OpenraftNode.OpenraftNode.Do | src/placement-center/src/openraft/store/state_machine_store.rs:151-230 | each library call on the heap objects does what the step machine says, through the shared map cell |
| OpenraftNode.Execute | src/placement-center/src/openraft/store/mod.rs:40-55 | over every valid run the objects' state equals the step machine's and every stored key stays well formed |
| OpenraftNode.AlwaysLoads | src/placement-center/src/openraft/store/state_machine_store.rs:78-95 | starting on the database of any reachable node never fails |
| Cluster.ReachableCluster | src/placement-center/src/openraft/store/state_machine_store.rs:204-230 | over every run of several nodes, every node, stored, published and pending snapshot replays to the exact state at the frontier |
| Cluster.Convergence | src/placement-center/src/openraft/store/state_machine_store.rs:215-230 | any node fed the committed entries up to the frontier reaches the state of the whole log, and one that stands there already has it |
| Agreement.ExactIffSharp | src/placement-center/src/openraft/store/state_machine_store.rs:42-74 | over every run of several nodes: all published snapshots, and all nodes in memory and on disk, have the state of their index if and only if the entries applied between each cut and its read of the map changed no key on balance |
| Agreement.AgreementExact | src/placement-center/src/openraft/store/state_machine_store.rs:42-74 | nodes at the same applied position agree, after every prefix of a run and every continuation that stores no snapshot, with one node more, if and only if that condition holds |
| Agreement.Agreement | src/placement-center/src/openraft/store/state_machine_store.rs:204-230 | under that condition nodes at the same applied position hold the same state |
| Hazards.HurriedDisagrees | src/placement-center/src/openraft/store/state_machine_store.rs:204-207 | without that condition a valid run leaves a node at an index with a key only a later entry wrote |
| SnapshotIds.SuffixCountsCuts | src/placement-center/src/openraft/store/state_machine_store.rs:204-207 | over every run the suffix is the number of builders cut since the last start, modulo 2^64 |
| SnapshotIds.BuilderId | src/placement-center/src/openraft/store/state_machine_store.rs:51-55 | a pending builder's id is the applied id at its cut and the number of that cut |
| SnapshotIds.PrintedInjective | src/placement-center/src/openraft/store/state_machine_store.rs:51-55 | the printed id determines applied id and suffix, with or without an applied id, whatever the injective printing of leader ids |
| SnapshotIds.IdsCoincide | src/placement-center/src/openraft/store/state_machine_store.rs:51-55 | two snapshots, of one run or of two, carry the same printed id if and only if their builders were cut at the same applied id and as the same-numbered cut since a start, modulo 2^64 |
| SnapshotIds.IdsDistinctInOneProcess | src/placement-center/src/openraft/store/state_machine_store.rs:21-25 | within one process and fewer than 2^64 cuts no id repeats |
| SnapshotIds.SnapshotIdRepeats | src/placement-center/src/openraft/store/state_machine_store.rs:21-25 | a valid run of one node stores two snapshots with one id and different data |
| Hazards.InstallDuringBuildLosesState | src/placement-center/src/openraft/store/state_machine_store.rs:215-230 | with the guard on installing as the only one broken, a build after an install and purge leaves a database from which no log read rebuilds the state |
| Hazards.CrashInPurgeReportsStaleId | src/placement-center/src/openraft/store/log_store.rs:213-222 | a valid run after which the reported last id lies below the recorded purge point |
| RaftKeys.DecimalInjective | src/placement-center/src/storage/keys.rs:32-34 | different numbers print differently |
| RaftKeys.EntryKeysDistinct | src/placement-center/src/storage/keys.rs:16-42 | entry keys of different indices differ and none is one of the six fixed keys |
| RaftStorage.SavedEntry | src/placement-center/src/storage/raft.rs:154-163 | saving an entry changes what is read for that index and for nothing else |
| RaftStorage.EntriesUntouched | src/placement-center/src/storage/raft.rs:248-289 | saving any of the fixed records leaves every entry readable as before |
| RaftStorage.RaftMachineStorage.constructor | src/placement-center/src/storage/raft.rs:48-60 | a start restores the uncommitted set from disk and takes the snapshot metadata from the saved hard and conf state |
| SavedRecords.RecordsAreLast | src/placement-center/src/storage/raft.rs:73-109 | over every run, crashes included: the saved vote is that of the last hard state, term and commit index the last ones written, the conf state the last one saved |
| SavedRecords.MetaIsLast | src/placement-center/src/storage/raft.rs:394-425 | over every run: the metadata in memory carries what was saved when the last snapshot was cut or the process started; the stored snapshot carries what was saved when it was cut |
| SavedRecords.FirstIsLast | src/placement-center/src/storage/raft.rs:184-202 | over every run: the first index is the commit index at the last snapshot that wrote one, else one past the commit index the process started with |
| SavedRecords.RestartCompacts | src/placement-center/src/storage/raft.rs:48-60 | a restart takes its metadata from what was saved last; without a first index on disk everything committed then reads as compacted |
| SavedRecords.RestartCompactsBoth | src/placement-center/src/raft/storage.rs:151-153 | a valid run without a snapshot after which both committed entries read as compacted |
| SavedRecords.RefusedExact | src/placement-center/src/storage/raft.rs:135-152 | in every reachable state append panics if and only if the batch starts below the first index or leaves a gap |
| RaftStorage.RaftMachineStorage.Append | src/placement-center/src/storage/raft.rs:130-168 | fails, changing nothing, exactly on a compacted or gapped start; else entries, marks and last index follow the batch and the set on disk is synced |
| RaftStorage.RaftMachineStorage.CommitIndex | src/placement-center/src/storage/raft.rs:111-128 | unmarks the index on disk and in memory and moves commit index and term to the entry's; fails after unmarking exactly when the entry is missing |
| RaftStorage.RaftMachineStorage.CreateSnapshot | src/placement-center/src/storage/raft.rs:394-413 | saves the store as it was together with the metadata, makes the commit index the first index and the snapshot index |
| RaftStorage.RaftMachineStorage.Entrys | src/placement-center/src/storage/raft.rs:171-179 | lists the entries present under an inclusive range in order |
| RaftNode.RaftNode.Do | src/placement-center/src/raft/storage.rs:74-116 | each call on the heap objects panics exactly when the step machine says, and else does its step; a crash inside a call runs its first writes |
| RaftNode.Execute | src/placement-center/src/raft/machine.rs:181-241 | over every valid run no call panics and the objects hold the state of the step machine |
| RaftNode.ReadEntries | src/placement-center/src/raft/storage.rs:143-175 | on a node after any run, in terms of the run's events and its visible log: when the read is refused, when it panics, and else the half-open range plus the record stored under the upper bound |
| RaftNode.ReadTerm | src/placement-center/src/raft/storage.rs:181-201 | on a node after any run, in the same terms: the visible entry's term, except the index itself at the snapshot index; when it is refused |
| RaftRuns.AppendLog | src/placement-center/src/storage/raft.rs:154-163 | the visible log becomes the old one cut before the batch, then the batch, whatever stale records lie beyond |
| RaftRuns.StepKeepsInv | src/placement-center/src/storage/raft.rs:111-168 | append, commit, hard-state, commit-index and conf-state writes, local snapshot, restart, and a crash inside append, commit or snapshot each keep contiguity and bounds |
| RaftRuns.ReachableInv | src/placement-center/src/storage/raft.rs:111-168 | over every run, crashes inside calls included, indices 1..last are present with matching index and the persisted set equals the one in memory |
| TermOrder.AscendsExact | src/placement-center/src/storage/raft.rs:154-162 | over every run of batches that keep terms ascending, crashes included: the visible log's terms always ascend if and only if no crash behind the first write of a batch puts an entry before one of lower term |
| TermOrder.TornExact | src/placement-center/src/storage/raft.rs:154-162 | after a crash behind the first write of an overwriting append, the log's terms still ascend if and only if the new entry is the last or not above the old entry after it |
| TermOrder.TornLog | src/placement-center/src/storage/raft.rs:154-162 | a valid run that leaves a log of terms 2, 1 |
| RaftRuns.NoPanic | src/placement-center/src/storage/raft.rs:130-152 | over every run neither guard of append fires and no commit misses its entry |
| UncommittedSet.UncommittedExact | src/placement-center/src/storage/raft.rs:111-168 | over every run: the uncommitted set on the visible log is exactly (commit, last] if and only if each index up to the saved commit was committed by the loop or lost its mark to a crash, and none past it lost its mark |
| UncommittedSet.MarkedExact | src/placement-center/src/storage/raft.rs:111-168 | a visible entry is marked if and only if it was not committed and lost no mark |
| UncommittedSet.UncommittedWhole | src/placement-center/src/storage/raft.rs:111-128 | without a crash inside append or commit: the set is exact if and only if the commit loop is level with the saved commit index, now and at every restart |
| UncommittedSet.UncommittedAfterCrashInAppend | src/placement-center/src/storage/raft.rs:154-165 | after one crash inside append: exact if and only if that held before and no newly visible entry is unmarked |
| UncommittedSet.UncommittedAfterCrashInCommit | src/placement-center/src/storage/raft.rs:119-126 | after one crash inside a commit: exact if and only if every restart was level and the entry is the last up to the saved commit index |
| UncommittedSet.CrashInAppendUnmarks | src/placement-center/src/storage/raft.rs:154-165 | a valid run that leaves a visible uncommitted entry unmarked |
| UncommittedSet.CrashInCommitUnmarks | src/placement-center/src/storage/raft.rs:119-126 | another, with every restart level |
| CommitLoop.CommittedOnce | src/placement-center/src/storage/raft.rs:111-128 | over every run, crashes included, the loop commits each index at most once: exactly if it lies at or below its position and no restart jumped over it |
| CommitLoop.BeginsExact | src/placement-center/src/raft/machine.rs:243-299 | over every run the body of an entry is begun once for its commit, once for every process life that ends in it, and once more if the loop is in it |
| CommitLoop.HandledOnce | src/placement-center/src/raft/machine.rs:243-299 | an entry the loop has passed was begun exactly once and committed if and only if no restart jumped over it and no life ended in its body |
| CommitLoop.BodyRunsTwice | src/placement-center/src/raft/machine.rs:255-296 | a valid run that begins entry 1 and saves its conf state twice |
| CommitLoop.SkippedExact | src/placement-center/src/raft/machine.rs:328-335 | the run has a commit event for every index up to the commit loop if and only if every restart found the loop level with the saved commit index |
| CommitLoop.RestartSkips | src/placement-center/src/raft/machine.rs:230-238 | a valid run that resumes after index 1 and never begins or commits it |
| SavedCommit.CommitLowers | src/placement-center/src/storage/raft.rs:122-126 | in every reachable state a commit moves the saved commit index back if and only if the index is ahead of the loop by more than that entry |
| SavedCommit.CommitBehind | src/placement-center/src/raft/machine.rs:332-335 | over every run a restart resumes from the highest index known to be committed if and only if the last commit index written is the highest |
| SavedCommit.CommitRecedes | src/placement-center/src/storage/raft.rs:122-126 | a valid run in which index 2 was known to be committed and the node restarts at 1 |
| SavedCommit.CommitLowersTerm | src/placement-center/src/storage/raft.rs:125-125 | a commit lowers the saved term if and only if the entry's term is below it |
| SavedCommit.TermBehind | src/placement-center/src/storage/raft.rs:122-126 | over every run the saved term is below the highest one saved if and only if a lower write came after that one and none made it good |
| SavedCommit.SavedTermFalls | src/placement-center/src/storage/raft.rs:125-125 | a valid run that saves a vote in term 2 and restarts in term 1 |
| RaftReads.EntriesRead | src/placement-center/src/raft/storage.rs:143-175 | within bounds the result is the half-open range in order plus what is stored under the upper bound, and meets its documentation if and only if nothing is |
| RaftReads.StaleTailIsRead | src/placement-center/src/raft/storage.rs:163-170 | a valid run after which a read hands out a stale record past the last index |
| RaftReads.TermRead | src/placement-center/src/raft/storage.rs:181-201 | on visible indices term agrees with the entry if and only if the index is not the snapshot index or the term happens to equal it |
| RaftReads.TermDeparts | src/placement-center/src/raft/storage.rs:185-187 | a valid run after which term answers 2 for an entry of term 1 |
| RocksEngine.PrefixBlock | src/placement-center/src/storage/rocksdb.rs:135-137 | once a key at or above the prefix lacks it, no later key has it |
| Utf8Text.TextExact | src/placement-center/src/storage/rocksdb.rs:124-133 | a byte string counts as text if and only if it is the UTF-8 encoding of some scalar values |
| RocksEngine.RocksDBEngine.ReadPrefix | src/placement-center/src/storage/rocksdb.rs:113-143 | returns exactly the bindings whose key starts with the prefix, in key order; fails to terminate if and only if a non-text key comes up first, so never on a store of text |
| RocksEngine.RocksDBEngine.ReadAllByCf | src/placement-center/src/storage/rocksdb.rs:156-184 | every text binding once, in key order |
| RocksEngine.WriteAll | src/placement-center/src/storage/raft.rs:310-342 | overlays the rows of every family, in some order of the families, onto the one column family |
| RocksEngine.DumpAndRestore | src/placement-center/src/storage/raft.rs:310-342 | restoring a dump overrides the target by every source binding and leaves the rest; a copy on an empty target; idempotent |
| EventLoop.RaftMachine.Receive | src/placement-center/src/raft/machine.rs:95-153 | whatever channels came before, the new request's channel gets exactly one fate (registered, answered or dropped) and no other channel's fate changes |
| EventLoop.RaftMachine.HandleCommittedEntries | src/placement-center/src/raft/machine.rs:243-313 | per entry, in order: begin it, save an accepted conf state, commit, then answer its waiter if there is one, then count towards the snapshot |
| EventLoop.RaftMachine.OnReady | src/placement-center/src/raft/machine.rs:181-241 | the order of the writes: entries, committed entries, hard state, light commit index, light committed entries |
| LoopStorage.ReadyValid | src/placement-center/src/raft/machine.rs:181-241 | if one ready delivers the next entries and commit indices, its writes extend the storage's run by valid steps and leave: its entries in the log, its committed entries handled, its vote, the commit index and term of the last thing it brought, the last accepted conf state |
| LoopStorage.TurnsLeave | src/placement-center/src/raft/machine.rs:80-179 | after any turns the vote on disk is the last one handed out, or the old one, and every committed entry handed out was handled |
| LoopStorage.LoopIsValid | src/placement-center/src/raft/machine.rs:80-179 | over any number of process lives, each ending before or after any single write, what the loop does is a valid run of the storage, so all of `RaftRuns`, `CommitLoop`, `UncommittedSet`, `SavedCommit`, `SavedRecords` and `TermOrder` holds of it |
| EventLoop.RaftMachine.Run | src/placement-center/src/raft/machine.rs:80-179 | the loop processes turns until the stop signal; a closed request channel skips the rest of a turn |
| EventLoop.WaiterConservation | src/placement-center/src/raft/machine.rs:95-156 | after any run each received channel was answered once, or dropped once, or is waiting, and never two of these |
| Waiters.FateExact | src/placement-center/src/raft/machine.rs:95-153 | over any run, for the first 2^64-1 numbers, each request has exactly one fate: an accepted proposal waits until an entry with its number is committed and is then answered once; a refused one is dropped; a message is answered if the library took it, else dropped; a transfer is answered |
| Waiters.WaitsExact | src/placement-center/src/raft/machine.rs:298-309 | a number waits if and only if an accepted proposal took it and no entry with it was committed since |
| Waiters.AnswersFollowCommits | src/placement-center/src/raft/machine.rs:295-309 | over any run a proposal is answered only directly after an entry's commit was saved |
| EventLoop.NextNumberIsFree | src/placement-center/src/raft/machine.rs:142-148 | for the first 2^64 proposals the next number has no waiter, so none is replaced |
| EventLoop.SnapshotCadence | src/placement-center/src/raft/machine.rs:393-400 | over any run there is one snapshot for every full thousand of committed entries |

## Left out

- RaftStorage.RaftMachineStorage.CreateSnapshot: the dump is the whole store as one value; that scanning yields it is proved in RocksEngine, on bytes.
- RaftStorage.RaftRocksDBStorage.Entries: its loop is the same as the one of `entrys` and is modelled once, there.
- EventLoop.RaftMachine.HandleCommittedEntries: routing entry data to storage, the in-memory peer list and the panics on an undecodable or unsupported configuration change are not modelled (a panic there ends the life in the body of the entry, as any crash does); `DataRoute::route` decodes the outer envelope instead of its payload.
- EventLoop.RaftMachine.Run: ticks, role changes and sending messages are not modelled; a turn carries what the library answers.
- EventLoop.RaftMachine.OnReady: a snapshot in the ready is not modelled, see `apply_snapshot` below.
- EventLoop.WaiterConservation: does not say that a waiter is answered by its own entry, because numbers are per process and restart at 1.
- RaftMachineStorage::apply_snapshot on a non-empty follower: its dump overwrites the follower's own Raft records; only the dump and restore law is proved.
- The request index that the adapter's `snapshot` writes into the metadata it hands out.
- A record of the wrong type under a Raft key: it reads as missing here, while the source panics on some of them.
- The consensus algorithms of openraft and raft-rs: only their calling order enters, as guards.
- Votes: one more record beside the purge point, with the same frame property.
- RocksDB internals, write-ahead-log flushing and loss of the operating system's buffers, prefix extractor and bloom filter.
- I/O errors of the store: a put, get or delete always succeeds.
- gRPC and HTTP services, clients, configuration, logging, key builders other than the `/raft/` ones.
