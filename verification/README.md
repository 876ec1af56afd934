# Peloton: verified model of its transaction core

A Dafny model of the parts of the Peloton database that are hardest to get right, with the properties they are
there to provide. `dafny verify dfyconfig.toml` checks the whole project.

## What is modelled

**Multi-version timestamp ordering.** Version slots carry an owner, a begin and an end commit id, links to the next
older and next newer version, a last-reader stamp and a value; an index points to the newest version of each tuple.
Transactions at level SERIALIZABLE read, select for update, insert, update, delete, commit and abort by editing these
fields; READ_ONLY transactions only look.

- `Mvto` is the state machine in which each call is one step; `MvtoInvariant` its inductive invariant,
  `MvtoEvolution` what a step may do to a version that exists, `MvtoHistory` the invariant that ties what every
  transaction was told to the versions that are left.
- `Serializability` is the main theorem: the committed transactions, run one at a time in commit-id order on a store
  with one value per tuple, return every value they returned in the concurrent run and end in the same database.
- `WriterViews` shows that a writer sees its database completely, and `Acceptance` that a call is refused only for a
  conflict. `SerialHistories` is the converse of the main theorem: every history that a store with one value per tuple
  accepts, one session after the other, goes through call by call.
- `FieldWrites` takes commit and abort apart into single field writes, interleaved with every other transaction, and
  proves that this machine refines `Mvto`; `FineTheorems` and `VersionTheorems` carry the results over, and
  `VersionChains` shows that the store itself, half-finished loops and all, has well-formed version chains whenever no
  entry is half written.
- `AbortErasure` compares a run with the same run without the calls of an aborted transaction; `FineErasure` drops its
  field writes as well.
- `TransactionContexts` and `TransactionManagers` are the objects with the code's own methods and loops, each proved
  to do what its state-machine function says. The commit and abort loops may visit the read/write set in any order.
- `ReadRace` lets any transaction test visibility in one step and read in a later one, as the vectorized scan does;
  `RaceTheorems` says when that is harmless and `RaceExample` is a run where it is not.

**Epochs.** `Epochs` has per-thread lower bounds and counts, the global and the snapshot epoch; `LocalEpochs` the two
classes; `EpochSweeps` takes the collection of expired epochs apart into one question per thread. The id returned is the
epoch before the oldest one anyone is in, which is both safe and as large as it can be. `Concurrency` joins
epochs and versions: commit ids come from epochs, and what has expired can be reclaimed. `ReaderSnapshots` says exactly
when a READ_ONLY transaction keeps seeing the same versions. `Reclamation` lets transactions begin, work and end between
the questions of a sweep.

**Fast forms of simple things.** `OpenAddressing` and `OAHashTables`: the open-addressing hash table, with the
run-time `StoreTuple` and `Resize`, refines a multimap. `Aggregation`, `GroupResults`, `Aggregators` and
`HashAggregation`: hash and sorted aggregation agree, and each emits one row for every group whose filter is not false. `Bits`, `PackedRows`, `CompactStorages` and `UpdateableStorages`: packed rows, byte by byte,
lose nothing. `LruCaches`: the cache is least-recently-used.

**Query clusters.** `Centroids` has the arithmetic of features and centroids, `Clusters` the clusters and the index over
their centroids, `Clusterings` what each operation does as relations between values, and `QueryClusterers` the class
with its loops: the clusters partition the query templates, the index is never out of date when it is asked, and
templates are placed, moved and merged exactly as the similarities say, whatever they are.

## Properties that fail, and when they hold

- A scan tests visibility in one loop and reads in a second one. Between the two a version may be replaced, and the
  read goes through. `RaceExample.LateReadNotSerializable` is such a run that has no serial order, although the value
  read was the expected one at the time of the read: the read stamps the old version, so a smaller id can still write.
  `RaceTheorems.RaceSerialIff` is exact, for any number of such scans by any transactions between any other calls: there
  is a serial run in commit-id order if and only if each stale read of a committed transaction returned the
  transaction's own last effect on the tuple or, failing that, the tuple's value in the database below its id. Reads of
  versions that are still visible need no check, and the answer for a read is settled once no transaction with a smaller
  id makes a call (`RaceTheorems.RightSettles`).
- The counter in commit ids starts at 0, so the first writer of the snapshot epoch gets the id of the readers
  (`ReaderSnapshots.CounterStartsAtZero`, `ReaderSnapshots.ZeroIsShared`), and a reader then sees uncommitted inserts.
  `ReaderSnapshots.StableIff` is exact: in every run a reader sees the same versions until it ends if and only if no
  unfinished writer has its id and none can still draw it; or the one that has it is in its commit or abort loop and
  none of the writes left shows or hides a version. A writer can still draw it while number 0 is next and the current
  epoch is the snapshot epoch or some thread has loaded that epoch, refused or not.
- `GetExpiredEpochId` asks the threads one by one. A READ_ONLY transaction that enters on a thread asked already can be
  in an epoch that is returned as expired (`EpochSweeps.LateEntryBreaksSweep`). `EpochSweeps.SweepSafeIff` is exact for
  every sweep in every run, whatever enters and leaves meanwhile and whatever earlier sweeps returned: nobody is ever
  again in an epoch up to the id returned if and only if the snapshot epoch had passed it already, or nobody who entered
  late is still in such an epoch and every thread that has loaded such an epoch will refuse it.
- `NextPowerOf2` counts the leading zeros of 0 when a hash table is planned for one entry, which has no defined result;
  one bucket is a possible outcome. A table that starts with one bucket has resize threshold 0 and fills up
  (`OpenAddressing.OneBucketFills`); a free bucket always remains exactly when the table starts with two buckets or more
  (`OpenAddressing.FreeBucketIff`), which every estimate from two on gives (`OpenAddressing.NextPowerOf2`).
- A row with a NULL key joins the group before it in sorted aggregation (`Aggregation.NullKeyJoins`). The runs are the
  groups if and only if rows with equal keys stand together and the comparison, for which NULL differs from nothing,
  sees every change of key (`Aggregation.RunsAreGroupsIff`); keys without NULL meet this
  (`Aggregation.NonNullChangesSeen`).
- The hash table of hash aggregation takes two keys for the same when they hash alike and no column definitely differs,
  so a key with a NULL can join the group of another key (`HashAggregation.MatchingKeyJoins`). The groups are those by
  key if and only if no two keys of the input that differ are taken for the same (`HashAggregation.ByKeyIff`).

- `AddFeature` means to give features unit length and divides by the sum of squares: a feature that is not zero comes out
  with unit length if and only if it had it before (`Centroids.NormalizedIff`). Adding a template to a cluster means to
  move the centroid to the new mean and adds the new mean to the old one: the result is the mean if and only if the old
  mean is zero, as it is for a new cluster (`Centroids.ShiftGivesMeanIff`).

## Decisions

- A read is the visibility test followed by the read, as one step; taking ownership and updating or deleting is one
  step, on a version that the transaction has read. A transaction deletes or overwrites its own new version in place.
- Slots come fresh from allocation, a new tuple has a new index entry, and every table has a primary index.
- The counter stays below 2^32 and epochs below 2^32 - 1, so ids are unique and below the largest id. Threads are
  registered once, before use, and there is at least one.
- In `Epochs` and `Concurrency` entering a snapshot epoch and collecting expired epochs are one step each.
- Where comments and code differ the model follows the code. The diagram in `src/concurrency/transaction_context.cpp`
  has no arrow from Read or Read Own to Delete, and `RecordDelete` takes it. `src/include/codegen/util/oa_hash_table.h`
  says that the overflow list holds all values but the first, and `StoreTuple` copies the first one into it as well.
- Arithmetic of aggregates is over the reals, hash values and ids are unbounded naturals with the mask, the shift and
  the comparisons written out, null bitmaps and row buffers are bytes.

## Model

| member | source | states |
|---|---|---|
| `MvtoInvariant.BeginKeeps` | src/concurrency/transaction_manager.cpp:33-79 | beginning a transaction with a new id keeps the version-store invariant |
| `MvtoInvariant.ReadKeeps` | src/concurrency/timestamp_ordering_transaction_manager.cpp:417-458 | a successful read, which stamps the last reader, keeps the invariant |
| `MvtoInvariant.ReadForUpdateKeeps` | src/concurrency/timestamp_ordering_transaction_manager.cpp:377-415 | select-for-update, which takes ownership and stamps, keeps the invariant |
| `MvtoInvariant.InsertKeeps` | src/concurrency/timestamp_ordering_transaction_manager.cpp:464-500 | an insert keeps the invariant |
| `MvtoInvariant.UpdateKeeps` | src/concurrency/timestamp_ordering_transaction_manager.cpp:502-583 | linking a new version above the old one and moving the index head keeps the invariant |
| `MvtoInvariant.OverwriteKeeps` | src/concurrency/timestamp_ordering_transaction_manager.cpp:586-617 | writing over one's own uncommitted version keeps the invariant |
| `MvtoInvariant.DeleteKeeps` | src/concurrency/timestamp_ordering_transaction_manager.cpp:619-703 | a delete, which links an empty version, keeps the invariant |
| `MvtoInvariant.DeleteOwnKeeps` | src/concurrency/timestamp_ordering_transaction_manager.cpp:705-737 | deleting one's own uncommitted version keeps the invariant |
| `MvtoInvariant.CommitKeeps` | src/concurrency/timestamp_ordering_transaction_manager.cpp:798-912 | a whole commit keeps the invariant: ranges, links, owners, heads, and no two versions overlap in time |
| `MvtoInvariant.AbortKeeps` | src/concurrency/timestamp_ordering_transaction_manager.cpp:969-1100 | a whole abort keeps the invariant |
| `MvtoInvariant.StepKeeps` | src/concurrency/timestamp_ordering_transaction_manager.cpp:362-1100 | every step of every transaction keeps the invariant |
| `MvtoEvolution.StepEvolves` | src/concurrency/timestamp_ordering_transaction_manager.cpp:152-184 | no step changes a committed version's begin, value or tuple, lowers its last reader, or ends it below its last reader |
| `MvtoHistory.StepKeepsLog` | src/concurrency/timestamp_ordering_transaction_manager.cpp:417-912 | every value a transaction was given stays the value of a version current at its id, and every committed effect has its version |
| `Serializability.TransactionReplays` | src/concurrency/timestamp_ordering_transaction_manager.cpp:798-912 | one committed transaction, replayed alone on the database just below its id, accepts every logged read and write and gives the database just below the next id |
| `Serializability.SerialPrefix` | src/concurrency/timestamp_ordering_transaction_manager.cpp:798-912 | any prefix of the committed transactions in id order, run serially, gives the snapshot of the version store at that point |
| `Serializability.InvariantsHold` | src/concurrency/timestamp_ordering_transaction_manager.cpp:362-1100 | both invariants hold in every reachable state |
| `Serializability.Serializable` | src/concurrency/timestamp_ordering_transaction_manager.cpp:47-74 | in every run the committed transactions, executed one at a time in commit-id order on a single-version store, return the same values and end in the current versions |
| `Serializability.ShownIsSerial` | src/concurrency/transaction_manager.cpp:199-256 | a reader at r finds exactly the database after the committed transactions with ids up to r |
| `Serializability.DeletedMeansGone` | src/concurrency/transaction_manager.cpp:203-231 | a version is reported deleted only if the transaction deleted the tuple itself or the tuple is absent from the database it reads |
| `WriterViews.WriterSeesExactly` | src/concurrency/transaction_manager.cpp:199-256 | for every running transaction a tuple is in the database below its id, overlaid with its own effects, if and only if some version of it is visible, and every visible version holds that value |
| `WriterViews.DeletedReportedIff` | src/concurrency/transaction_manager.cpp:199-256 | a tuple is reported deleted if and only if it is absent from that view and the transaction deleted it itself or it existed below its id |
| `Acceptance.StepKeepsCauses` | src/concurrency/timestamp_ordering_transaction_manager.cpp:362-912 | in every step each last-reader stamp is the id of a transaction that read the version, and a read leaves its stamp or an entry of its own |
| `Acceptance.TakeableIff` | src/concurrency/timestamp_ordering_transaction_manager.cpp:144-184 | ownership of a version that began before the transaction is denied if and only if another running transaction owns it, a larger id has read it or a newer version is committed |
| `Acceptance.ReadAcceptedIff` | src/concurrency/timestamp_ordering_transaction_manager.cpp:417-458 | a visible version can be read if and only if no other running transaction owns it |
| `Acceptance.SelectAcceptedIff` | src/concurrency/timestamp_ordering_transaction_manager.cpp:377-415 | select-for-update of a visible version succeeds if and only if there is no conflict about it; on an own new version it always does |
| `Acceptance.ReplaceAcceptedIff` | src/codegen/transaction_runtime.cpp:82-106 | update and delete of a version that was read, or selected for update, succeed if and only if there is no conflict about it |
| `Acceptance.OwnNeverRefused` | src/concurrency/timestamp_ordering_transaction_manager.cpp:586-617 | a tuple that the transaction has written can be written again or deleted, whatever others do |
| `Acceptance.InsertRefusedWhy` | src/concurrency/timestamp_ordering_transaction_manager.cpp:464-500 | an insert is refused only for a tuple that somebody has inserted before |
| `SerialHistories.GotAlone` | src/concurrency/timestamp_ordering_transaction_manager.cpp:362-458 | a transaction that runs alone can read every tuple of its database with its value, plainly or for update |
| `SerialHistories.ChangeAlone` | src/concurrency/timestamp_ordering_transaction_manager.cpp:502-737 | a transaction that runs alone can update and delete every tuple of its database that it has asked for |
| `SerialHistories.SessionRuns` | src/concurrency/timestamp_ordering_transaction_manager.cpp:362-737 | any list of calls that the single-version database accepts is answered call by call, and the view stays that database |
| `SerialHistories.CommittedDb` | src/concurrency/timestamp_ordering_transaction_manager.cpp:798-912 | after the commit the current versions are exactly the database that the session ended with |
| `SerialHistories.SerialAccepted` | src/concurrency/timestamp_ordering_transaction_manager.cpp:362-912 | every serial history that a single-version database accepts from empty, with growing ids and any of its reads for update, is accepted call by call and commits exactly its answers |
| `FieldWrites.StartSettles` | src/concurrency/timestamp_ordering_transaction_manager.cpp:798-912 | starting a commit or abort loop already decides the settled store, which is that of the atomic step |
| `FieldWrites.WriteSettles` | src/concurrency/timestamp_ordering_transaction_manager.cpp:810-887 | no single field write of a commit or abort changes the settled store |
| `FieldWrites.WriteKeepsFine` | src/concurrency/timestamp_ordering_transaction_manager.cpp:980-1067 | the invariant of half-written entries holds after each field write |
| `FieldWrites.FinishSettles` | src/concurrency/timestamp_ordering_transaction_manager.cpp:914-928 | ending the loop leaves exactly the settled store |
| `FieldWrites.FineStepRefines` | src/concurrency/timestamp_ordering_transaction_manager.cpp:810-887 | every step of the field-write machine is one step, or none, of the atomic machine on the settled store |
| `FieldWrites.FineRunRefines` | src/concurrency/timestamp_ordering_transaction_manager.cpp:798-1100 | every run with field writes interleaved with other transactions refines a run of the atomic machine |
| `FineTheorems.FineSerializable` | src/concurrency/timestamp_ordering_transaction_manager.cpp:798-912 | serializability of every run in which commits and aborts proceed one field write at a time |
| `FineTheorems.LoopOrderIrrelevant` | src/concurrency/timestamp_ordering_transaction_manager.cpp:969-1100 | every order of visiting the read/write set ends in the same store, in which no slot carries the transaction's id |
| `VersionTheorems.RunEvolves` | src/concurrency/timestamp_ordering_transaction_manager.cpp:152-184 | over whole runs committed versions only ever get ended, above their last reader |
| `VersionTheorems.ReadStability` | src/concurrency/timestamp_ordering_transaction_manager.cpp:58-73 | after t has read a version, plainly or for update, then in every state of every run of calls and field writes nothing but t's own commit ends it at or before t or puts a version of the tuple between its begin and t |
| `VersionTheorems.OneReadable` | src/concurrency/timestamp_ordering_transaction_manager.cpp:810-835 | between any two field writes a serializable transaction can read at most one version of a tuple |
| `VersionTheorems.ReadOnlySeesSettled` | src/concurrency/transaction_manager.cpp:203-255 | a reader below all writers sees a slot exactly when its settled range covers the read id, whatever is half written |
| `VersionTheorems.OneReadableAt` | src/concurrency/timestamp_ordering_transaction_manager.cpp:836-887 | between any two field writes a READ_ONLY transaction below all writers can read at most one version of a tuple |
| `VersionTheorems.TombstoneNeverReadable` | src/concurrency/timestamp_ordering_transaction_manager.cpp:685-703 | between any two field writes a version that stands for a delete, whether still marked, being installed, installed or thrown away, is readable to nobody |
| `VersionChains.RawChainsOk` | src/concurrency/timestamp_ordering_transaction_manager.cpp:798-912 | whenever no entry is half written, the store itself has mutual links, ranges that touch, one tuple per chain and the newest version at each index head, though commit and abort loops are under way |
| `VersionChains.ChainShape` | src/concurrency/timestamp_ordering_transaction_manager.cpp:541-572 | in these states begin ids fall strictly along next pointers, links are mutual, and each older version ends where the newer one begins |
| `VersionChains.NewestCommitted` | src/concurrency/timestamp_ordering_transaction_manager.cpp:822-835 | in these states a committed version is open-ended if and only if no committed version stands above it |
| `VersionChains.ChainClosed` | src/concurrency/timestamp_ordering_transaction_manager.cpp:660-693 | in these states a chain holds versions of one tuple only and everything they point to |
| `VersionChains.ChainComplete` | src/concurrency/timestamp_ordering_transaction_manager.cpp:1002-1020 | in these states every slot that is not dead is on the chain from its tuple's index head |
| `VersionChains.ChainsInEveryRun` | src/concurrency/timestamp_ordering_transaction_manager.cpp:798-1100 | every run of calls and field writes has well-formed chains whenever no entry is half written |
| `AbortErasure.EraseRun` | src/concurrency/timestamp_ordering_transaction_manager.cpp:969-1100 | dropping an uncommitted transaction's calls leaves a possible run whose states correspond step by step |
| `AbortErasure.AbortInvisible` | src/concurrency/timestamp_ordering_transaction_manager.cpp:930-1112 | after an abort the run without the transaction's calls is possible and ends with the same contexts, logs, index heads and slots, and every other transaction and every reader sees the same versions; only last-reader stamps may be higher, and slots and index entries that only the first run has are dead |
| `AbortErasure.OthersSee` | src/concurrency/transaction_manager.cpp:199-256 | even while it runs an uncommitted transaction changes nothing that another transaction or reader can see |
| `FineErasure.FineEraseRun` | src/concurrency/timestamp_ordering_transaction_manager.cpp:930-1112 | dropping all calls and field writes of a transaction that does not commit leaves a possible run of field writes whose stores correspond step by step |
| `FineErasure.FineAbortInvisible` | src/concurrency/timestamp_ordering_transaction_manager.cpp:930-1112 | in that run contexts and loops of the others are the same, every other transaction sees the same versions in the store itself, and once the abort is over the stores agree but for last-reader stamps and dead slots |
| `Bookkeeping.OwnedExactly` | src/concurrency/timestamp_ordering_transaction_manager.cpp:377-408 | a transaction owns exactly its non-READ entries and the new versions of its updates and deletes, and committed versions it owns carry its stamp |
| `Bookkeeping.OwnedThroughLoops` | src/concurrency/timestamp_ordering_transaction_manager.cpp:798-1100 | between any two field writes a transaction owns exactly the slots it claims; in its own loop, those that the entries not finished have not released |
| `Bookkeeping.EntriesMoveForward` | src/concurrency/transaction_context.cpp:29-49 | a read/write-set entry only moves along the arrows READ, READ_OWN, UPDATE, DELETE and INSERT, INS_DEL |
| `Bookkeeping.RecordsCount` | src/concurrency/transaction_context.cpp:114-200 | no Record call loses track of the number of INSERT entries |
| `Bookkeeping.StepKeepsCounts` | src/concurrency/transaction_context.cpp:163-200 | every step keeps the insert counters of all transactions right |
| `Bookkeeping.CountsHold` | src/concurrency/transaction_context.cpp:163-200 | in every run insert_count_ is the number of INSERT entries |
| `Bookkeeping.StepKeepsMarks` | src/concurrency/transaction_context.cpp:138-200 | every step keeps is_written_ true exactly when some entry is an update or a delete |
| `Bookkeeping.ReadOnlyIff` | src/include/concurrency/transaction_context.h:150-152 | in every run IsReadOnly holds if and only if no entry is an insert, an update or a delete |
| `ReadRace.RaceStepShadow` | src/codegen/transaction_runtime.cpp:36-66 | every step of the machine that tests and reads apart is one call, or none, of the machine that does both in one step; a stale read changes a stamp, an entry no call can use, and the log |
| `RaceTheorems.RaceSerialIff` | src/codegen/transaction_runtime.cpp:36-66 | for any scans in two loops by any transactions between any other calls, the committed transactions have a serial run in commit-id order if and only if each of their stale reads returned the value it had to, and it ends in the current versions |
| `RaceTheorems.RightSettles` | src/codegen/transaction_runtime.cpp:53-63 | whether a stale read was right does not change any more once no transaction with a smaller id makes a call |
| `RaceTheorems.StillVisibleIsExpected` | src/codegen/transaction_runtime.cpp:40-64 | a version that would still pass the visibility test has the value that must be read |
| `RaceExample.LateReadNotSerializable` | src/codegen/transaction_runtime.cpp:40-64 | a concrete run of the two separate loops that has no serial order by commit id, though the value was right when it was read |
| `TransactionContexts.TransactionContext.constructor` | src/concurrency/transaction_context.cpp:77-103 | a new context has an empty read/write set and a zero insert count |
| `TransactionContexts.TransactionContext.RecordRead` | src/concurrency/transaction_context.cpp:114-123 | the context becomes that of the read in the state machine |
| `TransactionContexts.TransactionContext.RecordReadOwn` | src/concurrency/transaction_context.cpp:125-136 | the context becomes that of select-for-update in the state machine |
| `TransactionContexts.TransactionContext.RecordUpdate` | src/concurrency/transaction_context.cpp:138-161 | the context becomes that of the update in the state machine |
| `TransactionContexts.TransactionContext.RecordInsert` | src/concurrency/transaction_context.cpp:163-170 | the context becomes that of the insert in the state machine |
| `TransactionContexts.TransactionContext.RecordDelete` | src/concurrency/transaction_context.cpp:172-200 | the context becomes that of the delete in the state machine; true is returned exactly for an insert undone |
| `TransactionManagers.TimestampOrderingTransactionManager.constructor` | src/concurrency/timestamp_ordering_transaction_manager.cpp:86-95 | the manager starts with the empty store |
| `TransactionManagers.TimestampOrderingTransactionManager.BeginTransaction` | src/concurrency/transaction_manager.cpp:52-79 | a fresh context is known to the manager, and the store takes the begin step |
| `TransactionManagers.TimestampOrderingTransactionManager.SetLastReaderCommitId` | src/concurrency/timestamp_ordering_transaction_manager.cpp:47-74 | refuses exactly for another owner; otherwise the stamp is the maximum of old and new |
| `TransactionManagers.TimestampOrderingTransactionManager.AcquireOwnership` | src/concurrency/timestamp_ordering_transaction_manager.cpp:152-184 | succeeds exactly when no later reader and no owner is there, and then sets the owner and nothing else |
| `TransactionManagers.TimestampOrderingTransactionManager.YieldOwnership` | src/concurrency/timestamp_ordering_transaction_manager.cpp:192-198 | the slot is free again and otherwise unchanged |
| `TransactionManagers.TimestampOrderingTransactionManager.PerformRead` | src/concurrency/timestamp_ordering_transaction_manager.cpp:417-458 | success and the new store are those of the read step, and the value is the version's |
| `TransactionManagers.TimestampOrderingTransactionManager.PerformReadForUpdate` | src/concurrency/timestamp_ordering_transaction_manager.cpp:377-415 | success and the new store are those of the select-for-update step |
| `TransactionManagers.TimestampOrderingTransactionManager.PerformInsert` | src/concurrency/timestamp_ordering_transaction_manager.cpp:464-500 | the new store is that of the insert step |
| `TransactionManagers.TimestampOrderingTransactionManager.Own` | src/codegen/transaction_runtime.cpp:82-106 | succeeds exactly for a version owned already or ownable and acquired |
| `TransactionManagers.TimestampOrderingTransactionManager.Update` | src/concurrency/timestamp_ordering_transaction_manager.cpp:502-583 | success and the new store are those of the update step; a refusal changes nothing |
| `TransactionManagers.TimestampOrderingTransactionManager.Delete` | src/concurrency/timestamp_ordering_transaction_manager.cpp:619-703 | success and the new store are those of the delete step; a refusal changes nothing |
| `TransactionManagers.TimestampOrderingTransactionManager.OverwriteOwnVersion` | src/concurrency/timestamp_ordering_transaction_manager.cpp:586-617 | the new store is that of the overwrite step |
| `TransactionManagers.TimestampOrderingTransactionManager.DeleteOwnVersion` | src/concurrency/timestamp_ordering_transaction_manager.cpp:705-737 | the new store is that of the step that deletes one's own version |
| `TransactionManagers.EntryWritten` | src/concurrency/timestamp_ordering_transaction_manager.cpp:798-912 | all field writes of one entry together keep the half-written invariant and the settled store |
| `TransactionManagers.TimestampOrderingTransactionManager.InstallReplaced` | src/concurrency/timestamp_ordering_transaction_manager.cpp:810-867 | the code's five writes for an UPDATE or DELETE entry are the field writes of the machine, in its order |
| `TransactionManagers.TimestampOrderingTransactionManager.RollBackReplaced` | src/concurrency/timestamp_ordering_transaction_manager.cpp:980-1067 | the code's six writes that undo an UPDATE or DELETE entry are the field writes of the machine, in its order |
| `TransactionManagers.TimestampOrderingTransactionManager.SettleInserted` | src/concurrency/timestamp_ordering_transaction_manager.cpp:877-911 | the three writes for an INSERT or INS_DEL entry are the field writes of the machine |
| `TransactionManagers.TimestampOrderingTransactionManager.CommitTransaction` | src/concurrency/timestamp_ordering_transaction_manager.cpp:798-928 | whatever order the loop takes, the store afterwards is that of the commit step and no slot has the transaction's id |
| `TransactionManagers.TimestampOrderingTransactionManager.AbortTransaction` | src/concurrency/timestamp_ordering_transaction_manager.cpp:969-1112 | whatever order the loop takes, the store afterwards is that of the abort step and no slot has the transaction's id |
| `Epochs.AcceptedEpoch` | src/concurrency/local_epoch.cpp:25-42 | an accepted READ entry, even with a stale epoch, is at or above the snapshot epoch and not above the current one |
| `Epochs.RefusedMeansAdvanced` | src/concurrency/decentralized_epoch_manager.cpp:33-46 | a refused READ entry implies that the global epoch has advanced since it was loaded |
| `Epochs.ActiveCounted` | src/concurrency/local_epoch.cpp:44-60 | every running transaction is counted in its epoch on its thread, between snapshot and current epoch |
| `Epochs.ExitLocal` | src/concurrency/local_epoch.cpp:66-85 | leaving keeps every queued epoch above the bound and never lowers the bound |
| `Epochs.ExpiredIdBounds` | src/concurrency/decentralized_epoch_manager.cpp:61-75 | the expired id is the least of the threads' answers, between the last one and the current epoch |
| `Epochs.CountsKept` | src/concurrency/local_epoch.cpp:20-112 | every epoch step keeps queues, counts and bounds consistent on all threads, even after an expired id that was not safe |
| `Epochs.SnapshotFollows` | src/concurrency/decentralized_epoch_manager.cpp:76-84 | after each collection the snapshot epoch is the oldest one anyone is in, one more than the expired id, and expired ids never decrease |
| `Epochs.ExpireIsOldest` | src/concurrency/local_epoch.cpp:87-112 | a thread's answer is the epoch before the oldest one it has a transaction in, or before the current one when it is idle |
| `Epochs.ExpiredIsOldest` | src/concurrency/decentralized_epoch_manager.cpp:61-75 | the expired id is the epoch before the oldest one anyone is in, on any thread, or before the current one |
| `Epochs.EpochStepKeeps` | src/concurrency/local_epoch.cpp:20-112 | every epoch step keeps the invariant over all threads, and the snapshot epoch never goes back |
| `Epochs.EpochSafety` | src/concurrency/decentralized_epoch_manager.cpp:61-85 | once e is returned as expired, then and in every later state every running transaction is in a later epoch and none can enter e or below |
| `Epochs.EpochStartOk` | src/include/concurrency/decentralized_epoch_manager.h:33-42 | the invariant holds at the start, for every non-empty set of threads |
| `EpochSweeps.SweepStepKeeps` | src/concurrency/decentralized_epoch_manager.cpp:64-84 | asking thread by thread, with other threads at work in between, keeps the answers so far valid |
| `EpochSweeps.SweepSafety` | src/concurrency/decentralized_epoch_manager.cpp:61-85 | a sweep of single questions is as safe as an atomic one, when no reader enters late on a thread asked already |
| `EpochSweeps.AnyRunKeeps` | src/concurrency/local_epoch.cpp:87-112 | in any run of any number of sweeps, whoever was on a thread when it was asked is in an epoch above all answers so far, and the thread's bound is not below them or was lowered by a late reader to just below the snapshot epoch |
| `EpochSweeps.RunPassed` | src/concurrency/local_epoch.cpp:20-64 | once nobody is in an epoch up to e and stale loads up to e will be refused, no run with any later sweeps brings anybody into one |
| `EpochSweeps.SweepSafeIff` | src/concurrency/decentralized_epoch_manager.cpp:61-85 | in any run the id a sweep returns is safe from then on if and only if the snapshot epoch had passed it or no late entry is left in an epoch up to it and no thread would accept one |
| `EpochSweeps.SweepReaches` | src/concurrency/decentralized_epoch_manager.cpp:61-75 | a sweep during which nobody is in or enters an epoch below m passes all epochs below m |
| `EpochSweeps.QuietSweepExact` | src/concurrency/decentralized_epoch_manager.cpp:61-75 | when nobody enters meanwhile, the id returned is the one before the oldest epoch in use, no earlier than at the start of the sweep and no later than at its end |
| `EpochSweeps.LateEntryBreaksSweep` | src/concurrency/decentralized_epoch_manager.cpp:25-29 | a concrete sweep that returns 9 with a reader in epoch 1 |
| `LocalEpochs.LocalEpoch.EnterEpoch` | src/concurrency/local_epoch.cpp:20-64 | refused exactly for a non-snapshot entry at or below the bound; otherwise the thread's state is that of the entry |
| `LocalEpochs.LocalEpoch.ExitEpoch` | src/concurrency/local_epoch.cpp:66-85 | the count goes down and the queue is popped to the first epoch in use, which sets the bound |
| `LocalEpochs.LocalEpoch.GetExpiredEpochId` | src/concurrency/local_epoch.cpp:87-112 | returns and stores the epoch before the oldest one with a running transaction, or before the current one when there is none |
| `LocalEpochs.DecentralizedEpochManager.EnterSnapshotEpoch` | src/concurrency/decentralized_epoch_manager.cpp:25-29 | enters the snapshot epoch and returns its id with number zero |
| `LocalEpochs.DecentralizedEpochManager.EnterReadEpoch` | src/concurrency/decentralized_epoch_manager.cpp:31-47 | retries through the epochs observed and enters with the first that is accepted, with a fresh number |
| `LocalEpochs.DecentralizedEpochManager.ExitEpoch` | src/concurrency/decentralized_epoch_manager.cpp:51-58 | exits on the right thread and changes no other |
| `LocalEpochs.DecentralizedEpochManager.GetExpiredEpochId` | src/concurrency/decentralized_epoch_manager.cpp:61-85 | returns the epoch before the oldest one that any thread is in, and the state becomes that of the collection step |
| `Concurrency.FreshId` | src/include/concurrency/decentralized_epoch_manager.h:127-129 | an updating transaction's id was never used before and lies strictly between the reserved ids |
| `Concurrency.SystemStepKeeps` | src/concurrency/transaction_manager.cpp:33-105 | every step of transactions, clock, readers and collection together keeps the joint invariant |
| `Concurrency.BasicStepKeeps` | src/concurrency/transaction_manager.cpp:33-105 | every step keeps ids, epochs and the store consistent, even after an expired id that was not safe |
| `Concurrency.SystemRunKeeps` | src/concurrency/transaction_manager.cpp:33-105 | the joint invariant holds in every reachable state |
| `Concurrency.SystemStartOk` | src/include/concurrency/decentralized_epoch_manager.h:33-42 | the joint invariant holds at the start |
| `Concurrency.ReadersBelowWriters` | src/concurrency/decentralized_epoch_manager.cpp:25-29 | a reader's id is below every unfinished writer's if and only if no unfinished writer has the same id |
| `Concurrency.OwnedUncommitted` | src/concurrency/timestamp_ordering_transaction_manager.cpp:810-887 | in every state between field writes an owned version without begin id has no end id but the delete mark |
| `Concurrency.ReclamationSafe` | src/concurrency/decentralized_epoch_manager.cpp:61-85 | a version whose end lies in an epoch returned as expired is never visible again, to any running or later transaction, readers that share a writer's id included |
| `Concurrency.SystemSerializable` | src/concurrency/transaction_manager.cpp:33-79 | serializability of every run of the joint system |
| `Concurrency.ReaderFindsSerialState` | src/concurrency/transaction_manager.cpp:37-41 | for every tuple a running reader finds exactly the database after the committed transactions up to its read id: each readable version has its value, and each tuple there has a readable version |
| `ReaderSnapshots.AboveKeepsView` | src/concurrency/transaction_manager.cpp:199-256 | no call and no field write of a transaction above a read id changes what can be read at that id |
| `ReaderSnapshots.SnapshotStable` | src/concurrency/transaction_manager.cpp:199-256 | no step of anybody but a writer with the reader's own id changes whether a running reader sees a version |
| `ReaderSnapshots.ApartKept` | src/include/concurrency/decentralized_epoch_manager.h:127-129 | if no unfinished writer has a running reader's id and none can still draw it, this stays so while the reader runs |
| `ReaderSnapshots.SnapshotStableRun` | src/concurrency/transaction_manager.cpp:199-256 | in every run from such a state a READ_ONLY transaction sees the same versions until it ends |
| `ReaderSnapshots.LoopStableRun` | src/concurrency/timestamp_ordering_transaction_manager.cpp:810-887 | the same for a reader that shares its id with a writer in its loop, when no write left shows or hides a version |
| `ReaderSnapshots.SharedIdBreaksSnapshot` | src/include/concurrency/decentralized_epoch_manager.h:127-129 | with a shared id the other's next insert, uncommitted, becomes readable |
| `ReaderSnapshots.ShareBreaksSnapshot` | src/include/concurrency/decentralized_epoch_manager.h:127-129 | while number zero is next and the snapshot epoch is current or loaded, some run makes a writer draw the reader's id and changes what the reader sees |
| `ReaderSnapshots.NoisyBreaksSnapshot` | src/concurrency/timestamp_ordering_transaction_manager.cpp:810-887 | a loop of a writer with the reader's id that has a showing or hiding write left changes what the reader sees |
| `ReaderSnapshots.StableIff` | src/concurrency/transaction_manager.cpp:199-256 | a running reader sees the same versions in every run until it ends if and only if the condition of one of these cases holds now |
| `ReaderSnapshots.ZeroIsShared` | src/include/concurrency/decentralized_epoch_manager.h:127-129 | a writer that draws number zero in the snapshot epoch gets the readers' id |
| `ReaderSnapshots.CounterStartsAtZero` | src/include/concurrency/decentralized_epoch_manager.h:33-38 | with the counter as the constructor sets it this happens to the first writer |
| `Reclamation.SweptStepKeeps` | src/concurrency/decentralized_epoch_manager.cpp:61-85 | every step of the system and of sweeps of single questions keeps both invariants, even a close that returns an unsafe id |
| `Reclamation.SweptReclamationSafe` | src/concurrency/decentralized_epoch_manager.cpp:61-85 | with any transactions at work between the questions, a version whose end lies in an epoch up to a safe id that a sweep returned is never visible again, in any later run with any later sweeps |
| `OpenAddressing.MaskIsRemainder` | src/codegen/oa_hash_table.cpp:151-161 | masking a hash with a power of two less one is the remainder |
| `OpenAddressing.MissMeansAbsent` | src/codegen/oa_hash_table.cpp:279-394 | a probe that meets a free bucket proves that the key is nowhere in the table |
| `OpenAddressing.StoreEffect` | src/codegen/util/oa_hash_table.cpp:195-245 | storing at the bucket a probe ends at keeps the table searchable and adds exactly that value at the end of exactly that key's values |
| `OpenAddressing.MoveCopies` | src/codegen/util/oa_hash_table.cpp:308-354 | moving one bucket into the larger table keeps it searchable and moves nothing twice |
| `OpenAddressing.MoveEnds` | src/codegen/util/oa_hash_table.cpp:301-308 | stopping as soon as the number of used buckets was moved leaves nothing behind |
| `OpenAddressing.GroupedIsProject` | src/codegen/oa_hash_table.cpp:524-540 | after any inserts a key's values are those inserted for it, in order |
| `OpenAddressing.ScanIsContents` | src/codegen/oa_hash_table.cpp:542-619 | a scan delivers for every key exactly the stored values |
| `OpenAddressing.ScanDeliversAll` | src/codegen/oa_hash_table.cpp:542-619 | a scan is a permutation of the pairs inserted: each is delivered once |
| `OpenAddressing.NextPowerOf2` | src/include/common/platform.h:60-63 | from two on a power of two, at least n and less than 2n; for one whatever the undefined count of leading zeros gives |
| `OpenAddressing.HalfFull` | src/codegen/util/oa_hash_table.cpp:47-60 | a table that starts with two buckets or more is never more than half full, over every run of stores |
| `OpenAddressing.GrowsAtHalf` | src/codegen/util/oa_hash_table.cpp:47-60 | the table has its first size or at least a quarter of its buckets is in use, over every run of stores |
| `OpenAddressing.FreeBucketIff` | src/codegen/util/oa_hash_table.cpp:137-163 | a free bucket remains over every run of stores if and only if the table starts with at least two buckets |
| `OpenAddressing.OneBucketFills` | src/codegen/util/oa_hash_table.cpp:56-60 | a table that starts with one bucket is full after two keys |
| `OAHashTables.OAHashTable.constructor` | src/codegen/util/oa_hash_table.cpp:38-68 | an empty, searchable table of the planned size |
| `OAHashTables.OAHashTable.Probe` | src/codegen/oa_hash_table.cpp:242-394 | wrap-around probing ends, and finds the key if and only if it is stored |
| `OAHashTables.OAHashTable.FindAll` | src/codegen/oa_hash_table.cpp:691-705 | delivers exactly the values stored for the key, oldest first |
| `OAHashTables.OAHashTable.Iterate` | src/codegen/oa_hash_table.cpp:542-619 | delivers every stored value of every key, and nothing else |
| `OAHashTables.OAHashTable.FindNextFreeEntry` | src/codegen/util/oa_hash_table.cpp:137-163 | the first free bucket on the probe path |
| `OAHashTables.OAHashTable.Rehash` | src/codegen/util/oa_hash_table.cpp:290-354 | the doubled table holds the same keys and values, and the tracked bucket is found again |
| `OAHashTables.OAHashTable.Resize` | src/codegen/util/oa_hash_table.cpp:273-359 | doubles size and threshold and changes nothing that is stored |
| `OAHashTables.OAHashTable.StoreTuple` | src/codegen/util/oa_hash_table.cpp:169-245 | adds one value to one key, with a resize first when the threshold is met |
| `OAHashTables.OAHashTable.Insert` | src/codegen/oa_hash_table.cpp:524-540 | the multimap gains the value at the end of the key's values |
| `OAHashTables.OAHashTable.ProbeOrInsert` | src/codegen/oa_hash_table.cpp:490-522 | a new key gets its first value, a key with one value has it updated, and an update of a key with several is not seen by later reads |
| `OAHashTables.BuildTable` | src/codegen/oa_hash_table.cpp:524-540 | a table planned for two or more never runs out of free buckets while pairs are inserted, grows as predicted, and holds the multimap of the pairs |
| `OAHashTables.BuildAndScan` | src/codegen/oa_hash_table.cpp:524-619 | building a table and scanning it gives a permutation of the pairs, with each key's values in order |
| `OAHashTables.BuildAndFind` | src/codegen/oa_hash_table.cpp:524-705 | building a table and probing it gives exactly the key's values, in order |
| `Aggregation.StepsCommute` | src/include/executor/aggregator.h:62-228 | the steps of all six aggregates commute |
| `Aggregation.FoldPermute` | src/include/executor/aggregator.h:62-228 | no aggregate depends on the order of its input |
| `Aggregation.Finalize` | src/executor/aggregator.cpp:74-81 | walking the distinct set in any order gives the value of every other order |
| `Aggregation.SumsMean` | src/include/executor/aggregator.h:62-174 | COUNT, COUNT(*), SUM and AVG are the number, the sum and the quotient, over the values that are not NULL |
| `Aggregation.ExtremesMean` | src/include/executor/aggregator.h:176-228 | MIN and MAX are one of the values with none below or above, or NULL |
| `Aggregation.CountDistinctMeans` | src/executor/aggregator.cpp:64-81 | COUNT DISTINCT is the size of the set of values that are not NULL |
| `Aggregation.DistinctMeans` | src/executor/aggregator.cpp:64-81 | SUM and AVG DISTINCT are the sum and the mean of the set of values that are not NULL, and COUNT(*) DISTINCT is its size plus the number of NULLs |
| `Aggregation.GroupedPermute` | src/executor/aggregator.cpp:230-241 | walking the groups in another order permutes the rows |
| `Aggregation.RunsAreGroups` | src/executor/aggregator.cpp:269-299 | cutting rows with equal keys adjacent at the boundaries gives exactly the groups by key, when every change of key is seen |
| `Aggregation.RunsAreGroupsIff` | src/executor/aggregator.cpp:269-299 | the runs are the groups by key if and only if equal keys are adjacent and the comparison sees every change of key |
| `Aggregation.RunsCut` | src/executor/aggregator.cpp:269-299 | the input is cut exactly where a row definitely differs from the first row of its run, and the runs together are the input |
| `Aggregation.NonNullChangesSeen` | src/executor/aggregator.cpp:278-298 | keys without NULL have every change seen |
| `Aggregation.SortedAndHashAgree` | src/executor/aggregator.cpp:173-349 | sorted aggregation emits a permutation of the rows of hash aggregation, for every walk of the hash table |
| `Aggregation.NullKeyJoins` | src/executor/aggregator.cpp:286-299 | a row with NULL keys is put in the group before it |
| `GroupResults.OneOutput` | src/executor/aggregator.cpp:93-147 | a group gives the projection of its first row and aggregates exactly once, unless the filter is false or the group is empty |
| `GroupResults.GroupedByKey` | src/executor/aggregator.cpp:93-241 | grouping by key and folding emits a row as often as there are keys whose filter is not false and whose group projects to it |
| `GroupResults.OutputsOnce` | src/executor/aggregator.cpp:93-147 | each group of a list whose filter is not false gives its row once, and nothing else is emitted |
| `GroupResults.GroupHolds` | src/executor/aggregator.cpp:173-228 | the group of a key holds each row of that key as often as the input does, and no other row |
| `GroupResults.GroupStarts` | src/executor/aggregator.cpp:186-208 | the first row of a group is the first of its key in the input |
| `Aggregators.Helper` | src/executor/aggregator.cpp:93-147 | emits the projection of the first row and the aggregates once, unless the filter is definitely false, and then nothing |
| `Aggregators.SortedAggregator.Advance` | src/executor/aggregator.cpp:269-338 | finished runs have been emitted and the current one is aggregated so far, for any input |
| `Aggregators.SortedAggregator.Finalize` | src/executor/aggregator.cpp:340-349 | the output is that of cutting the whole input at its boundaries, and has one row for each run whose filter is not false |
| `Aggregators.CrossesBoundary` | src/executor/aggregator.cpp:278-298 | true if and only if some key column definitely differs |
| `HashAggregation.ByKeyIff` | src/include/executor/aggregator.h:292-318 | rows end up in the groups of their own keys if and only if the table's comparison takes no two different keys of the input for the same |
| `HashAggregation.MatchingKeyJoins` | src/include/executor/aggregator.h:304-313 | a row whose different key matches the stored one joins its group |
| `HashAggregation.NonNullToldApart` | src/include/executor/aggregator.h:304-313 | keys without NULL are told apart, whatever their hash values |
| `HashAggregation.FoldedByHome` | src/executor/aggregator.cpp:230-241 | folding each stored key once emits one row for each whose filter is not false |
| `HashAggregation.HashAggregator.Find` | src/executor/aggregator.cpp:186-196 | an entry that matches the key, or the key itself exactly when none does |
| `HashAggregation.HashAggregator.Advance` | src/executor/aggregator.cpp:173-228 | for any row, the table holds under every stored key the first row and the aggregates of exactly the rows put there |
| `HashAggregation.HashAggregator.Finalize` | src/executor/aggregator.cpp:230-241 | the output folds each group once, in some order, with one row for each stored key whose filter is not false; it is "group by key, then fold" when keys are told apart |
| `HashAggregation.AggregateBothWays` | src/executor/aggregator.cpp:173-349 | each aggregator emits one row for every key whose filter is not false, the sorted one when equal keys stand together and changes of key are seen, the other when keys are told apart; together they emit the same rows up to order |
| `Bits.OrBit` | src/codegen/compact_storage.cpp:35-46 | shifting a flag into a byte sets its own bit and no other |
| `PackedRows.PermutedIsLayout` | src/codegen/compact_storage.cpp:118-161 | any reordering of the entries gives every part of every column exactly one place |
| `PackedRows.NoPadding` | src/codegen/compact_storage.cpp:146-166 | every byte after the bitmap belongs to exactly one entry |
| `PackedRows.RoundTrip` | src/codegen/compact_storage.cpp:172-272 | bytes that hold a row hold no other: value, length and null bit come back, for every schema and layout |
| `CompactStorages.SplicedPart` | src/codegen/compact_storage.cpp:197-214 | writing one part changes no other part and no null bit |
| `CompactStorages.BuildFormat` | src/codegen/compact_storage.cpp:118-145 | the format is a permutation of all entries, largest first, and a layout |
| `CompactStorages.CompactStorage.Setup` | src/codegen/compact_storage.cpp:108-167 | the first call fixes the format, later ones change nothing |
| `CompactStorages.CompactStorage.StoreValues` | src/codegen/compact_storage.cpp:172-222 | the row holds the items, nothing outside it changes, and its end is returned |
| `CompactStorages.CompactStorage.LoadValues` | src/codegen/compact_storage.cpp:228-272 | the items loaded are those that the bytes hold, for any bytes |
| `CompactStorages.StoreThenLoad` | src/codegen/compact_storage.cpp:172-272 | any rows stored one after the other in one area are loaded back as they were |
| `UpdateableStorages.KnownBit` | src/codegen/updateable_storage.cpp:270-288 | the code for a constant null bit and the general code give the same byte |
| `UpdateableStorages.WriteBackKeepsCells` | src/codegen/updateable_storage.cpp:301-311 | a write-back changes what no column reads, and afterwards memory alone tells |
| `UpdateableStorages.NullBitmap.InitAllNull` | src/codegen/updateable_storage.cpp:226-231 | every column is NULL |
| `UpdateableStorages.NullBitmap.IsNull` | src/codegen/updateable_storage.cpp:252-257 | answers the column's bit and changes no bit, cached or not |
| `UpdateableStorages.NullBitmap.SetNull` | src/codegen/updateable_storage.cpp:259-292 | sets the column's bit and no other |
| `UpdateableStorages.NullBitmap.WriteBack` | src/codegen/updateable_storage.cpp:301-311 | memory takes every cached byte, the cache is empty, no other byte changes, and every cell of every row format reads as before |
| `UpdateableStorages.UpdateableStorage.Finalize` | src/codegen/updateable_storage.cpp:31-87 | the first call builds a layout of the columns added, later ones change nothing |
| `UpdateableStorages.UpdateableStorage.FindStoragePositionFor` | src/codegen/updateable_storage.cpp:91-108 | the positions of the column's value and length; -1 exactly for a column without length |
| `UpdateableStorages.UpdateableStorage.GetValueSkipNull` | src/codegen/updateable_storage.cpp:111-140 | the column's raw value and length |
| `UpdateableStorages.UpdateableStorage.SetValueSkipNull` | src/codegen/updateable_storage.cpp:165-189 | the column's raw cell is the one given; every other cell and the bitmap are unchanged |
| `UpdateableStorages.UpdateableStorage.GetValue` | src/codegen/updateable_storage.cpp:142-162 | the column's cell or NULL, with the row unchanged |
| `UpdateableStorages.UpdateableStorage.SetValue` | src/codegen/updateable_storage.cpp:191-207 | the row is the old one with this column replaced, NULL or not |
| `UpdateableStorages.PerformAll` | src/codegen/updateable_storage.cpp:191-311 | after any mix of writes, write-backs and clears every column holds the last value written to it |
| `UpdateableStorages.WriteThenRead` | src/codegen/updateable_storage.cpp:142-311 | a row written in any way and written back gives a reader with a new bitmap the last value written, or NULL |
| `Clusterings.AddKeeps` | src/brain/query_clusterer.cpp:47-56 | a new template in a live cluster keeps the partition |
| `Clusterings.MergeKeeps` | src/brain/query_clusterer.cpp:113-122 | merging one cluster into another and forgetting it keeps the partition |
| `Clusterings.RoundNext` | src/brain/query_clusterer.cpp:72-80 | one more template reconsidered: it is moved, as the index answers, if and only if it is not similar to the centroid its cluster had at the start of the round |
| `Clusterings.NoneMergedIff` | src/brain/query_clusterer.cpp:105-126 | no cluster is merged if and only if no two are similar, the earlier to the later |
| `Centroids.Normalize` | src/brain/query_clusterer.cpp:149-153 | divides every component by the sum of squares, unless that is zero |
| `Centroids.NormalizedIff` | src/brain/query_clusterer.cpp:149-153 | a feature that is not zero comes out with unit length if and only if it had it before |
| `Centroids.ShiftGivesMeanIff` | src/brain/cluster.cpp:20-28 | adding a template to a cluster that holds its mean leaves the mean if and only if the old mean is zero |
| `Clusters.Cluster.AddTemplateAndUpdateCentroid` | src/brain/cluster.cpp:20-28 | the template is added and every component of the centroid is shifted as the code shifts it |
| `Clusters.Cluster.UpdateCentroid` | src/brain/cluster.cpp:38-54 | the centroid becomes the mean of the features of the templates |
| `Clusters.KDTree.Insert` | src/brain/kd_tree.cpp:19-28 | the index lists one more cluster, with the centroid it has now |
| `Clusters.KDTree.GetNN` | src/brain/kd_tree.cpp:41-55 | no answer exactly when no cluster is listed, otherwise the cluster and the similarity that the index answers |
| `Clusters.KDTree.Update` | src/brain/kd_tree.cpp:32-39 | every cluster listed is indexed under the centroid it has now |
| `Clusters.KDTree.Build` | src/brain/kd_tree.cpp:57-74 | the index lists each cluster given once and nothing else, each with the centroid it has now |
| `QueryClusterers.QueryClusterer.UpdateTemplate` | src/brain/query_clusterer.cpp:26-65 | if a cluster is listed and the index calls it similar enough, the template is in the cluster named and the set of clusters is the same; otherwise it is alone in exactly one more cluster; nothing else changes, and the index is up to date |
| `QueryClusterers.QueryClusterer.Reconsider` | src/brain/query_clusterer.cpp:72-80 | the template is taken out and placed again if its similarity to the centroid is below the threshold; otherwise nothing changes |
| `QueryClusterers.QueryClusterer.MergeOne` | src/brain/query_clusterer.cpp:106-124 | the cluster is merged into the first later one that is similar, or nothing is done |
| `QueryClusterers.QueryClusterer.AddFeature` | src/brain/query_clusterer.cpp:145-162 | the normalized feature is recorded; a new template is placed as the index answers, an old one stays; clusters are non-empty, partition the templates, have the exact inverse map and are listed once in the index |
| `QueryClusterers.QueryClusterer.UpdateExistingTemplates` | src/brain/query_clusterer.cpp:67-99 | exactly the templates that are not similar to their cluster are moved, each as one answer of the index says; then every cluster has its mean as centroid and exactly the empty ones are gone |
| `QueryClusterers.QueryClusterer.MergeClusters` | src/brain/query_clusterer.cpp:101-134 | in any order of the clusters each is merged into the first later one similar to it, or not at all, with the mean of both as centroid; nothing is merged if and only if no two are similar |
| `QueryClusterers.QueryClusterer.UpdateCluster` | src/brain/query_clusterer.cpp:136-143 | the round of moves, the new centroids and the merges follow one another, and the partition holds at the end |
| `LruCaches.StepMatches` | src/common/cache.cpp:36-105 | each operation does to list and map what it does to keys with time stamps |
| `LruCaches.RunMatches` | src/common/cache.cpp:36-105 | over every run list and map hold the stamped keys once each, latest touch first, with the last values, within capacity |
| `LruCaches.LastIsOldest` | src/common/cache.cpp:78-82 | the key evicted is the one touched longest ago |
| `LruCaches.HoldsMostRecent` | src/common/cache.cpp:49-62 | without deletions the cache holds exactly the most recently touched keys that fit, in order |
| `LruCaches.Cache.Find` | src/common/cache.cpp:36-47 | the value or nothing, and the key becomes the most recent |
| `LruCaches.Cache.Insert` | src/common/cache.cpp:64-90 | the eviction loop leaves the state of the insert operation |
| `LruCaches.Cache.DeleteKey` | src/common/cache.cpp:98-105 | the state of the delete operation |

## Left out

- SNAPSHOT and READ_COMMITTED isolation: they stamp no last readers, and the serial-order theorem is not meant for them.
- Range and predicate reads, and look-ups that find nothing: inserts are not checked against earlier scans.
- Garbage collection, the contents of gc_set, logging, statistics, triggers, DDL objects, tile groups, index structures.
- Memory order below the level of single field writes, spin latches, and failure of slot allocation.
- Wrap-around of the 32-bit counter and of epochs; ids are assumed unique, as stated under Decisions.
- The Annoy index and the square roots in the cosine similarity: the index may answer each question with any cluster and any similarity, and the cosine of two vectors may be any number.
- QueryClusterers.QueryClusterer.AddFeature: requires a feature with as many components as the clusterer has, without which the code reads past the end of a vector.
- Growth of the capacity of overflow value lists, vectorized iteration, prefetching and the stand-alone iterator of the hash table; LLVM code emission as such.
- Merging of cached bitmap bytes across emitted branches (MergeValues); string and numeric encodings inside a column.
- Plain aggregation without grouping, overflow of aggregates, failure to insert an output row.
- The count map, the insert threshold and `clear` of the cache; list positions stored in its map are modelled by search.
- Binder, planner, optimizer, catalog, network and the other executors.
- TransactionManagers.TimestampOrderingTransactionManager.PerformRead: covers levels SERIALIZABLE only, and is called on a version that passed the visibility test.
- Aggregators.SortedAggregator.Advance: requires rows with at least one column, since an empty row is the code's mark for "no current group".
- OAHashTables.OAHashTable.Probe: requires a free bucket, without which the emitted loop does not end; FreeBucketIff says when there always is one, and BuildTable keeps one over whole runs.
- OAHashTables.OAHashTable.constructor: for an estimate of one requires that the undefined number of buckets comes out as a power of two, as the code's own assertion says.
- OpenAddressing.NextPowerOf2: does not model estimates above 2^63, for which the shift overflows.
- RaceTheorems.RaceSerialIff: a commit or abort is one step here, not a loop of field writes.
- Aggregation.SortedAndHashAgree: the per-attribute aggregators are values held by the aggregators, not objects of their own.
