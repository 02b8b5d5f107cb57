# LocalVault: verified model of the snapshot and restore core

LocalVault is a content-addressed snapshot engine. Files are cut into chunks, each chunk is stored once
under its digest, and a snapshot is a set of database rows that refer to chunks. This project models the
core of the engine in Dafny and proves what the engine is for: that a committed row never refers to
anything a crash could take away, that a snapshot becomes complete only when everything the scanner found
is in it exactly once, that the pipeline of threads neither deadlocks nor runs for ever, that an
interrupted recovery can always be finished, and that a restore yields the bytes that were read.

`dafny verify dfyconfig.toml` checks the whole project.

## How the model is laid out

| file | models |
|---|---|
| `BoundedQueue.dfy` | the bounded queue as an object, and as a value with the wait sets of its two condition variables |
| `Pipeline.dfy` | the threads of a snapshot as a step system over two queues: scanner, workers, writer, progress thread, coordinating thread, an outside caller |
| `PipelineSafety.dfy`, `PipelineLedger.dfy`, `PipelinePublication.dfy` | the invariants of that system and publication safety over whole runs |
| `PipelineProgress.dfy`, `PipelineCompleteness.dfy` | deadlock freedom, termination, and that untroubled runs publish |
| `PipelineBounds.dfy`, `PipelineOutcome.dfy` | bounds on the open transaction and what a stop freezes; how runs end that fail or are cancelled |
| `SnapshotWriter.dfy`, `SnapshotRows.dfy`, `SnapshotCounters.dfy` | the writer's loops on the tables, that they write exactly what was captured, and that the counters of a published snapshot are those of its rows |
| `Objects.dfy`, `Durability.dfy` | digests, the codec, the volatile and durable filesystem; the publication protocol of objects as a step system with kills and power losses |
| `ObjectStore.dfy` | the object store as an object, refining one worker of that system |
| `Metadata.dfy`, `Recovery.dfy`, `Repository.dfy` | the tables and their mutators, what recovery leads to, and the batched transactions that do it |
| `Capture.dfy`, `Reassembly.dfy` | the chunking and retry loops, the chunk rows, validation, and the round trip |
| `IgnoreRules.dfy`, `MatcherLimits.dfy`, `Utf8.dfy` | the wildcard matcher, exactly where it is right, and the UTF-8 validator |
| `Scanner.dfy`, `SnapshotShape.dfy` | the scan, and the shape of complete snapshots |
| `Selection.dfy`, `Requests.dfy` | selecting the entries for a request, and what a request asks for |
| `RestorePlan.dfy`, `RestoreRun.dfy`, `RestoreSuccess.dfy`, `RestoreEngine.dfy` | planning a restore, carrying it out, when it succeeds, and the whole of it |
| `ProgressRate.dfy`, `Timestamps.dfy` | the rate limit on progress callbacks, and the time conversions |

Code that works in place is modelled in place: the queue, the object store, the transactions and cleanup
loops, the chunker, the matcher loops, the scanner, the planner and the restore passes are classes and
methods with loops, each tied by its contract to a function or a predicate about which the theorems are.
The two concurrent protocols are step systems: a state, a labelled step, `Enabled` and `Apply`, and
`Reaches` over lists of labels. A label carries everything a step leaves open, such as which action
throws, which sleeper a notification wakes, or what a power loss leaves of unflushed data, so a theorem
over all runs is a theorem over all interleavings, failures and crashes.

### The pipeline

`Pipeline.OwnAct` gives each thread's next action. The scanner's positions follow
src/core/snapshot_engine.cpp:814-846, the workers' :681-812, the writer's :571-679, the progress thread's
:185-220, the coordinating thread's :558-886, and the five stages of a shutdown :527-538. One step is one
critical section of a queue, one stage of a shutdown, or one action between two of those.

- A queue call is one step from taking the mutex to releasing it, or to falling asleep. `notify_one` moves
  one sleeper, chosen by the label, to the signalled waiters; `close` moves all. A stop request wakes all
  stop-aware waits at once, as `std::condition_variable_any` promises for its stop-token waits; it is the
  second stage of a shutdown. A spurious wakeup is a step of its own.
- The invariant about producers is not that none sleeps on an empty queue. With several producers a pop
  signals one of them, and the others sleep on while that one has yet to run. What holds, and is enough,
  is that a producer sleeps on an empty open queue only while another producer has been signalled.
- What a worker makes of a file (an entry with its chunk counts, or a warning) is left open by the label;
  `Capturing.CaptureFile` says which of the two it is.
- The ledger of the pipeline carries a summary of each row. The rows themselves, entry by entry and chunk
  by chunk, are written by `SnapshotWriters.SnapshotWriter`, and `SnapshotCounters.LedgerIsTransactional`
  says that the ledger is what a transactional database makes of them.

### Objects and crashes

A file's bytes become durable when it is synced, a name when its shard directory is flushed, and a shard
directory when `objects/` is flushed; these are the contracts of the POSIX calls behind
`TemporaryOutputFile::sync`, `flush_containing_directory` and the rename without replacement. A power loss
keeps everything durable and any part of the rest, with arbitrary bytes in files that were not synced; a
process kill keeps the whole disk. Either way memory and the open transaction are gone. A repository may
start with any files in its object directories, provided the directories that hold them are durable.
Commits of the database are atomic and durable.

BLAKE3 and zstd are abstract. What is assumed of them is `Objects.Codec.Lawful`: decoding inverts
compression, within a bound that is at most 64 KiB over the size for chunks up to 4 MiB. Statements that
identify content by its digest say `CollisionFree` explicitly; the durability theorems do not need it.

### Where the code promises less

- A whole-snapshot restore plans an entry below a skipped file if a snapshot has entries below a file.
  No snapshot that the engine completes has (`SnapshotShape.CompleteSnapshotsCanBeRestored`), and a
  request that names paths refuses such entries. `RestorePlan.SkipClosedIff` is the exact condition.
- An instant within the last second above the smallest signed 64-bit value can be restored, but the pair
  of seconds and nanoseconds that denotes it is not accepted when it is read back.
  `Timestamps.InstantRoundTripIff` is the exact condition.
- The wildcard matcher never reports a false match, and is exact for every pattern made of whole
  characters. Rules are read as raw bytes, though, and a pattern with an incomplete character can miss
  names, which are always valid UTF-8 (src/core/filesystem/file_scanner.cpp:228-234). Not being well-formed
  is not the boundary. A pattern is `Exactness.Broken` if the stretch between two of its stars, begun
  between characters, ends inside a character, and what comes behind the second star goes on inside that
  character: `*\xC3*\xA9` is broken, and misses a name with two characters that begin with `\xC3`, the
  second star being stuck in the first of them; `*\xC3*`, `*\xC3?*x` and `*\xC3*x` are not. Broken patterns
  always miss some valid name (`Exactness.BrokenMisses`), and all others none, if they begin with a star or
  have whole characters before it (`Exactness.ExactIff`). What remains are patterns that begin with part of a
  character, have a star, and go on inside that character with a stretch that fits there in two places
  and ends in part of a further one. Of these only the one half is known; `Exactness.LooseExample` is one
  that misses a name.

## Model

| member | source | states |
|---|---|---|
| `Queues.BoundedQueue.HasCapacity` | src/core/concurrency/bounded_queue.hpp:105-110 | capacity is tested on the byte counter; the invariant that the counter is the sum over the queued items and within the capacity is what keeps the subtraction from wrapping around |
| `Queues.BoundedQueue.Push` | src/core/concurrency/bounded_queue.hpp:82-103 | accepts exactly when neither stopped, closed nor oversized and both capacities have room; the accepted history grows by exactly this value; nothing is accepted after close |
| `Queues.BoundedQueue.Pop` | src/core/concurrency/bounded_queue.hpp:49-64 | takes the head if there is one, also after close; what has been popped is always a prefix, in order, of what was accepted |
| `Queues.BoundedQueue.Close` | src/core/concurrency/bounded_queue.hpp:66-71 | closes, and loses nothing that was queued |
| `Queues.PushKeepsWakeups` | src/core/concurrency/bounded_queue.hpp:82-103 | a pass through push loses no wakeup: nobody sleeps on a closed or stopped queue, sleeping consumers mean that every queued item has a signalled consumer coming, and a producer sleeps on an empty queue only while another has been signalled |
| `Queues.PopKeepsWakeups` | src/core/concurrency/bounded_queue.hpp:49-64 | the same for a pass through pop, whichever sleeper notify_one picks |
| `Queues.CloseKeepsWakeups` | src/core/concurrency/bounded_queue.hpp:66-71 | the same for close, and for a stop request seen by every stop-aware wait |
| `PipelineSafety.ActStep` | src/core/snapshot_engine.cpp:527-866 | every step of every thread keeps what that thread knows at its position and guarantees to all others that errors, stops, closed queues and the active-worker count never go back |
| `PipelineSafety.StepKeepsStructure` | src/core/snapshot_engine.cpp:527-866 | all of that, for all threads together, is kept by every step: thread moves, an outside cancellation, spurious wakeups |
| `PipelineSafety.AloneAfterScope` | src/core/snapshot_engine.cpp:852-874 | once the joins are over no thread but the coordinating one can move |
| `PipelineSafety.WorkerCounted` | src/core/snapshot_engine.cpp:805-811 | each worker decrements the count of active workers once, and the one that takes it to zero closes the results |
| `PipelineLedger.StepKeepsAccount` | src/core/snapshot_engine.cpp:597-850 | conservation: every emission made so far is in exactly one place (a thread's hand, a queue, the open transaction, the database, or given up by a failure), unchanged but for a file that became a warning; no other emission is anywhere |
| `PipelineLedger.OwnTransfers` | src/core/snapshot_engine.cpp:597-850 | one step moves emissions only between the stepping thread's hand and the shared state |
| `PipelineLedger.WriterCounts` | src/core/snapshot_engine.cpp:607-659 | the writer's in-memory counters stay those of the rows inserted and committed; what a row's counts have to do with its chunks and with the tables is the matter of the next rows |
| `PipelinePublication.PublicationSafety` | src/core/snapshot_engine.cpp:869-886 | a snapshot is complete only in runs without error or stop, with every thread run to its end and joined and nothing left uncommitted; its rows then correspond one-to-one to the scanner's emissions and its counters are those its rows add up to; that it is not complete after a cancellation or a failure either is the matter of the rows of PipelineOutcome |
| `PipelinePublication.ReachedStatesAreGood` | src/core/snapshot_engine.cpp:513-886 | the invariant holds in every state of every run, for every plan, worker count, capacity and batch limit |
| `PipelinePublication.NeverTwice` | src/core/snapshot_engine.cpp:597-670 | in every run, failing or not, no emission is stored twice or invented |
| `PipelinePublication.CompleteIsFinal` | src/core/snapshot_engine.cpp:881-886 | whatever happens after publication, the snapshot, its rows and the absence of an error stay |
| `PipelinePublication.OnceEach` | src/core/snapshot_engine.cpp:597-670 | rows in which every emission occurs once are a one-to-one correspondence with the plan |
| `PipelineProgress.NoDeadlock` | src/core/snapshot_engine.cpp:558-867 | deadlock freedom: until the coordinating thread has finished, some thread can move, for all capacities, worker counts and item sizes, with notify_one waking a single waiter |
| `PipelineProgress.ResultsDrain` | src/core/concurrency/bounded_queue.hpp:49-110 | a worker asleep on the full result queue: the writer, or a worker already signalled, can move |
| `PipelineProgress.JobsDrain` | src/core/concurrency/bounded_queue.hpp:49-110 | the scanner asleep on the full job queue: a worker, or the writer, can move |
| `PipelineProgress.StepCost` | src/core/snapshot_engine.cpp:527-886 | every step but a spurious wakeup brings the end nearer |
| `PipelineProgress.EveryRunIsBounded` | src/core/snapshot_engine.cpp:527-886 | termination: a run is no longer than 21 steps per emission and 26 per worker plus 133, and two per spurious wakeup |
| `PipelineProgress.StuckMeansFinished` | src/core/snapshot_engine.cpp:852-886 | a reachable state in which nothing can move is one in which the coordinating thread has published or marked the snapshot incomplete and every started thread has finished, and the other way round |
| `PipelineCompleteness.UntroubledRunsPublish` | src/core/snapshot_engine.cpp:513-886 | a run in which nothing throws, nobody cancels and every row fits the result queue records no error, and where it ends the snapshot is complete |
| `PipelineCompleteness.ProducersFindOpenQueues` | src/core/snapshot_engine.cpp:805-842 | without an error, cancelled or not, a queue is open as long as anybody is at its producing end |
| `PipelineOutcome.CancellationPreventsPublication` | src/core/snapshot_engine.cpp:869-886 | a cancellation from outside that comes before the last look for one, in any state of any run, prevents publication: no later state has a complete snapshot, whatever else happens |
| `PipelineOutcome.FailurePreventsPublication` | src/core/snapshot_engine.cpp:540-556 | the same from the moment on when any action of any thread has failed |
| `PipelineOutcome.CancelledRunsAreMarked` | src/core/snapshot_engine.cpp:869-904 | a run cancelled in time whose marking succeeds ends with the snapshot incomplete: with the error that was recorded first, and as cancelled if none was; an error recorded before the cancellation stays |
| `PipelineOutcome.WillingCancelledRunsAreCancelled` | src/core/snapshot_engine.cpp:869-904 | a run in which nothing fails and that is cancelled in time ends with the snapshot cancelled |
| `PipelineOutcome.MarkedWithFirstError` | src/core/snapshot_engine.cpp:887-904 | in every run a snapshot marked incomplete carries the first recorded error, if there is one, and is marked cancelled only if somebody cancelled |
| `PipelineOutcome.FirstErrorStays` | src/core/snapshot_engine.cpp:527-538 | in every run the first recorded error is never replaced |
| `PipelineOutcome.CancelledIsNotFinalized` | src/core/snapshot_engine.cpp:876-880 | a run cancelled before the first look after the joins never comes to finalizing or publishing |
| `PipelineOutcome.CancelledEarlyStartsNothing` | src/core/snapshot_engine.cpp:543-556 | a run cancelled before the threads are started starts none |
| `PipelineOutcome.CancellationShutsDown` | src/core/snapshot_engine.cpp:543-556 | a cancellation at any moment from the registration of the callback to the end of its scope is carried through: where the run ends an error is recorded, a stop requested, both queues closed and progress cancelled |
| `PipelineOutcome.EveryEventIsReported` | src/core/snapshot_engine.cpp:133-165 | in a run that completes its snapshot, a progress report begins after every entry found, every entry processed, and the end of the scan |
| `Pipeline.WhatJobsBecome` | src/core/snapshot_engine.cpp:681-803 | a worker makes of its job a row of the same kind, or of a file a warning, and nothing else |
| `PipelineBounds.TransactionsAreBounded` | src/core/snapshot_engine.cpp:661-677 | in every state of every run the open transaction stays within the batch limits: at most as many rows as one batch may have, and without its last row fewer bytes than one batch may have; it is committed in between only when a limit has been reached |
| `PipelineBounds.LogicalBytesAddUp` | src/core/snapshot_engine.cpp:617-667 | the bytes of a transaction are the sum of the logical sizes of its entries |
| `PipelineBounds.StoppedQueuesAreFrozen` | src/core/concurrency/bounded_queue.hpp:49-103 | after a stop request no step puts anything into a queue or takes anything out of it |
| `PipelineBounds.CommitsAreWholeAndUnstopped` | src/core/snapshot_engine.cpp:573-677 | whatever any step makes durable is the whole open transaction, after what was durable before, and while no stop was requested |
| `PipelineBounds.ShutdownIsComplete` | src/core/snapshot_engine.cpp:527-538 | in every run that records an error both queues are closed, a stop is requested and progress is cancelled before the run can end |
| `PipelineBounds.ReportsAreDelivered` | src/core/snapshot_engine.cpp:185-220 | when a snapshot is complete no progress report is still due |
| `PipelineBounds.CancelledIsSilent` | src/core/snapshot_engine.cpp:185-220 | once progress has been cancelled no further report is begun |
| `SnapshotWriters.SnapshotWriter.InsertRefs` | src/core/snapshot_engine.cpp:629-655 | the loop over a file's spooled chunks: each is registered, mapped and counted as new or reused, and the counters end up those of the whole list; it fails only on a stop, a refused row, or a counter out of range |
| `SnapshotWriters.SnapshotWriter.InsertProcessed` | src/core/snapshot_engine.cpp:603-659 | one result of the workers becomes exactly its rows, and the counters change by exactly the summary that the pipeline carries |
| `SnapshotCounters.LedgerIsTransactional` | src/core/snapshot_engine.cpp:573-677 | whatever any thread does, the tables change as under a transactional database: an insertion adds the rows of one result to what the writer sees, a commit makes that durable, giving up goes back to what is durable, and no other step changes either |
| `SnapshotCounters.CountersMean` | src/core/snapshot_engine.cpp:611-659 | the counter of new chunks is the number of chunks, over all files, recorded as newly stored; files, directories, links and warnings together are the results |
| `SnapshotCounters.WrittenCountersAreTrue` | src/core/database/metadata_store.cpp:242-292 | rows written without error for a new snapshot can be published, and its row then holds counters that are those recounted from the tables; new plus reused chunks are its mapping rows, and each result is one entry or warning row |
| `SnapshotCounters.PublishedCounters` | src/core/snapshot_engine.cpp:869-886 | in every run that publishes, the counters kept in memory, those recounted from the tables at publication, and the entry, warning and mapping rows there agree, and every emission of the scanner is one row |
| `SnapshotCounters.NewChunksAreNewObjects` | src/core/snapshot_engine.cpp:649-655 | the counter of new chunks is the number of distinct objects that were new to the store, and these are durable, whatever workers, crashes and restarts did |
| `SnapshotCounters.WritingAllSucceeds` | src/core/snapshot_engine.cpp:603-659 | the tables refuse no row of results captured for distinct paths |
| `SnapshotRows.WrittenRowsAreThose` | src/core/snapshot_engine.cpp:597-659 | the entry and warning rows written for a fresh snapshot are those of the results, with their paths, kinds, sizes and hashes and each file's chunk list as it was captured, and no others |
| `SnapshotRows.NewBytesAreFileSizes` | src/core/snapshot_engine.cpp:649-655 | the counter of newly stored bytes is the sum of the sizes of the object files that were new |
| `Objects.ReadVerified` | src/core/storage/object_store.cpp:361-416 | content is returned only with the digest and the length asked for |
| `Objects.ReadVerifiedIff` | src/core/storage/object_store.cpp:361-416 | content is read back exactly if the file decodes to it, file and content have the recorded sizes, within the limits, and its digest is the one asked for |
| `Objects.WarmEqualsCold` | src/core/storage/object_store.cpp:167-245 | for a record that agrees with the file, the cheap lookup gives what reading, decoding and hashing would, for every size asked for |
| `Objects.WarmLookupIff` | src/core/storage/object_store.cpp:167-198 | a cached record is used exactly if it has the size asked for and its file the size recorded; a file that has disappeared or changed size is reported |
| `Objects.CompressedIsReadable` | src/core/storage/object_store.cpp:271-277 | what compression makes of a chunk is within the limits and passes the verified read |
| `Objects.SolidStays` | src/core/storage/object_store.cpp:361-416 | a durable, readable object stays so, with the same content, through everything a running process does and through every power loss |
| `Durability.ActStep` | src/core/storage/object_store.cpp:200-332 | each filesystem step of store keeps the facts of its position: shard directories are durable before any name appears in them, names appear only in the shard whose stripe is held, results are durable and readable |
| `Durability.StepKeepsInvariant` | src/core/storage/object_store.cpp:224-351 | kept by every step of any number of workers and the writer, by failures, by process kills and by power losses that keep any part of what was not flushed |
| `Durability.DurabilityBeforeReference` | src/core/storage/object_store.cpp:224-351 | in every state of every run, with any number of crashes and restarts, a committed chunk row names an object whose bytes, name and shard directory are durable, and that reads back as the same content now and after any power loss |
| `Durability.RegisteringSucceeds` | src/core/database/metadata_store.cpp:609-639 | registering an object that a worker has returned never conflicts with the file or with an existing row |
| `Durability.RegisteredIff` | src/core/storage/object_store.cpp:334-351 | an object is registered exactly if its file has the recorded size and any row that there is agrees; no other row changes |
| `Durability.RowsAreStable` | src/core/database/metadata_store.cpp:609-639 | a committed chunk row is never changed or removed |
| `Durability.RegisteredAndCommittedStays` | src/core/database/metadata_store.cpp:609-639 | an object once returned, registered and committed has its row, with its sizes, in every later state, whatever crashes follow |
| `Durability.NewlyStoredOnce` | src/core/storage/object_store.cpp:283-326 | over all workers and restarts at most one call per digest returns newly_stored |
| `Durability.PublicationNeverCollides` | src/core/storage/object_store.cpp:284-316 | two workers are never inside the same stripe, and the rename always finds the name free |
| `Durability.CacheIsTransparent` | src/core/storage/object_store.cpp:200-245 | no cache exceeds 64 records, and a lookup answered from it equals the cold verified lookup |
| `Durability.StoreHoldsTheChunk` | src/core/storage/object_store.cpp:247-332 | if digests do not collide, the object a call returns decodes to exactly the call's chunk, whether stored, adopted or cached |
| `ObjectStores.ObjectFiles.ReadExact` | src/core/storage/object_store.cpp:108-127 | reads exactly the bytes of the file in 64 KiB pieces; a file that ends early is an error |
| `ObjectStores.ObjectStore.Remember` | src/core/storage/object_store.cpp:353-359 | the cache is emptied rather than grown beyond its bound |
| `ObjectStores.ObjectStore.ReadVerified` | src/core/storage/object_store.cpp:361-416 | the method computes the verified read |
| `ObjectStores.ObjectStore.Store` | src/core/storage/object_store.cpp:247-332 | the whole call is what a worker of the step system does undisturbed; the disk only grows whatever fails, and at most by the chunk's own name; an empty or oversized chunk is refused and changes nothing; a success is durable, readable, the chunk's own, and new exactly if the name was free; and it succeeds if nothing fails and no foreign content has the name |
| `ObjectStores.AloneAchieves` | src/core/storage/object_store.cpp:247-332 | the same of every rest of a call, from any position, with any operation failing |
| `ObjectStores.AloneSucceeds` | src/core/storage/object_store.cpp:247-332 | without failures or cancellation a call succeeds unless a file of its name holds something else |
| `ObjectStores.GenuineStoreTakesAll` | src/core/storage/object_store.cpp:247-332 | a store in which every file is the object of a chunk takes every further chunk if nothing fails and digests do not collide, and remains such a store |
| `Metadata.CompleteSnapshotsStay` | src/core/database/metadata_store.cpp:549-693 | no writer operation touches a complete snapshot's row, entries, mappings or warnings, but for the one that starts deleting it |
| `Metadata.ReadersSeePublicationOnly` | src/core/database/metadata_store.cpp:695-704 | what readers list of a snapshot changes only with the operation that completes it and the one that starts deleting it |
| `Metadata.OpKeepsSound` | src/core/database/metadata_store.cpp:221-693 | references resolve, paths stay unique, ids bounded, and complete snapshots keep full hashes and true counters |
| `Metadata.ChunkRowsStay` | src/core/database/metadata_store.cpp:609-639 | no writer operation changes or removes a chunk row once it is there |
| `Metadata.SnapshotsAreDecidedOnce` | src/core/database/metadata_store.cpp:221-360 | only a pending snapshot is completed, failed or cancelled; completing gives it the recounted counters, failing or cancelling the message and nothing else; deletion begins only from complete; a new snapshot is pending, empty and has an id never used before |
| `Metadata.AcceptedIff` | src/core/database/metadata_store.cpp:221-693 | exactly when each operation of the writer is accepted, spelled out on the tables |
| `Metadata.ReadersGetTheRows` | src/core/database/metadata_store.cpp:695-742 | readers get all rows of a complete snapshot, with every mapping and its chunk row, and nothing of any other |
| `Recovery.CleaningConverges` | src/core/database/metadata_store.cpp:362-510 | no transaction of a recovery changes the database that recovery leads to |
| `Recovery.RecoveredIsClean` | src/core/repository.cpp:755-783 | a recovered database has no pending or deleting snapshot and no rows of failed or cancelled ones |
| `Recovery.RecoveredPassesIff` | src/core/database/metadata_store.cpp:512-547 | it passes the relationship check exactly if the files of complete snapshots are properly hashed |
| `Recovery.RecoveryKeepsWhatIsComplete` | src/core/repository.cpp:755-783 | recovery changes no complete snapshot, no chunk row and nothing a reader sees |
| `Recovery.RecoveryIsIdempotent` | src/core/repository.cpp:746-783 | recovering a recovered database changes nothing |
| `Recovery.HistoriesAreSound` | src/core/database/transaction.cpp:10-30 | every history of transactions, commits, crashes and partial recoveries leaves committed and working tables sound |
| `Recovery.RecoveryConverges` | src/core/repository.cpp:746-783 | after any history that ended in a crash, and any number of interrupted recoveries, a whole recovery ends in the one database that recovering at once would have given; every snapshot's row is then as the next row of this table says; it passes the check and preserves complete snapshots, chunk rows and readers' views |
| `Recovery.RecoveryRowByRow` | src/core/database/metadata_store.cpp:438-461 | what recovery makes of each snapshot: a pending one has failed, with the message for interrupted snapshots and its counters unchanged; failed, cancelled and complete ones stay as they were; those being deleted are gone; none is new; and no transaction of a recovery changes that outcome |
| `Recovery.CheckPassesIff` | src/core/database/metadata_store.cpp:512-547 | of any database: the check passes exactly if references resolve, complete files are properly hashed, and a recovery would find nothing to do |
| `Recovery.TransactionsAreAtomic` | src/core/database/transaction.cpp:10-30 | until its commit nothing of a transaction is in the committed tables, with it everything is, and a crash before it leaves them as they were |
| `Recovery.SnapshotsLiveOnce` | src/core/database/metadata_store.cpp:294-360 | over every history a committed snapshot changes only from pending to complete, failed or cancelled and from complete to deleting; an unsuccessful or deleted one never comes back, and no id is used twice |
| `Repositories.Database.Finish` | src/core/database/transaction.cpp:14-30 | the failure point, the commit, and on either failing the rollback: the committed tables become the working ones or stay |
| `Repositories.Batch` | src/core/database/metadata_store.cpp:185-213 | what one batch deletes: the lowest ids of the snapshot, as many as the limit allows, and all of them if it allows |
| `Repositories.MetadataStore.DeleteAllEntries` | src/core/database/metadata_store.cpp:463-487 | for every positive limit the loop ends; it removes only rows of the snapshot, on success all of them; it fails only for a wrong status or a failing operation |
| `Repositories.MetadataStore.DeleteAllWarnings` | src/core/database/metadata_store.cpp:489-510 | the same for warnings |
| `Repositories.MetadataStore.CleanIncomplete` | src/core/database/metadata_store.cpp:463-510 | removes exactly the rows of a failed or cancelled snapshot; refuses limits outside the signed 64-bit range |
| `Repositories.MetadataStore.DeleteDeleting` | src/core/database/metadata_store.cpp:362-425 | resumes a deletion to the removal of the snapshot; interrupted, it has removed only rows of it |
| `Repositories.MetadataStore.MarkStalePendingFailed` | src/core/database/metadata_store.cpp:438-461 | a pending snapshot becomes failed, with the message for interrupted snapshots and its counters unchanged, in one transaction or not at all; any other is refused, or left alone |
| `Repositories.Repository.RecoverListed` | src/core/repository.cpp:755-778 | the loop over the incomplete snapshots ends in the recovered database, and on any failure still leads there |
| `Repositories.Repository.ClearTemporary` | src/core/repository.cpp:388-470 | leaves in the temporary tree only what is still shared and the two directories that belong there, recreated if missing, and says whether it is bare; fails if something else stands in their place |
| `Repositories.Repository.RecoverAfterWriterLock` | src/core/repository.cpp:746-783 | recovers to exactly the recovered database, which row by row is as Recovery.RecoveryRowByRow says; counts as complete exactly if nothing temporary was left; without failures succeeds if and only if the check passes and nothing stands in place of a temporary directory |
| `Capturing.Input.Read` | src/core/storage/chunker.cpp:59-62 | a read notices the end only by reading beyond it |
| `Capturing.Attempt.OnChunk` | src/core/snapshot_engine.cpp:717-741 | hashes, stores, counts and records one chunk; it fails only on a stop, a failing call of the store, or a size or count out of range |
| `Capturing.Attempt.ForEachChunk` | src/core/storage/chunker.cpp:47-88 | the chunk list describes exactly the content of the stream, for every limit and length; only the last chunk is shorter than the limit; a read error is reported exactly when there is one; all other failures have their cause in a stop, the store, or the range of sizes |
| `Capturing.CaptureFile` | src/core/snapshot_engine.cpp:694-790 | the first attempt that found the file stable is captured, with all of its content; a warning takes the file's place only if none did, and says why the last attempt failed; only a stop, a failing call of the store or a file out of range is fatal, so where none of these occurs a file is captured exactly if an attempt finds it stable |
| `Capturing.StableMeaning` | src/core/filesystem/platform/file_metadata.hpp:19-23 | a file has held still exactly if it could be read and described before and after, has the length it was said to have, and nothing but its mode has changed |
| `Capturing.DescriptionStays` | src/core/snapshot_engine.cpp:717-741 | a recorded chunk list stays true through everything the store and power losses do |
| `Reassembly.ValidateChunks` | src/core/restore_engine.cpp:475-503 | accepts exactly the chunk lists that cover the file: numbered from zero, contiguous, within the limits, ending at its size |
| `Reassembly.RecordedListsValidate` | src/core/restore_engine.cpp:461-503 | every chunk list the engine records passes validation; the writer's bound on compressed sizes never exceeds the reader's |
| `Reassembly.MaximumStoredSize` | src/core/restore_engine.cpp:461-473 | the reader's bound is the size, an eighth of it and 64 KiB, without wrap-around: it saturates at the largest 64-bit value |
| `Reassembly.WrittenIsListed` | src/core/database/metadata_store.cpp:668-742 | what is written for an entry is what readers list, in order |
| `Reassembly.WritingSucceeds` | src/core/snapshot_engine.cpp:629-647 | writing the rows of a captured file violates no constraint of the schema |
| `Reassembly.RoundTrip` | src/core/restore_engine.cpp:628-654 | the rows of a captured file are listed back, accepted, and reassembled to exactly the bytes read, after any number of later steps and power losses |
| `Ignoring.MatchComponent` | src/core/filesystem/ignore_rules.cpp:52-82 | the loop, which ends by a lexicographic measure, computes the matcher's answer as a function; that answer is a match whenever it is true, and for every pattern of whole characters exactly the recursive definition; when literals count as equal is the matter of the next rows |
| `Ignoring.EqualLiteralMeaning` | src/core/filesystem/ignore_rules.cpp:24-34 | literals are equal exactly if they are the same byte or, where case is ignored, the two cases of one ASCII letter |
| `Ignoring.CaseIsIgnored` | src/core/filesystem/ignore_rules.cpp:24-82 | where case is ignored, changing the case of any ASCII letters of the pattern or the name changes no answer of the matcher |
| `Ignoring.PlainMatchesItself` | src/core/filesystem/ignore_rules.cpp:24-82 | a pattern without wildcards matches itself and nothing else, and where case is ignored exactly the names that differ from it in the case of letters only |
| `Ignoring.RunMeaning` | src/core/filesystem/ignore_rules.cpp:52-82 | soundness for all patterns and names, and exactness for every pattern of whole characters, in particular every well-formed one, and every name |
| `Ignoring.NewStar` | src/core/filesystem/ignore_rules.cpp:63-65 | in a pattern of whole characters the earlier star need never be reconsidered when a further one is reached |
| `Ignoring.FallBack` | src/core/filesystem/ignore_rules.cpp:70-73 | on a mismatch the last star takes one more character and nothing is missed |
| `Ignoring.WalksKeepOrder` | src/core/filesystem/ignore_rules.cpp:36-50 | matching the same star-free stretch from a later character never ends earlier, although characters differ in length |
| `Ignoring.MatchPath` | src/core/filesystem/ignore_rules.cpp:84-108 | asks for each pair of components; it never finds a match that is none, and for patterns of whole characters matches exactly when both paths have equally many components and each matches |
| `Ignoring.PathMatchesMeaning` | src/core/filesystem/ignore_rules.cpp:84-108 | component-wise matching, spelled out over all components |
| `Ignoring.NormalizeSeparators` | src/core/filesystem/ignore_rules.cpp:14-22 | replaces every backslash and nothing else |
| `Ignoring.NormalizedMeaning` | src/core/filesystem/ignore_rules.cpp:14-22 | the result differs from the text in separators only and has no backslash; and two texts become the same exactly if they differ in separators only |
| `Ignoring.SeparatorsAreAlike` | src/core/filesystem/ignore_rules.cpp:115-178 | lines that differ in separators only mean the same rule |
| `Ignoring.PathSeparatorsAreAlike` | src/core/filesystem/ignore_rules.cpp:84-195 | paths that differ in separators only are ignored alike |
| `Ignoring.ParseLine` | src/core/filesystem/ignore_rules.cpp:167-178 | a rule is never empty, and is a name-only rule exactly if it contains no separator |
| `Ignoring.ParseLineMeaning` | src/core/filesystem/ignore_rules.cpp:115-178 | what a line of the file means: plain text is a rule for names or for whole paths according to whether it holds a separator, one trailing separator of either kind confines it to directories, a trailing carriage return is dropped, a leading hash makes it a comment |
| `Ignoring.IgnoreRules.MatchRules` | src/core/filesystem/ignore_rules.cpp:182-195 | ignored exactly when the matcher says so of some rule, then always because one applies, and for rules of whole characters whenever one does; pruned exactly when also a directory |
| `Ignoring.NameOnlyMatchesLast` | src/core/filesystem/ignore_rules.cpp:110-113 | a rule without a separator applies by the path's last component |
| `Utf8.IsValidUtf8` | src/core/filesystem/file_scanner.cpp:42-80 | accepts exactly the concatenations of encodings of Unicode scalar values (section 4 of RFC 3629) |
| `Utf8.ValidIsEncoded` | src/core/restore_engine.cpp:66-103 | everything accepted is the encoding of what it decodes to |
| `Utf8.EncodedIsValid` | src/core/restore_engine.cpp:66-103 | everything encoded is accepted and decodes to what was encoded |
| `Utf8.WellFormedPatternsAreExact` | src/core/filesystem/ignore_rules.cpp:36-108 | for well-formed patterns both matchers are exact |
| `Exactness.ExactIff` | src/core/filesystem/ignore_rules.cpp:52-82 | for every pattern that is not both pinned and loose: the matcher is right about all valid names if and only if the pattern is not broken, which is decided by the pattern alone |
| `Exactness.SoundIsExact` | src/core/filesystem/ignore_rules.cpp:63-73 | for a pattern neither broken nor loose the matcher answers exactly the recursive definition, on every valid name |
| `Exactness.BrokenMisses` | src/core/filesystem/ignore_rules.cpp:63-73 | for every broken pattern there is a valid name that matches and is missed |
| `Exactness.LooseIsPinned` | src/core/filesystem/ignore_rules.cpp:52-82 | a pattern that is loose without being broken begins, before its first star, with a stretch that ends inside a character in which what follows goes on |
| `Exactness.MissExample` | src/core/filesystem/ignore_rules.cpp:59-73 | a concrete pattern and a valid name that it matches and the matcher misses |
| `Exactness.LooseExample` | src/core/filesystem/ignore_rules.cpp:59-73 | a concrete pattern that is not broken, and a valid name that it matches and the matcher misses: looseness cannot be left out of account |
| `Exactness.RulesAreExact` | src/core/filesystem/ignore_rules.cpp:182-195 | rules whose components are neither broken nor loose ignore exactly the valid paths they apply to |
| `Scanning.FileScanner.Directory` | src/core/filesystem/file_scanner.cpp:209-295 | the recursive loop emits what the scan function says, after what was emitted before |
| `Scanning.FileScanner.Child` | src/core/filesystem/file_scanner.cpp:227-284 | the same for one entry and what is below it: an entry, a warning, or nothing; which, and what the warning says, is the matter of the next rows |
| `Scanning.JudgeMeaning` | src/core/filesystem/file_scanner.cpp:231-267 | exactly when an enumerated entry is captured, and as what; exactly when it is refused, with which code and under which path; and exactly when it is passed over, which is only if it is ignored or hidden |
| `Scanning.ScanIsExact` | src/core/filesystem/file_scanner.cpp:209-372 | emits the root and exactly those places every node of whose way is enumerated, not ignored, and captured, all but the last as a directory |
| `Scanning.WarningsAreExact` | src/core/filesystem/file_scanner.cpp:209-295 | a warning is emitted exactly about each place, reached through captured directories, whose node cannot be captured for the reason the warning gives, and about each captured directory, the root included, whose enumeration fails |
| `Scanning.NothingIsLost` | src/core/filesystem/file_scanner.cpp:209-295 | every node reached through captured directories is emitted as an entry, warned about, or passed over because it is ignored or hidden, and only one of these |
| `Scanning.ScanIsOnce` | src/core/filesystem/file_scanner.cpp:209-372 | about no place are there two entries, or two warnings |
| `Scanning.ScanParentsFirst` | src/core/filesystem/file_scanner.cpp:267-279 | the root comes first, and every other entry after the directory that holds it |
| `Scanning.CapturedIsNotIgnored` | src/core/filesystem/file_scanner.cpp:249-254 | nothing is emitted that is ignored or lies below something ignored |
| `Scanning.OnlyDirectoriesAreEntered` | src/core/filesystem/file_scanner.cpp:272-278 | links, and all else not captured as a directory, are never entered |
| `SnapshotShape.CompleteSnapshotsAreClosed` | src/core/snapshot_engine.cpp:692-803 | every complete snapshot has exactly one root and no emission twice, and with every other entry the directory that holds it |
| `SnapshotShape.CompleteSnapshotsCanBeRestored` | src/core/restore_engine.cpp:208-229 | what is listed of a complete snapshot is what a restore insists on and relies on: one root, a directory; safe, distinct paths; nothing but directories above any entry; every parent listed |
| `SnapshotShape.NothingIsLeftOut` | src/core/snapshot_engine.cpp:692-803 | of every node the scan finds, unless ignored or hidden, a complete snapshot has a row: of its entry, or of a warning |
| `Selection.ValidateEntries` | src/core/restore_engine.cpp:208-229 | accepts exactly entry lists with one root, a directory, and otherwise safe paths |
| `Selection.SafePathIff` | src/core/restore_engine.cpp:173-188 | among paths of nonempty valid names the safe ones are exactly those that lead, at every depth, to the place they name |
| `Selection.IsComponentPrefix` | src/core/restore_engine.cpp:194-206 | decides whether one path is at or above another |
| `Selection.SelectEntries` | src/core/restore_engine.cpp:251-319 | a nonempty request succeeds exactly if its paths are safe and known and everything to be selected has directories for ancestors; the selection then holds each selected entry once, the root first, and nothing else |
| `Selection.SelectionClosure` | src/core/restore_engine.cpp:273-310 | selected are exactly the root, the requested entries, the descendants of requested directories and the ancestors of requested entries |
| `Selection.SelectedAreAnchored` | src/core/restore_engine.cpp:297-310 | all ancestors of a selected entry are selected, as directories |
| `Requests.SelectionIsChosen` | src/core/restore_engine.cpp:251-319 | said of the listing alone: a selection for a nonempty request has exactly the root, the requested paths, what is below requested directories and the ancestors of requested paths, each with its own entry and once |
| `Requests.CanAnswerIff` | src/core/restore_engine.cpp:262-310 | a request to a listing as complete snapshots have it can be answered exactly if the requested paths are safe and in it |
| `Requests.PlanningIff` | src/core/restore_engine.cpp:251-445 | planning a request succeeds exactly if no entry asked for, and not below a skipped directory, makes it fail |
| `Requests.PlanOfRequest` | src/core/restore_engine.cpp:251-445 | the plan then has exactly the entries asked for, each once, shallower ones first, and each with the action that destination and policy call for |
| `RestorePlan.BuildPlan` | src/core/restore_engine.cpp:402-445 | the loop over the sorted entries succeeds, fails and acts exactly as the next row says |
| `RestorePlan.PlanMeaning` | src/core/restore_engine.cpp:368-443 | planning fails if and only if some entry not below a skipped directory cannot be reached through real directories, or meets something in the way where the resolver cancels or where a replacement is wanted that involves a directory, and with the error of the first such entry; otherwise what is absent is created, a directory merged with, and what is in the way replaced or skipped as policy and resolver want |
| `RestorePlan.OverwritingIsPlanned` | src/core/restore_engine.cpp:368-443 | where only files and links are in the way of files and links, below real directories, and a replacement is wanted, planning succeeds and replaces every one |
| `RestorePlan.ReachableIff` | src/core/restore_engine.cpp:336-358 | in a real destination an entry cannot be reached exactly if a link or a file is among its ancestors |
| `RestorePlan.ByDepthIsOrdered` | src/core/restore_engine.cpp:405-411 | no entry comes before a shallower one |
| `RestorePlan.ByDepthIsSorted` | src/core/restore_engine.cpp:405-411 | the sort orders by depth and then by the bytes of the written path, and keeps the entries |
| `RestorePlan.PlanIsJustified` | src/core/restore_engine.cpp:368-443 | every action of a plan has its reason in the policy and what is at the destination: created only where nothing is, merged only into a real directory, replaced only what is no directory and only as the policy or the resolver allows, skipped only for a conflict or below a skipped directory |
| `RestorePlan.SubtreeIsSkipped` | src/core/restore_engine.cpp:421-431 | the subtree of a skipped directory is skipped as a whole |
| `RestorePlan.PlanIsSkipClosed` | src/core/restore_engine.cpp:402-445 | each entry not skipped comes after all its selected ancestors, none of which is skipped, provided these are directories |
| `RestorePlan.SkipClosedIff` | src/core/restore_engine.cpp:402-445 | that holds for every destination and policy if and only if every selected ancestor of a selected entry is a directory |
| `RestorePlan.NotAlwaysClosed` | src/core/restore_engine.cpp:439-441 | with a selected file above a selected entry there is a destination where the file is skipped and the entry restored |
| `RestorePlan.SkippedAncestorExample` | src/core/restore_engine.cpp:439-441 | a concrete snapshot and destination where this happens |
| `RestorePlan.RequestedSelectionsAreClosed` | src/core/restore_engine.cpp:297-310 | a request that names paths always yields a selection of the good kind |
| `RestoreRun.Run.Collect` | src/core/restore_engine.cpp:629-654 | yields only content of the recorded length and digest, and yields it whenever the rows reassemble to such content |
| `RestoreRun.Run.Publish` | src/core/filesystem/platform/posix_file_metadata.cpp:295-325 | replaces only what was planned to be replaced, and otherwise publishes only where nothing is; what is then there, and whether it counts as published, is exactly said; without failures it succeeds exactly if it can |
| `RestoreRun.Run.RestoreFile` | src/core/restore_engine.cpp:616-680 | whatever fails and whatever the store holds, the destination changes only by a verified file of the recorded length; normal completion is exactly one step of the accounting: the entry is in place and counted, or it is reported; without failures it completes exactly if the entry can be restored, and the bytes counted are the file's |
| `RestoreRun.Run.RestoreDirectory` | src/core/restore_engine.cpp:594-614 | the destination changes only by the planned directory; normal completion is exactly one step of the accounting: the entry is in place and counted, or it is reported; without failures it completes exactly if the entry can be restored |
| `RestoreRun.Run.RestoreLink` | src/core/restore_engine.cpp:682-715 | the destination changes only by the recorded link; normal completion is exactly one step of the accounting: the entry is in place and counted, or it is reported; without failures it completes exactly if the entry can be restored |
| `RestoreRun.Run.MetadataPass` | src/core/restore_engine.cpp:717-739 | deepest first, each directory not skipped once, and it is a real directory at the end; every failing one is reported and warned of; without failures it completes exactly if all are there |
| `RestoreRun.Run.Execute` | src/core/restore_engine.cpp:594-743 | however it ends, nothing disappears and everything at the destination is explained, only a replacement displacing anything; on normal return the destination, the counters of files, directories, links and bytes, the reports, the warnings and the order of the metadata pass are exactly those of the plan; where no operation fails it returns normally if and only if it can |
| `RestoreRun.FairKeepsTrees` | src/core/restore_engine.cpp:336-358 | however a restore ends, and whatever other programs put where it publishes, a real destination remains one: every item is in a real directory, so nothing is ever put below a link or a file |
| `RestoreRun.PassesOverlay` | src/core/restore_engine.cpp:594-715 | after the three passes every entry not skipped is at the destination as the snapshot says, unless another program was there first, nothing else has changed, and the counters are those of what was restored |
| `RestoreRun.EveryEntryIsAccountedFor` | src/core/restore_engine.cpp:594-743 | on normal return restored entries and reports add up to the plan plus the metadata warnings |
| `RestoreRun.EveryEntryIsInPlaceOrReported` | src/core/restore_engine.cpp:594-743 | on normal return every planned entry is at the destination as the snapshot says, or reported |
| `RestoreSuccess.FinishesIff` | src/core/restore_engine.cpp:594-743 | a plan that fits the destination is carried out to its end, where no operation fails, if and only if everything in it that is not skipped can be made |
| `RestoreSuccess.PlansFit` | src/core/restore_engine.cpp:402-445 | every plan made for a good listing and a destination fits that destination |
| `RestoreEngine.Restore` | src/core/restore_engine.cpp:545-744 | on normal return the plan is for exactly what was asked, a whole snapshot or a request by paths, and destination, counters and reports are exactly those of the plan; where no operation fails it returns normally if and only if the listing is valid, the request can be answered and planned, and what is not left out can be made; into an empty destination, undisturbed, it then rebuilds exactly what was asked for; and however it ends, a real destination remains one |
| `RestoreEngine.CheckFiles` | src/core/restore_engine.cpp:239-249 | accepts exactly selections whose files have a hash and rows that cover them |
| `RestoreEngine.Choose` | src/core/restore_engine.cpp:564-578 | validation and selection succeed if and only if the listing is valid, the request can be answered and the files asked for are hashed and covered; they then yield exactly what was asked for |
| `RestoreEngine.FinishedIsRebuilt` | src/core/restore_engine.cpp:594-743 | a restore into an empty destination that returns normally has put there exactly what the entries asked for say, and nothing else |
| `RestoreEngine.RestoredIsCaptured` | src/core/restore_engine.cpp:628-654 | if digests do not collide, the rows of a captured file pass the checks before a restore and lead to exactly the content that was read, after any number of later steps and power losses, and nothing else is accepted as that file |
| `ProgressRate.ProgressAggregator.Emit` | src/core/snapshot_engine.cpp:273-290 | with a clock that never goes back, no half-open second contains more than ten callbacks or more than four that were not required; a callback is withheld only if the last second is full |
| `ProgressRate.ProgressAggregator.Prune` | src/core/snapshot_engine.cpp:278-281 | what is a second old leaves the deque |
| `ProgressRate.OneMoreKeepsRate` | src/core/snapshot_engine.cpp:282-288 | the deque bounds every second that contains the new callback |
| `Timestamps.AcceptedPairs` | src/core/filesystem/platform/posix_file_metadata.cpp:34-50 | which pairs of seconds and nanoseconds are accepted, and that they become the instant they denote |
| `Timestamps.RestoredModificationTime` | src/core/filesystem/platform/posix_file_metadata.cpp:61-78 | the pair that denotes the instant, with a nonnegative nanosecond part |
| `Timestamps.PairRoundTrip` | src/core/filesystem/platform/posix_file_metadata.cpp:34-78 | an accepted pair comes back unchanged, before the epoch too |
| `Timestamps.InstantRoundTripIff` | src/core/filesystem/platform/posix_file_metadata.cpp:34-78 | the converse round trip holds exactly from -9223372036 s on |
| `Timestamps.AcceptedTicks` | src/core/filesystem/platform/win32_file_metadata.cpp:105-133 | which FILETIME values are accepted, and that they become the instant they denote |
| `Timestamps.RestoredFiletime` | src/core/filesystem/platform/win32_file_metadata.cpp:135-149 | the tick value of an instant, without overflow or underflow for any signed 64-bit instant |
| `Timestamps.TicksRoundTrip` | src/core/filesystem/platform/win32_file_metadata.cpp:105-149 | an accepted tick value comes back unchanged |
| `Timestamps.NanosecondsRoundTripIff` | src/core/filesystem/platform/win32_file_metadata.cpp:105-149 | the converse round trip holds exactly for multiples of a tick |

## Left out

- The internals of BLAKE3 and zstd: foreign libraries, represented by `Objects.Codec`.
- SQLite itself, its pragmas and the SQL text: tables are maps with the constraints of
  src/core/database/migrations.cpp:28-92, and a statement is one function on them.
- Durability on Windows: flushing a directory does nothing there, so durability is stated for POSIX.
- Creating and opening repositories, schema validation, locks, permissions and filesystem classification.
- Symbolic links, non-regular files and unreadable files inside the object directories: an object path
  holds a regular file or nothing.
- The object path stored with a chunk row: it is a function of the digest here.
- Repositories.Repository.ClearTemporary: what is below a path that is removed goes with it in one
  operation, and what an interrupted removal leaves is not described.
- SnapshotWriters.SnapshotWriter.InsertRefs: the check of the object file that precedes the registration of
  a chunk is in the writer's step of `Durability`, not in the loop on the tables.
- The `store` path of an object store bound to the database, which looks chunks up in the database first:
  the pipeline's workers use stores without one, and the writer only registers objects.
- Bit rot: the durability theorems are about what crashes can do. That corrupted objects are detected is
  in the contracts of the verified read and of the restore.
- Completion times, durations, messages and the bytes of the spool file between worker and writer: the
  chunk list is a sequence.
- The database cleanup that follows a failed snapshot in the same process is not a step of the pipeline:
  it is made of the transactions of `Recovery`, which may happen at any time between others.
- The atomic counters behind progress events and the contents of those events.
- Metadata.OpKeepsSound: assumes that the one writer inserts rows only for the pending snapshot it has
  created, as src/core/snapshot_engine.cpp:500-660 does; `insert_entry` itself does not check the status.
- Exactness.ExactIff: leaves out the patterns that are both `Pinned` and `Loose`. Whether such a pattern
  misses a name depends on how its literals overlap with themselves; `Exactness.BrokenMisses` holds for them
  too, and so does soundness.
- Exactness.SoundIsExact: speaks of valid UTF-8 names, the only ones the scanner asks about; with malformed
  names further patterns miss some.
- Selection.SelectEntries: the order of the selected entries after the root is left open; the plan sorts them.
- RestoreRun.Run.Publish: other programs are represented by what they may put at a path where nothing was
  before the restore publishes there; they do not remove or change anything during a restore.
- RestoreRun.Run.Execute: the temporary files beside the destination are not part of the destination map.
- RestoreEngine.CheckFiles: digests are values here, not text; a stored hash that is no 64 lower-case hexadecimal
  digits stands as a missing one.
- RestoreRun.Run.MetadataPass: which times, permissions and attributes are set is left out; what is modelled is on
  which directories, in which order, and what becomes of failures.
- Scanning.ScanIsExact: the verdict of the ignore rules on a path is a function parameter; what that
  verdict is is the contract of `Ignoring.IgnoreRules.MatchRules`.
- Scanning.FileScanner.Directory: the tree does not change during the scan; and an emission carries the place it
  is about, the way from the root by positions, which the events of the engine do not.
- Timestamps.RestoredFiletime: the split of the tick value into two 32-bit halves is left out.
- The containment checks between destination and repository, and path arithmetic of the host: a stored
  path is the list of its components.
