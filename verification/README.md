# YumeDisk: verified models of its stateful cores

YumeDisk makes remote or local storage appear as a Windows disk. These Dafny modules model the parts of it in
which bytes can be lost or confused, and prove what the parts promise. `dafny verify dfyconfig.toml` checks
everything.

## The write-back block cache (`cache/src`)

Foreground threads read and write byte ranges block by block; one flush worker copies dirty blocks to temp files
and from there to a remote store. The newest bytes of a block may be in a resident entry, in a temp file or in the
remote store, and they move between these places while the mutex is not held.

| module | what it holds |
|---|---|
| `Resident`, `CacheModel` | the lock-held sections as functions on the guarded state and the temp directory |
| `CacheSystem` | the interleaving step machine: any number of threads, the worker, failing I/O between the locks |
| `CacheCells` | the state projected to one block, the fifteen moves a step can make on it, the invariant of one block |
| `CacheInvariant`, `CacheSteps`, `CacheSafety` | every step is one move per block; the invariant of the whole system |
| `CacheRefinement` | every run is a run of an atomic block device |
| `CacheGuarantees`, `WriteBackOrder`, `Draining` | agreement of copies, ownership, temp slots, versions, termination |
| `CacheOutcomes`, `CacheProgress` | what is decided when, why operations fail, and that they complete |
| `QueueOrder`, `CacheQueues` | the replacement policy over runs of the table, and in every reachable state of the cache |
| `CacheStates`, `TwoQueue`, `IndexedLists`, `Temp` | the classes with their fields updated in place, equal to those functions |
| `BlockLayout`, `Requests` | range splitting, and whole requests followed through a run, on one flat byte array |
| `LostSnapshots` | a run that ends with a lost snapshot |

How the layers meet: a method of `CacheStates` computes exactly the function of the same name in `CacheModel`;
`CacheSystem` interleaves these functions with the unlocked actions; the refinement theorem is about
`CacheSystem`. A failing remote write may leave arbitrary bytes in its block (`PartialWriteStep`). The window in
which the temp file of a flushed block is already removed and the state still names it is a worker position of
its own (`FlushFinish` with `flushed`); there the remote content is the newest copy.

What the proofs show about the code, beyond that it works:

* A write to a temp file replaces an old one by renaming it to a backup name first. When the rename into place and
  the rename back both fail, the block has no temp file (`Temp.LostFileExample`; the exact condition is
  `Temp.TempStore.FailedWriteKeepsFilesIff`). If that block was snapshotted, its snapshot is lost. The view is
  still right, because the block is dirty in memory, but the worker alone can never drain it:
  `Draining.DrainsIffNothingLost`, and `LostSnapshots.LostSnapshotReached` for a run that gets there. Any other
  failure only delays draining: `Draining.DrainsDespiteFailures`.
* `is_quiescent` implies that the remote store holds everything. The converse direction, that the worker gets there,
  is the drain theorem.

## Write staging (`windows/BackendRust/src`)

`Staging`, `StagingRuns` and `StagingRuntime`. Hosts read the media overlaid by staged fragments in the order in
which they were staged; a commit writes the fragments of one event in the order of their sequence numbers. These
orders may differ, so a successful commit does not keep the view in general: `StagingRuns.OutOfOrderCommitExample`
is a run in which it changes a byte, and `Staging.CommitKeepsViewIff` is the exact condition. A failed commit
always keeps the view. Which order of commits the kernel side uses is not part of this model; it is the condition.
The saturating range check matters only for a disk of 2^64-1 bytes (`Staging.OverflowAcceptedIff`), which the
other theorems exclude.

## Sessions, correlation, event queues

* `Sessions`, `SessionManagers`: leases of the session manager over all runs. The in-flight counter has 32 bits;
  `Sessions.CounterWrapDeletesIff` says when that matters, and `Sessions.WrappedCountAdmitsSecond` that a run gets
  there and then lets two sessions do I/O at once under the exclusive manager.
* `RpcCorrelation`: callers, responses, timeouts and disconnect on a storer link, each critical section and each
  channel operation a step.
* `EventQueue`: the growable rings of AppKernel. `Head + Count` is a 32-bit sum, exact at every position if and only
  if the capacity is at most 2^31 (`EventQueue.SlotsExactIff`); contents are stated under that condition.

## The write path from client to server

`Wire`, `DataPlane` and `WritePath` join the Rust encoder and framing with the Go framing and parser. Each
side has a compression library of its own, an abstract pair of functions; they may compress differently, and the
round trips assume only that the receiving library undoes the sending one.
`io.ReadFull` reports a plain end of file when nothing follows the size of a frame, so the server takes a stream
that is cut right behind a size for a proper end: `WritePath.SplitIff`.

## Model

| member | source | states |
|---|---|---|
| `CacheRefinement.FreshCacheRefinesDevice` | cache/src/cache/mod.rs:213-406 | From `Cache::new`, every run with any interleaving of threads and worker and any I/O failures is explained by an atomic block device that starts as the remote store: each finished read returns what the device holds at that step, each finished write changes exactly its bytes, and no other step changes anything |
| `CacheRefinement.RunRefinesDevice` | cache/src/cache/mod.rs:213-406 | The same from every state that satisfies the invariant |
| `CacheRefinement.StepRefinesDevice` | cache/src/cache/worker.rs:204-255 | One step: loads, spills, rehydrations, promotions, evictions, flushes, rollbacks and failed operations leave the view as it was; only a finished write moves it |
| `CacheRefinement.WriteEventIsMove` | cache/src/cache/mod.rs:479-513 | A step carries a write into a block exactly when it reports that write as done: no write lands unreported, none is reported and lost |
| `CacheRefinement.DoneIsOnView` | cache/src/cache/mod.rs:453-477 | A finished read returns the bytes of the view; the block of a finished operation is one the remote store has |
| `CacheRefinement.QuiescentRemoteIsView` | cache/src/cache/mod.rs:116-147 | When `is_quiescent` holds, the remote store is the whole view |
| `CacheCells.MoveKeepsInv` | cache/src/cache/worker.rs:204-255 | Each of the moves a step can make on one block keeps the invariant tying entry, spilled mark, claim, temp file, remote content and the position of the worker together, including the window in which the file is gone and the state still names it |
| `CacheCells.MoveView` | cache/src/cache/mod.rs:213-406 | A move changes the newest content of a block only when a write reaches the resident bytes, and then by exactly its bytes |
| `CacheSafety.NextMoves` | cache/src/cache/mod.rs:611-697 | Every step acts on every block by exactly the move named for it, and that move is allowed there |
| `CacheSafety.NextKeepsInv` | cache/src/cache/mod.rs:213-406 | Every step keeps the invariant of the whole system |
| `CacheSafety.InitialInv` | cache/src/cache/mod.rs:66-105 | A new cache satisfies the invariant, whatever the remote store and the temp directory hold |
| `CacheSafety.RunKeepsInv` | cache/src/cache/mod.rs:213-406 | The invariant holds after every run |
| `CacheSafety.RunHasNoInternalFailure` | cache/src/cache/worker.rs:61-101 | No run yields an invariant violation, an existing-block error, a failed debug assertion or a worker panic: operations fail only for failed temp or remote I/O or the stop request |
| `CacheOutcomes.PlanTable` | cache/src/cache/mod.rs:453-697 | Exactly when a planning turn is done, waits and for what, fails, or fetches and from where, told on residency, claims, the head of the full FIFO queue and the slots in use |
| `CacheOutcomes.FailureHasCause` | cache/src/cache/mod.rs:213-406 | In every run from a new cache each operation that fails other than by the stop request has an I/O failure of its own: the temp write of its last turn, or the fetch its thread made just before; or the remote store lacks its block |
| `CacheOutcomes.HealthyRunNeverFails` | cache/src/cache/mod.rs:213-406 | In every run in which no fetch and no temp write of a thread fails, nobody stops the cache and operations name blocks of the remote store, no operation fails, whatever the worker meets |
| `CacheProgress.ThreadsNeverStuck` | cache/src/cache/mod.rs:213-406 | A busy thread can always take its next step, with or without a failure, and an idle one can begin any piece |
| `CacheProgress.UndisturbedOpCompletes` | cache/src/cache/mod.rs:213-406 | From any state of the invariant with nothing else under way, and a slot left if one is needed, an operation returns within four steps: a read with the bytes of the view, a write as done |
| `CacheProgress.FlushStepEffects` | cache/src/cache/worker.rs:214-241 | What each step of a flush does, with and without a failure, beside any threads |
| `CacheProgress.QuiescentIff` | cache/src/cache/state.rs:58-68 | In every reachable state `is_quiescent` holds exactly if no stop was requested, no thread waits for a slot or fetches, the worker is not flushing, and no block is dirty or has a temp file |
| `CacheSafety.FetchedBlockStays` | cache/src/cache/mod.rs:699-727 | While a block is being fetched, no step but the last one of its own fetcher touches any of its copies |
| `CacheInvariant.SlotResult` | cache/src/cache/mod.rs:611-697 | Making room fails only when the temp write fails, leaves the FIFO queue with room when it succeeds, and only takes blocks out |
| `CacheSteps.MissHasForm` | cache/src/cache/mod.rs:515-609 | A miss ends in a wait, a temp failure, or a placeholder whose source is the temp file exactly when the block is spilled |
| `CacheSteps.HitHasForm` | cache/src/cache/mod.rs:453-513 | A hit never fails: it returns the bytes or patches them, and besides loses at most the promotion victim from the table |
| `CacheSteps.RemoteFetchHasForm` | cache/src/cache/mod.rs:243-276 | The end of a remote load installs the bytes with the queued patch over them and returns them, or takes the placeholder back out and reports the read failure |
| `CacheSteps.TempFetchHasForm` | cache/src/cache/mod.rs:277-307 | The end of a rehydration moves the temp file from the spilled mark to a snapshot and drops the claim, or rolls both back to a spilled block |
| `CacheSteps.ScanNextForm` | cache/src/cache/worker.rs:118-150 | A pass of the worker claims the least idle spilled block, else the least idle snapshotted one, else tries one snapshot, and never fails |
| `CacheSteps.EndFlushHasForm` | cache/src/cache/worker.rs:204-255 | The end of a flush never fails and gives up exactly the claim and, when flushed, the spilled mark or snapshot |
| `CacheGuarantees.ReachableAgreement` | cache/src/resident/mod.rs:353-408 | In every reachable state a ready block agrees, at each byte outside its dirty ranges, with its snapshot file while it has one and with the remote content otherwise; the one exception is a snapshot whose file was lost, and then the block is dirty |
| `CacheGuarantees.NoLostFileNoLostSnapshot` | cache/src/temp.rs:66-81 | Without a double rename failure the exception above never occurs |
| `CacheGuarantees.DroppedBlockIsRemote` | cache/src/resident/mod.rs:672-738 | A block that leaves the table without being spilled, by promotion or as a clean victim, equals its remote content |
| `CacheGuarantees.ClaimHasOneOwner` | cache/src/cache/worker.rs:122-147 | A block is in `active_temp_blocks` if and only if the worker or exactly one rehydrating thread owns it, never both; it is then spilled or ready with a snapshot |
| `CacheGuarantees.ClaimedTempStays` | cache/src/cache/mod.rs:619-621 | While a temp file is claimed no step overwrites or loses it, only the removal by the worker deletes it, and its resident block is not evicted |
| `CacheGuarantees.RemoteStableWhileLoading` | cache/src/cache/mod.rs:515-557 | While a block is loading from the remote store no step changes its remote content and no flush targets it |
| `CacheGuarantees.ReachableSlots` | cache/src/cache/mod.rs:650-694 | In every reachable state `temp_file_count` is at most `temp_max_files` and the waiter count is the number of threads holding the flag |
| `CacheGuarantees.SlotsConserved` | cache/src/cache/mod.rs:650-694 | Rehydrating, and spilling a block that already has a snapshot, keep `temp_file_count` |
| `CacheGuarantees.SlotWaitIsFull` | cache/src/cache/mod.rs:650-652 | A thread is told to wait for a temp slot only when all slots are in use |
| `CacheGuarantees.SlotWaitHasProgress` | cache/src/cache/mod.rs:408-433 | A thread told to wait for a temp slot leaves a claimed temp file or one the next pass of the worker selects |
| `CacheGuarantees.WaitHasCause` | cache/src/cache/mod.rs:515-557 | A thread told to wait for another reason leaves the worker inside a flush or another thread inside a fetch |
| `CacheGuarantees.WorkerLeavesSlotsToWaiters` | cache/src/cache/worker.rs:157-162 | While a thread waits for a slot the worker takes none; its steps only free one, by a completed flush |
| `WriteBackOrder.MoveKeepsOrder` | cache/src/cache/worker.rs:195-199 | Each move keeps remote version <= temp version <= newest version of a block, makes no copy older, and a remote write stores the version of the temp file |
| `WriteBackOrder.StepKeepsOrder` | cache/src/cache/worker.rs:214-236 | The same for every step and all blocks at once |
| `WriteBackOrder.RunKeepsOrder` | cache/src/cache/mod.rs:654-674 | The same along every run |
| `WriteBackOrder.HistoryIsViews` | cache/src/cache/worker.rs:195-199 | Every version recorded for a block was its view at an instant of the run |
| `WriteBackOrder.RemoteWriteStoresPastView` | cache/src/cache/worker.rs:214-236 | A remote write that succeeds in any reachable state stores a whole-block value the view had at one instant, also when patches landed during the flush |
| `Draining.WorkerProgress` | cache/src/cache/worker.rs:118-202 | With no foreground operation in flight, no stop, no lost snapshot and no I/O failure, a worker step is enabled until the cache is quiescent and lowers the measure 6 (2 dirty + temp files) + phase |
| `Draining.DrainReachesRemote` | cache/src/cache/mod.rs:67-71 | Draining ends within the measure, in a quiescent state whose remote store is the view at the start |
| `Draining.NothingToDoIsQuiescent` | cache/src/cache/state.rs:54-68 | A worker that finds nothing to do has reached `is_quiescent` |
| `Draining.LostSnapshotNeverDrains` | cache/src/cache/worker.rs:204-241 | After a lost snapshot no worker steps whatever make the cache quiescent |
| `Draining.DrainsDespiteFailures` | cache/src/cache/worker.rs:204-241 | I/O failures only delay draining: a run of the worker longer than the measure plus five steps per failure passes a point where the cache is quiescent and the remote store is the view at the start |
| `LostSnapshots.LostSnapshotReached` | cache/src/cache/mod.rs:654-674 | A concrete run from a new cache ends with a lost snapshot, nothing in flight and the worker at rest, and no worker steps make that cache quiescent |
| `Draining.DrainsIffNothingLost` | cache/src/cache/state.rs:58-68 | Without foreground operations the worker can drain the cache if and only if every snapshot still has its file |
| `CacheStates.CacheState.constructor` | cache/src/cache/mod.rs:66-105 | The fresh state: empty table, nothing spilled, claimed or waiting; files left over in the temp directory stay |
| `CacheStates.CacheState.TempFileCount` | cache/src/cache/state.rs:54-56 | Returns the number of spilled and snapshotted blocks |
| `CacheStates.CacheState.IsQuiescent` | cache/src/cache/state.rs:58-68 | Returns whether the state is quiescent, as the drain theorems use it |
| `CacheStates.CacheState.ReleaseWaiter` | cache/src/cache/mod.rs:435-451 | The caller gives up its flag; a count of zero is an internal error and changes nothing |
| `CacheStates.CacheState.BeforeWait` | cache/src/cache/mod.rs:408-425 | Waiting for a slot takes the flag once; another wait gives it up |
| `CacheStates.CacheState.PrepareSlot` | cache/src/cache/mod.rs:611-697 | In place, making room as the step machine has it |
| `CacheStates.CacheState.CopyReady` | cache/src/cache/right_io.rs:10-30 | Returns the bytes of a ready block, or why there are none |
| `CacheStates.CacheState.PrepareMiss` | cache/src/cache/mod.rs:515-609 | In place, a miss of a read or a write |
| `CacheStates.CacheState.PlanOp` | cache/src/cache/mod.rs:453-513 | In place, one planning turn: result and whole new state are those of the step machine |
| `CacheStates.CacheState.FinishRehydrate` | cache/src/cache/mod.rs:699-727 | In place, the transfer from spilled to snapshotted |
| `CacheStates.CacheState.FinishRemoteFetch` | cache/src/cache/mod.rs:252-276 | In place, the re-locked end of a remote load |
| `CacheStates.CacheState.FinishTempFetch` | cache/src/cache/mod.rs:283-307 | In place, the re-locked end of a rehydration |
| `CacheStates.CacheState.SelectExistingTempFlush` | cache/src/cache/worker.rs:118-150 | In place, the choice of the temp file to flush |
| `CacheStates.CacheState.CreateSnapshot` | cache/src/cache/worker.rs:152-202 | In place, the guarded snapshot of the least candidate |
| `CacheStates.CacheState.FinishFlushSuccess` | cache/src/cache/worker.rs:243-255 | In place, the end of a successful flush |
| `CacheStates.CacheState.FinishFlush` | cache/src/cache/worker.rs:228-241 | In place, the end of any flush |
| `Temp.TempStore.WriteBlock` | cache/src/temp.rs:42-83 | By renames: the block file is replaced, untouched or, after a double fault, gone with the old bytes under the backup name; success is reported exactly when it is replaced; what stays under the pending and backup names is exact; no file of another block changes |
| `Temp.TempStore.OutcomeTable` | cache/src/temp.rs:42-83 | A write replaces the file exactly when no file operation it needs fails, and loses the old one exactly under the double fault |
| `Temp.TempStore.WritePendingFile` | cache/src/temp.rs:125-149 | The pending file holds the data exactly when creating, writing and syncing succeed; what each failure leaves under that name is exact |
| `Temp.TempStore.ReadAfterWrite` | cache/src/temp.rs:85-103 | A read finds the data written, in full, after a write that succeeded, nothing after one that lost the file, and what it found before after any other and for every other block |
| `Temp.TempStore.RemoveBlock` | cache/src/temp.rs:106-115 | Removes the file; a missing file is not an error |
| `Temp.LostFileExample` | cache/src/temp.rs:66-81 | A concrete write after which the file of the block is gone |
| `Resident.RecordHitKeepsDirty` | cache/src/resident/mod.rs:410-475 | A hit on a ready block succeeds, touches no entry, keeps the block hit and drops at most the LRU head, and only when that is clean: no dirty range, snapshot, pending patch or load |
| `Resident.RecordHitQueued` | cache/src/resident/mod.rs:410-475 | A hit keeps the map keys the disjoint union of two queues within capacity |
| `Resident.EvictQueued` | cache/src/resident/mod.rs:532-574 | So does an eviction, which frees a FIFO place when the block stood there |
| `Resident.RefusalTable` | cache/src/resident/mod.rs:218-408 | Exactly when each table operation refuses, and with which kind of error |
| `Resident.PatchesLandInOrder` | cache/src/resident/mod.rs:721-757 | Applying queued patches succeeds exactly when each fits; each byte is then that of the last patch over it, and the dirty ranges grow by theirs in order |
| `Resident.QueuedPatchesLand` | cache/src/resident/mod.rs:245-305 | A patch queued on a loading block comes after those queued before, and the end of the load applies the queue to the bytes that arrived |
| `Resident.RefusedLoadEntry` | cache/src/resident/mod.rs:245-276 | A load refused for a patch leaves the block loading, with the bytes that arrived, the patches before the failing one, and its queue taken |
| `Resident.InsertQueued` | cache/src/resident/mod.rs:218-243 | So does a placeholder that is accepted |
| `QueueOrder.RunKeepsOrdered` | cache/src/resident/mod.rs:218-243 | Along any run of table operations, failing or not, the FIFO queue is ordered by arrival and the LRU queue by last hit |
| `QueueOrder.InsertVictimIsOldest` | cache/src/resident/mod.rs:477-483 | After any run the insert victim is the block of the full FIFO queue that came in first |
| `CacheQueues.StepIsOps` | cache/src/cache/mod.rs:453-727 | Every step of the whole cache acts on the resident table by a known sequence of table operations |
| `CacheQueues.ReachableOrder` | cache/src/cache/mod.rs:453-727 | In every reachable state of the cache both queues are in the order of the arrivals and hits of the run that led there |
| `CacheQueues.ReachableVictimIsOldest` | cache/src/cache/mod.rs:611-617 | In every reachable state the insert victim is the block of the full FIFO queue that came in first |
| `QueueOrder.HitKeepsRecent` | cache/src/resident/mod.rs:410-475 | After any run a hit leaves its block last in the LRU queue unless that is full with a head that may not be dropped, and then changes nothing; what it drops was not hit for the longest time |
| `TwoQueue.TwoQueueResident.ValidIsQueued` | cache/src/resident/mod.rs:532-574 | Entries and list nodes naming each other one to one imply the disjoint union of the two queues |
| `TwoQueue.TwoQueueResident.InsertLoadingPlaceholder` | cache/src/resident/mod.rs:218-243 | In place on map and lists, the placeholder as the table function has it; a refusal changes nothing |
| `TwoQueue.TwoQueueResident.EnqueuePendingPatch` | cache/src/resident/mod.rs:278-305 | In place, the queued patch of a loading block |
| `TwoQueue.TwoQueueResident.ApplyPendingPatches` | cache/src/resident/mod.rs:721-738 | The loop takes the queue and applies it in order up to the first patch that fails |
| `TwoQueue.TwoQueueResident.FinishLoad` | cache/src/resident/mod.rs:245-276 | In place, the end of a load; a refused one leaves the bytes and the patches before the failing one |
| `TwoQueue.TwoQueueResident.EvictBlock` | cache/src/resident/mod.rs:532-574 | Removes the block through the node its entry names, from whichever queue holds it, and returns its entry |
| `TwoQueue.TwoQueueResident.AbortLoad` | cache/src/resident/mod.rs:328-351 | In place, the removal of a placeholder; other blocks are refused |
| `TwoQueue.TwoQueueResident.PatchReady` | cache/src/resident/mod.rs:307-326 | In place, a patch on a ready block |
| `TwoQueue.TwoQueueResident.MarkSnapshotWritten` | cache/src/resident/mod.rs:353-369 | In place, a written snapshot |
| `TwoQueue.TwoQueueResident.ClearSnapshot` | cache/src/resident/mod.rs:371-391 | In place, a flushed snapshot |
| `TwoQueue.TwoQueueResident.AttachSnapshot` | cache/src/resident/mod.rs:393-408 | In place, a snapshot inherited from a spilled file |
| `TwoQueue.TwoQueueResident.SelectInsertVictim` | cache/src/resident/mod.rs:477-483 | Returns the FIFO head exactly when that queue is full |
| `TwoQueue.TwoQueueResident.RecordHit` | cache/src/resident/mod.rs:410-475 | In place with back-pointers, the hit as the table function has it |
| `TwoQueue.TwoQueueResident.CanPromote` | cache/src/resident/mod.rs:672-689 | Whether the LRU queue has room or a clean head; the internal errors cannot occur |
| `TwoQueue.TwoQueueResident.EvictLruHead` | cache/src/resident/mod.rs:706-719 | Takes the LRU head out of list and map |
| `IndexedLists.IndexedList.PushBack` | cache/src/resident/list.rs:40-56 | Appends under a handle that was not live; other handles keep their values; the slots grow only when none is free |
| `IndexedLists.IndexedList.Remove` | cache/src/resident/list.rs:63-81 | Deletes at the position of the handle; a dead handle changes nothing |
| `IndexedLists.IndexedList.PopFront` | cache/src/resident/list.rs:58-61 | Takes the first value, if any |
| `IndexedLists.IndexedList.MoveToBack` | cache/src/resident/list.rs:83-117 | Deletes and appends under the same handle; a dead handle changes nothing |
| `IndexedLists.IndexedList.AllocNode` | cache/src/resident/list.rs:130-145 | Reuses the top of the free stack, and grows only when that is empty; the stack stays exactly the empty slots without repeats |
| `IndexedLists.IndexedList.FrontValue` | cache/src/resident/list.rs:35-38 | Returns the first value |
| `BlockLayout.TouchedBlocks` | cache/src/block/mod.rs:51-111 | Succeeds exactly when the length is zero or the last touched block ends within 64 bits; then the pieces take consecutive blocks and tile range and buffer; which error is returned is exact |
| `BlockLayout.SplitIsUnique` | cache/src/block/mod.rs:51-111 | There is only one such tiling, so the result is determined |
| `BlockLayout.PieceIsOp` | cache/src/block/mod.rs:51-111 | Every piece is an operation the cache steps accept |
| `BlockLayout.CopyFromBlock` | cache/src/block/mod.rs:139-164 | In place, exactly the bytes of the piece reach the buffer; short buffers are refused unchanged |
| `BlockLayout.PatchIntoBlock` | cache/src/block/mod.rs:166-188 | In place, exactly the bytes of the piece reach the block |
| `BlockLayout.PieceReadsFlat` | cache/src/cache/mod.rs:149-158 | A byte read by a piece is the flat device byte at its address at the instant of that read |
| `Requests.WholeRequestIsFlatSplice` | cache/src/cache/mod.rs:160-169 | In every run from a new cache in which an idle thread then performs the pieces of a `write_locked` in order until one fails, and the other threads write elsewhere: the view is the device the other threads made, with the data in one flat splice if the request finished, and with the data of the done prefix of pieces if it failed or is under way |
| `Requests.RequestIsFlatSplice` | cache/src/cache/mod.rs:160-169 | The same from any state of the invariant and any point of the request |
| `Requests.AnswersAreViews` | cache/src/cache/mod.rs:149-158 | The answers of the pieces of a `read_locked` are read off the view of the cache at rising instants of the run, one per piece |
| `Requests.RequestReadsFlat` | cache/src/cache/mod.rs:149-158 | In every such run of a `read_locked` each byte of each done piece is the flat device byte at its address at the instant of its piece, and the rest of the buffer is as it was |
| `Requests.FinishedReadIsFlat` | cache/src/cache/mod.rs:149-158 | A finished `read_locked` holds in every byte a flat device byte of an instant of the run |
| `Requests.FillBuffer` | cache/src/cache/mod.rs:149-158 | The loop of `read_locked`: the pieces before the first failing one fill their places, and its error is the result |
| `Staging.StagedIsVisible` | windows/BackendRust/src/staging.rs:34-65 | After an accepted stage hosts read the data in its range and elsewhere what they read without the fragment it replaces |
| `Staging.StageAcceptedIff` | windows/BackendRust/src/staging.rs:34-65 | A write is staged exactly when its data has the announced length, ends on the disk, and comes under the total of the pieces before; otherwise nothing changes |
| `Staging.CommitSucceedsIff` | windows/BackendRust/src/staging.rs:118-148 | A commit succeeds exactly when each write it makes does, and trivially for an unknown event; then the event is gone, else nothing is |
| `Staging.StageKeepsOk` | windows/BackendRust/src/staging.rs:34-65 | Staging keeps fragments on the disk and ordinals distinct and below the next |
| `Staging.RejectKeepsOk` | windows/BackendRust/src/staging.rs:150-152 | Rejecting keeps the same |
| `Staging.WriteAllBytes` | windows/BackendRust/src/staging.rs:118-148 | A commit leaves at each byte the last fragment written over it; a failing one touches only bytes its fragments cover |
| `Staging.CommittedByte` | windows/BackendRust/src/staging.rs:118-148 | What a commit writes last at a byte is the covering fragment with the highest sequence number |
| `Staging.FailedCommitKeepsView` | windows/BackendRust/src/staging.rs:118-148 | A failed commit keeps the store and every byte a host reads, however far it got and whatever the failing write left |
| `Staging.SafeCommitKeepsView` | windows/BackendRust/src/staging.rs:118-148 | A successful safe commit keeps every byte a host reads |
| `Staging.CommitKeepsViewIff` | windows/BackendRust/src/staging.rs:118-148 | A successful commit keeps the view for all contents if and only if, wherever a fragment of the event is newest, no other event has a fragment and the newest one has the highest sequence number of the event there |
| `StagingRuns.RunKeepsOk` | windows/BackendRust/src/staging.rs:34-157 | The store invariant holds after every run of stages, commits and rejections |
| `StagingRuns.PiecesAllStaged` | windows/BackendRust/src/staging.rs:34-65 | Every piece of an event that announces one total and lies on the disk is staged, in any order and whatever happens to other events; of a piece staged twice the last one stands |
| `StagingRuns.RejectErasesEvent` | windows/BackendRust/src/staging.rs:150-152 | Rejecting an event after any run gives hosts the view of the run in which it was never staged |
| `StagingRuns.OutOfOrderCommitExample` | windows/BackendRust/src/staging.rs:118-148 | A concrete run in which a successful commit changes what a host reads |
| `StagingRuntime.PaintedIsView` | windows/BackendRust/src/staging.rs:67-116 | Copying the slices of a window in ordinal order gives at each byte the covering fragment with the highest ordinal, else the media |
| `StagingRuntime.StagingStore.StageWrite` | windows/BackendRust/src/staging.rs:34-65 | In place, the stage as the store function has it |
| `StagingRuntime.StagingStore.OverlayRead` | windows/BackendRust/src/staging.rs:67-116 | For every store with distinct ordinals and every window, the buffer holds the newest covering fragment at each byte, else what the media gave |
| `StagingRuntime.StagingStore.CommitEvent` | windows/BackendRust/src/staging.rs:118-148 | In place, the commit; a failing write leaves the record staged |
| `StagingRuntime.StagingStore.RejectEvent` | windows/BackendRust/src/staging.rs:150-152 | In place, the rejection |
| `StagingRuntime.StagingStore.Clear` | windows/BackendRust/src/staging.rs:154-157 | Leaves the empty store |
| `StagingRuntime.DiskRuntime.HostReadBytes` | windows/BackendRust/src/runtime.rs:1339-1382 | Status and length for each case; a successful read returns the view of its window |
| `StagingRuntime.DiskRuntime.HostStageWrite` | windows/BackendRust/src/runtime.rs:1384-1407 | The stage; any failure changes nothing |
| `StagingRuntime.DiskRuntime.CommitStaging` | windows/BackendRust/src/runtime.rs:1444-1457 | The media is taken and put back; a failed commit, or a safe one, keeps what hosts read |
| `StagingRuntime.DiskRuntime.RejectStaging` | windows/BackendRust/src/runtime.rs:1459-1465 | The rejection |
| `Sessions.NextKeepsInv` | server/internal/session/manager.go:87-134 | Each call keeps: in-flight counts are the unreleased leases, a stored closing session has one, a session with a lease is stored, and the exclusive manager stores at most one |
| `Sessions.RunKeepsInv` | server/internal/session/manager.go:87-134 | The same after every run with fewer than 2^64 sessions and 2^32 leases |
| `Sessions.OpenEffect` | server/internal/session/manager.go:39-52 | Opening, told on the table: shared always, exclusive exactly when nothing is stored, it adds one new open unused session of that connection and changes nothing else |
| `Sessions.NextIdCounts` | server/internal/session/manager.go:39-45 | Ids count up and skip zero at the 64-bit wrap |
| `Sessions.StepOnSession` | server/internal/session/manager.go:71-134 | No step changes the id or connection of a session, and it is marked closing exactly by its own close or that of its connection |
| `Sessions.BeginEffect` | server/internal/session/manager.go:87-102 | An I/O begins exactly on a stored session that is not closing, whatever else is stored or in flight |
| `Sessions.ReleaseEffect` | server/internal/session/manager.go:104-141 | A release ends its own lease, once, and deletes no other session |
| `Sessions.ClosedConnectionEndsSessions` | server/internal/session/manager.go:77-85 | In every run a session opened by a connection is closed or gone, and takes no I/O, once the connection is closed |
| `Sessions.ExclusiveIoIsOneSession` | server/internal/session/exclusive.go:13-20 | In every run of the exclusive manager, I/Os in flight together belong to one session, also across close and reopen |
| `Sessions.NoIoAfterClose` | server/internal/session/manager.go:71-102 | After a session or its connection is closed no I/O begins on it in any continuation |
| `Sessions.DeletedOnlyWhenUnused` | server/internal/session/manager.go:104-134 | A step deletes a session exactly when it closes an unused one or releases the last lease of a closing one |
| `Sessions.ExclusiveOpenIff` | server/internal/session/exclusive.go:13-20 | The exclusive manager accepts a session exactly when no stored one is open or in use |
| `Sessions.CountAfterLeases` | server/internal/session/manager.go:87-102 | For every n a run that opens a session and begins n I/Os leaves n unreleased leases and a count of n mod 2^32; a close then deletes the session exactly when that is zero |
| `Sessions.WrappedCountAdmitsSecond` | server/internal/session/exclusive.go:13-20 | After such a run with a multiple of 2^32 I/Os the exclusive manager lets a second session begin I/O beside the first: the bound of the run theorems is needed |
| `SessionManagers.ManagerState.NextSessionId` | server/internal/session/manager.go:39-45 | The 64-bit counter that skips zero, in place |
| `SessionManagers.ManagerState.StoreLocked` | server/internal/session/manager.go:47-52 | Stores an open session with a new id, in place |
| `SessionManagers.ManagerState.OpenExclusive` | server/internal/session/exclusive.go:13-20 | Refused with nothing changed while any session is stored |
| `SessionManagers.ManagerState.OpenShared` | server/internal/session/shared.go:13-17 | Always stores |
| `SessionManagers.ManagerState.CloseSession` | server/internal/session/manager.go:123-134 | Marks the session closing or deletes it, in place |
| `SessionManagers.ManagerState.CloseAllOf` | server/internal/session/manager.go:77-85 | The loop, in any order, closes exactly the sessions of the connection |
| `SessionManagers.ManagerState.BeginIo` | server/internal/session/manager.go:87-102 | Counts one I/O unless the session is gone or closing |
| `SessionManagers.ManagerState.EndIo` | server/internal/session/manager.go:104-121 | Uncounts one I/O and deletes a closing session that has none left |
| `SessionManagers.IoLease.Release` | server/internal/session/manager.go:136-141 | Ends the I/O the first time and does nothing again |
| `RpcCorrelation.RunKeepsInv` | server/internal/gateway/storer/rpc_client.go:50-124 | The correlation invariant holds after every run of callers, responses, timeouts and disconnect |
| `RpcCorrelation.RepliesMatchCalls` | server/internal/gateway/storer/rpc_client.go:50-110 | A caller receives only the reply with its own request id; a channel sees at most one send, then at most one close |
| `RpcCorrelation.OutcomeHasCause` | server/internal/gateway/storer/rpc_client.go:50-124 | In every run each outcome has its cause: a reply returned came in exactly so, payload and all; a closed connection goes back to `closePending`, a failed write to that write, a timeout to a timer the call has |
| `RpcCorrelation.PoppedIsDelivered` | server/internal/gateway/storer/rpc_client.go:98-110 | The first response with the id of a pending call is delivered: once the handler handed it over, a call that still waits receives exactly that reply, in every continuation |
| `RpcCorrelation.NextRequestIdCounts` | server/internal/gateway/storer/rpc_client.go:126-132 | Request ids count up and skip zero at the 64-bit wrap |
| `RpcCorrelation.StrayReplyIgnored` | server/internal/gateway/storer/rpc_client.go:98-110 | A response no pending call asked for changes nothing |
| `RpcCorrelation.SendFindsRoom` | server/internal/gateway/storer/rpc_client.go:98-110 | The send of the frame loop finds an open channel with an empty buffer, so it neither blocks nor panics |
| `RpcCorrelation.NobodyStaysBlocked` | server/internal/gateway/storer/rpc_client.go:116-124 | After `closePending` every unfinished call has an enabled step of its own that brings it closer to returning |
| `RpcCorrelation.OthersDoNotBlock` | server/internal/gateway/storer/rpc_client.go:50-96 | The steps of others never set such a call back |
| `RpcCorrelation.CallsReturn` | server/internal/gateway/storer/rpc_client.go:50-124 | In every run, from the disconnect on, a call has returned after at most three steps of its own, and until then its next step is enabled, whatever the others do |
| `RpcCorrelation.CloseFirstMatters` | server/internal/gateway/storer/link_runtime.go:86-106 | With a `Serve` that runs `closePending` before the connection is closed, a run leads to a call that waits in every continuation, none of its own steps ever enabled again |
| `EventQueue.SlotsExactIff` | windows/AppKernel/src/event/ak_event.c:219-220 | The 32-bit slot arithmetic is exact at every position if and only if the capacity is at most 2^31 |
| `EventQueue.PowersOfTwoStayExact` | windows/AppKernel/src/event/ak_event.c:5-47 | Growth from a power of two never leaves the exact range |
| `EventQueue.GrowthDoubles` | windows/AppKernel/src/event/ak_event.c:5-47 | Growth doubles the capacity and is refused exactly when twice the capacity does not fit 32 bits; an empty capacity becomes the initial one or the fallback |
| `EventQueue.GrowthStaysExact` | windows/AppKernel/src/event/ak_event.c:5-47 | A capacity that is a power of two stays one, with exact slots, as often as it grows, up to 2^31 |
| `EventQueue.PoppedContents` | windows/AppKernel/src/event/ak_event.c:49-69 | Moving the head takes the oldest item and keeps the rest in order |
| `EventQueue.PushedContents` | windows/AppKernel/src/event/ak_event.c:191-228 | Storing behind the newest appends and disturbs no other item |
| `EventQueue.GrownContents` | windows/AppKernel/src/event/ak_event.c:5-47 | Unrolling into a larger array keeps contents and order |
| `EventQueue.AtMostOneBroken` | windows/AppKernel/src/event/ak_event.c:374-400 | However calls interleave, at most one Broken notice is ever queued |
| `EventQueue.RingQueue.constructor` | windows/AppKernel/src/event/ak_event.c:139-170 | An empty ring of the initial capacity |
| `EventQueue.RingQueue.Grow` | windows/AppKernel/src/event/ak_event.c:5-47 | Doubles and unrolls, or fails with nothing changed when doubling overflows or memory is short |
| `EventQueue.RingQueue.Push` | windows/AppKernel/src/event/ak_event.c:191-228 | Appends to an unbounded FIFO; fails only when full and unable to grow, and then changes nothing; the event is signalled exactly while items wait |
| `EventQueue.RingQueue.Pop` | windows/AppKernel/src/event/ak_event.c:49-69 | Returns the items in the order they were queued; queued = popped + count |
| `EventQueue.PassedFindsNone` | windows/AppKernel/src/event/ak_event.c:374-400 | A thread between the two sections of `PushBroken` finds no Broken notice queued, whatever ran in between |
| `EventQueue.EventSession.PushNotice` | windows/AppKernel/src/event/ak_event.c:336-372 | A notice is queued exactly if there is room or room can be made; otherwise it is counted as dropped and breaks the session; one step of the race of `AtMostOneBroken` |
| `EventQueue.EventSession.PushBroken` | windows/AppKernel/src/event/ak_event.c:374-400 | Only the first call queues a notice, and only if there is room |
| `EventQueue.EventSession.MarkBroken` | windows/AppKernel/src/event/ak_event.c:385-390 | The test and set of the flag, the other step of the race of `AtMostOneBroken` |
| `EventQueue.EventSession.PushResponse` | windows/AppKernel/src/event/ak_event.c:191-228 | A response that finds no room is dropped and breaks the session, and a Broken notice is queued exactly if none was before and the notice queue takes it |
| `Wire.NumberOfBigEndian` | server/internal/proto/header.go:71-86 | Reading back a big-endian number of any width gives the number |
| `Wire.BigEndianOfNumber` | server/internal/proto/header.go:146-155 | Writing back the number of any bytes gives the bytes |
| `Wire.MostSignificantFirst` | server/internal/proto/header.go:71-86 | The first byte of a number is its most significant one |
| `Wire.HeaderLayout` | server/internal/proto/header.go:146-155 | Where each field of a header lies |
| `Wire.HeaderRefusedFor` | server/internal/proto/header.go:88-144 | The header check reports the first wrong field, in this order |
| `Wire.ParseOfHeader` | server/internal/proto/header.go:71-86 | The server parses a header the client encoded to the same fields, whatever follows |
| `Wire.HeaderOfParse` | server/internal/proto/header.go:146-155 | Encoding what was parsed gives the same bytes: no header byte is ignored |
| `Wire.AcceptedHeadersAreNewRequests` | server/internal/proto/header.go:88-102 | Among headers with an operation code of the client, the server accepts exactly those its constructor can make; the check does not look at the code |
| `Wire.EncodeHeader` | server/internal/proto/header.go:146-155 | Fills the front of the payload in place and keeps the rest |
| `Wire.Encode` | windows/network-core/src/protocol_client.rs:178-190 | Header and body in a new buffer |
| `DataPlane.IsSolidBytePayload` | server/internal/proto/compression.go:69-77 | The loop decides whether all bytes are equal |
| `DataPlane.GoEncode` | server/internal/proto/compression.go:17-59 | The server follows the rule of the client, each with its own compressor |
| `DataPlane.EncodedForm` | windows/network-core/src/protocol_client.rs:927-962 | The form sent, by cases: one byte for data of one value; else level 1 from 1024 bytes and level 3 from 4096 exactly if the result has at most 61440 bytes and saves at least 64 bytes and five per cent; else the data |
| `DataPlane.DecodedForm` | server/internal/proto/compression.go:79-113 | Exactly which bodies are accepted, and the data taken from each |
| `DataPlane.RejectedFor` | windows/network-core/src/protocol_client.rs:976-1011 | The label of a rejected body, by the first check that fails |
| `DataPlane.ReadResponseLayout` | server/internal/proto/session.go:130-143 | The code comes first and what follows is decoded by it |
| `DataPlane.EqualChoice` | server/internal/proto/compression.go:17-59 | Where the two compressors give the same result both sides send the same form and bytes |
| `DataPlane.DecodersAgree` | windows/network-core/src/protocol_client.rs:976-1011 | Both decoders accept the same bodies and read the same data from payloads their libraries decompress alike |
| `DataPlane.EncodedIsShort` | windows/network-core/src/protocol_client.rs:927-962 | Encoding never lengthens the data; a compressed form saves at least 64 bytes |
| `DataPlane.RoundTripIff` | server/internal/proto/compression.go:79-113 | In both directions, with a compressor of its own on each side: what one side encodes the other decodes to the same data, for exactly the lengths 1 to 61440, if each library undoes the other |
| `DataPlane.DecodedLength` | server/internal/proto/compression.go:79-113 | A decoded body has the announced length, which is an allowed one |
| `DataPlane.BuildReadResponseBody` | server/internal/proto/session.go:130-136 | Fills code and payload in place |
| `DataPlane.ReadResponseRoundTrip` | windows/network-core/src/protocol_client.rs:547-575 | The client reads from the response exactly the data the server put in, if its library undoes that of the server |
| `WritePath.EncodeRequest` | windows/network-core/src/protocol_client.rs:579-595 | Succeeds exactly for nonzero ids and 1 to 61440 bytes, with each of the four errors exactly when the source returns it, and yields header and body |
| `WritePath.BodyLayout` | windows/network-core/src/protocol_client.rs:586-590 | Where offset, length, code and payload lie in the body |
| `WritePath.ParsedForm` | server/internal/proto/session.go:100-112 | Exactly which frames are taken as writes, and the fields read off their places |
| `WritePath.FrameLayout` | server/internal/transport/runtime.go:127-142 | Payloads of 1 to 65536 bytes can be framed; the two bytes in front hold the size minus one |
| `WritePath.NextFrameTable` | server/internal/transport/runtime.go:106-125 | The size is read from the first two bytes; the frame is read exactly when it fits the buffer and is all there, with the error of each other case |
| `WritePath.RequestRoundTrip` | server/internal/proto/session.go:100-112 | The server parses every request the client sends to the very same request |
| `WritePath.ParsedIsSendable` | server/internal/proto/session.go:100-112 | Whatever the server accepts as a write is what the client may send, also when no client sent it, if and only if its session id is not zero |
| `WritePath.SplitOfFrames` | server/internal/transport/runtime.go:106-125 | Framed payloads in front of anything come out one by one, in order |
| `WritePath.SplitIff` | server/internal/transport/runtime.go:106-125 | A stream reads as these payloads and a clean end if and only if it is their frames, or their frames and a bare size |
| `WritePath.CutStreamIsPrefix` | server/internal/transport/runtime.go:44-75 | A stream cut anywhere delivers whole payloads from the front and nothing else |
| `WritePath.RequestFitsFrame` | windows/network-core/src/transport_client.rs:262-272 | Every encoded request fits a frame of 65536 bytes |
| `WritePath.Connection.WriteFrame` | server/internal/transport/runtime.go:127-142 | Appends the frame; a payload of a wrong size sends nothing; a failing connection has taken any part of the frame from its front |
| `WritePath.Incoming.ReadFull` | server/internal/transport/runtime.go:106-125 | The loop fills exactly the bytes asked for, however they arrive, and tells an end before the first byte from one inside |
| `WritePath.Incoming.ReadFrameInto` | server/internal/transport/runtime.go:106-125 | Reads the next frame into a caller buffer, with the error of each case |
| `WritePath.Incoming.ReceiveAll` | server/internal/transport/runtime.go:44-75 | One reused buffer receives the frames of the stream in order; each payload is handled and its reply framed before the next is read; the loop ends with the stream, a refused payload, a reply that cannot be written, or a closed connection, and what was received and sent by then is exact |
| `WritePath.SendAll` | windows/network-core/src/transport_client.rs:262-272 | The stream holds the frames of the requests up to the first one that may not be sent or at which the connection fails, and then the part of its frame that was taken |
| `WritePath.WritePathRoundTrip` | server/internal/proto/session.go:100-112 | For any list of valid writes the stream of the client is taken apart by the server into the same list and ends cleanly, if the library of the server undoes that of the client |
| `WritePath.BrokenSendDelivers` | server/internal/transport/runtime.go:44-75 | When the connection fails while a request is written the server gets the requests before it, and that one only if its whole frame was taken |
| `WritePath.CutPathDeliversPrefix` | server/internal/transport/runtime.go:44-75 | A connection lost at any byte delivers the first requests, whole and unchanged, and no others |

## Left out

- Scheduling: condition-variable timing, wake-ups, fairness, `dirty_scan_interval` and timeouts are nondeterministic
  choices; apart from draining and the waits shown to have a cause, only safety is claimed.
- `Drop for Cache`: it stops the worker without flushing, so nothing is claimed about durability after it.
- `insert_ready` and `begin_remote_load` of the resident table: only unit tests call them.
- Real files, sockets, threads, condition variables and the zstd libraries: maps, byte streams, steps, pairs of functions.
- The remote store is a finite map of whole blocks; reads and writes of blocks it lacks fail.
- Error payloads: the errors of the cache are grouped by cause (`Fault`), those of the codec by branch; labels and
  I/O error kinds are dropped.
- Draining.DrainsDespiteFailures: excludes stop requests and the double fault that loses a file; with a lost snapshot `LostSnapshotNeverDrains` holds instead.
- Sessions.RunKeepsInv: fewer than 2^64 sessions and 2^32 leases; beyond that ids repeat and the counter wraps.
- RpcCorrelation.RunKeepsInv: fewer than 2^64 request ids.
- RpcCorrelation: the heartbeat goroutine is one more caller with a timeout; its ticker is not modelled.
- Staging.StageKeepsOk: ordinals are unbounded; the wrap of the 64-bit counter is not modelled.
- EventQueue.RingQueue.Push: contents are stated for capacities up to 2^31; null arguments, waits, polls and the destroy functions are not modelled.
- Requests.WholeRequestIsFlatSplice: other threads must not finish writes inside the range; the order of overlapping requests is
  that of their pieces.
- BlockLayout.TouchedBlocks: `usize` has 64 bits, so the conversions between `usize` and `u64` cannot fail.
- WritePath.Incoming.ReadFrameInto: the error kinds are those of the server; the client's `read_exact` does not tell an end at a
  frame boundary from one inside.
- The commit order of the AppKernel disk worker and the SCSI queues, the drivers, the Tauri interface, tokens and
  crypto, route registry, authentication and description bodies, configuration, logging, `dev/`: not modelled.
