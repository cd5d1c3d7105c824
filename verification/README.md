# A verified model of shift-js

shift-js runs JavaScript request handlers over a replicated SQLite table. This project models the
parts of it whose correctness is not visible in any one function, and proves what they promise.
`dafny verify dfyconfig.toml` checks everything.

## What is modelled

**The replicated write pipeline** (`src/raft_thread.c`, `src/worker.c`, `src/kvstore.c`). Workers commit
to local SQLite, get a sequence number inside the transaction, publish watermarks and push
write-sets to a ring; the raft thread drains the ring, scans the watermarks, picks, sorts,
deduplicates, serialises and proposes; followers apply the blobs; parked responses are released.
`Pipeline` is a step system of workers and the raft thread. On the way of a write-set into a batch
every access to shared memory is a step of its own: both watermark accesses, the raise of the high
watermark, the four accesses of a push to the ring, each load of the scan. Five steps stand for more
than one access: the capacity check and the release of a response load two counters each, a take
from the ring is one step of its only consumer, and gaining or losing leadership sets the leader
flag together with `faulted_seq`. `PipelineProducers` says what one producer at a time gives;
`PipelineSafety` proves one inductive invariant; `PipelineTheorems`, `PipelineAnswers` and
`Replication` draw the conclusions; `PipelineProgress` says what gets done;
`PipelineCounterexamples` holds complete runs that break the promise when a condition is dropped.
The array code is imperative and proved against the functions the step system uses:
`ProposalQueue` (ring), `BatchBuffer` (in-place partition, insertion sort, deduplication),
`BatchBlob`, `BatchCodec` and `BatchGrammar` (blob writer, readers and format). `CatchUp` covers
snapshot deltas.

**The relocatable snapshot** (`src/qjs_snap.c`): `BumpArena` (the allocator, down to the size headers in
memory), `Relocation` (the two-address comparison, the bitmap, the restore), over `Bits`.

**The bytecode table** (`src/code_store.c`): `CodeTable` (probing and growth), `CodeStore` (publication).

**The wire layer** (`src/raft_rpc.c`, `src/raft_net.c`): `Wire`, `Rpc`, `RpcCodec` (messages), `Framing`,
`RaftLink`, `RaftNet` (send queue, partial sends, reassembly).

**Smaller cores**: `Ejs` (template compiler) with `EjsProgram` (what its output does), `Tenants` over
`OrderedTable` (prefix-scoped stores), `CodeTrees` (content-addressed trees), `Json`, `ReplayTape` and
`TextBuffer` (replay tapes), `RecentRequests` (merge over worker databases).

## Conditions the code needs, and what happens without them

Each is stated in the model. Those on the pipeline come with complete runs that break the promise
to a client when they are dropped, the others with the exact condition or a concrete input.

- One producer at a time: every worker pushes to the same ring (`src/main.c:208-216`), and `pq_push` loads
  and stores the tail with plain loads and stores (`src/raft_thread.c:35-43`). An access to the ring
  keeps the queue if and only if the slot filled is free and the tail stored is the one loaded with
  the producer's own slot below it (`FillKeepsIff`, `StoreAppendsIff`), and a step keeps every write-set
  in exactly one place if and only if its access meets this and it gives up no commit
  (`KeepsConservationIff`). Producers that start alone always meet it (`LoneRunIsTidy`). Of the write-sets
  of producers that load the same tail exactly one is ever taken or queued, in whatever order they fill
  and store (`SameTailKeepsOne`, and a whole run in `PushRaceLosesWrite`). With more than one worker
  nothing in the source keeps them apart.
- At most 128 workers: later ones have no watermark (`src/raft_thread.c:1137-1155`), while a host with
  enough processors starts them (`src/main.c:126-129`). A watermark protects a worker's write-set if and
  only if the worker is one of the first 128 (`ProtectedIff`); with any more, a write is lost
  (`UnwatchedWorkerLosesWrite`).
- Cross-batch order: a proposal keeps the log a prefix of the commit history if and only if nothing
  with a smaller number is left in the queue, left in the drain buffer, already discarded, or in the
  hand of a worker without a watermark (`ProposalKeepsOrderIff`). With at most
  128 workers and room in the batch for all that is safe, this is exactly that what is queued or
  discarded comes after all that is drained and safe (`ScanIsSoundIff`, and over runs with one producer
  at a time `QuietRunIsSound`). A `batch_max_entries` of at least 2048 and one more for every worker always leaves
  room (`WideCapTakesAll`, `CalmRunIsSound`), and the queue meets its part when a worker stores a tail
  during the scan only after its own watermark was read (`TimelyRunIsSound`).
- The drain and the watermark scan are separate loops (`src/raft_thread.c:912-929`). A worker that pushes
  and goes idle between them lets a later number overtake an earlier one (`ScanRaceLosesWrite`).
- The batch cap takes write-sets in push order, not by number (`src/raft_thread.c:935-957`):
  `BatchCapLosesWrite`.
- Regaining leadership resets `faulted_seq` after the drain buffer was discarded
  (`src/raft_thread.c:886-900`): `RegainedLeadershipLosesWrite`. A refused proposal frees its batch
  (`src/raft_thread.c:984-991`): `RefusedProposalLosesWrite`.
- A transaction whose every commit attempt conflicts answers 409 and yet leaves its number in the
  write-set (`src/js_dispatch.c:809-853`), so it is proposed: `RolledBackWriteReplicates` runs it into the
  log, and `GivenUpBreaksConservation` shows that every such step breaks the ledger.
- Only a put allocates a number (`src/js_globals.c:144-151`), so a request that only deletes is applied
  locally and never replicated: `DeleteOnlyIsNotReplicated`; `CommitIsReplicatedIff` says exactly when
  a commit reaches the followers in full.
- Deltas carry no tombstones. `CatchUpExactIff` says exactly when catch-up is exact; put-only histories
  always are. Before the first snapshot `UINT64_MAX` is bound as -1 and the delta is empty
  (`NoSnapshotNoDelta`).
- The allocator's 64-bit sums reserve room for a block if and only if they do not wrap
  (`ReservesIff`, and with the product `CallocReservesIff`); `HugeRequestIsGranted` is a wrapped case.
- A peer's frame must fit the 256 KiB receive buffer: `StallsIff`. A header from 2^32 - 4 on wraps the
  32-bit frame size, and the frame is delivered although it does not lie in the buffer
  (`TakenLiesWithinIff`); at 2^32 - 4 exactly the receive loop makes no progress (`NoProgressIff`).
- A blob must be below 4 GiB: the 32-bit size pass is exact if and only if it is (`Measure`).
- Request numbers stay apart for the first 65536 workers while the counters are below 2^48
  (`RequestIdsApart`); `RequestIdsMeet` shows a clash at either limit. From 2^48 on a counter spills into
  the worker's bits (`RequestIdSpills`), and `RequestIdsMeetIff` says exactly when two numbers meet.
- Within these limits the list of recent requests is ordered by worker first and by age only within a worker
  (`RequestIdsOrderIff`), and a request of a lower worker never appears in it once a higher worker has
  served as many requests as are listed (`LaterRequestIsCut`).

## Model

| member | source | states |
|---|---|---|
| PipelineSafety.ProposalKeepsOrderIff | src/raft_thread.c:923-969 | with any number of workers, proposing keeps the log a prefix of the commit history if and only if nothing earlier is left in the queue, the drain buffer, among the discarded or in the hand of a worker without a watermark |
| PipelineSafety.WorkerKeepsWatermarks | src/raft_thread.c:1104-1155 | with load, store, commit, raise, the four accesses of a push and publish as separate steps, a number committed but not pushed stays strictly above the watermark of its worker, if that is one of the first 128; the others look idle throughout |
| PipelineSafety.WatermarkProtectsIff | src/raft_thread.c:1137-1155 | a watermark lies below the write-set in its worker's hand if and only if the worker is one of the first 128 |
| PipelineSafety.KeepsConservationIff | src/raft_thread.c:910-993 | a step keeps every write-set in exactly one place, a worker's hand, queue, drain buffer, a proposed batch or the discarded, if and only if it gives up no commit and its access to the ring leaves the queue intact |
| PipelineSafety.GivenUpBreaksConservation | src/js_dispatch.c:809-853 | a commit given up for good always breaks conservation |
| PipelineSafety.RunKeepsCore | src/raft_thread.c:880-995 | conservation, watermarks and scan hold over every run of such steps, however the batches are ordered or refused and however often leadership changes |
| PipelineSafety.RunKeepsAnswers | src/worker.c:1232-1347 | the ledger of answers holds over every run without a given-up commit |
| PipelineSafety.KeepsScan | src/raft_thread.c:923-929 | while the scan runs, a write-set in the hand of a worker already scanned is above the least watermark read so far, or above everything drained |
| PipelineSafety.KeepsPrefix | src/raft_thread.c:946-982 | every sound step keeps the accepted batches a prefix of the commit history |
| PipelineSafety.KeepsCommitted | src/raft_thread.c:453-456 | committed_seq is the number of transactions in the applied batches after every step, and never falls |
| PipelineSafety.KeepsAnswers | src/worker.c:1232-1347 | each numbered request is in exactly one of: a worker's hand, the parked, the answered |
| PipelineSafety.RunKeepsInv | src/raft_thread.c:880-995 | the whole invariant holds after every sound run: ring accesses intact, proposals in order, no commit given up |
| ProposalQueue.FillKeepsIff | src/raft_thread.c:35-43 | filling a slot leaves the queue as it is if and only if nothing else is queued in that slot |
| ProposalQueue.StoreAppendsIff | src/raft_thread.c:35-43 | storing the tail appends the write-set if and only if the tail is still the one loaded and the slot still holds it |
| ProposalQueue.SameTailKeepsOne | src/raft_thread.c:35-59 | of any number of producers that load the same tail exactly one write-set is taken or queued in the end, behind what was queued, whatever the queue holds, in whatever order they fill and store and whatever is taken in between |
| ProposalQueue.TwoLoadsKeepOne | src/raft_thread.c:35-43 | when two such producers both fill before they store, the later fill is the one that survives |
| PipelineProducers.LoneIsIntact | src/raft_thread.c:35-43 | with one producer at a time every access to the ring leaves the queue intact |
| PipelineProducers.LoneRunIsTidy | src/raft_thread.c:35-43 | so does every access of a whole run in which pushes start alone |
| PipelineProducers.OneWorkerIsLone | src/raft_thread.c:35-43 | a single worker always pushes alone |
| PipelineProducers.GoesOnIff | src/raft_thread.c:36-39 | a lone producer goes on if and only if fewer than 4096 write-sets are queued, and otherwise starts over |
| PipelineTheorems.SuccessMeansApplied | src/worker.c:1313-1331 | in a sound run, a request answered with success has its write-set in a batch that has been applied |
| PipelineAnswers.ReleasableIff | src/worker.c:1329-1332 | a parked response may go out if and only if its transaction is in an applied batch, or its number was raised before leadership was lost |
| PipelineAnswers.ReleaseTellsOutcome | src/worker.c:1329-1347 | it says success if its transaction is in an applied batch at that moment, and unavailable if it is in none |
| PipelineAnswers.AnswerTellsOutcome | src/worker.c:1313-1347 | so does every release in every sound run |
| PipelineAnswers.WithoutLossAllSucceed | src/worker.c:1313-1347 | in a sound run that never loses leadership nobody is answered unavailable, and a parked response waits for the application of its batch and for nothing else |
| PipelineAnswers.LossReleasesAll | src/raft_thread.c:890-896 | once leadership is lost every parked response may go out |
| PipelineProgress.RequestSucceeds | src/worker.c:1180-1347 | on a server at rest a request with a put can be carried to its end: committed, alone in a batch of the log, applied, answered with success, everything else as before |
| PipelineProgress.RoundTakesAll | src/raft_thread.c:912-982 | when no watermark is below what was pushed and the batch has room, one round of the raft thread proposes all of it, sorted, and leaves ring and buffer empty |
| PipelineProgress.WorkerNeverStuck | src/worker.c:1180-1250 | a worker inside a request always has a next step |
| PipelineProgress.CapacityIff | src/raft_thread.c:1128-1135 | a request may start if and only if the high watermark is less than 2048 ahead of the transactions applied |
| PipelineProgress.HighMoves | src/raft_thread.c:1104-1114 | the high watermark is raised by one step alone, to the larger of itself and the number raised |
| PipelineProgress.BeginHoldsBack | src/raft_thread.c:1137-1143 | a worker that begins publishes the high watermark: it holds back nothing raised before |
| PipelineProgress.RestHoldsBack | src/raft_thread.c:1145-1155 | a worker that has pushed publishes its own number, one that ended or found no request the idle mark |
| PipelineProgress.PopMovesOldest | src/raft_thread.c:912-921 | the drain buffer and the ring are together one queue in push order |
| PipelineTheorems.AnsweredAtMostOnce | src/worker.c:1322-1347 | in every run without a given-up commit, races and reordering included, no request is answered twice and an answered one is no longer parked |
| PipelineTheorems.LoneProducersConserve | src/raft_thread.c:880-995 | with one producer at a time, conservation holds over every run without a given-up commit |
| PipelineTheorems.ProtectedIff | src/raft_thread.c:1137-1155 | over such runs of any number of workers, a watermark protects exactly the first 128 |
| PipelineTheorems.BatchesAreConsecutive | src/raft_thread.c:946-969 | the accepted batches are consecutive stretches of the commit history, without gaps |
| PipelineTheorems.CommittedNeverDecreases | src/raft_thread.c:453-456 | committed_seq never moves back |
| PipelineTheorems.ScanIsSoundIff | src/raft_thread.c:910-957 | with a watermark for every worker and room in the batch, a proposal is in order if and only if what is queued or discarded comes after all that is drained and safe |
| PipelineTheorems.QuietRunIsSound | src/raft_thread.c:910-993 | runs of at most 128 workers whose pushes start alone, whose commits are not given up and whose proposals meet these conditions are sound |
| PipelineTheorems.WideCapTakesAll | src/raft_thread.c:935-957 | a cap of the in-flight window and one more for every worker never cuts a batch |
| PipelineTheorems.CalmRunIsSound | src/raft_thread.c:910-993 | with such a cap the condition on the batch can be dropped |
| PipelineTheorems.KeepsQueueLater | src/raft_thread.c:910-929 | during the scan, what a worker already scanned pushes comes after all that is drained and safe, so the queue keeps meeting its condition |
| PipelineTheorems.TimelyRunIsSound | src/raft_thread.c:910-993 | with such a cap and at most 128 workers, every run is sound in which no commit is given up, pushes start alone, a tail is stored during the scan only by a worker already scanned, and what is discarded comes after the batch |
| PipelineTheorems.RedirectedNeverReplicates | src/worker.c:1234-1247 | a transaction committed locally and then answered 307 stays in the history and is in no batch of any later run, and the log ends before it for as long as it is a prefix of that history |
| PipelineTheorems.RedirectDiscards | src/worker.c:1234-1247 | that answer leaves the table as it is |
| PipelineTheorems.DiscardedEndsTheLog | src/raft_thread.c:910-993 | a discarded write-set is in no batch, and a proposal whose last number is larger breaks the order |
| PipelineTheorems.NoPushKeepsQueueEmpty | src/raft_thread.c:912-929 | a drain and scan during which no tail is stored leaves the queue empty at the proposal |
| PipelineTheorems.QueueNeverOverflows | src/raft_thread.c:913-920 | in a sound run of at most 128 workers, while the server runs, the ring is never full and the fatal drain overflow is unreachable |
| PipelineCounterexamples.ScanRaceLosesWrite | src/raft_thread.c:912-929 | a push between drain and scan loses a write for the followers |
| PipelineCounterexamples.PushRaceLosesWrite | src/raft_thread.c:35-43 | two workers inside a push lose a write that is answered with success, with an empty queue at the proposal and nothing discarded |
| PipelineCounterexamples.UnwatchedWorkerLosesWrite | src/raft_thread.c:1137-1155 | for every number of workers above 128 and every cap, a run that answers a lost write with success |
| PipelineCounterexamples.BatchCapLosesWrite | src/raft_thread.c:935-957 | a batch of one takes the write-set pushed first, not the one numbered first |
| PipelineCounterexamples.RegainedLeadershipLosesWrite | src/raft_thread.c:886-900 | a write discarded with the drain buffer is answered with success after leadership returns |
| PipelineCounterexamples.RefusedProposalLosesWrite | src/raft_thread.c:981-993 | a refused batch is freed and later numbers overtake it |
| PipelineCounterexamples.RolledBackWriteReplicates | src/js_dispatch.c:809-853 | a rolled-back transaction's write-set is in the log, with the leader's table and history empty |
| PipelineCounterexamples.DeleteOnlyIsNotReplicated | src/js_globals.c:144-181 | a request that only deletes changes the local table and no follower |
| Replication.FollowerHoldsPrefix | src/raft_thread.c:407-459 | a follower that applied the first blobs of the log holds exactly the table of the leader's first transactions: same keys, values and numbers, for blobs below 4 GiB |
| Replication.CommitIsReplicatedIff | src/js_globals.c:144-181 | a commit is what its numbered history produces if and only if it has a put or its deletes find nothing |
| Replication.BlobIsProposed | src/raft_thread.c:946-974 | the blob of a batch in the log is the encoding of the deduplicated, sorted selection from the drain buffer, and the rest stays there |
| Replication.ReplicaConverges | src/raft_thread.c:407-459 | with every number in the log, the follower's table is the leader's table |
| KvStore.LastWriteDecides | src/kvstore.c:173-195 | the last write on a key decides its row: a put leaves its value and its number, a delete no row |
| KvStore.UntouchedKeyStays | src/kvstore.c:173-195 | a key without a write keeps its row |
| ProposalQueue.Slot | src/raft_thread.c:40-50 | masking a counter with 4095 is its remainder modulo 4096 |
| ProposalQueue.SlotsApart | src/raft_thread.c:40-50 | two counters less than 4096 apart use different slots |
| ProposalQueue.Queue.RoomAt | src/raft_thread.c:37-39 | the unsigned test finds room at a loaded tail, stale or not, exactly as specified |
| ProposalQueue.Queue.Push | src/raft_thread.c:35-43 | an uninterrupted push appends, or refuses a full ring and changes nothing |
| ProposalQueue.Queue.Pop | src/raft_thread.c:45-53 | takes the oldest write-set, or finds the ring empty |
| Batch.SelectionConserves | src/raft_thread.c:946-958 | what is picked and what is left are together the buffer; everything picked is safe, and below the cap everything left is not |
| Batch.SelectionKeepsOrder | src/raft_thread.c:949-958 | the picked and the rest each keep the order of the buffer |
| Batch.CapTakesFirstPushed | src/raft_thread.c:933-957 | the cap takes the safe write-sets pushed first, not those numbered first |
| Batch.UncappedSelection | src/raft_thread.c:935-957 | when the safe write-sets fit the cap, exactly those are picked and all others left |
| Batch.PickedCount | src/raft_thread.c:933-940 | as many write-sets are picked as places of the buffer are safe, up to the cap |
| Batch.SortIsSortedPermutation | src/raft_thread.c:960-969 | the insertion sort yields a permutation ordered by number |
| Batch.SortIsStable | src/raft_thread.c:960-969 | write-sets of equal number keep their order |
| Batch.SurvivorsAreLast | src/raft_thread.c:233-264 | an operation survives if and only if it is the last one on its key in the batch |
| Batch.DedupeKeepsLast | src/raft_thread.c:233-264 | the last write on every key is the same before and after |
| Batch.DedupePreservesMeaning | src/raft_thread.c:233-264 | from any table, the deduplicated batch gives the same rows, values and numbers as the whole batch |
| BatchBuffer.CountSafe | src/raft_thread.c:933-940 | the counting loop finds the number of write-sets the capped selection takes |
| BatchBuffer.TakeSafe | src/raft_thread.c:949-958 | the in-place partition leaves the rest in order and returns the picked in order |
| BatchBuffer.InsertInPlace | src/raft_thread.c:961-969 | shifting and dropping in is ordered insertion |
| BatchBuffer.SortInPlace | src/raft_thread.c:961-969 | the array ends up sorted as the specification sorts it |
| BatchBuffer.Dominated | src/raft_thread.c:239-257 | the backward search finds a later live operation on the key exactly when there is one |
| BatchBuffer.DedupeInPlace | src/raft_thread.c:233-264 | nulling from the back gives the specified deduplication, although it reads entries already nulled |
| BatchCodec.ParseInvertsSerialize | src/raft_thread.c:117-231 | reading a serialised batch gives the live operations of every set, in order |
| BatchCodec.FollowSerializedBatch | src/raft_thread.c:173-231 | a follower applying the blob of a deduplicated batch gets the table and the largest number of the original writes |
| BatchGrammar.ParsedIff | src/raft_thread.c:173-231 | on any bytes the follower parses a batch if and only if they start with a sentence of the format, and gets its meaning: code 1 puts, code 2 deletes, other codes do nothing, a key ends at its first zero byte |
| BatchGrammar.SerializedIsSentence | src/raft_thread.c:117-171 | a serialised batch is the sentence of its operations that are not nulled |
| Batch.MaxSeqIsMax | src/raft_thread.c:189-195 | the number a blob advances committed_seq to is the largest in its headers, wherever that stands |
| BatchBlob.Measure | src/raft_thread.c:119-129 | the 32-bit size pre-pass is the length of the encoding if and only if that is below 4 GiB |
| BatchBlob.SerializeBatch | src/raft_thread.c:117-171 | the bytes written are the encoding, filling the buffer exactly |
| BatchBlob.ApplyOps | src/raft_thread.c:198-226 | the operation loop fails exactly where the format does and otherwise applies what it read |
| BatchBlob.ApplyBatch | src/raft_thread.c:173-231 | on any bytes: succeeds if and only if they parse, then the table is the run of the parsed writes and the number their largest |
| BatchBlob.LeaderMaxSeq | src/raft_thread.c:416-441 | the leader's skip-only walk finds the largest number of its own blob |
| BatchBlob.Node.ApplyAsFollower | src/raft_thread.c:442-456 | a bad blob changes nothing; a good one is applied whole and advances committed_seq |
| BatchBlob.Node.ApplyAsLeader | src/raft_thread.c:416-456 | the leader only advances committed_seq, to the same number a follower finds |
| BatchBlob.Propose | src/raft_thread.c:933-974 | a blob is made if and only if some place of the buffer is safe and the interval has passed or as many places as the cap are; it is the encoding of the sorted, deduplicated selection, and the rest stays |
| CatchUp.LastOnSplit | src/raft_thread.c:296-306 | the last write on a key lies in the part of the history its number says |
| CatchUp.CaughtUpAt | src/kvstore.c:298-338 | after delta and replay the follower's cell is the leader's, except on a missed delete, where it is the old one |
| CatchUp.CatchUpExactIff | src/raft_thread.c:586-647 | delta and replay reach the leader's table if and only if the follower holds no key deleted for good in between |
| CatchUp.PutOnlyCatchesUp | src/raft_thread.c:586-647 | put-only histories always catch up, although the delta omits keys overwritten after the snapshot |
| CatchUp.NoSnapshotNoDelta | src/kvstore.c:305-306 | before the first snapshot the upper bound reads as -1 and the delta is empty |
| CatchUp.DeletedRowStays | src/kvstore.c:298-338 | a concrete deleted row that survives at the follower |
| Bits.ClearLowest | src/qjs_snap.c:240 | w & (w - 1) clears the lowest set bit and no other |
| Bits.HighMaskRounds | src/qjs_snap.c:17 | & ~15 rounds down to a multiple of 16 |
| BumpArena.ReservesIff | src/qjs_snap.c:17-18 | the 64-bit test reserves the space of the block if and only if nothing wraps around |
| BumpArena.CallocReservesIff | src/qjs_snap.c:26-31 | with the product in 64 bits, room is reserved if and only if neither product nor sum wraps |
| BumpArena.HugeRequestIsGranted | src/qjs_snap.c:17-18 | a request of 2^64 - 1 bytes wraps to a block of 16 |
| BumpArena.TiledCovers | src/qjs_snap.c:15-24 | every used byte belongs to exactly one block and no unused byte to any |
| BumpArena.TiledApart | src/qjs_snap.c:15-24 | blocks never overlap |
| BumpArena.TiledAligns | src/qjs_snap.c:17 | blocks and the used size are multiples of 16 |
| BumpArena.SlotsMissNothing | src/qjs_snap.c:137 | the 8-byte slots of the comparison cover every used byte |
| BumpArena.Stored | src/qjs_snap.c:13-24 | writing inside a block changes neither another block nor any header |
| BumpArena.EndsAtUsedIff | src/qjs_snap.c:45-47 | the test for the last block succeeds for the last block only |
| BumpArena.Arena.Malloc | src/qjs_snap.c:15-24 | succeeds if and only if the block fits; all other blocks keep their bytes |
| BumpArena.Arena.Calloc | src/qjs_snap.c:26-31 | a zeroed block, all others unchanged |
| BumpArena.Arena.UsableSize | src/qjs_snap.c:64-67 | the header in memory holds the size asked for |
| BumpArena.Arena.ResizeLast | src/qjs_snap.c:47-56 | growing or shrinking in place keeps the common bytes and every other block |
| BumpArena.Arena.Realloc | src/qjs_snap.c:37-62 | when each of the four cases succeeds, and that the bytes up to the shorter size and all other blocks stay |
| BumpArena.Arena.Store | src/qjs_snap.c:13-24 | a caller's write inside its block keeps the arena consistent |
| Relocation.LowestBit | src/qjs_snap.c:236 | the lowest set bit, as the builtin finds it |
| Relocation.MarkOne | src/qjs_snap.c:156 | or-ing one bit into its word marks that slot and no other |
| Relocation.Compare | src/qjs_snap.c:147-171 | the marks are exactly the slots that moved with the address; volatile slots are zeroed and listed in order, up to eight |
| Relocation.Create | src/qjs_snap.c:100-218 | when a snapshot is created, refused or aborts, and what it holds |
| Relocation.VerdictIff | src/qjs_snap.c:100-208 | two runs give a snapshot if and only if they report alike and at most two slots moved neither with the address nor not at all, both in the first 1024 bytes from the context on; unlike reports or more than eight such slots are refused, all else aborts |
| Relocation.RelocateInPlace | src/qjs_snap.c:233-243 | the bit walk patches each marked slot once, touches no other and terminates |
| Relocation.Restore | src/qjs_snap.c:224-264 | whatever the arena held, it then holds the image for its own address, seeds in the volatile slots |
| Relocation.VolatileIff | src/qjs_snap.c:152-163 | a slot counts as volatile if and only if no constant and no pointer explains both runs |
| Relocation.ThawAt | src/qjs_snap.c:224-259 | every word after a restore, from the two images alone |
| Relocation.RestoreRebuilds | src/qjs_snap.c:224-259 | a restore at any address gives the image the initialiser builds there, except volatile slots, which hold a nonzero seed |
| Relocation.SeedTellsTime | src/qjs_snap.c:252-258 | a seed is the time of the restore in microseconds: both parts read back and a later time gives a larger seed |
| Relocation.SecondImageReturns | src/qjs_snap.c:224-259 | restoring at either run's address gives that run's image back |
| Relocation.OrderOfRunsIsIrrelevant | src/qjs_snap.c:136-171 | which address came first makes no difference to any restore |
| CodeTable.WrapIsMod | src/code_store.c:60-65 | the 32-bit masking is the remainder by the capacity, up to 2^32 slots |
| CodeTable.ProbedAbsent | src/code_store.c:61-67 | a probe that meets an empty slot or comes round proves the path absent |
| CodeTable.PlacedReachable | src/code_store.c:106-118 | filling the slot a probe stopped at keeps every entry reachable |
| CodeTable.HashTable.Find | src/code_store.c:58-68 | the entry last inserted for the path, or nothing |
| CodeTable.HashTable.Grow | src/code_store.c:74-89 | doubling loses and duplicates nothing |
| CodeTable.HashTable.Insert | src/code_store.c:70-119 | the map updated at one path; capacity stays a power of two with a free slot, growing above 70 per cent |
| CodeTable.Place | src/code_store.c:81-84 | rehashing one entry terminates and keeps the table well-formed |
| CodeTable.FnvSnoc | src/code_store.c:32-37 | the hash is FNV-1a byte by byte: xor, then multiply, in 32 bits, from the published offset |
| CodeTable.HomeIsHash | src/code_store.c:60-91 | a path's first slot is its hash modulo the capacity |
| CodeTable.FnvOfA | src/code_store.c:32-37 | the published value for "a" |
| CodeStore.ReadersSeeTheLastUpdate | src/code_store.c:171-203 | over any run, readers see the whole last ended update with its own hash, and nothing of the one under way |
| CodeStore.BuiltHoldsLastPuts | src/code_store.c:176-186 | a published path holds what was put on it last |
| CodeStore.BuiltHasLastHash | src/code_store.c:188-194 | the published hash is the last one set, cut to 40 characters |
| CodeStore.LookupIff | src/code_store.c:142-163 | a module or static lookup answers if and only if the path was last put as that kind |
| CodeStore.ReadersFind | src/code_store.c:142-203 | position by position in any run: under a path readers find data, source hash and kind of the last command on it in the last ended update, and nothing when that has none |
| CodeStore.ReadersFindHash | src/code_store.c:188-203 | likewise the tree hash, whole up to forty characters, else its first forty |
| CodeStore.BytecodeStore.Get | src/code_store.c:142-152 | bytecode and source hash of a module, nothing for a static file |
| CodeStore.BytecodeStore.GetStatic | src/code_store.c:154-163 | content of a static file, nothing for a module |
| CodeStore.BytecodeStore.UpdatePut | src/code_store.c:176-181 | edits the table under construction and not the current one |
| CodeStore.BytecodeStore.UpdateEnd | src/code_store.c:196-203 | swaps the built table in |
| Wire.Be32RoundTrip | src/raft_rpc.c:16-36 | network order reads back what was written, whatever follows |
| Wire.Be64RoundTrip | src/raft_rpc.c:9-30 | high word first, likewise for 64 bits |
| Wire.Be32Bytes | src/raft_rpc.c:16-19 | the most significant byte comes first |
| Wire.Be64Bytes | src/raft_rpc.c:9-14 | likewise for 64 bits |
| Rpc.DecodedIff | src/raft_rpc.c:153-240 | decoding yields a message if and only if it is well-formed and the bytes start with its payload |
| Rpc.FrameRoundTrip | src/raft_rpc.c:43-149 | an encoded frame without its header decodes to the message; the header is the payload's length |
| Rpc.PayloadsApart | src/raft_rpc.c:153-240 | no payload is the start of another message's payload |
| Rpc.ReadEntriesOf | src/raft_rpc.c:191-208 | any list of entries reads back |
| Rpc.LayoutSizes | src/raft_rpc.c:60-126 | the fixed sizes 28, 12, 36, 28 and 4 |
| Rpc.PayloadBytes | src/raft_rpc.c:59-149 | the bytes of each message: its kind, then its fields in order, signed ones in two's complement |
| Rpc.EntryLayout | src/raft_rpc.c:108-117 | the bytes of a log entry: term, id, type, length, data |
| RpcCodec.EncodeVoteReq | src/raft_rpc.c:59-73 | the bytes are the frame of the message |
| RpcCodec.EncodeVoteResp | src/raft_rpc.c:75-87 | the bytes are the frame of the message |
| RpcCodec.EncodeAppendReq | src/raft_rpc.c:89-121 | the 32-bit size pass is exact and the bytes are the frame, entries included |
| RpcCodec.EncodeAppendResp | src/raft_rpc.c:123-137 | the bytes are the frame of the message |
| RpcCodec.EncodeIdent | src/raft_rpc.c:139-149 | the bytes are the frame of the message |
| RpcCodec.DecodeEntries | src/raft_rpc.c:191-208 | exactly the specified entries, or failure when bytes run out |
| RpcCodec.Decode | src/raft_rpc.c:153-240 | on any bytes the specified result, from the first len bytes alone |
| Framing.CutAppend | src/raft_net.c:236-256 | cutting frames chunk by chunk is cutting the whole stream |
| Framing.CutStream | src/raft_net.c:236-256 | a stream of frames delivers exactly its payloads |
| Framing.CutPrefix | src/raft_net.c:236-256 | a prefix of it delivers a prefix, and less than one frame is left |
| Framing.Rebuilt | src/raft_net.c:236-256 | on any bytes the delivered frames and the rest are the bytes |
| Framing.StallsIff | src/raft_net.c:172-183 | the receive buffer can fill without a complete frame if and only if some frame does not fit it |
| Framing.NoProgressIff | src/raft_net.c:236-256 | a round of the receive loop leaves the buffer as it was if and only if the header is 2^32 - 4 |
| Framing.TakenLiesWithinIff | src/raft_net.c:239-248 | a frame taken for complete lies within the received bytes if and only if its 32-bit size does not wrap |
| RaftLink.TakenConserves | src/raft_net.c:545-552 | what the kernel takes is what the queue loses, for every partial send |
| RaftLink.ReceivedIs | src/raft_net.c:471-522 | the receiver's state after any chunks is that after all bytes at once, identification included |
| RaftLink.IdentifiedIff | src/raft_net.c:495-522 | a peer is identified if and only if the first frame has kind 5 and a known number, and nothing is delivered before |
| RaftLink.ArriveIsSafe | src/raft_net.c:239-242 | no 32-bit frame size wraps around |
| RaftLink.DeliveredInOrder | src/raft_net.c:471-556 | over any run: a prefix of the queued payloads, in order, once each, under the sender's number, identification consumed |
| RaftLink.QuietMeansDelivered | src/raft_net.c:471-556 | with nothing queued and nothing on the way, everything was delivered |
| RaftLink.NeverStuck | src/raft_net.c:172-199 | until then a byte can be sent or received |
| RaftLink.StepsShrink | src/raft_net.c:528-556 | and each such step brings the end nearer |
| RaftLink.MessagesArrive | src/raft_rpc.c:153-240 | raft messages queued as frames are the messages decoded by the peer |
| RaftNet.SlotWraps | src/raft_net.c:353-365 | ring slots stay right when the 32-bit counters wrap around |
| RaftNet.Sender.Send | src/raft_net.c:345-369 | appends a frame, or refuses when disconnected or 256 are queued |
| RaftNet.Sender.Completed | src/raft_net.c:528-556 | advances the head by what was sent; a failure drops everything |
| RaftNet.Sender.Disconnect | src/raft_net.c:220-233 | the queue is empty afterwards |
| RaftNet.Receiver.ProcessRecvBuf | src/raft_net.c:236-256 | delivers every complete frame, oldest first, and moves the rest to the front |
| RaftNet.Receiver.Received | src/raft_net.c:493-522 | identification and delivery as the link model specifies |
| Ejs.SegmentsAreTheSource | src/ejs.c:86-144 | the segments put together are the template and obey the template language's rules |
| Ejs.SegmentsUnique | src/ejs.c:86-144 | no other segmentation that obeys them has this source |
| Ejs.LiteralRoundTrip | src/ejs.c:44-62 | an emitted literal, read by section 12.9.4 of ECMA-262, is the text and ends where it should |
| Ejs.TextStatementAppendsText | src/ejs.c:95-119 | the statement of a text or unclosed segment appends exactly its source |
| Ejs.EscapedOnOneLine | src/ejs.c:44-62 | an emitted literal stays on one line |
| Ejs.PlainText | src/ejs.c:44-62 | text without special characters is put out as it is |
| Ejs.Transform | src/ejs.c:75-159 | the compiler's output is preamble, the statement of each segment in order, and closing |
| EjsProgram.TemplateRenders | src/ejs.c:69-159 | the compiled text, read as a program from its first to its last character and called, returns the text of the template, each one-line escaped tag as the HTML-escaped value of its code and each raw one as the value, comments left out |
| EjsProgram.PlainTemplateReturnsItself | src/ejs.c:75-159 | a template without a closed tag is returned as it is |
| EjsProgram.TextReturnsItself | src/ejs.c:75-159 | so is one that opens a tag at no position |
| EjsProgram.ChainIsHtml | src/ejs.c:69-72 | the chain of replacements in the preamble, in its order, escapes each character by itself |
| EjsProgram.HtmlIsSafe | src/ejs.c:69-72 | escaped text holds no markup and no quote, and its character references read back as the text |
| TextBuffer.Buffer.Ensure | src/ejs.c:22-31 | growth makes room and loses no byte |
| TextBuffer.Buffer.NewCap | src/replay_capture.c:17-24 | both growth policies reach the size needed and at least double; the doubling one overshoots by less than a factor of two |
| Tenants.PrefixesApart | src/worker.c:114-120 | no tenant's prefix starts another tenant's keys |
| Tenants.BetweenHasPrefix | src/kvstore.c:34 | a key between two prefixed keys has the prefix |
| Tenants.OwnCall | src/js_globals.c:90-240 | get, put, delete and range through the prefix act on the view as on a private store, errors included |
| Tenants.ForeignCall | src/js_globals.c:123-184 | another tenant's call leaves the view alone |
| Tenants.TenantsAreAlone | src/js_globals.c:90-240 | over any run of any tenants, each gets the answers and rows its own calls alone would give |
| Tenants.WriteThenRead | src/js_globals.c:90-159 | after a put the key reads as the value and every other key as before |
| Tenants.EraseThenRead | src/js_globals.c:90-184 | after a delete the key reads as missing and every other key as before |
| Tenants.ScanFindsIff | src/js_globals.c:186-240 | a range holds exactly the rows from start up to but without end that reads find, in key order, and with a limit the first of them |
| Tenants.TooLongIff | src/kvstore.c:197-202 | a call is refused, and changes nothing, if and only if a prefixed key takes 512 bytes or more |
| Tenants.DecimalReads | src/worker.c:114-120 | the number in a prefix is decimal without leading zeros |
| Tenants.PrefixText | src/worker.c:114-120 | the keys of tenant 42 start with tenants/42/ |
| OrderedTable.GetAfterPut | src/kvstore.c:162-171 | a put row is found and all others are as before |
| OrderedTable.GetAfterRemove | src/kvstore.c:186-195 | a removed row is gone and all others are as before |
| OrderedTable.GetRowIff | src/kvstore.c:139-160 | a read finds exactly the row there is |
| OrderedTable.BetweenIff | src/kvstore.c:204-230 | a range is exactly the rows with start <= key < end |
| OrderedTable.LessIff | src/kvstore.c:34 | the key order: the first differing byte decides, else the shorter key is less |
| Tenants.RoomForKeys | src/worker.c:114-120 | a 64-bit tenant number takes at most 29 of the 512 bytes |
| CodeTrees.ListingInjective | src/code_db.c:231-248 | different trees have different Merkle inputs |
| CodeTrees.SnapshotIff | src/code_db.c:225-283 | a snapshot succeeds if and only if there is something to record and this tree is new; otherwise nothing changes |
| CodeTrees.RunKeepsInv | src/code_db.c:129-299 | in every reachable state each tree entry's hash has a stored blob and each recorded tree is named by its listing |
| CodeTrees.RecordedForGood | src/code_db.c:203-299 | a recorded tree lists and reads the same after any later run |
| CodeTrees.PutThenRead | src/code_db.c:129-148 | a put path reads back its content, and every other path, recorded tree and database reads as before |
| CodeTrees.DeleteThenRead | src/code_db.c:285-292 | a deleted path is gone from the working tree, and everything else reads as before |
| CodeTrees.ClearThenRead | src/code_db.c:294-299 | a cleared working tree holds no file, and everything else reads as before |
| CodeTrees.SnapshotThenRead | src/code_db.c:225-283 | a recorded tree reads like the working tree it was taken from, and everything else as before |
| CodeTrees.ListingAt | src/code_db.c:231-248 | the Merkle input row by row: path, zero byte, hash, newline |
| CodeTrees.TreeDb.BuildListing | src/code_db.c:231-248 | the buffer is the listing, filled exactly |
| CodeTrees.TreeDb.Record | src/code_db.c:225-283 | the store's snapshot is the specified one |
| Json.RoundTrip | src/replay_capture.c:46-68 | any value printed is read back, strings by section 7 of RFC 8259 |
| Json.QuotedForms | src/replay_capture.c:46-68 | which characters are escaped and how |
| ReplayTape.TapeReadsBack | src/replay_capture.c:93-171 | a closed tape is one JSON array holding exactly the captured calls in order |
| ReplayTape.TapeReplays | src/replay_capture.c:93-171 | parsed and taken apart by member names, a closed tape gives the captured calls in order, values included; only a read of an empty value comes back as one of none |
| ReplayTape.TapesEqualIff | src/replay_capture.c:100-113 | two tapes are equal if and only if the calls are, except that an empty value is not told from none |
| ReplayTape.EmptyReadsAsMissing | src/replay_capture.c:108-111 | the one ambiguity, concretely |
| ReplayTape.Tape.CaptureGet | src/replay_capture.c:100-113 | appends one well-formed entry |
| ReplayTape.Tape.CaptureRange | src/replay_capture.c:115-138 | appends one well-formed entry with all rows |
| ReplayTape.Tape.CaptureModule | src/replay_capture.c:158-171 | appends one well-formed entry |
| ReplayTape.Tape.Finalize | src/replay_capture.c:93-98 | closes the array |
| RecentRequests.Collect | src/js_globals.c:1070-1086 | the array holds the largest numbers of every database |
| RecentRequests.MergeIsExact | src/js_globals.c:1070-1090 | cutting each database before the merge loses nothing of the largest numbers of the union |
| RecentRequests.RequestIdsApart | src/worker.c:1198-1199 | two numbers of the first 65536 workers, counters below 2^48, are equal if and only if worker and counter are |
| RecentRequests.RequestIdSpills | src/worker.c:1198-1199 | every counter's number is that of the worker, in sixteen bits, with the counter's upper bits or-ed in, at the counter's lower 48 bits |
| RecentRequests.RequestIdsMeetIff | src/worker.c:1198-1199 | exactly when two requests share a number, with the shift in 64 bits |
| RecentRequests.RequestIdsMeet | src/worker.c:1198-1199 | worker 0 meets worker 1 at counter 2^48, and worker 65536 meets worker 0 at every counter |
| RecentRequests.RequestIdsOrderIff | src/js_globals.c:1051-1056 | numbers are ordered by worker first and by counter within a worker |
| RecentRequests.LaterRequestIsCut | src/js_globals.c:1088-1090 | as many requests of a higher worker as are listed keep every request of a lower one out of the list |

## Left out

- Memory model: accesses are sequentially consistent; the acquire and release orders of the source are not modelled.
- ProposalQueue.Queue.Push: a push that nothing interrupts; the interleaved accesses are steps of Pipeline. Counters are unbounded, so fewer than 2^64 - 4096 pushes.
- Five pipeline steps stand for two or three accesses each: the capacity check, the release of a response, a take from the ring, and gaining and losing leadership. Waiting for capacity stops being enforced on shutdown, which is not modelled.
- BatchBlob.SerializeBatch: requires a blob below 4 GiB; from there on the size wraps (Measure) and the source writes past its buffer. BatchBlob.Propose and Replication.FollowerHoldsPrefix carry the same bound.
- PipelineSafety.RunKeepsInv: holds for sound runs; the exact conditions are ProposalKeepsOrderIff, FillKeepsIff and StoreAppendsIff, and the runs outside them are the counterexamples. In the default configuration of several workers the source does not keep producers apart.
- Replication.ReplicaConverges: excludes transactions that only delete existing keys and assumes the log holds every number.
- Raft is an ordered log of accepted batches; elections, log truncation and restoring the log at start are the raft library's and are not part of this model. A former leader that re-applies its own batches as a follower is not modelled either.
- Loss of leadership seen while handling a peer message keeps the drain buffer, unlike the periodic path; the step Lose has both variants, but nothing says which one the library takes.
- CatchUp.CatchUpExactIff: speaks of tables; the byte layout of the snapshot messages, which is one more length-prefixed list, is left out.
- kv_next_seq failing, commit conflicts that are retried with success, and session persistence, which writes to the table outside the write-set.
- Nothing in the source repairs the row that a request answered 307 after its local commit leaves behind; RedirectedNeverReplicates says what that means for the log.
- Relocation.Restore: the three runtime setters called after relocation belong to the foreign engine; the clock readings are a parameter.
- Relocation.Create: the initialiser's images and return codes are parameters; the leak of the bitmap on an error return is not modelled.
- BumpArena.Arena.Malloc: requires sizes whose sums do not wrap (ReservesIff is the exact condition); headers are kept in network order, the host's order being immaterial.
- CodeTable.HashTable.Insert: a table needs at most 2^32 slots, where the 32-bit index of the source would no longer reach every slot; hash collisions of FNV-1a are allowed and need no assumption.
- CodeStore.BytecodeStore.UpdateEnd: freeing the old table while readers hold pointers into it is not modelled; a reader's lookup is one atomic load followed by reads of an unchanging table.
- RpcCodec.EncodeAppendReq: requires a frame below 4 GiB, where the 32-bit size pass would wrap.
- RaftLink.DeliveredInOrder: one connection; a disconnect drops what is queued and starts a new one. Completions belong to the live connection. Empty frames are never queued.
- RaftNet.Receiver.Received: requires that no frame header in the stream wraps a 32-bit size, which ArriveIsSafe proves for peers whose frames fit the buffer.
- EjsProgram.TemplateRenders: what a tag's code evaluates to is an arbitrary function of that code; tags with statements, and output tags of more than one line, are only shown to be copied verbatim into the right statement.
- Ejs.LiteralRoundTrip: hexadecimal, Unicode and octal escapes and line continuations are not read, as the compiler never emits them.
- Tenants.TenantsAreAlone: the system tenant, which has no prefix and sees the whole table, takes no part; keys are byte strings without the engine's string conversion.
- CodeTrees.RunKeepsInv: holds while no two inputs hashed so far collide; the hash function is otherwise arbitrary.
- ReplayTape.TapeReadsBack: the date and random-number tapes, which print numbers, and the session copy are left out; keys have no zero byte.
- RecentRequests.MergeIsExact: the library sort is any falling arrangement of the collected numbers; negative limits are left out.
- Allocation failure everywhere, SQLite's own behaviour beyond serialised write transactions, sockets, timers, reconnection and memory reclamation.
- JavaScript execution and dispatch, WebCrypto, TypeScript, routing, the command line, the HTTP servers and the demo: wrappers over foreign engines and I/O.
