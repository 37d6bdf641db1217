# Verified model of the Garnet provider and the TapeANN index

A Dafny model of the parts of this repository whose correctness is hard to see from one function at a
time, proved for all inputs, all runs and all interleavings.

**The Garnet ID allocator** (`FsmLayout`, `FsmSpec`, `FreeSpaceMap`, `FsmRuns`, `FsmProtocol`, `FsmReach`,
`FsmSolo`, `FsmCalls`, `FsmUniqueness`, `FsmHazards`). The bitmap in the store represents a set of used IDs. `FsmSpec` gives each
operation as a function of the whole state; `FreeSpaceMap` is the object with its scan, retry and
recovery loops, proved against those functions and, for a store whose every operation may fail, against a
weaker contract: an open map never marks an ID that was in use, and a map that has just been opened says
exactly which used IDs it has seen. `FsmProtocol` is the same allocator as a transition system of threads
that take one atomic step at a time, with failing stores and restarts; `FsmUniqueness` proves that no ID is
handed out twice as long as every restart finds the blocks that hold used IDs, and `FsmHazards` that otherwise
exactly the IDs in the blocks that were missed can be. `FsmSolo` ties the two forms together: a thread running
alone performs exactly the sequential operation; `FsmCalls` says what a call does while others interfere.
`FsmRuns` is about sequential callers.

**The provider and its FFI shell** (`GarnetProvider`, `StartPoint`, `NeighborLists`, `StartPointGate`, `ResultBuffer`).
The index as a dictionary from external IDs to vectors over every run, the neighbour lists likewise, the cached neighbour list of vertex 0 against its
stored form, the start-point gate over all interleavings, and the length-prefixed result buffer with its
reader.

**The TapeANN index** (`TapeMask`, `TapeQuant`, `TapeKernel`, `TapeRecord`, `TapeLayout`, `TapeIndex`,
`TopK`, `TapeSearch`, `TapeDrain`, `TapeAnswer`, `TapeEndToEnd`). The writer's masks, quantizer, record
packing and layout; the searcher's kernels, routing, filters, heaps and completion loop; and one method
from end to end (`TapeEndToEnd.WriteAndSearch`): write any dataset, answer any query over the files, let the
reads complete in any order, and the answer's distances are the ten smallest among the rows of the nearest
centroids' clusters that pass the filter. `AnswerAccuracy` compares that answer with brute force.

**The slice conversion loop** (`SimdConvert`). `Collections` and `ByteStrings` hold shared vocabulary.

## What turned out false

- A restart can lose IDs that are in use. An existence check is a read, and a failed read looks like a
  missing key. If the check of block 0 fails, `new` overwrites the block with zeroes; if the scan of
  `load_state` ends early, later expansions overwrite the blocks that were missed. The exact condition, for
  every used ID: after a restart that finds blocks `0 .. n`, some continuation in which nobody frees
  anything returns the ID again if and only if its block is `n` or later (`FsmHazards.ReturnedAgainIff`; the
  last 32-bit ID is never returned at all). Hence uniqueness survives the restart if and only if no used ID
  lies at or above `n * 65536` (`RestartKeepsUniquenessIff`), and the uniqueness theorems hold for every run
  whose restarts meet that. Every ID is concerned (`ForgetfulRestart`).
- A recovered allocator can stop minting for sequential callers. `load_state` puts the counter just past the
  highest used ID, which may be below `max_block * 65536` when trailing IDs were released before the
  restart. A later refill then queues IDs at or above the counter and `mark_id` refuses them. From then on no
  allocation or release moves the counter, one call after the other (`FsmRuns.JammedRun`): once the free IDs
  below it are gone, an allocation can only return an ID released since, and fails otherwise
  (`WedgedReuses`; `ReleaseRevives` is the former). `WedgeIsReachable` is such a run. For sequential callers a
  recovered map serves in every continuation if and only if its counter has reached the last block
  (`RecoveredServesIff`); maps that were never restarted always do (`FreshRunsServe`). Overlapping calls can
  get a jammed map to mint: one thread empties the queue while another stands between its refill and its
  second pop (`FsmHazards.JammedMintsConcurrently`).
- An ID may be returned twice in a row if somebody frees an ID that was not returned to them yet
  (`FsmHazards.UndisciplinedDoubleReturn`, for every ID). It cannot if no release clears an ID between the step that
  takes it and the step that returns it (`FsmUniqueness.ReturnedOnceUntilCleared`), which callers that free only what they
  hold ensure (`ReturnedOnceUntilReleased`); for arbitrary callers each return still rests on its own 0-to-1
  flip (`ReturnsAreSeparated`).
- A release can be missed. A refill that finds nothing lowers the flag when it ends, even if a release has
  filled the queue and raised the flag meanwhile; the released ID then stays in the queue while allocations
  mint (`FsmHazards.ReleaseIsMissed`, reached from a new map by `ReleaseIsMissedFromNew`). `FsmCalls.FlagStepIff`
  is the exact condition: every other step of every interleaving keeps queued IDs announced.
- A delete that fails half-way can revive the deleted ID as an alias. The internal ID is freed first; if the
  erasure of the external-to-internal entry then fails, the next insert takes the internal ID and both
  external IDs name it (`GarnetProvider.LostErasureAliases`). `Provider.Delete` says exactly when the maps
  stay linked.
- A start point can get lost. If the first attempt to set it fails half-way - the mark of ID 0, the write of
  the vector or the write of its list - no later attempt succeeds (`StartPoint.HalfwayIsLost`).
  `StartSucceedsIff` is the exact condition for one attempt and `StartEventuallyIff` for any number of them,
  one after the other. A restart cures the first case (`RestartCures`); in the second no run of inserts,
  deletes, attempts and reopenings helps (`StartStaysLost`); in the third an attempt succeeds again if and
  only if something else has written the list (`NeighborLists.StartAdoptedIff`).
- The cached list of vertex 0 can lag behind the stored one after an append that fills the list before
  its last neighbour (`NeighborLists.CacheCanLag`). Besides `set_neighbors`, any later append that does
  not leave early - for instance an empty one - brings it up to date; `CacheOverRuns` is the exact
  condition.
- `fsm.rs` speaks of three states of an ID (free, occupied, deleted); the code has two, and so has the
  model.

## Reading the model

- Bytes of the free space map are 8-bit vectors and shifted as in the source. 32-bit counters are
  naturals with the wrap-around written out (`% 2^32`), in particular where the mint counter overflows.
- `Store` stands for the foreign callbacks: single reads, writes and read-modify-writes are atomic and,
  unless the store is `reliable`, may fail without effect. An existence check is a read (garnet.rs:112-130),
  so a failed one answers no. What is found is always there.
- A thread of `FsmProtocol` between two atomic steps is one constructor of `PC`. `held` is bookkeeping
  for stating properties and influences no step.
- A priority queue is represented by its contents in ascending pair order.
- Floating-point operations are exact operations followed by a rounding function that is monotone and
  leaves representable values alone (IEEE 754-2019, sections 4.3 and 5.4.1).
- Recurring predicates: `Valid` (kept by every allocator operation), `Tight` (the counter is past every
  used ID), `Aligned` (the counter has reached the last block and the queue lies below it), `Within` (no used
  ID beyond the given blocks), `Complete` and `CleanRun` (restarts have found every used ID), `Linked` (the ID
  maps agree), `Runnable` (a query's reads lie on the tape and fit their slots).

## Model

| member | source | states |
|---|---|---|
| `FsmLayout.UpdateByteBits` | DiskANN/diskann-garnet/src/fsm.rs:374-381 | writing one status bit sets that bit and keeps the other seven of its byte |
| `FsmLayout.BitIsDigit` | DiskANN/diskann-garnet/src/fsm.rs:369-371 | a status bit is the digit of weight 2^(7 - index) of the stored byte: bits are counted from the left |
| `FsmLayout.UpdateMovesValue` | DiskANN/diskann-garnet/src/fsm.rs:374-381 | writing a status bit moves the value of the byte by that weight exactly if the bit changes |
| `FsmLayout.UsedInBytes` | DiskANN/diskann-garnet/src/fsm.rs:277-289 | an ID is used exactly if the byte at (id mod 65536) / 8 of the block stored under id / 65536 and the prefix `_fsm` has digit one at its place |
| `FsmLayout.WithBitInBytes` | DiskANN/diskann-garnet/src/fsm.rs:165-173 | a read-modify-write leaves every other key, every other byte of the block and every other bit as they were |
| `FsmLayout.StatusChangesIff` | DiskANN/diskann-garnet/src/fsm.rs:374-381 | the returned flag is true exactly when the bit differed from the requested value |
| `FsmLayout.FullByte` | DiskANN/diskann-garnet/src/fsm.rs:315-318 | a byte equals 0xff exactly when none of its eight IDs is free, which is what the scan shortcut relies on |
| `FsmLayout.IndexesDetermineId` | DiskANN/diskann-garnet/src/fsm.rs:277-284 | block, byte and bit index together determine the ID |
| `FsmLayout.BlockKeyInjective` | DiskANN/diskann-garnet/src/fsm.rs:286-289 | different blocks have different store keys |
| `FsmLayout.PrefixIsText` | DiskANN/diskann-garnet/src/fsm.rs:38-39 | the key prefix is the text `_fsm`, most significant byte first |
| `FsmLayout.WithBitMembership` | DiskANN/diskann-garnet/src/fsm.rs:165-173 | one read-modify-write changes the membership of exactly one ID across all blocks |
| `FsmLayout.AddZeroBlock` | DiskANN/diskann-garnet/src/fsm.rs:345-353 | writing a zero block where nothing is used changes no membership |
| `FsmLayout.ScanCovers` | DiskANN/diskann-garnet/src/fsm.rs:90-96 | a scan for stored blocks with no failed read sees every used ID and at least the blocks in use before |
| `FsmSpec.MarkOutcome` | DiskANN/diskann-garnet/src/fsm.rs:154-185 | a reported change is a real one, it concerns that ID alone, and an error changes nothing |
| `FsmSpec.MarkExact` | DiskANN/diskann-garnet/src/fsm.rs:154-185 | it succeeds exactly for minted IDs in allocated blocks, fails with the error of the source otherwise, and queues an ID that became free at the end if there is room, raising the flag |
| `FsmSpec.RefillOutcome` | DiskANN/diskann-garnet/src/fsm.rs:292-338 | a refill queues only free IDs below the last block and reports nothing exactly when the queue is empty and all those blocks are full |
| `FsmSpec.RefillOrder` | DiskANN/diskann-garnet/src/fsm.rs:304-331 | a refill of an empty queue takes the lowest free IDs, lowest first, at most 1024 |
| `FsmSpec.CreatedOutcome` | DiskANN/diskann-garnet/src/fsm.rs:72-83 | starting over with a zeroed block 0 gives a valid map if and only if nothing is used beyond block 0, and keeps every membership if and only if nothing is used in it |
| `FsmSpec.MintOnceOutcome` | DiskANN/diskann-garnet/src/fsm.rs:253-264 | one minting round advances the counter by one modulo 2^32 and changes membership only by the ID it succeeds with |
| `FsmSpec.NextIdOutcome` | DiskANN/diskann-garnet/src/fsm.rs:216-267 | an allocation adds exactly one previously unused ID or changes nothing, and with a counter past every used ID it succeeds if and only if the ID it would reuse lies below the counter (or, when it mints, the counter is not exhausted) |
| `FsmRuns.LoadOutcome` | DiskANN/diskann-garnet/src/fsm.rs:89-138 | for any bitmap, recovery sets the counter one past the highest used ID seen and queues distinct free IDs below it - all of them when they fit; the recovered map is valid if and only if no used ID lies beyond the blocks found |
| `FsmRuns.LoadTight` | DiskANN/diskann-garnet/src/fsm.rs:89-138 | with all reads succeeding the recovered counter is one past the highest used ID, 0 if none |
| `FsmRuns.LoadOrder` | DiskANN/diskann-garnet/src/fsm.rs:104-124 | the recovered queue holds the highest free IDs below the highest used one, highest first, at most 1024 |
| `FsmRuns.ReusesInOrder` | DiskANN/diskann-garnet/src/fsm.rs:219-228 | queued IDs are returned in the order in which they were queued |
| `FsmRuns.StepKeepsUsed` | DiskANN/diskann-garnet/src/fsm.rs:216-365 | no allocation, expansion or restart makes a used ID unused; only its own release does |
| `FsmRuns.InUseIsNotReturned` | DiskANN/diskann-garnet/src/fsm.rs:216-267 | with a working store, an ID in use at some point of a run, restarts included, is not returned later unless released in between |
| `FsmRuns.ReturnedTwiceMeansReleased` | DiskANN/diskann-garnet/src/fsm.rs:216-267 | two allocations of one run that return the same ID have a release of it between them |
| `FsmRuns.HealthyRunsServe` | DiskANN/diskann-garnet/src/fsm.rs:216-267 | from any healthy map, new or recovered, every sequential restart-free run that does not exhaust the counter keeps the counter within the last block and the queue distinct, free and minted, and leaves a map whose next allocation succeeds with an unused ID |
| `FsmRuns.FreshRunsServe` | DiskANN/diskann-garnet/src/fsm.rs:141-185 | in particular every restart-free run from a new map shorter than 2^32 - 1 operations |
| `FsmRuns.RecoveredServesIff` | DiskANN/diskann-garnet/src/fsm.rs:89-138 | for sequential callers, a recovered map serves in every continuation without a further restart if and only if its counter has reached the last block; otherwise some allocations and releases lead to a refusal |
| `FsmRuns.AnyRunServesIff` | DiskANN/diskann-garnet/src/fsm.rs:216-267 | with restarts anywhere, the next allocation succeeds if and only if the ID it would reuse lies below the counter |
| `FsmRuns.JammedRun` | DiskANN/diskann-garnet/src/fsm.rs:216-267 | over every sequential run of allocations and releases, a map whose counter lies below the last block and whose flag is set keeps both, and returns only IDs below the counter |
| `FsmRuns.WedgedReuses` | DiskANN/diskann-garnet/src/fsm.rs:154-157 | once nothing below that counter is free, over every sequential run of allocations and releases an allocation returns only an ID released during the run, and without a release every allocation fails |
| `FsmRuns.ReleaseRevives` | DiskANN/diskann-garnet/src/fsm.rs:175-182 | with an empty queue, a release of a used ID is what the next allocation returns |
| `FsmRuns.WedgeIsReachable` | DiskANN/diskann-garnet/src/fsm.rs:89-138 | such a state, with an empty queue, is reached from a new map by allocations, three releases and one restart |
| `FreeSpaceMapModel.FreeSpaceMap.MarkId` | DiskANN/diskann-garnet/src/fsm.rs:154-185 | the method follows the reference on success and leaves the whole map unchanged on any failure |
| `FreeSpaceMapModel.FreeSpaceMap.MarkFree` | DiskANN/diskann-garnet/src/fsm.rs:141-144 | a release follows the reference on success and leaves the whole map unchanged on any failure |
| `FreeSpaceMapModel.FreeSpaceMap.IsFree` | DiskANN/diskann-garnet/src/fsm.rs:187-211 | the answer agrees with the represented set; out-of-range IDs are exactly the unminted ones |
| `FreeSpaceMapModel.FreeSpaceMap.ScanByte` | DiskANN/diskann-garnet/src/fsm.rs:320-329 | the bit loop appends the free IDs of the byte, each at its true number, until the queue refuses one |
| `FreeSpaceMapModel.FreeSpaceMap.ScanBlock` | DiskANN/diskann-garnet/src/fsm.rs:314-330 | the byte loop with its shortcut queues the free IDs of the block in order |
| `FreeSpaceMapModel.FreeSpaceMap.RefillFastFreeList` | DiskANN/diskann-garnet/src/fsm.rs:292-338 | the scan loops leave the queue holding the first 1024 free IDs of the scanned blocks |
| `FreeSpaceMapModel.FreeSpaceMap.ExpandTo` | DiskANN/diskann-garnet/src/fsm.rs:341-365 | the missing next block is added as zeroes, gaps are refused, a failed write changes nothing |
| `FreeSpaceMapModel.FreeSpaceMap.MintId` | DiskANN/diskann-garnet/src/fsm.rs:250-266 | the minting loop terminates and marks exactly the returned ID, whatever the store does |
| `FreeSpaceMapModel.FreeSpaceMap.NextId` | DiskANN/diskann-garnet/src/fsm.rs:216-267 | whatever the store does, an allocation marks exactly the returned, previously unused ID or nothing; with a working store it is the reference allocation |
| `FreeSpaceMapModel.FreeSpaceMap.LoadByte` | DiskANN/diskann-garnet/src/fsm.rs:113-124 | the downward bit scan keeps the highest used ID and the queue right even after a refused push leaves its ID counter out of step |
| `FreeSpaceMapModel.FreeSpaceMap.CountBlocks` | DiskANN/diskann-garnet/src/fsm.rs:90-96 | the existence loop ends, at most at block 2^16, having found every block below the count; with a working store the count is the first missing block |
| `FreeSpaceMapModel.FreeSpaceMap.LoadState` | DiskANN/diskann-garnet/src/fsm.rs:89-138 | recovery computes the reference state over the blocks found whose reads succeed; a count of zero wraps `max_block` |
| `FreeSpaceMapModel.FreeSpaceMap.New` | DiskANN/diskann-garnet/src/fsm.rs:58-86 | opening recovers the blocks found or zeroes block 0, whichever reads fail, and the map is then valid exactly if no used ID lies beyond those blocks; with a working store it is the reference |
| `FsmProtocol.StepFromSafe` | DiskANN/diskann-garnet/src/fsm.rs:154-185 | one atomic step of one thread keeps blocks whole, keeps used IDs inside the allocated blocks and changes membership only in a read-modify-write, by exactly its ID |
| `FsmProtocol.StepSafe` | DiskANN/diskann-garnet/src/fsm.rs:216-365 | every step of every thread, whatever the store does, and every restart that finds all used IDs keeps the invariant |
| `FsmProtocol.ExpandStep` | DiskANN/diskann-garnet/src/fsm.rs:341-364 | an expansion under the lock writes zeroes only where no ID is used |
| `FsmProtocol.EventLaw` | DiskANN/diskann-garnet/src/fsm.rs:168-173 | the bit of an ID changes at an allocation or release event of that ID and at no other step, complete restarts included |
| `FsmCalls.CallFollowsSource` | DiskANN/diskann-garnet/src/fsm.rs:216-267 | under every interleaving and whatever the store does, what a completed call observes - flag, pops, marks, refills, numbers taken - is what the two loops of the source prescribe, retries included, and so is what it returns |
| `FsmCalls.StaleIdIsRetried` | DiskANN/diskann-garnet/src/fsm.rs:218-228 | a thread that finds a queued ID already marked pops again, and does not mint as long as the queue is not empty |
| `FsmCalls.QueueIsFifo` | DiskANN/diskann-garnet/src/fsm.rs:175-182 | under every interleaving the IDs popped are those queued and pushed, in that order |
| `FsmCalls.CounterCounts` | DiskANN/diskann-garnet/src/fsm.rs:254-254 | the counter counts the fetch-and-adds of all threads, modulo 2^32 |
| `FsmCalls.NumbersAreTakenOnce` | DiskANN/diskann-garnet/src/fsm.rs:20-24 | two threads never take the same number unless 2^32 were taken in between |
| `FsmCalls.FlagStepIff` | DiskANN/diskann-garnet/src/fsm.rs:333-335 | a step keeps every queued ID announced by the flag if and only if it is not the end of an unsuccessful refill that overlapped a release |
| `FsmUniqueness.Conservation` | DiskANN/diskann-garnet/src/fsm.rs:11-24 | for every interleaving, store failures and complete restarts included, allocations minus releases of an ID equal the change of its bit |
| `FsmUniqueness.FlipsAlternate` | DiskANN/diskann-garnet/src/fsm.rs:11-24 | between two allocations of one ID lies a release of it |
| `FsmUniqueness.ReturnHasFlip` | DiskANN/diskann-garnet/src/fsm.rs:216-267 | every returned ID rests on a 0-to-1 flip by the returning thread |
| `FsmUniqueness.ReturnsAreSeparated` | DiskANN/diskann-garnet/src/fsm.rs:216-267 | whatever callers free, two returns of one ID rest on two different allocations with a release between them |
| `FsmUniqueness.StepExclusive` | DiskANN/diskann-garnet/src/fsm.rs:216-267 | with callers that free only what they hold, held and claimed IDs stay used and never overlap |
| `FsmUniqueness.ReturnedOnceUntilCleared` | DiskANN/diskann-garnet/src/fsm.rs:216-267 | whatever callers free, if no release clears the ID while a thread that got it has not returned it yet, two returns of it have a release strictly between them |
| `FsmUniqueness.ReturnedOnceUntilReleased` | DiskANN/diskann-garnet/src/fsm.rs:11-24 | with callers that free only what they hold, an ID once returned is not returned again to anyone until a release has cleared its bit |
| `FsmUniqueness.NoFreeNoClear` | DiskANN/diskann-garnet/src/fsm.rs:141-144 | in a run without a call of mark_free, restarts of any kind included, no bit is cleared by a release |
| `FsmHazards.ReturnedAgainIff` | DiskANN/diskann-garnet/src/fsm.rs:72-96 | for every used ID: after a restart that finds blocks 0..n, some interleaving without a call of mark_free and without a further restart returns the ID again if and only if its block is n or later (and it is not the last 32-bit ID) |
| `FsmHazards.RestartKeepsUniquenessIff` | DiskANN/diskann-garnet/src/fsm.rs:58-96 | as long as nobody frees anything no ID in use is handed out again, over all interleavings and store failures, if and only if no used ID lies in a block that the restart missed |
| `FsmHazards.ForgetfulRestart` | DiskANN/diskann-garnet/src/fsm.rs:72-83 | every ID but the last can be minted on a new map, returned, and returned again after a restart that misses its block, though nobody ever frees anything |
| `FsmHazards.UndisciplinedDoubleReturn` | DiskANN/diskann-garnet/src/fsm.rs:141-144 | without the discipline the claim is false for every ID but the last: an interleaving returns it twice in a row |
| `FsmHazards.JammedMintsConcurrently` | DiskANN/diskann-garnet/src/fsm.rs:221-246 | two overlapping allocations move the counter of a jammed map without any release, and every ID beyond its blocks can be had |
| `FsmHazards.ReleaseIsMissed` | DiskANN/diskann-garnet/src/fsm.rs:333-335 | a refill that ends after a release has filled the queue leaves the flag down and the released ID unannounced |
| `FsmHazards.ReleaseIsMissedFromNew` | DiskANN/diskann-garnet/src/fsm.rs:292-338 | such a state is reached from a new map |
| `FsmSolo.LeadsReaches` | DiskANN/diskann-garnet/src/fsm.rs:216-267 | the steps that the three statements below speak of are a path of the protocol in which only that thread moves and the lock is free wherever it is needed |
| `FsmSolo.NextIdAlone` | DiskANN/diskann-garnet/src/fsm.rs:216-267 | the atomic steps of one thread alone compose to the sequential allocation |
| `FsmSolo.RefillAlone` | DiskANN/diskann-garnet/src/fsm.rs:292-338 | the atomic steps of a refill compose to the sequential refill |
| `FsmSolo.MarkFreeAlone` | DiskANN/diskann-garnet/src/fsm.rs:141-185 | the atomic steps of a release compose to the sequential release |
| `GarnetProvider.LinkedRoundTrip` | DiskANN/diskann-garnet/src/provider.rs:254-278 | looking up an external ID and back returns it, and no two external IDs share an internal ID |
| `GarnetProvider.SetElementLinked` | DiskANN/diskann-garnet/src/provider.rs:284-321 | an insert keeps the maps linked and takes an unused internal ID |
| `GarnetProvider.InsertContents` | DiskANN/diskann-garnet/src/provider.rs:294-307 | a successful insert stores the given vector under the external ID, and no insert touches the vector of any other |
| `GarnetProvider.IsDictionary` | DiskANN/diskann-garnet/src/provider.rs:152-356 | over every run of inserts, deletes, attribute writes, start-point attempts and reopenings the index is a plain dictionary: the vector of the last insert not deleted since, the attributes last written and not deleted since, the start point |
| `GarnetProvider.ReinsertOrphans` | DiskANN/diskann-garnet/src/provider.rs:284-321 | inserting a mapped external ID again leaves its old internal ID used and still naming it |
| `GarnetProvider.DeleteLinked` | DiskANN/diskann-garnet/src/provider.rs:325-356 | a delete succeeds exactly for a mapped ID, frees exactly its internal ID, erases both map entries, attributes and vector, and keeps the maps linked |
| `GarnetProvider.ExistsIffMapped` | DiskANN/diskann-garnet/src/provider.rs:230-236 | an external ID exists exactly when it is mapped |
| `GarnetProvider.ExistsExactlyLive` | DiskANN/diskann-garnet/src/provider.rs:152-356 | over every such run an external ID exists exactly if inserted and not deleted since, its lookup round-trips, and its internal ID holds the vector of its last insert |
| `GarnetProvider.FreshStart` | DiskANN/diskann-garnet/src/provider.rs:152-205 | on a new index the start point gets internal ID 0 and the invariant of all runs holds |
| `GarnetProvider.StartIsSetOnce` | DiskANN/diskann-garnet/src/provider.rs:158-175 | setting the start point again changes nothing |
| `GarnetProvider.SetStartLinked` | DiskANN/diskann-garnet/src/provider.rs:152-205 | with vertex 0 in use an attempt succeeds exactly if vector and list are stored, takes nothing and keeps the maps linked |
| `StartPoint.StartSucceedsIff` | DiskANN/diskann-garnet/src/provider.rs:158-205 | an attempt on a working store succeeds if and only if vector and list are stored, or there is no vector and ID 0 is the next to be reused and was minted, or nothing is to be reused and ID 0 is the first to be minted and free |
| `StartPoint.StartFailsWith` | DiskANN/diskann-garnet/src/provider.rs:158-191 | a missing list is reported as a failed read, a failed allocation by its own error, any other internal ID than 0 as a start-point error |
| `StartPoint.StartEventuallyIff` | DiskANN/diskann-garnet/src/provider.rs:158-205 | of any number of attempts on a working store one succeeds if and only if vector and list are stored, or there is no vector, ID 0 is free, and it is in the queue or the queue will run empty and the refill or the counter begins with it |
| `StartPoint.AttemptKeepsHope` | DiskANN/diskann-garnet/src/provider.rs:178-182 | a failed attempt rotates or shortens the queue of reusable IDs, and neither brings ID 0 within reach nor takes it out of reach |
| `StartPoint.HalfwayIsLost` | DiskANN/diskann-garnet/src/provider.rs:178-198 | after a first attempt on a new index that failed at the mark, at the vector or at the list, no further attempt succeeds |
| `StartPoint.StartStaysLost` | DiskANN/diskann-garnet/src/provider.rs:178-191 | once ID 0 is used without a vector, no run of inserts, deletes, attempts and reopenings gets it one |
| `StartPoint.RestartCures` | DiskANN/diskann-garnet/src/fsm.rs:89-138 | with nothing marked as used a restart makes the next attempt succeed |
| `GarnetProvider.Provider.MaybeSetStartPoint` | DiskANN/diskann-garnet/src/provider.rs:152-205 | success means vector and list of vertex 0 are stored; a new one marks exactly internal ID 0; a failure leaves at most the vector behind; with a working store it is the reference |
| `GarnetProvider.Provider.SetElement` | DiskANN/diskann-garnet/src/provider.rs:284-321 | whatever the store does, the maps stay linked; success stores the given vector for that external ID alone, failure changes the vector of none |
| `GarnetProvider.Provider.SetAttributes` | DiskANN/diskann-garnet/src/provider.rs:215-229 | success stores the data, failure changes nothing |
| `GarnetProvider.Provider.Delete` | DiskANN/diskann-garnet/src/provider.rs:325-356 | whatever the store does the allocator stays valid and every other external ID stays linked, and the maps are linked exactly if the deleted ID is unmapped or was not freed; success has erased vector, attributes and both entries of that ID alone |
| `GarnetProvider.LostErasureAliases` | DiskANN/diskann-garnet/src/provider.rs:331-345 | if the erasure of the external-to-internal entry is lost, the next insert makes the deleted external ID exist again as an alias of the inserted one |
| `GarnetProvider.Provider.VectorIdExists` | DiskANN/diskann-garnet/src/provider.rs:230-236 | a positive answer is always right; with a working store the answer is exact |
| `NeighborLists.AppendInPlace` | DiskANN/diskann-garnet/src/provider.rs:722-737 | the in-place loop stores the appended list and its length and reports exactly whether it left early |
| `NeighborLists.AppendIs` | DiskANN/diskann-garnet/src/provider.rs:725-737 | an append is the old list followed by the new neighbours in order, cut at the degree bound |
| `NeighborLists.NewOnesMember` | DiskANN/diskann-garnet/src/provider.rs:730-735 | what is added is exactly what was offered and absent |
| `NeighborLists.NewOnesDistinct` | DiskANN/diskann-garnet/src/provider.rs:730-735 | nothing is added twice |
| `NeighborLists.AppendKeepsDistinct` | DiskANN/diskann-garnet/src/provider.rs:725-737 | appending to a duplicate-free list keeps it duplicate-free |
| `NeighborLists.EarlyExitIff` | DiskANN/diskann-garnet/src/provider.rs:725-728 | the early return happens exactly when the list is full before the last offered neighbour |
| `NeighborLists.Provider.SetStart` | DiskANN/diskann-garnet/src/provider.rs:158-202 | a stored start vector is adopted with its list, a new one is stored with an empty list, other lists stay, each failed access leaves what the reference says |
| `NeighborLists.StartAdoptedIff` | DiskANN/diskann-garnet/src/provider.rs:158-175 | over every run in which the start vector can be read, a start vector without a list is adopted if and only if something has written the list of vertex 0 since |
| `NeighborLists.Provider.Open` | DiskANN/diskann-garnet/src/provider.rs:120-134 | a provider opened over a readable start vector has its list cached, and there is none without that list |
| `NeighborLists.Provider.Set` | DiskANN/diskann-garnet/src/provider.rs:682-710 | after a successful set the list is the given one and every other list is as before; the cache of vertex 0 follows |
| `NeighborLists.Provider.AppendTo` | DiskANN/diskann-garnet/src/provider.rs:712-751 | after a successful append the list is the old one followed by the new neighbours up to the bound and every other list is as before; the cache moves as the reference |
| `NeighborLists.Provider.GetNeighbors` | DiskANN/diskann-garnet/src/provider.rs:421-446 | a reader gets, for every vertex but 0, exactly the list that the operations since opening make of it, and for vertex 0 a prefix of it, whole if and only if the history does not lag |
| `NeighborLists.ListsOverRuns` | DiskANN/diskann-garnet/src/provider.rs:681-751 | over every run the stored lists are a plain dictionary: the last set, or empty, followed by the appends since, whatever was written to other vertices |
| `NeighborLists.CachedIff` | DiskANN/diskann-garnet/src/provider.rs:681-751 | there is a cached list exactly if there was one, a start point was adopted or created, or vertex 0 was set; an append creates none |
| `NeighborLists.CacheOverRuns` | DiskANN/diskann-garnet/src/provider.rs:681-751 | over every run of start-point, set and append operations the cache of vertex 0 is a prefix of its stored list, and differs from it if and only if the last catching-up operation was an append that filled the list and left early |
| `NeighborLists.CacheCanLag` | DiskANN/diskann-garnet/src/provider.rs:726-744 | the lag is real, and an append of nothing removes it |
| `StartPointGate.StepSafe` | DiskANN/diskann-garnet/src/lib.rs:435-466 | every step keeps one thread at most between winning the exchange and publishing, and Ready is never left |
| `StartPointGate.InitIsExclusive` | DiskANN/diskann-garnet/src/lib.rs:439-450 | at most one thread is inside the initializer |
| `StartPointGate.PassingMeansReady` | DiskANN/diskann-garnet/src/lib.rs:436-466 | a caller passes only once the index is ready, and it stays ready |
| `StartPointGate.InitSucceedsOnce` | DiskANN/diskann-garnet/src/lib.rs:447-459 | the initializer is never started again after it has succeeded |
| `StartPointGate.ReadyMeansInitSucceeded` | DiskANN/diskann-garnet/src/lib.rs:447-459 | an index becomes ready only through an initializer that succeeded |
| `StartPointGate.ErrorIsOwnInit` | DiskANN/diskann-garnet/src/lib.rs:449-455 | a caller gets an error only from its own initializer, and publishing it reopens the gate |
| `StartPointGate.ReadyCallerPasses` | DiskANN/diskann-garnet/src/lib.rs:436-438 | at a ready gate a caller passes with its own next steps, three at most, whatever others do in between |
| `StartPointGate.WaitsForInitializer` | DiskANN/diskann-garnet/src/lib.rs:439-439 | a caller that has to load the state again waits for another thread that is initializing |
| `StartPointGate.LoneCaller` | DiskANN/diskann-garnet/src/lib.rs:436-466 | a caller that nobody disturbs runs the initializer exactly if the index is not ready, publishes its outcome and returns it |
| `ResultBuffer.SearchResults.Push` | DiskANN/diskann-garnet/src/lib.rs:125-147 | an accepted result extends both used buffer parts by exactly it, a rejected one changes nothing, bounds hold |
| `ResultBuffer.SearchResults.Extend` | DiskANN/diskann-garnet/src/lib.rs:153-166 | the accepted results are a prefix of the input, and it stops short only when the buffers cannot take the next |
| `ResultBuffer.ParseIds` | DiskANN/diskann-garnet/src/ffi_recall_tests.rs:125-145 | the reader recovers exactly the accepted IDs, in order, and consumes the whole used part |
| `ResultBuffer.LayoutInjective` | DiskANN/diskann-garnet/src/lib.rs:132-140 | the laid-out bytes determine the accepted IDs |
| `ByteStrings.LeByte` | DiskANN/diskann-garnet/src/lib.rs:132-135 | byte k of a length word is its digit of weight 256^k |
| `SimdConvert.SimdConvert` | DiskANN/diskann-vector/src/conversion.rs:218-308 | for every length and positive width each destination element is the conversion of the source element at its index; unequal lengths write nothing |
| `SimdConvert.TailOffset` | DiskANN/diskann-vector/src/conversion.rs:293-307 | the overlapping last chunk starts inside the slice and ends exactly at its end |
| `TapeMask.QueryMask` | sift10m_code/ram_algo_implementation/benchmark_search.cpp:361-365 | setting bits by OR yields the writer's sum of powers of two |
| `TapeMask.PopcountXor` | sift10m_code/ram_algo_implementation/benchmark_search.cpp:143-144 | the population count of the XOR of two masks is the number of positions where they differ |
| `TapeMask.HammingCountsSides` | sift10m_code/ram_algo_implementation/tape_writer.py:138-144 | the Hamming distance of the written and the query masks is the number of dimensions in which exactly one of row and query exceeds the mean |
| `TapeMask.MaskBit` | sift10m_code/ram_algo_implementation/tape_writer.py:128-144 | digit j of a mask is one exactly if dimension j exceeds the mean |
| `TapeQuant.QuantError` | sift10m_code/ram_algo_implementation/tape_writer.py:157-178 | for a cluster value the clip never acts, the value read back is within half a step, and constant dimensions are exact |
| `TapeQuant.RangeIsCovered` | sift10m_code/ram_algo_implementation/tape_writer.py:157-178 | a varying dimension is spread over 255 steps, its smallest value stored as -128 and its largest as 127 |
| `TapeQuant.RoundIsNearestEven` | sift10m_code/ram_algo_implementation/tape_writer.py:175-178 | rounding goes to a nearest integer, to the even one of two |
| `TapeQuant.MinMaxAttained` | sift10m_code/ram_algo_implementation/tape_writer.py:157-158 | minimum and maximum of a dimension are values of the cluster |
| `TapeQuant.SquareMoves` | sift10m_code/ram_algo_implementation/benchmark_search.cpp:72-75 | the squared difference moves by at most `|q - x| * s + s^2 / 4` |
| `TapeIndex.GroupsPartition` | sift10m_code/ram_algo_implementation/tape_writer.py:125-136 | groups have distinct classes, hold only their class, and together list every row once in tape order |
| `TapeIndex.RecordFits` | sift10m_code/ram_algo_implementation/tape_writer.py:181-185 | every field of a written record fits its slot |
| `TapeIndex.RecordMasks` | sift10m_code/ram_algo_implementation/tape_writer.py:138-144 | the masks of a written record say, digit by digit, on which side of the mean the row lies |
| `TapeIndex.DimensionIsCovered` | sift10m_code/ram_algo_implementation/tape_writer.py:157-178 | in a dimension that varies within a group some row is stored as -128, some row as 127, and a step is the 255th part of their difference |
| `TapeIndex.DistanceError` | sift10m_code/ram_algo_implementation/tape_writer.py:157-178 | the stored distance differs from the true one by at most the sum of per-dimension bounds |
| `TapeRecord.RecordRoundTrip` | sift10m_code/ram_algo_implementation/tape_writer.py:118-123 | a packed record decodes to itself at the struct offsets |
| `TapeRecord.RecordBytes` | sift10m_code/ram_algo_implementation/benchmark_search.cpp:28-35 | every byte of a packed record, as the struct of the searcher has it: masks and row number least significant byte first, coordinates in two's complement, zero padding |
| `TapeIndex.BuildIndex` | sift10m_code/ram_algo_implementation/tape_writer.py:125-207 | the writer loop over the groups writes their padded records one after another and lists one table entry per group with its segment, scales and zero points |
| `TapeLayout.WriteCluster` | sift10m_code/ram_algo_implementation/tape_writer.py:187-207 | a cluster is appended packed and padded, and its segment says where it lies |
| `TapeLayout.SegmentsTile` | sift10m_code/ram_algo_implementation/tape_writer.py:189-207 | segments are chunk-aligned, contiguous, disjoint and end with the file |
| `TapeLayout.SegmentAt` | sift10m_code/ram_algo_implementation/benchmark_search.cpp:382-391 | the bytes at a table entry are the packed cluster |
| `TapeLayout.RecordsReadBack` | sift10m_code/ram_algo_implementation/benchmark_search.cpp:133-141 | record v of a copied segment decodes to the v-th vector of the cluster |
| `TapeKernel.L2` | sift10m_code/ram_algo_implementation/benchmark_search.cpp:56-113 | the lane loop and the horizontal sum compute the specified distance over the given dimensions |
| `TapeKernel.FloatL2` | sift10m_code/ram_algo_implementation/benchmark_search.cpp:80-89 | the same for the float kernel that ranks centroids |
| `TapeKernel.ExactCentroidDistance` | sift10m_code/ram_algo_implementation/benchmark_search.cpp:80-89 | without rounding it computes the plain squared distance |
| `TapeKernel.PartialIsLowerBound` | sift10m_code/ram_algo_implementation/benchmark_search.cpp:91-113 | the partial distance never exceeds the full one under any monotone rounding |
| `TapeKernel.ExactDistance` | sift10m_code/ram_algo_implementation/benchmark_search.cpp:45-78 | without rounding the eight lanes and the tree sum to the plain squared distance |
| `TopK.OfferAllKeepsSmallest` | sift10m_code/ram_algo_implementation/benchmark_search.cpp:158-166 | a bounded heap offered candidates in any order holds exactly the k smallest distances, from among them |
| `TopK.OfferReplaces` | sift10m_code/ram_algo_implementation/benchmark_search.cpp:158-166 | a full heap gives up its greatest pair for a strictly closer candidate and turns away a candidate at the distance of its worst |
| `TopK.SortOrderFree` | sift10m_code/ram_algo_implementation/benchmark_search.cpp:158-166 | the k smallest do not depend on the order of arrival |
| `TopK.LeftOut` | sift10m_code/ram_algo_implementation/benchmark_search.cpp:158-166 | an entry that the heap does not keep is at least as far as every entry it keeps |
| `TapeSearch.Searcher.ProcessRecord` | sift10m_code/ram_algo_implementation/benchmark_search.cpp:142-166 | the 16-dimension skip leaves the heap as if the full distance had been offered |
| `TapeSearch.Searcher.ProcessCluster` | sift10m_code/ram_algo_implementation/benchmark_search.cpp:119-168 | a cluster leaves the heap as if all its records that pass the Hamming filter had been offered with their full distance |
| `TapeSearch.LoadTable` | sift10m_code/ram_algo_implementation/benchmark_search.cpp:213-235 | in whatever order the entries are listed, the table maps each class to its entry and the slot width is the longest segment |
| `TapeSearch.Route` | sift10m_code/ram_algo_implementation/benchmark_search.cpp:367-380 | the chosen clusters are distinct, nearest first, and no other centroid is nearer than one of them, by the computed distances |
| `TapeDrain.OtherSlotsKept` | sift10m_code/ram_algo_implementation/benchmark_search.cpp:384-388 | a read into one slot leaves every other slot as it was |
| `TapeDrain.CompletionRing.Reap` | sift10m_code/ram_algo_implementation/benchmark_search.cpp:413-420 | a batch is a nonempty run of the waiting ring positions and never more than expected |
| `TapeDrain.CompletionRing.Post` | sift10m_code/ram_algo_implementation/benchmark_search.cpp:408-420 | a completion posted during a query overwrites no entry of that query, released or not |
| `TapeDrain.CompletionRing.EntryAt` | sift10m_code/ram_algo_implementation/benchmark_search.cpp:421-424 | an entry read after its release still holds the slot that was posted there |
| `TapeDrain.RingSize` | sift10m_code/ram_algo_implementation/benchmark_search.cpp:274-300 | for every accepted number of probes the completion ring has room for all completions of a query |
| `TapeDrain.Drain` | sift10m_code/ram_algo_implementation/benchmark_search.cpp:382-431 | for every completion order and batching, reads landing also while a batch is processed and ring entries read only after their release, each slot is processed exactly once and the loop ends with an empty ring |
| `TapeAnswer.AnswerIsOrderFree` | sift10m_code/ram_algo_implementation/benchmark_search.cpp:395-431 | the answer's distances are the ten smallest of all passing records of the probed clusters, whatever the completion order |
| `TapeEndToEnd.PassesIffNear` | sift10m_code/ram_algo_implementation/benchmark_search.cpp:143-145 | a written record passes the filter exactly when row and query lie on different sides of the mean in at most 45 dimensions |
| `TapeEndToEnd.SlotRecords` | sift10m_code/ram_algo_implementation/benchmark_search.cpp:133-141 | a segment cut from the written tape decodes to its group's records |
| `TapeEndToEnd.QueryAnswer` | sift10m_code/ram_algo_implementation/benchmark_search.cpp:357-431 | over any written dataset, the answer's distances are the ten smallest among the near rows of the probed clusters, and its IDs are such rows |
| `TapeEndToEnd.AnswerQuery` | sift10m_code/ram_algo_implementation/benchmark_search.cpp:382-431 | draining the reads of a query leaves the heap with the ten smallest distances among the near rows of the probed clusters |
| `TapeEndToEnd.Search` | sift10m_code/ram_algo_implementation/benchmark_search.cpp:357-431 | from the files to the answer: the probed clusters are those of the nearest centroids, looked up by class, and the answer holds the ten smallest distances among their near rows |
| `TapeEndToEnd.WriteAndSearch` | sift10m_code/ram_algo_implementation/tape_writer.py:103-207 | the same for any dataset that the writer has just written, with no assumption about what is on the tape or in the table |
| `TapeEndToEnd.AnswerError` | sift10m_code/ram_algo_implementation/benchmark_search.cpp:56-78 | in exact arithmetic an answered distance is within the quantization bound of the true one |
| `TapeEndToEnd.AnswerAccuracy` | sift10m_code/ram_algo_implementation/benchmark_search.cpp:142-166 | in exact arithmetic an answered row is no farther from the query than a near probed row that was left out, up to the quantization bounds of the two |
| `TapeEndToEnd.RowIsWritten` | sift10m_code/ram_algo_implementation/tape_writer.py:132-185 | every row is the ID of some record |
| `TapeEndToEnd.RowIsWrittenOnce` | sift10m_code/ram_algo_implementation/tape_writer.py:132-185 | no two records carry the same ID |

## Left out

- The foreign callbacks, pointer casts and alignment of `garnet.rs`, replaced by an abstract store.
- Graph search, pruning, insertion and in-place deletion of the DiskANN index.
- Progress under contention: spinning threads at the start-point gate, and retries of the minting loop against other threads.
- Operations of a map whose second existence check of block 0 failed after the first had succeeded: `FreeSpaceMap.New` describes its state, and `mark_id` refuses everything in it (fsm.rs:161); with overflow checks the program stops there instead.
- The byte order of the length word is taken to be little-endian, as on the machines the program targets.
- Weak memory orderings: threads are sequentially consistent.
- k-means, PCA and Hilbert keys; the model takes labels and any order that sorts rows by label.
- Rounding of the mean, scales and zero points to 32-bit floats when they are stored; the quantization bounds are exact-arithmetic statements.
- io_uring internals, timing, recall counting and printing of the benchmark; a completed read's bytes are taken to be in its slot when its completion is waiting, and failed or short reads are not modelled.
- The benchmark runners, plots and reports, and the reference distance kernels, which share no state with the parts modelled here.
- JSON parsing and the file formats of centroids and mean; the model passes the values.
- FreeSpaceMapModel.FreeSpaceMap.NextId: the retry of the reuse branch is not written as a loop, because in a sequential run a queued ID is free and the retry never repeats; the retries under contention are steps of `FsmProtocol`.
- FsmUniqueness.ReturnedOnceUntilReleased: assumes callers free only IDs they hold and restarts find every used ID, because the claim is false otherwise (`FsmHazards.UndisciplinedDoubleReturn`, `FsmHazards.ForgetfulRestart`).
- FsmRuns.RecoveredServesIff: speaks of sequential callers; overlapping calls can get a jammed map to mint (`FsmHazards.JammedMintsConcurrently`).
- StartPoint.StartEventuallyIff: speaks of maps whose counter is past every used ID, as recovery with working reads leaves it, and does not wrap around with the next mint.
- FsmRuns.FreshRunsServe: assumes fewer than 2^32 - 1 operations, because the 32-bit counter then wraps.
- GarnetProvider.Provider.MaybeSetStartPoint: of the neighbour list it records whether it is stored; contents and cache are part of `NeighborLists`.
- NeighborLists.Provider.Set: assumes a list no longer than the degree bound, as the slice copy in the source does.
- ResultBuffer.ParseIds: describes buffers that hold a layout of IDs shorter than 2^32 bytes; on others the source panics. UTF-8 validation is not modelled.
- TapeKernel.PartialIsLowerBound: covers finite values; overflow to infinity and NaN are not modelled.
- TapeIndex.BuildIndex: flushing and garbage collection are not modelled, and arithmetic is exact.
- TapeEndToEnd.WriteAndSearch: at most 10000 probes, as the program demands (benchmark_search.cpp:185); every centroid owns at least one vector, because for a class without a table entry the searcher's map creates one with null parameter pointers, which it then reads.
