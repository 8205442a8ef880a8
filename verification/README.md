# quillcache: a verified model of the KV store

quillcache keeps LLM key/value blocks in pooled memory. A master places objects
as replicas on mounted segments, a small-float offset allocator cuts buffers out
of each segment, clients put and get by key under an identity, and log files and
snapshots bring the master and the local stores back after a crash. This project
models that core in Dafny and proves what it is for, on all inputs and all runs.

## What is proved

**Allocation.** The node pool, the 256 bin lists, the two-level bitmap and the
neighbour links of the offset allocator are modelled field by field (`Bits`,
`SmallFloat`, `NodePool`, `Layout`, `Neighbors`, `CoreSteps`, `Core`), and refined
in layers down to a plain map of live buffers (`Offsets`, `Buffers`, `Fleets`).
Live ranges never overlap, freeing merges fully, the reported largest free region
is exactly the bound up to which an allocation succeeds, and a range can be
reserved exactly when it is free. The first-fit and the binned allocators meet the
same contract (`FreeLists`, `SimpleAllocators`).

**The master.** `MasterSpec` is a state machine over objects, fleet, clock and
log. `MasterInv` proves by induction over runs that replicas and holds match one
to one. The class in `Masters` refines it: each method returns the steps it took,
and states what it does to the object, field by field. `Fleets` says where replicas
go, `Masters.WriteThenRead` that a read gives back just the buffers written.
`Eviction` states what an eviction pass may take, in which order and how much.
`Accounting` proves that the allocated bytes are exactly those of the objects.

**Recovery.** `Recovery` proves that snapshot and recover give the same objects on
holds of exact size, and exactly when that works. `Frames`, `OpLogs` and
`OpLogRecovery` prove that a log cut at any byte rebuilds the visible state at
some point of the run, and which steps keep log and state in agreement; a read on
the recovered master gives what a read at that point would have given. `Limits`,
`LostPuts` and `StoreLimits` hold runs for the properties that fail.

**Clients and stores.** `Clients` ties the whole stack to bytes: a get returns the
bytes of the last put under the same identity. `Wal` and `KvStores` prove the
two-tier local store atomic under a crash between any two disk writes or inside an
append. `DataPlanes` proves the tier machine within its budgets, coldest first,
with exact updates. `IndexKeys`, `Indexes` and `MemoryIndexes` prove the persistent
and the in-memory index to be the same map of records.

**Concurrency.** `Pipelines` proves in-order layer notification for any completion
order from a trace of each run, `LockOrder` that the lock discipline cannot deadlock under any schedule.
`Endpoints` covers SIEVE and FIFO endpoint eviction, `Sketches` what exactly a
count-min estimate is.

## Where the code does not meet a property

- Snapshots: a segment larger than the largest bin is scaled, and scaled segments
  refuse exact reservations, so a snapshot that holds a buffer on one cannot be
  restored. `Recovery.RecoveryIff` gives the exact condition and
  `Limits.ScaledBeyondRecovery` a run.
- Op-log: revoking or reopening a committed object is not logged, and a second
  end of a put is logged again. `OpLogs.AgreeIff` gives the exact condition on
  steps and `Limits.RevokedComesBack` a run.
- Eviction does not look at whether a put has ended, so an object can go between
  start and end, also to a later item of its own batch. `LostPuts.UnfinishedGoesIff`
  gives the exact condition, `LostPuts.LostRun` and `LostPuts.LostBatch` a run.
- Block store: overwriting a block deletes its file but not its commit, and recovery
  takes its file counter from the files it finds, so it can give a number out again
  that a live commit names. On a whole log the store can go on exactly when no live
  commit names a file beyond the counter and no two verified ones share a file;
  missing or damaged block files are no obstacle. `KvStores.Recover` ties that
  condition to the invariant, `StoreLimits.ResumableIffSafe` to what later spills and
  drops do, and `KvStores.ResumesIff` says when the disk of a working store meets it.
  `StoreLimits.OverwriteRun` and `StoreLimits.StaleReturns` are a run.
- Logs: both logs are appended to behind a torn record. What is written there, however
  much, is not read back unless its bytes make the torn record up and happen to meet
  its checksum. `Frames.TornReads` and `Frames.TornHidesIff` give the exact condition
  and what is then read, `StoreLimits.TornTailLoses` and
  `OpLogRecovery.OpLog.TornLoses` what it means for each log. Behind intact frames
  all is read back (`Frames.WholeRest`, `OpLogRecovery.OpLog.ReadsBack`).
- Frames: a payload is read back exactly when it is under 4 GiB
  (`Frames.FrameIntact`, `Frames.FrameEndIff`).
- Mounting does not check for a mounted name. Buffers stay exclusive exactly when the
  name was not mounted (`Masters.MasterService.MountSegment`); otherwise the new
  segment hands out bytes the old one has handed out (`Limits.MountedTwice`).
- Index keys: a scope shares its encoding with no other exactly when its fields are
  NUL-free and its adapter has a name (`IndexKeys.ScopeAloneIff`). An absent adapter
  and an empty name share all entries (`IndexKeys.BlurredShares`), and that is the only
  way two NUL-free scopes collide (`IndexKeys.ScopesApartIff`).

## Reading the model

Ghost out-parameters named `path`, `steps`, `groups`, `passes` or `trace` are the
witness of what a call did. Ghost fields such as `chain`, `lists`, `holds`, `uses` or
`history` give an object's abstract value, and `Valid()` ties them to the real fields.
Calls into code outside the model are parameters: the codec and its checksum
(`Codec`), string encoding (`utf8`), hash functions, transfer results, connection
attempts and reference counts.

## Model

| member | source | states |
|---|---|---|
| Bits.FindLowestSetBitAfter | crates/quillcache-store/src/offset_allocator.rs:91-101 | the result is the lowest set bit at or above the start, and the no-bit marker exactly when there is none |
| SmallFloat.FloatMonotone | crates/quillcache-store/src/offset_allocator.rs:79-87 | bins are strictly ordered by the sizes they name: a < b if and only if size(a) < size(b) |
| SmallFloat.RoundDownBrackets | crates/quillcache-store/src/offset_allocator.rs:42-77 | every size lies between its rounded-down bin and the next one, and the two roundings agree exactly on sizes that a bin names |
| SmallFloat.RoundDownGreatest | crates/quillcache-store/src/offset_allocator.rs:64-77 | rounding down gives the greatest bin not above the size (Galois form, both directions) |
| SmallFloat.RoundUpLeast | crates/quillcache-store/src/offset_allocator.rs:42-62 | rounding up gives the least bin not below the size (Galois form, both directions) |
| SmallFloat.RoundUpOverhead | crates/quillcache-store/src/offset_allocator.rs:42-62 | rounding up wastes less than an eighth of the request |
| SmallFloat.BinsFitWord | crates/quillcache-store/src/offset_allocator.rs:33-77 | for 32-bit sizes the bins stay in 0..239 if and only if the size is at most the largest bin |
| NodePool.UnlinkOk | crates/quillcache-store/src/offset_allocator.rs:389-421 | unlinking any node of any bin keeps all 256 doubly linked bin lists and their heads consistent |
| NodePool.PushFrontOk | crates/quillcache-store/src/offset_allocator.rs:356-387 | pushing a node at the front of its bin keeps all bin lists and heads consistent |
| NodePool.MarkBin | crates/quillcache-store/src/offset_allocator.rs:356-387 | setting a leaf and a top bit keeps the two-level bitmap equal to the set of non-empty bins |
| NodePool.UnmarkBin | crates/quillcache-store/src/offset_allocator.rs:389-421 | clearing them when a bin empties does too |
| NodePool.FindBinLeast | crates/quillcache-store/src/offset_allocator.rs:214-260 | the two-level bitmap search finds the least non-empty bin at or above the wanted one, or none exactly when all are empty |
| NodePool.LargestBinGreatest | crates/quillcache-store/src/offset_allocator.rs:423-441 | the report looks up the greatest non-empty bin |
| NodePool.PopSpare | crates/quillcache-store/src/offset_allocator.rs:356-387 | taking a spare keeps the stack equal to the nodes not in use, each once |
| NodePool.PushSpare | crates/quillcache-store/src/offset_allocator.rs:389-421 | giving one back does too |
| NodePool.GrowSpare | crates/quillcache-store/src/offset_allocator.rs:445-458 | growing the pool does too |
| Layout.FreeIffCovered | crates/quillcache-store/src/offset_allocator.rs:462-540 | a range overlaps no used region and ends inside the span if and only if one free region covers it, because free neighbours are always merged |
| Layout.CountBound | crates/quillcache-store/src/offset_allocator.rs:214-354 | regions never outnumber twice the live allocations plus one |
| Layout.CarveSound | crates/quillcache-store/src/offset_allocator.rs:214-304 | cutting a used piece out of a free region keeps the row gap-free, merged and its free bytes counted |
| Layout.ReleaseSound | crates/quillcache-store/src/offset_allocator.rs:307-354 | freeing a region and merging it with its free neighbours keeps the row gap-free, merged and its free bytes counted |
| Layout.InOrder | crates/quillcache-store/src/offset_allocator.rs:214-354 | regions lie in address order without overlap |
| Layout.FreeStartIff | crates/quillcache-store/src/offset_allocator.rs:307-354 | with no empty region, a free one starts exactly at the front or where a used one ends, and where no used one starts |
| Layout.RegionCount | crates/quillcache-store/src/offset_allocator.rs:214-354 | so the regions are counted by the used ones and those starts |
| Neighbors.SpliceChained | crates/quillcache-store/src/offset_allocator.rs:214-354 | relinking the neighbours around a gap replaces exactly that stretch of the physical chain and of the regions it stands for |
| CoreSteps.AfterSplit | crates/quillcache-store/src/offset_allocator.rs:214-304 | the node updates of a split give a chained, binned, sound pool again |
| CoreSteps.AfterTake | crates/quillcache-store/src/offset_allocator.rs:214-304 | so do those of an exact fit |
| CoreSteps.AfterFree | crates/quillcache-store/src/offset_allocator.rs:307-354 | so do those of a free with zero, one or two merges |
| CoreSteps.AfterCut | crates/quillcache-store/src/offset_allocator.rs:462-540 | so do those of carving an exact range with a remainder before and after it |
| CoreSteps.CoveredIff | crates/quillcache-store/src/offset_allocator.rs:462-540 | some free node covers a range if and only if it is within the span and overlaps no live allocation |
| CoreSteps.LeastFits | crates/quillcache-store/src/offset_allocator.rs:214-304 | the head of the bin found is in the lowest bin that serves the request |
| Core.CoreAllocator.constructor | crates/quillcache-store/src/offset_allocator.rs:173-188 | a new pool is valid: one free region, nothing allocated |
| Core.CoreAllocator.Reset | crates/quillcache-store/src/offset_allocator.rs:190-212 | resetting gives one free region and no allocation, whatever the pool held |
| Core.CoreAllocator.Allocate | crates/quillcache-store/src/offset_allocator.rs:214-304 | succeeds if and only if the reported largest free region is at least the request; then exactly one allocation of the rounded size is added, at the front of a region from the lowest serving bin, and otherwise nothing changes |
| Core.CoreAllocator.Free | crates/quillcache-store/src/offset_allocator.rs:307-354 | removes exactly that allocation and keeps the pool valid, so fully merged |
| Core.CoreAllocator.InsertNodeIntoBin | crates/quillcache-store/src/offset_allocator.rs:356-387 | enters a fresh free node at the front of its bin and touches no other region |
| Core.CoreAllocator.RemoveNodeFromBin | crates/quillcache-store/src/offset_allocator.rs:389-421 | takes one node out of its bin and back to the spares, and touches no other region |
| Core.CoreAllocator.StorageReport | crates/quillcache-store/src/offset_allocator.rs:423-441 | the total is the sum of the free regions, zero once the pool is exhausted |
| Core.CoreAllocator.EnsureCapacity | crates/quillcache-store/src/offset_allocator.rs:445-458 | succeeds if and only if the spares can reach the wanted number within the maximum, and changes no region |
| Core.CoreAllocator.ReserveExact | crates/quillcache-store/src/offset_allocator.rs:462-540 | succeeds if and only if the range is non-empty, inside the span, clear of every live allocation and three nodes are to spare; then exactly that range is added, else nothing changes |
| Core.CoreAllocator.AllocsApart | crates/quillcache-store/src/offset_allocator.rs:214-354 | live allocations stay inside the span and never overlap |
| Core.CoreAllocator.NodeBound | crates/quillcache-store/src/offset_allocator.rs:150-170 | the nodes in use are at most twice the live allocations plus one |
| Core.CoreAllocator.NodesInUse | crates/quillcache-store/src/offset_allocator.rs:445-458 | the nodes in use are exactly one for each allocation and one for each gap between them |
| Core.CoreAllocator.AllFreed | crates/quillcache-store/src/offset_allocator.rs:307-354 | once nothing is allocated the whole span is one free region again |
| Core.CoreAllocator.LargestMeaning | crates/quillcache-store/src/offset_allocator.rs:423-441 | the report is the bin size of some free region, no free region reaches a larger one, and it misses less than an eighth of any |
| Core.CoreAllocator.LargestWithin | crates/quillcache-store/src/offset_allocator.rs:423-441 | the report never exceeds the span |
| Core.CoreAllocator.ServesIff | crates/quillcache-store/src/offset_allocator.rs:214-304 | in a pool without empty regions, a request is within the reported largest region if and only if the live allocations leave a free range whose rounded-down bin reaches it, and a spare node |
| Offsets.CalculateMultiplier | crates/quillcache-store/src/offset_allocator.rs:544-554 | the shift is the least that fits the span into the largest bin |
| Offsets.ScaledLeast | crates/quillcache-store/src/offset_allocator.rs:594-617 | the scaled request is the least number of units that holds the bytes asked for |
| Offsets.OffsetAllocator.constructor | crates/quillcache-store/src/offset_allocator.rs:576-592 | a new allocator is valid and empty for any size |
| Offsets.OffsetAllocator.Allocate | crates/quillcache-store/src/offset_allocator.rs:594-617 | succeeds if and only if the request is positive and at most the largest free region in bytes; the counters grow by it and the core gains exactly one allocation |
| Offsets.OffsetAllocator.Free | crates/quillcache-store/src/offset_allocator.rs:619-626 | gives back exactly that core allocation, with saturating counters |
| Offsets.OffsetAllocator.ReserveExact | crates/quillcache-store/src/offset_allocator.rs:628-638 | succeeds if and only if the span is unscaled and the range is free, inside and has nodes to spare |
| Buffers.OffsetBufferAllocator.constructor | crates/quillcache-store/src/offset_allocator.rs:672-680 | a new segment holds nothing |
| Buffers.OffsetBufferAllocator.Allocated | crates/quillcache-store/src/offset_allocator.rs:691-693 | equals the sum of the sizes of the live buffers |
| Buffers.OffsetBufferAllocator.Allocate | crates/quillcache-store/src/offset_allocator.rs:695-703 | succeeds if and only if the size is positive and at most the largest free region; adds exactly one hold of at least that extent |
| Buffers.OffsetBufferAllocator.Deallocate | crates/quillcache-store/src/offset_allocator.rs:705-709 | removes exactly the hold at that offset; an unknown buffer changes nothing |
| Buffers.OffsetBufferAllocator.Reserve | crates/quillcache-store/src/offset_allocator.rs:715-725 | succeeds if and only if the segment is unscaled, has nodes to spare and the range is free in terms of the live buffers |
| Buffers.OffsetBufferAllocator.ViewValid | crates/quillcache-store/src/offset_allocator.rs:660-725 | live buffers of a segment are inside it and pairwise disjoint, in bytes |
| Buffers.OffsetBufferAllocator.RoomForReserve | crates/quillcache-store/src/offset_allocator.rs:445-458 | with at most (maximum - 4) / 2 live buffers a reserve never lacks nodes |
| Buffers.OffsetBufferAllocator.NodesInUse | crates/quillcache-store/src/offset_allocator.rs:715-725 | in an unscaled segment the nodes in use are one for each buffer and one for each gap, so the room for a reserve is exact |
| Buffers.OffsetBufferAllocator.EmptyLargest | crates/quillcache-store/src/offset_allocator.rs:711-713 | an unscaled segment without buffers reports its whole capacity, rounded down to a bin |
| Buffers.OffsetBufferAllocator.RoomIff | crates/quillcache-store/src/offset_allocator.rs:711-713 | whether a segment can serve a size is decided by its capacity and live buffers alone, whatever the bins hold |
| Buffers.OffsetBufferAllocator.UnscaledIff | crates/quillcache-store/src/offset_allocator.rs:544-554 | a segment is unscaled if and only if its capacity is at most the largest bin |
| FreeLists.FreeRange | crates/quillcache-store/src/allocator.rs:140-165 | every byte of a range is free if and only if one free region contains it |
| FreeLists.AllFree | crates/quillcache-store/src/allocator.rs:113-134 | with nothing live the free list is the whole segment |
| FreeLists.CutOk | crates/quillcache-store/src/allocator.rs:90-111 | cutting a range out of a free region keeps free and live a partition of the segment |
| FreeLists.JoinOk | crates/quillcache-store/src/allocator.rs:113-134 | returning a range, merged with the free neighbours on either side, does too |
| SimpleAllocators.Longest | crates/quillcache-store/src/allocator.rs:136-138 | the longest free region |
| SimpleAllocators.Neighbours | crates/quillcache-store/src/allocator.rs:113-134 | finds the free regions that touch the freed one on either side, if there are any |
| SimpleAllocators.Containing | crates/quillcache-store/src/allocator.rs:140-165 | finds the free region around a range if and only if all of its bytes are free |
| SimpleAllocators.FirstFitBufferAllocator.constructor | crates/quillcache-store/src/allocator.rs:63-74 | a new segment is all free |
| SimpleAllocators.FirstFitBufferAllocator.Allocate | crates/quillcache-store/src/allocator.rs:90-111 | succeeds if and only if some free region is long enough; returns the lowest such offset and adds exactly that range |
| SimpleAllocators.FirstFitBufferAllocator.Deallocate | crates/quillcache-store/src/allocator.rs:113-134 | removes exactly that range and stays merged |
| SimpleAllocators.FirstFitBufferAllocator.LargestFreeRegion | crates/quillcache-store/src/allocator.rs:136-138 | the length of the longest free region |
| SimpleAllocators.FirstFitBufferAllocator.Reserve | crates/quillcache-store/src/allocator.rs:140-165 | succeeds if and only if every byte of the range is free |
| SimpleAllocators.FirstFitBufferAllocator.AllFreed | crates/quillcache-store/src/allocator.rs:113-134 | once all is freed the segment is one region again |
| SimpleAllocators.BinsAdded | crates/quillcache-store/src/allocator.rs:207-215 | entering a region keeps the bins and their mask exact |
| SimpleAllocators.BinsRemoved | crates/quillcache-store/src/allocator.rs:217-226 | removing one does too |
| SimpleAllocators.HigherBinLonger | crates/quillcache-store/src/allocator.rs:245-270 | a region from a higher bin is always longer than the request |
| SimpleAllocators.BinnedBufferAllocator.constructor | crates/quillcache-store/src/allocator.rs:187-200 | a new segment is all free |
| SimpleAllocators.BinnedBufferAllocator.AddFree | crates/quillcache-store/src/allocator.rs:207-215 | adds exactly one free region, none for size zero |
| SimpleAllocators.BinnedBufferAllocator.RemoveFree | crates/quillcache-store/src/allocator.rs:217-226 | removes exactly one |
| SimpleAllocators.BinnedBufferAllocator.Choose | crates/quillcache-store/src/allocator.rs:245-270 | finds a region if and only if any is long enough, and it is the first in bin and offset order among all that are |
| SimpleAllocators.BinnedBufferAllocator.Allocate | crates/quillcache-store/src/allocator.rs:241-280 | the first-fit contract, with the choice in bin order |
| SimpleAllocators.BinnedBufferAllocator.Deallocate | crates/quillcache-store/src/allocator.rs:282-306 | removes exactly that range and stays merged |
| SimpleAllocators.BinnedBufferAllocator.LargestFreeRegion | crates/quillcache-store/src/allocator.rs:308-310 | the length of the longest free region |
| SimpleAllocators.BinnedBufferAllocator.Reserve | crates/quillcache-store/src/allocator.rs:312-336 | succeeds if and only if every byte of the range is free |
| SimpleAllocators.BinnedBufferAllocator.AllFreed | crates/quillcache-store/src/allocator.rs:282-306 | once all is freed the segment is one region again |
| Fleets.FleetSums | crates/quillcache-store/src/master_service.rs:104-110 | the totals over the list of allocators are the totals over the named fleet |
| Fleets.SegmentState.Capacity | crates/quillcache-store/src/master_service.rs:104-106 | the sum of the capacities of the mounted segments |
| Fleets.SegmentState.Allocated | crates/quillcache-store/src/master_service.rs:108-110 | the sum of the live bytes of the mounted segments |
| Fleets.SegmentState.FreeReplicas | crates/quillcache-store/src/master_service.rs:112-124 | frees the memory buffers of every replica on its own segment, and nothing else |
| Fleets.SegmentState.Mount | crates/quillcache-store/src/master_service.rs:214-226 | adds one empty segment under its name; buffers stay exclusive if and only if the name was not mounted |
| Fleets.SegmentState.Unmount | crates/quillcache-store/src/master_service.rs:230-259 | removes exactly the named segment; the others keep their buffers and their order |
| Fleets.SegmentState.Reserve | crates/quillcache-store/src/master_service.rs:829-838 | succeeds if and only if the segment is there, unscaled, the range inside and free, and buffers, gaps and three spare nodes fit the pool; a missing segment is reported exactly when it is missing |
| Fleets.SegmentState.Candidates | crates/quillcache-store/src/allocation_strategy.rs:34-45 | exactly the segments that are not excluded and whose live buffers leave room, in mount order |
| Fleets.SegmentState.SortByFreeRatio | crates/quillcache-store/src/allocation_strategy.rs:117-123 | a permutation of the candidates, emptiest first, ties in mount order |
| Fleets.SegmentState.Order | crates/quillcache-store/src/allocation_strategy.rs:91-127 | the order tried: mount order or emptiest first as the strategy says, then the preferred segment moved to the front if it is there, the rest holding their order |
| Fleets.SegmentState.Place | crates/quillcache-store/src/allocation_strategy.rs:56-75 | takes one buffer on each of the first n segments of the order given, or nothing |
| Fleets.SegmentState.Allocate | crates/quillcache-store/src/allocation_strategy.rs:84-129 | all or nothing: succeeds if and only if n segments can serve and the size is positive (or n is zero); the buffers are on the first n of the serving segments in mount order or emptiest first, a preferred one moved to the front; on failure no segment changes |
| Fleets.PreferredServed | crates/quillcache-store/src/allocation_strategy.rs:91-127 | a preferred segment that can serve gets the first buffer |
| Fleets.UsedFirst | crates/quillcache-store/src/allocation_strategy.rs:91-127 | a segment used, unless preferred, comes before any serving one not used: earlier mounted, or emptier |
| Fleets.EmptierMeans | crates/quillcache-store/src/allocation_strategy.rs:47-54 | emptier in whole bytes: a smaller part of the capacity is allocated, or the same and mounted earlier |
| MasterSpec.Identity.ReuseViolation | crates/quillcache-core/src/lib.rs:535-547 | two identities have no violation if and only if they are equal, and otherwise the first of model, tokenizer, adapter and tenant that differs |
| MasterInv.PlaceInv | crates/quillcache-store/src/master_service.rs:409-452 | placing an object keeps the invariant: every replica owns exactly one hold, no two replicas share one, every hold has an owner, replica ids are below the counter, and leases only on complete objects |
| MasterInv.ForgetInv | crates/quillcache-store/src/master_service.rs:112-124 | freeing an object does too |
| MasterInv.UnmountInv | crates/quillcache-store/src/master_service.rs:230-259 | so does unmounting a segment with the replicas on it |
| MasterInv.CommitInv | crates/quillcache-store/src/master_service.rs:457-478 | so does ending a put |
| MasterInv.ReopenInv | crates/quillcache-store/src/master_service.rs:605-655 | so does reopening an object in place |
| MasterInv.ReadInv | crates/quillcache-store/src/master_service.rs:495-546 | so does a read, which leases the object |
| MasterInv.ApplyInv | crates/quillcache-store/src/master_service.rs:164-1051 | every enabled step keeps the invariant |
| MasterInv.RunInv | crates/quillcache-store/src/master_service.rs:164-1051 | every run keeps it |
| Accounting.AllocatedIsObjects | crates/quillcache-store/src/master_service.rs:748-753 | in every reachable state the allocated bytes of the fleet are exactly the bytes of all memory replicas of all objects |
| Accounting.ReleaseSum | crates/quillcache-store/src/master_service.rs:112-124 | freeing a set of replicas lowers the allocated bytes by exactly their sizes |
| Eviction.EvictionsPath | crates/quillcache-store/src/master_service.rs:1016-1051 | evictions are steps of the master that only remove objects, all of them neither leased nor hard-pinned, and change no survivor |
| Eviction.EvictionsKeep | crates/quillcache-store/src/master_service.rs:993-1051 | no eviction touches a leased or a hard-pinned object |
| Eviction.VictimsColdest | crates/quillcache-store/src/master_service.rs:995-1051 | any prefix of the victim order leaves no colder evictable object behind; the whole order leaves none at all |
| Eviction.ColdestMeans | crates/quillcache-store/src/master_service.rs:995-1007 | coldest first in plain terms: no soft-pinned object goes while an evictable unpinned one stays, and of equally pinned ones none used later |
| Eviction.VictimsGone | crates/quillcache-store/src/master_service.rs:1016-1051 | evicting a prefix removes exactly its keys |
| Eviction.ColdestTwice | crates/quillcache-store/src/master_service.rs:970-990 | two passes in a row still leave no colder evictable object behind |
| Eviction.InsertVictim | crates/quillcache-store/src/master_service.rs:995-1007 | inserting by soft pin and last access keeps the victims sorted, distinct and complete |
| Masters.MasterService.constructor | crates/quillcache-store/src/master_service.rs:165-184 | a new master is empty and valid, with the default watermark, ratio and lease |
| Masters.MasterService.TickClock | crates/quillcache-store/src/master_service.rs:208-210 | the clock moves by one, and nothing else changes |
| Masters.MasterService.MountSegment | crates/quillcache-store/src/master_service.rs:214-226 | refines the mount step; the name is heard of now, the segment is the last in mount order, and the invariant is kept if and only if the name was not mounted |
| Masters.MasterService.UnmountSegment | crates/quillcache-store/src/master_service.rs:230-259 | each object keeps exactly its replicas elsewhere and goes if it has none; the segment and its heartbeat go; a missing segment is reported and nothing changes |
| Masters.MasterService.PutEnd | crates/quillcache-store/src/master_service.rs:457-478 | all replicas of the object become readable, nothing else about it or any other changes, and the committed replicas are logged; a missing object is reported |
| Masters.MasterService.PutRevoke | crates/quillcache-store/src/master_service.rs:481-489 | frees the object, or reports a missing one and changes nothing |
| Masters.MasterService.RemoveObject | crates/quillcache-store/src/master_service.rs:724-738 | refuses exactly missing objects and, unless forced, leased ones; else frees the object |
| Masters.MasterService.VictimsColdestFirst | crates/quillcache-store/src/master_service.rs:995-1007 | exactly the objects neither hard-pinned nor leased, each once, unpinned before soft-pinned, then by last access |
| Masters.MasterService.EvictDown | crates/quillcache-store/src/master_service.rs:1016-1051 | evicts coldest first, stops as soon as the limit is met and not before, and falls short only when nothing evictable is left |
| Masters.MasterService.EvictIfNeeded | crates/quillcache-store/src/master_service.rs:1016-1034 | does nothing below the high watermark, else evicts until the allocated bytes are at most watermark times one minus the ratio, as a fraction of the capacity |
| Masters.MasterService.EvictToFit | crates/quillcache-store/src/master_service.rs:1038-1051 | evicts until the bytes needed are free over the fleet |
| Masters.MasterService.AllocateReplicas | crates/quillcache-store/src/master_service.rs:970-990 | evicts one watermark pass and, only if that leaves too few segments with room, one pass for the bytes needed; fails if and only if even then too few have room; the buffers are where strategy and preference say in the fleet the evictions left |
| Masters.MasterService.Record | crates/quillcache-store/src/master_service.rs:429-452 | enters the object with fresh, consecutive replica ids on the given buffers |
| Masters.MasterService.PutStart | crates/quillcache-store/src/master_service.rs:409-452 | refuses exactly objects with a complete replica; otherwise runs as reclaim, evictions, and placement where strategy and preference say; fails exactly when too few segments then have room, leaving no entry; every leased object and every other pinned object is untouched |
| Masters.MasterService.GetReplicaList | crates/quillcache-store/src/master_service.rs:495-546 | succeeds if and only if the object is there, was written under this identity and has a complete replica within reach; gives exactly those, and leases it; each refusal has exactly its cause and changes nothing |
| Masters.MasterService.UpsertStart | crates/quillcache-store/src/master_service.rs:605-655 | refuses exactly leased objects, reuses the buffers in place if and only if the object is complete and of the same size, then under the new identity with every replica unreadable, and otherwise runs as drop and put |
| Masters.MasterService.Replace | crates/quillcache-store/src/master_service.rs:605-655 | dropping the old version and putting again runs as the put that reclaims it |
| Masters.MasterService.Reopened | crates/quillcache-store/src/master_service.rs:605-655 | the object is rewritable under the new identity on exactly its own buffers, pins and lease as they were; no other object changes |
| Masters.MasterService.RevokeAll | crates/quillcache-store/src/master_service.rs:554-576 | removes exactly the keys given, each by a drop |
| Masters.MasterService.BatchPutStart | crates/quillcache-store/src/master_service.rs:554-576 | runs as the puts of the items in order; on failure, after them, as the failed put and a revoke of each earlier item, so that none of those is left and no other entry is new; it fails only on an item whose object was complete before the batch, or where this put, after its evictions, found too few segments with room; on success the last item is placed, every key still there holds exactly the buffers returned for its last item, and a hard-pinned batch is wholly there; leased and hard-pinned objects outside the batch are untouched either way |
| Masters.ListReplicas | crates/quillcache-store/src/master_service.rs:495-546 | every replica listed once |
| Masters.WriteThenRead | crates/quillcache-store/src/master_service.rs:457-655 | upsert, end and read on any valid master whose segments are all heard of: after an upsert that succeeds, in place or not, the read succeeds if and only if the identity is the writer's, and its replicas are exactly the buffers written |
| Masters.PreferredGets | crates/quillcache-store/src/master_service.rs:409-452 | a preferred segment with room for the object once the evictions are done gets the first replica of the put |
| Masters.UnmountedLeft | crates/quillcache-store/src/master_service.rs:230-259 | what an unmount leaves of the objects, replica by replica |
| Masters.TargetBound | crates/quillcache-store/src/master_service.rs:1016-1034 | the eviction target is the largest whole number of bytes within the goal |
| Masters.DropThenPut | crates/quillcache-store/src/master_service.rs:605-655 | a drop followed by a put's steps is one run with the state it should have |
| Masters.LeasedIsComplete | crates/quillcache-store/src/master_service.rs:409-452 | a leased object always has a complete replica, so a put never reclaims one |
| Parts.PartFree | crates/quillcache-store/src/master_service.rs:829-838 | the range of a replica not yet restored is free in the part of the fleet restored so far |
| Parts.PartStep | crates/quillcache-store/src/master_service.rs:829-838 | reserving it gives the next part |
| Parts.CollectedLists | crates/quillcache-store/src/master_service.rs:767-804 | a listing of a replica map gives the map back |
| Recovery.ReserveReplicas | crates/quillcache-store/src/master_service.rs:829-838 | reserves the ranges in order, and succeeds if and only if each in turn is free with the nodes for it |
| Recovery.Snapshot | crates/quillcache-store/src/master_service.rs:767-804 | the snapshot describes the state: each object, replica and segment once, clock and counter, and the settings |
| Recovery.Recover | crates/quillcache-store/src/master_service.rs:809-863 | succeeds if and only if each range in turn is free with the nodes for it, and then holds exactly the state the snapshot describes, with its settings, its segments in order and each of them heard of at its clock |
| Recovery.Reenter | crates/quillcache-store/src/master_service.rs:829-863 | reserves the ranges of all objects and enters them, if and only if each in turn is free with the nodes for it |
| Recovery.RestoredPart | crates/quillcache-store/src/master_service.rs:809-863 | restoring the first i objects gives exactly their part of the fleet |
| Recovery.RecoveryIff | crates/quillcache-store/src/master_service.rs:809-863 | every range of a snapshot of a reachable state finds its place if and only if no segment in use is scaled; with at most two million buffers a segment that is also exactly when recovery succeeds |
| Recovery.RecoveryRoundTrip | crates/quillcache-store/src/master_service.rs:767-863 | the restored state is the old one with every hold cut down to its exact size: same objects, invariant and allocated bytes, and the same snapshots describe both |
| Recovery.TightInv | crates/quillcache-store/src/master_service.rs:767-863 | cutting the holds down keeps the invariant |
| Recovery.TightAllocated | crates/quillcache-store/src/master_service.rs:748-753 | and the allocated bytes |
| Recovery.Restart | crates/quillcache-store/src/master_service.rs:767-863 | snapshot then recover on any valid master: the exact condition for success, which is that no segment in use is scaled unless nodes run out, and the same state with exact-size holds, the same placement rules, and every segment heard of |
| Frames.LeRoundTrip | crates/quillcache-store/src/op_log.rs:63-74 | little-endian encoding of a 32-bit length reads back |
| Frames.FrameIntact | crates/quillcache-store/src/op_log.rs:63-111 | a written frame passes the checks, decodes to its entry and leaves the rest if and only if the payload is under 4 GiB |
| Frames.FrameEndIff | crates/quillcache-store/src/op_log.rs:63-74 | the length a frame carries is its own if and only if the payload is under 4 GiB |
| Frames.CutNotIntact | crates/quillcache-store/src/op_log.rs:79-111 | no proper prefix of a frame passes them |
| Frames.CutDecodes | crates/quillcache-store/src/op_log.rs:79-111 | a log of frames under 4 GiB, cut at any byte, decodes to exactly the entries whose frames lie wholly before the cut |
| Frames.WholeRest | crates/quillcache-store/src/lib.rs:213-236 | behind intact frames, decodable or not, the store log is read as it would be alone |
| Frames.LegibleRest | crates/quillcache-store/src/op_log.rs:79-111 | behind intact frames that decode, the op-log is read as it would be alone |
| Frames.MadeUpIff | crates/quillcache-store/src/op_log.rs:79-111 | a frame torn at any byte passes the checks if and only if the bytes behind it make up its length and meet its checksum; which bytes are then taken |
| Frames.TornReads | crates/quillcache-store/src/op_log.rs:79-111 | exactly what is read at and behind a frame torn at any byte, by the reader that stops at undecodable frames and by the one that skips them |
| Frames.TornHidesIff | crates/quillcache-store/src/op_log.rs:79-111 | behind a tear in the payload nothing is read if and only if too little follows, the mixed bytes miss the checksum, or they do not decode |
| Frames.CorruptStops | crates/quillcache-store/src/op_log.rs:79-111 | behind a whole frame with a wrong checksum nothing is ever read |
| Frames.WholeFramesEnd | crates/quillcache-store/src/op_log.rs:79-111 | and that number is the greatest that fits |
| Frames.Replay | crates/quillcache-store/src/op_log.rs:79-111 | the byte loop computes the decoding, on any bytes |
| OpLogs.MountMirrors | crates/quillcache-store/src/master_service.rs:893-963 | replaying a mount keeps the rebuilt master a mirror of the visible state |
| OpLogs.UnmountMirrors | crates/quillcache-store/src/master_service.rs:893-963 | so does an unmount |
| OpLogs.RemoveMirrors | crates/quillcache-store/src/master_service.rs:893-963 | so does a removal |
| OpLogs.CommitMirrors | crates/quillcache-store/src/master_service.rs:893-963 | so does a first commit: its ranges are free in the rebuilt fleet |
| OpLogs.CommitAgain | crates/quillcache-store/src/master_service.rs:457-478 | a second commit of a visible object cannot be replayed, since its ranges are taken |
| OpLogs.AgreeIff | crates/quillcache-store/src/master_service.rs:457-489 | a step keeps log and state in agreement if and only if it is durable: not a revoke or an in-place reopen of a visible object, not a second commit, not a commit onto a scaled segment |
| OpLogs.RunAgrees | crates/quillcache-store/src/master_service.rs:893-963 | so a run of durable steps ends in agreement |
| OpLogs.PrefixAgrees | crates/quillcache-store/src/master_service.rs:893-963 | every prefix of its log is the log of a state the run went through, in agreement |
| OpLogs.MirrorInv | crates/quillcache-store/src/master_service.rs:893-963 | the rebuilt state meets the invariant |
| OpLogs.RunSecure | crates/quillcache-store/src/master_service.rs:904-963 | with room for the replay's nodes the log of a durable run never fails to replay |
| OpLogRecovery.OpLog.constructor | crates/quillcache-store/src/op_log.rs:56-59 | opening keeps what the file holds |
| OpLogRecovery.OpLog.Append | crates/quillcache-store/src/op_log.rs:63-74 | the file is what it was when opened and the frames of the entries appended since, this one last |
| OpLogRecovery.OpLog.ReadsBack | crates/quillcache-store/src/op_log.rs:56-111 | reopened on intact frames that decode, the earlier entries and the new ones are read back in order |
| OpLogRecovery.OpLog.TornLoses | crates/quillcache-store/src/op_log.rs:56-111 | reopened behind a frame torn at any byte, new entries are read only when their bytes make that frame up, checksum included; what is then read |
| OpLogRecovery.ApplyOp | crates/quillcache-store/src/master_service.rs:904-963 | refines one replay step, heartbeats and objects field by field; succeeds if and only if its ranges can be reserved, and breaks the master exactly on a mount of a mounted name |
| OpLogRecovery.RecoverFromOplog | crates/quillcache-store/src/master_service.rs:893-901 | succeeds if and only if every entry can be replayed, and then holds exactly the state rebuilt from the entries the bytes decode to, with default settings and every mounted segment heard of |
| OpLogRecovery.CrashSafe | crates/quillcache-store/src/master_service.rs:893-963 | from any durable run and any cut of its log file, what is read back is the log of some point of that run and rebuilds the visible state there; with node headroom recovery from it succeeds |
| OpLogRecovery.RecoverAndRead | crates/quillcache-store/src/master_service.rs:495-963 | from any cut of the log of a durable run, a read after recovery succeeds if and only if the object was readable at that point of the run, under its identity, and gives exactly its replicas |
| OpLogRecovery.RunMounts | crates/quillcache-store/src/master_service.rs:214-226 | the log of a durable run never mounts a mounted name |
| Limits.OnePlacedReached | crates/quillcache-store/src/master_service.rs:214-452 | the states used as examples are reached by runs |
| Limits.ScaledBeyondRecovery | crates/quillcache-store/src/offset_allocator.rs:628-631 | a reachable state with a segment one byte over the largest bin: no snapshot of it can be restored |
| Limits.RevokedComesBack | crates/quillcache-store/src/master_service.rs:481-489 | after put, end and revoke the log still rebuilds the object |
| Limits.MountedTwice | crates/quillcache-store/src/master_service.rs:214-226 | after mounting a mounted name, for any capacity and size, the first buffer of the new segment starts at 0 and overlaps every live buffer of the old that starts inside it |
| LostPuts.CanGoIff | crates/quillcache-store/src/master_service.rs:1038-1051 | a pass that makes room for some request takes an object if and only if it is neither hard-pinned nor leased |
| LostPuts.UnfinishedGoesIff | crates/quillcache-store/src/master_service.rs:995-1051 | an object whose put has not ended is taken by some such pass if and only if it is not hard-pinned |
| LostPuts.FailedTakes | crates/quillcache-store/src/master_service.rs:970-990 | a put of the whole capacity or more that finds no room has evicted every object eviction may take, unfinished ones too |
| LostPuts.FailedFull | crates/quillcache-store/src/master_service.rs:970-990 | a put that finds no room leaves nothing that eviction may take, unless the bytes it asks for are free but scattered |
| LostPuts.TakenForNeed | crates/quillcache-store/src/master_service.rs:970-1051 | at each eviction of a put the fleet is above the goal of the watermark pass or short of the bytes asked for |
| LostPuts.PlacedTakes | crates/quillcache-store/src/master_service.rs:970-990 | a put that fills a segment leaves no replica of another object there |
| LostPuts.LostRun | crates/quillcache-store/src/master_service.rs:554-576 | two puts as a batch makes them, 8 and then 64 bytes into a segment of 64: both succeed and only the second object is left |
| LostPuts.LostBatch | crates/quillcache-store/src/master_service.rs:554-576 | the same two items as one batch on a new master: the batch succeeds, and its first item is gone |
| Clients.StoredWasLastPut | crates/quillcache-store/src/client.rs:57-90 | what the history says is stored under a key is its last put |
| Clients.ObjectsApart | crates/quillcache-store/src/master_service.rs:409-452 | buffers of different objects never overlap |
| Clients.AfterStart | crates/quillcache-store/src/client.rs:57-79 | starting a put leaves the bytes of all other visible objects in place |
| Clients.AfterWrite | crates/quillcache-store/src/client.rs:57-79 | writing the new buffers overwrites no visible object |
| Clients.AfterEnd | crates/quillcache-store/src/client.rs:57-79 | ending it makes exactly the bytes written visible |
| Clients.FirstMemoryBuffer | crates/quillcache-store/src/client.rs:25-33 | the first memory replica, an error exactly when there is none |
| Clients.DummyClient.constructor | crates/quillcache-store/src/client.rs:43-48 | starts with an empty history |
| Clients.DummyClient.Mount | crates/quillcache-store/src/client.rs:50-54 | mounting changes no stored object, and the client stays faithful if and only if the name was not mounted |
| Clients.DummyClient.Put | crates/quillcache-store/src/client.rs:57-79 | refused exactly if the key is stored; otherwise succeeds exactly if the placement does, and fails only for lack of segments with room; a success stores exactly these bytes, and the keys lost are exactly those the placement's evictions took |
| Clients.DummyClient.Get | crates/quillcache-store/src/client.rs:82-90 | succeeds if and only if the key is stored under this identity, and returns the bytes of its last put |
| Clients.DummyClient.Remove | crates/quillcache-store/src/client.rs:92-94 | succeeds if and only if the key is there and not under a lease, or forced |
| Clients.DummyClient.Tick | crates/quillcache-store/src/master_service.rs:208-210 | time passing changes no stored object |
| Clients.ReadThenRemove | crates/quillcache-store/src/client.rs:82-94 | after a read, a plain removal n ticks later succeeds if and only if n is at least the lease time |
| Clients.DummyClient.Exist | crates/quillcache-store/src/client.rs:96-98 | true if and only if the key is stored |
| Blocks.TierBytesRemove | crates/quillcache-store/src/lib.rs:687-694 | the bytes of a tier are the sum over its blocks, whichever is taken first |
| Blocks.ColdestIn | crates/quillcache-store/src/lib.rs:502-508 | a block of the tier used no later than any other, none exactly when the tier is empty |
| Blocks.DrainMore | crates/quillcache-store/src/lib.rs:480-500 | evicting the coldest while over budget stays coldest-first and minimal |
| Blocks.UsedNow | crates/quillcache-store/src/lib.rs:326-346 | a use at the next clock makes a block the latest used, with the clock the number of uses |
| Blocks.LatestGoesIff | crates/quillcache-store/src/lib.rs:480-508 | of a tier brought within budget the latest used block goes if and only if it alone exceeds the budget |
| Wal.PartialAppend | crates/quillcache-store/src/lib.rs:294-303 | a record appended in part is not read; a record appended in full is |
| Wal.JournalServes | crates/quillcache-store/src/lib.rs:197-292 | recovery serves exactly the live records whose file has the length and checksum committed |
| KvStores.ResumesIff | crates/quillcache-store/src/lib.rs:197-292 | the disk of a working store can be gone on from if and only if no live commit of a block no longer on disk names a file beyond those that are |
| Wal.CrashAppending | crates/quillcache-store/src/lib.rs:294-303 | a crash during an append serves either the old or the new state |
| Wal.CommitAtomic | crates/quillcache-store/src/lib.rs:349-381 | a crash anywhere in a demotion to disk serves the old or the new contents; without one the block is served |
| Wal.DropAtomic | crates/quillcache-store/src/lib.rs:383-411 | so does a drop, after which the block is not served |
| Wal.OverwriteAtomic | crates/quillcache-store/src/lib.rs:456-478 | so does the removal of a stale copy |
| Wal.RunSnoc | crates/quillcache-store/src/lib.rs:480-500 | a sequence of atomic operations serves, after a crash anywhere, the contents between two of them |
| Wal.ReplayLive | crates/quillcache-store/src/lib.rs:197-244 | the replay loop keeps the last record of each key and forgets dropped ones |
| KvStores.ServedIsSsd | crates/quillcache-store/src/lib.rs:197-292 | what recovery would serve is exactly the SSD tier |
| KvStores.LocalKvStore.constructor | crates/quillcache-store/src/lib.rs:159-190 | a new store is empty |
| KvStores.LocalKvStore.RemoveInternal | crates/quillcache-store/src/lib.rs:456-478 | removes a block from both tiers and every index, crash-atomically |
| KvStores.LocalKvStore.PutDram | crates/quillcache-store/src/lib.rs:326-346 | stores the bytes in memory over any older copy, as the latest use: the clock moves by one and the block carries it |
| KvStores.LocalKvStore.Spill | crates/quillcache-store/src/lib.rs:349-381 | writes the file and then the commit: bytes unchanged, out of memory and on disk, crash-atomically |
| KvStores.LocalKvStore.DurableRest | crates/quillcache-store/src/lib.rs:197-292 | what a crash would leave is exactly the contents without the blocks in memory |
| KvStores.LatestSettles | crates/quillcache-store/src/lib.rs:480-500 | the latest used block ends in memory if it fits that budget, else on disk if it fits that one, else gone |
| KvStores.LocalKvStore.DemoteToSsd | crates/quillcache-store/src/lib.rs:349-381 | writes the file and then the commit, so moves a block to disk with its bytes unchanged, crash-atomically; refuses exactly blocks not in memory |
| KvStores.LocalKvStore.DropBlock | crates/quillcache-store/src/lib.rs:383-411 | drops a block, durably; false exactly if there was none |
| KvStores.LocalKvStore.Get | crates/quillcache-store/src/lib.rs:415-440 | returns the stored bytes and touches the block; reports a violation if and only if the same content is there under another identity |
| KvStores.LocalKvStore.EnforceCapacity | crates/quillcache-store/src/lib.rs:480-500 | both tiers end within budget; the demoted and the evicted are the coldest of their tier, one at a time, no more than it takes, and every other block keeps its bytes |
| KvStores.LocalKvStore.Put | crates/quillcache-store/src/lib.rs:312-323 | after it the store holds the new bytes and all old ones but those evicted, both tiers are within budget, the block itself is there if and only if it fits one of them and in the first it fits, and a crash anywhere is atomic |
| KvStores.Recover | crates/quillcache-store/src/lib.rs:197-292 | the recovered contents are exactly the live commits whose file has the length and checksum committed, all unused; the file counter is one past the verified commits, and the store meets its invariant if and only if the log is whole, no live file is beyond the counter and no two verified commits share one, whatever files are missing or damaged |
| StoreLimits.OverwriteRun | crates/quillcache-store/src/lib.rs:326-381 | spilling a block and overwriting it leaves a live commit whose file is gone: the disk cannot be gone on from |
| StoreLimits.StaleReturns | crates/quillcache-store/src/lib.rs:197-381 | from that disk the file number is given out again: spilling other bytes that are equal serves the overwritten block in between, is not crash-atomic, leaves two blocks on one file, and dropping one loses the other |
| StoreLimits.TornTailLoses | crates/quillcache-store/src/lib.rs:197-303 | what is committed behind a record torn at any byte is served only when its bytes make that record up, checksum included; what is then read |
| StoreLimits.ResumableIffSafe | crates/quillcache-store/src/lib.rs:197-414 | with a whole log, that condition holds if and only if every spill to a file beyond the counter and every drop is atomic under crashes and changes exactly its own block |
| StoreLimits.BeyondReturns | crates/quillcache-store/src/lib.rs:243-381 | a live commit beyond the counter is served again in the middle of a spill to its file |
| StoreLimits.SharedGoes | crates/quillcache-store/src/lib.rs:383-414 | of two commits verified by one file, dropping one takes the bytes of the other |
| DataPlanes.SumTier | crates/quillcache-store/src/lib.rs:687-694 | the sum of the bytes of a tier |
| DataPlanes.LowerMore | crates/quillcache-store/src/lib.rs:730-782 | one more demotion of the coldest keeps the pass coldest-first and minimal, with the remaining bytes of the tier exact |
| DataPlanes.LowerOne | crates/quillcache-store/src/lib.rs:745-780 | moves one block a tier down, or out, and changes no other tier; its bytes leave the pool's memory unless it goes to DRAM, and the pool if it goes |
| DataPlanes.Drain | crates/quillcache-store/src/lib.rs:730-782 | brings one tier within budget by moving down or evicting its coldest blocks, no more than it takes |
| DataPlanes.Enforce | crates/quillcache-store/src/lib.rs:730-782 | HBM drains to DRAM, DRAM to SSD, SSD away; all three end within budget and no block loses bytes on the way |
| DataPlanes.PlaceDiff | crates/quillcache-store/src/lib.rs:813-900 | the update removes just the blocks gone and lists just those placed or changed, each once |
| DataPlanes.PlaceIn | crates/quillcache-store/src/lib.rs:813-900 | placing a block settles all tiers, moves the bytes with the blocks and reports the exact difference |
| DataPlanes.PlacedStays | crates/quillcache-store/src/lib.rs:813-900 | the block just placed stays in its tier if and only if it alone fits that tier's budget |
| DataPlanes.Restamps | crates/quillcache-store/src/lib.rs:730-900 | after a placement the blocks placed or demoted carry the new clock in the tier they went to, and every other entry is as it was |
| DataPlanes.Residents | crates/quillcache-store/src/lib.rs:884-896 | the affected blocks still there, each with its current residency |
| DataPlanes.StoreDataPlane.constructor | crates/quillcache-store/src/lib.rs:595-609 | starts with no worker and no pool |
| DataPlanes.StoreDataPlane.Place | crates/quillcache-store/src/lib.rs:813-900 | the update is the exact difference of the residencies, each block once with its bytes; all tiers are in budget, coldest out first; the block stays if and only if it fits; demoted blocks leave memory but not the disk, evicted ones, and only those, lose their bytes; other workers are untouched |
| DataPlanes.StoreDataPlane.EnsurePool | crates/quillcache-store/src/lib.rs:620-633 | makes the pool of a worker on first use, without budgets of its own, and changes no other |
| DataPlanes.StoreDataPlane.Put | crates/quillcache-store/src/lib.rs:635-649 | as placing in DRAM, with the exact difference; the new bytes and all old ones but those of blocks gone are served, in memory but for the blocks demoted, and the rest durable |
| DataPlanes.StoreDataPlane.Get | crates/quillcache-store/src/lib.rs:652-657 | serves the pool's bytes; a miss is refused as unsafe if and only if the same content is there under another identity |
| DataPlanes.StoreDataPlane.RemoveBlock | crates/quillcache-store/src/lib.rs:902-936 | removes exactly the blocks of that scope and content from that worker, bytes included, and lists each as it was; clock and other entries stay |
| DataPlanes.StoreDataPlane.ClearWorker | crates/quillcache-store/src/lib.rs:938-964 | removes exactly that worker and lists everything it held as it was |
| IndexKeys.FieldPrefix | crates/quillcache-core/src/index_rocksdb.rs:130-147 | with NUL-free fields one encoded field is a prefix of another if and only if the fields are equal and the rests are prefixes |
| IndexKeys.ScopeTextPrefix | crates/quillcache-core/src/index_rocksdb.rs:130-159 | for NUL-free scopes one encoding is a prefix of another if and only if model, tokenizer, adapter text and tenant are equal and the rests are prefixes |
| IndexKeys.ScopesApartIff | crates/quillcache-core/src/index_rocksdb.rs:130-159 | so NUL-free scopes are told apart if and only if they do not blur an absent and an empty adapter name |
| IndexKeys.ScopePrefix | crates/quillcache-core/src/index_rocksdb.rs:130-159 | without empty adapter names either, if and only if the scopes are equal |
| IndexKeys.BlurredShares | crates/quillcache-core/src/index_rocksdb.rs:161-208 | records that differ only in no adapter and an empty one share both entries |
| IndexKeys.ScopeAloneIff | crates/quillcache-core/src/index_rocksdb.rs:130-159 | no other scope, with NULs or without, encodes like a given one if and only if that one is NUL-free and has an adapter name |
| IndexKeys.Lookalike | crates/quillcache-core/src/index_rocksdb.rs:130-147 | for every other scope, one that encodes alike |
| IndexKeys.BlockPrefix | crates/quillcache-core/src/index_rocksdb.rs:161-184 | and an encoded block key if and only if the blocks are equal |
| IndexKeys.LocateMatches | crates/quillcache-core/src/index_rocksdb.rs:262-271 | the locate prefix matches a stored key if and only if it is that block's |
| IndexKeys.ScanMatches | crates/quillcache-core/src/index_rocksdb.rs:273-278 | the scan prefix matches if and only if scope and prefix hash are equal |
| IndexKeys.RemoveMatches | crates/quillcache-core/src/index_rocksdb.rs:210-224 | the removal prefix matches a reverse key if and only if scope, worker and content are equal |
| IndexKeys.PrimaryInjective | crates/quillcache-core/src/index_rocksdb.rs:161-184 | primary keys tell records apart by block, worker and tier |
| IndexKeys.SecondaryInjective | crates/quillcache-core/src/index_rocksdb.rs:186-208 | so do secondary keys |
| IndexKeys.Adjacent | crates/quillcache-core/src/index_rocksdb.rs:226-244 | in byte order the keys with a given prefix are contiguous from the prefix on |
| IndexKeys.ToBeInjective | crates/quillcache-core/src/index_rocksdb.rs:161-184 | big-endian block numbers are told apart |
| Indexes.IterateFrom | crates/quillcache-core/src/index_rocksdb.rs:226-244 | iterates the keys from the prefix on, in ascending byte order |
| Indexes.SeekPrefix | crates/quillcache-core/src/index_rocksdb.rs:226-244 | seek and stop at the first mismatch finds exactly the keys with the prefix |
| Indexes.EntriesApart | crates/quillcache-core/src/index_rocksdb.rs:252-260 | no two records share an entry in either namespace |
| Indexes.HoldsPut | crates/quillcache-core/src/index_rocksdb.rs:252-260 | a put keeps the two namespaces exact images of the records |
| Indexes.HoldsRemove | crates/quillcache-core/src/index_rocksdb.rs:280-307 | a removal does too |
| Indexes.HitSlots | crates/quillcache-core/src/index_rocksdb.rs:280-307 | the reverse-index hits are exactly the records to remove, each once |
| Indexes.RocksIndex.constructor | crates/quillcache-core/src/index_rocksdb.rs:62-78 | opening keeps the records of the database |
| Indexes.RocksIndex.Put | crates/quillcache-core/src/index_rocksdb.rs:252-260 | replaces exactly the record of that block, worker and tier |
| Indexes.RocksIndex.ScanPrefix | crates/quillcache-core/src/index_rocksdb.rs:226-244 | lists exactly the records a prefix stands for |
| Indexes.RocksIndex.Locate | crates/quillcache-core/src/index_rocksdb.rs:262-271 | lists exactly the records of a block, each once |
| Indexes.RocksIndex.PrefixScan | crates/quillcache-core/src/index_rocksdb.rs:273-278 | lists exactly the records of a scope and prefix hash, each once |
| Indexes.RocksIndex.RemoveBlock | crates/quillcache-core/src/index_rocksdb.rs:280-307 | removes exactly the records of that scope, worker and content and counts them |
| Indexes.RocksIndex.ClearWorker | crates/quillcache-core/src/index_rocksdb.rs:309-333 | removes exactly a worker's records |
| MemoryIndexes.RowWithout | crates/quillcache-core/src/lib.rs:778-813 | filtering a row removes exactly a worker's records of that block and counts them |
| MemoryIndexes.RowPut | crates/quillcache-core/src/lib.rs:748-764 | a put replaces exactly one record of its row |
| MemoryIndexes.Collect | crates/quillcache-core/src/lib.rs:766-776 | lists the records of the given blocks, each once |
| MemoryIndexes.DropFrom | crates/quillcache-core/src/lib.rs:778-836 | removes exactly a worker's records of the given blocks and names the blocks left empty |
| MemoryIndexes.MemoryIndex.constructor | crates/quillcache-core/src/lib.rs:728-731 | a new index is empty |
| MemoryIndexes.MemoryIndex.Put | crates/quillcache-core/src/lib.rs:748-764 | the same contract as the persistent index, so both refine one record map |
| MemoryIndexes.MemoryIndex.Locate | crates/quillcache-core/src/lib.rs:766-768 | likewise |
| MemoryIndexes.MemoryIndex.PrefixScan | crates/quillcache-core/src/lib.rs:770-776 | likewise |
| MemoryIndexes.MemoryIndex.ResidencyByContentHash | crates/quillcache-core/src/lib.rs:851-861 | lists exactly the records with that content under any identity |
| MemoryIndexes.MemoryIndex.RemoveBlock | crates/quillcache-core/src/lib.rs:778-813 | likewise, through the reverse map |
| MemoryIndexes.MemoryIndex.ClearWorker | crates/quillcache-core/src/lib.rs:815-836 | likewise |
| MemoryIndexes.MemoryIndex.Forget | crates/quillcache-core/src/lib.rs:733-741 | both reverse maps stay exact when blocks are forgotten |
| Pipelines.LayerSlices | crates/quillcache-transfer-engine/src/slice_pool.rs:80-88 | layer i starts where the layers before it end |
| Pipelines.SlicesTile | crates/quillcache-transfer-engine/src/slice_pool.rs:80-88 | every byte of the blob lies in exactly one layer |
| Pipelines.Prime | crates/quillcache-transfer-engine/src/slice_pool.rs:133-165 | starts the first layers in order, as many as there are up to the bound, as the trace records |
| Pipelines.Join | crates/quillcache-transfer-engine/src/slice_pool.rs:165-197 | a finished transfer advances the watermark over every contiguous finished layer, and the first failure is kept |
| Pipelines.Announce | crates/quillcache-transfer-engine/src/slice_pool.rs:165-197 | notifies the contiguous prefix in order |
| Pipelines.RunLayersWithNotify | crates/quillcache-transfer-engine/src/slice_pool.rs:133-197 | in whatever order transfers finish: the trace is a legal run that ends with nothing in flight, and its announcements are those made; layers are announced in order from 0, each once; without an error all are; an error is that of a layer that failed |
| Pipelines.FlightBound | crates/quillcache-transfer-engine/src/slice_pool.rs:133-197 | at no point of a legal run are more layers in flight than the bound |
| Pipelines.NotifiedInOrder | crates/quillcache-transfer-engine/src/slice_pool.rs:165-197 | when a layer is announced, it and all before it have completed and landed |
| LockOrder.StepOk | crates/quillcache-store/src/sharded_map.rs:9-18 | a step keeps every thread holding only locks below those it still takes |
| LockOrder.NoDeadlock | crates/quillcache-store/src/sharded_map.rs:9-18 | while a thread is unfinished, some thread can step |
| LockOrder.ReachedOk | crates/quillcache-store/src/sharded_map.rs:9-18 | the discipline holds after any schedule |
| LockOrder.ProgramOk | crates/quillcache-store/src/sharded_map.rs:59-77 | every program made of single-shard and all-shard sections, alone or under the segment lock, keeps the order |
| LockOrder.MasterNeverDeadlocks | crates/quillcache-store/src/master_service.rs:131-134 | any number of such programs, under any schedule, never deadlock |
| Endpoints.EndpointStore.constructor | crates/quillcache-transfer-engine/src/endpoint_store.rs:46-56 | an empty store of at least one slot |
| Endpoints.EndpointStore.SieveVictim | crates/quillcache-transfer-engine/src/endpoint_store.rs:115-133 | the first unvisited endpoint from the hand round, every visited one passed has its bit cleared, and the hand stays at the victim's place |
| Endpoints.SecondChance | crates/quillcache-transfer-engine/src/endpoint_store.rs:115-133 | a used endpoint is evicted if and only if it is under the hand and all are used |
| Endpoints.SieveTakes | crates/quillcache-transfer-engine/src/endpoint_store.rs:115-133 | the sieve takes the first unused endpoint from the hand to the end, else from the front to the hand, else the one under the hand |
| Endpoints.SieveMarks | crates/quillcache-transfer-engine/src/endpoint_store.rs:115-133 | it marks unused exactly the endpoints it passed |
| Endpoints.EndpointStore.Pick | crates/quillcache-transfer-engine/src/endpoint_store.rs:97-133 | the oldest, or the sieve's choice with its cleared bits and hand |
| Endpoints.EndpointStore.EvictOne | crates/quillcache-transfer-engine/src/endpoint_store.rs:97-112 | exactly one endpoint goes, the oldest or the sieve's choice with its cleared bits and hand, and is parked if still in use; under FIFO endpoints leave in the order they came, over every run |
| Endpoints.EndpointStore.GetOrInsert | crates/quillcache-transfer-engine/src/endpoint_store.rs:74-91 | a hit only marks the endpoint; a miss appends it unused, evicting exactly one if and only if the store is full; a failed connect changes nothing |
| Endpoints.EndpointStore.Reclaim | crates/quillcache-transfer-engine/src/endpoint_store.rs:136-138 | keeps exactly the parked endpoints still in use, in order |
| Endpoints.RetainedCounts | crates/quillcache-transfer-engine/src/endpoint_store.rs:136-138 | one in use stays parked as often as it was, one that is not goes |
| Sketches.CellCounts | crates/quillcache-store/src/count_min_sketch.rs:65-98 | a counter is at least the aged count of each key that hashes to it, and equal to it for a key that is alone there |
| Sketches.CountMinSketch.EstimateMeans | crates/quillcache-store/src/count_min_sketch.rs:65-88 | an estimate is never below the key's own count and equal to it if the key is alone in some row |
| Sketches.ExactIsTally | crates/quillcache-store/src/count_min_sketch.rs:65-98 | up to an aging the count that the sketch bounds is the number of increments of the key, capped at 255 |
| Sketches.CountMinSketch.constructor | crates/quillcache-store/src/count_min_sketch.rs:37-46 | an empty sketch, with defaults for zero sizes |
| Sketches.CountMinSketch.Count | crates/quillcache-store/src/count_min_sketch.rs:81-88 | the estimate is the least, over the rows, of the aged counts of the keys sharing the key's counter |
| Sketches.CountMinSketch.Increment | crates/quillcache-store/src/count_min_sketch.rs:65-78 | every counter stays the aged count of the keys that hash to it, the estimate is the least of the key's counters after the increment, and the sketch decays exactly when the increments since the last decay reach its size |
| Sketches.CountMinSketch.Age | crates/quillcache-store/src/count_min_sketch.rs:91-98 | halves every counter |

## Left out

- The HTTP services, etcd, the cluster router and scheduler, CUDA and RDMA transports, and `RealClient`'s network transfers: they call into code outside the repository.
- Regular-expression lookup, the batched end, revoke, get and exist calls, and `upsert_end`/`upsert_revoke`: loops over modelled operations that would only add easy members.
- Client-owned segments, remounting by a returning client, hotness counting inside the master and heartbeat calls after a mount.
- Statistics counters, the action log and cost estimates of the data plane, transfer telemetry and `run_slices`.
- I/O errors and failing fsync: writes reach the disk in order; a crash may cut an append at any byte and may fall between any two writes.
- JSON encoding and CRC-32: a codec is any pair of functions that round-trips, and the checksum any 32-bit function, so cut frames are shown to be rejected but not arbitrary corruption.
- Frames.CutDecodes: assumes that each payload is under 4 GiB, since a frame's length field is cut to 32 bits.
- Frames.CutNotIntact: the same assumption.
- KvStores.LocalKvStore.Put: its claims about crashes hold while every journal record is under 4 GiB (`Sized`), and so do those of the other store methods.
- Integer widths: sizes, offsets, the clock and the replica counter are unbounded, except where the code saturates or where the 32-bit allocator words and bins decide the result.
- Floating point: watermarks and free ratios are real numbers, so rounding near a threshold is not modelled.
- The sharded map is one map; the order in which its shards and the segment lock are taken is modelled apart from it, in LockOrder, and the master's methods run one at a time.
- Operations on a store or master opened on a torn log, beyond what is read back: durability is proved from a whole log up to the next crash.
- HoltIndex: it shares the key encodings proved here, and its prefix scan is the filter that the seek is proved equal to.
- Recovery.Recover: requires the snapshot to name each segment once, as every snapshot taken does.
- OpLogRecovery.RecoverFromOplog: requires that the log mounts no name that is mounted; the logs of all durable runs meet it. The recovered master starts with an empty log of its own.
- KvStores.Recover: from a disk that cannot be gone on from, runs of further operations are not followed beyond the first step that fails; the contents recovered are exact in every case.
- StoreLimits.ResumableIffSafe: that a disk outside the condition has a failing step rests on each live commit being of some bytes whose commit, one byte longer, fits its frame.
- Recovery.RecoveryIff: beyond two million buffers in a segment whether nodes run out depends on the order of the objects; `Recovery.Recover` is exact there, this lemma gives one direction.
- OpLogRecovery.CrashSafe: that recovery succeeds is shown for runs with at most two million buffers a segment; entries are under 4 GiB.
- OpLogs.RunSecure: the same bound on buffers.
- Indexes.RocksIndex.Put: requires NUL-free fields, a non-empty adapter name if there is one, and a token count that depends on the block alone; the encodings are not exact otherwise.
- Indexes.RocksIndex.Locate: the same precondition on the key asked for.
- Indexes.RocksIndex.PrefixScan: requires NUL-free fields.
- Indexes.RocksIndex.RemoveBlock: requires NUL-free fields.
- SimpleAllocators.FirstFitBufferAllocator.Deallocate: requires a live buffer; the code merges whatever range it is given.
- SimpleAllocators.BinnedBufferAllocator.Deallocate: the same precondition.
- Core.CoreAllocator.Free: requires a live handle, as the code's own debug assertions do.
- DataPlanes.StoreDataPlane.Place: requires that a block with bytes in the pool is one the worker lists or is just being placed, which every call here keeps.
- Core.CoreAllocator.ServesIff: requires that no region is empty; only a core allocation of nothing makes one, and the layers above never ask for it.
- Masters.WriteThenRead: requires at least one replica and that no segment has gone silent, since a read skips segments that have.
- Pipelines.RunLayersWithNotify: a transfer that panics is a transfer that fails.
