# A verified model of the read-through block cache

The repository puts a block cache in front of remote files. A read is cut into
cache entries, each entry is looked up or fetched, and the requested slices are
copied into the caller's buffer. Entries live in a byte-bounded storage with
pluggable eviction (or in a stock LRU map), are re-cut when the block size
changes, and are shared by many threads. This project models that core and
proves what it promises: **the cache never changes what a read returns**, and
every supporting structure keeps its own bargain on every run.

Check everything with `dafny verify dfyconfig.toml`.

## How the model is laid out

| files | what they model |
|---|---|
| `ChunkedRead`, `LayoutRegistry`, `ColumnPlanner` | cutting a request into entries, on the fixed grid or along registered column chunks, and copying the slices |
| `RemapSpec`, `Remap`, `RemapRoundTrip`, `RemapEntries` | the block-size remap: an independent specification, the loops, and the round trip |
| `CacheSystem`, `CacheSystemTheorems`, `CacheRemap`, `StorageContract` | reads, chunk tasks, evictions, clears and remaps as one step system over any number of reads; what both storages owe it |
| `SecondChance`, `Policies`, `ClockFifo`, `PolicyOrder` | the four eviction policies as objects, the second-chance queue that CLOCK refines, CLOCK against FIFO, and which key each policy gives up, told from the calls alone |
| `PolicyGroups`, `PolicyStorage`, `PolicyHistory`, `PolicyStorageImpl` | the byte-bounded storage: one group, all groups over every run, what it holds and answers told from the calls, and the mutable objects |
| `StockLru`, `StockHistory`, `LruEquivalence` | the stock LRU storage, what it holds and answers told from the calls, and its equivalence with the "lru" policy |
| `SingleFlight`, `SingleFlightTheorems` | `GetOrCreate` as a step system over any number of threads |
| `ThreadPool` | workers, `Push`, `Wait` and shutdown as a step system |
| `MultiLru`, `MultiLruOrder`, `MultiLruImpl` | the exclusive multi-value LRU, as a list of owned handles, over every run, and as the object |
| `DiskLru` | the disk cache's two inverse timestamp maps |
| `Blocks`, `Grid`, `Sequences` | keys, grid arithmetic and duplicate-free lists |

State that the source changes in place is a class here; each method's new state
is a function of the old one, and the promises are lemmas about those functions
over every run. Shared-memory protocols are step systems: an action is one
critical section (or one unlocked step), and theorems speak about every state of
every run.

## Where a promise does not hold as stated

Each is proved in both directions, or by a concrete run next to the exact condition.

- With validation off, a read through a handle of a changed file can return the old
  version (`UnvalidatedReadCanBeStale`, for any range both versions have). All reads of a
  file are exact if and only if its versions agree wherever both have bytes
  (`UnvalidatedIsExactIffUnchanging`); with validation on every file is read exactly
  (`ValidatedReadIsExact`).
- A `Put` can leave an older payload behind when the chunk is larger than the group
  (`PutLeavesStaleIff` says exactly when, `OversizedPutLeavesStale` is a case). The readers and the remap never do this:
  they charge a key the same every time (`HitIsLastPut`, `LookupHitsIff`).
- The "lru" policy matches the stock storage only when the budget holds at least one
  entry: a smaller budget keeps nothing, while an entry limit of zero means no limit
  (`TooSmallBudgetDiffers`).
- A factory that returns null strands every waiter on its token for good
  (`StrandedIffNull`, `NullStrandsWaiters`), from every initial state
  (`NullFactoryStrands`).
- `Wait` is documented to block until the pool is dead or idle
  (`src/utils/include/thread_pool.hpp:31`). A completion notifies one caller and the
  destructor notifies none. A step leaves a caller asleep that may go exactly when it
  completes the last job with another caller blocked, or shuts the pool down with a caller
  blocked (`MissesIff`). If shutdowns happen only while nobody is blocked, the promise is
  kept on every history if and only if at most one thread calls `Wait`, or there is no
  worker (`WaitIsExactIff`); with one caller, a history keeps it if and only if its
  shutdown is of that kind (`OneCallerMissesIffShutdown`). From every new pool with a
  worker two callers can fail (`TwoCallersCanMiss`), and any single one at shutdown
  (`ShutdownCanMiss`); such a caller stays blocked (`LeftBehindStaysBlocked`).
- The disk cache evicts the least recently accessed file as long as no free timestamp
  lies between a clock reading and a recorded one (`NewestIffGapFree`,
  `EvictsLeastRecent`); a clock that stands still is not enough
  (`StandingClockEvictsMostRecent`).

Where the code and its comments differ, the model follows the code: the comment on
`GetOrCreate` forbids throwing factories
(`src/utils/include/shared_value_lru_cache.hpp:287`), but the code carries exceptions
to every participant, and the model does too.

## Model

| member | source | states |
|---|---|---|
| `ChunkedRead.CalculateChunkAlignment` | src/utils/chunk_utils.cpp:5-16 | the first and last grid blocks contain the first and last requested byte, and the count is the number of blocks from one to the other |
| `ChunkedRead.FixedGridChunks` | src/in_memory_cache_reader.cpp:169-244 | the four-case loop yields consecutive grid blocks, cut short only by the end of file, whose slices tile the request exactly; their number is the predicted count; the skip at end of file is never reached |
| `ChunkedRead.CutChunkFits` | src/in_memory_cache_reader.cpp:197-238 | in each of the four cases the slice lies inside its entry, the entry inside the file, and the next slice starts where this one ends |
| `ChunkedRead.CopyTo` | src/utils/page_aligned_data_chunk.cpp:27-32 | fails exactly when more than the valid bytes is asked for, and then changes nothing; otherwise overwrites exactly the destination range |
| `ChunkedRead.CopyBufferToRequestedMemory` | src/cache_read_chunk.cpp:7-10 | for a chunk of a plan the copy never fails and writes exactly the entry's slice |
| `LayoutRegistry.Sort` | src/parquet_layout_registry.cpp:19-20 | sorted by offset and a permutation of the input |
| `LayoutRegistry.CleanUp` | src/parquet_layout_registry.cpp:22-35 | the kept extents are non-empty, ascending and disjoint; nothing is invented; each dropped extent is empty or starts inside a kept one |
| `LayoutRegistry.Registry.Register` | src/parquet_layout_registry.cpp:18-41 | replaces only that path's layout, by a clean one derived from the given extents, and returns its size |
| `LayoutRegistry.UpperBound` | src/parquet_layout_registry.cpp:55-61 | the binary search splits the extents at the offset exactly |
| `LayoutRegistry.LowerBound` | src/parquet_layout_registry.cpp:76-80 | the binary search splits the extents before the offset exactly |
| `LayoutRegistry.Registry.Find` | src/parquet_layout_registry.cpp:48-67 | returns a registered extent containing the offset, and nothing only when none does |
| `LayoutRegistry.Registry.NextStart` | src/parquet_layout_registry.cpp:69-83 | the least start at or after the offset among all registered extents, if there is one |
| `LayoutRegistry.Registry.Forget` | src/parquet_layout_registry.cpp:104-107 | removes that path's layout and no other |
| `ColumnPlanner.EntryAt` | src/utils/column_chunk_planner.cpp:21-40 | the entry chosen for a position contains it and is a registered extent, or a gap disjoint from all of them that runs to its cap or to the next extent |
| `ColumnPlanner.PlanColumnChunks` | src/utils/column_chunk_planner.cpp:8-71 | every request, up to a known end of file, is tiled exactly and in order by whole extents clipped at end of file or maximal capped gaps; so the defensive stops are never taken by a request inside the file |
| `Grid.AlignUp` | src/in_mem_cache_remap.cpp:25-32 | the least grid point at or after the offset |
| `Remap.CopyRange` | src/in_mem_cache_remap.cpp:34-51 | gathers exactly the run's bytes for the range, from any earlier hint; the index assertions never fire |
| `Remap.EmitRunOnNewGrid` | src/in_mem_cache_remap.cpp:67-109 | emits every new-grid entry starting in the run and no other, in order, in all of the size cases |
| `Remap.EmitWholeBlocks` | src/in_mem_cache_remap.cpp:85-96 | a run that ends before a known end of file yields exactly its whole blocks |
| `Remap.EmitToEnd` | src/in_mem_cache_remap.cpp:98-108 | otherwise it yields every block up to the end, the last one possibly short |
| `Remap.RemapOneFile` | src/in_mem_cache_remap.cpp:111-161 | the run scan produces exactly the entries that the specification derives from the cached bytes, although it never looks at the specification's byte map |
| `Remap.RunIsMaximal` | src/in_mem_cache_remap.cpp:145-158 | a run is flushed only at a byte that is not cached under its tag |
| `Remap.KeptIff` | src/in_mem_cache_remap.cpp:142-151 | of overlapping entries, exactly those are used that do not start before an earlier used one ends |
| `RemapEntries.BuildFileIndex` | src/in_mem_cache_remap.cpp:53-65 | each file's blocks in start order, the first entry of a start winning |
| `RemapEntries.RemapInMemCacheEntries` | src/in_mem_cache_remap.cpp:165-179 | the output holds exactly the re-cut entries of every file, one per start; block size zero yields nothing |
| `RemapSpec.RemapSound` | src/in_mem_cache_remap.cpp:67-109 | every output starts on the new grid, has size in (0, block], stays inside a known file size and is short only at its end, and takes every byte and its tag from the cache |
| `RemapEntries.OutputShape` | src/in_mem_cache_remap.cpp:67-109 | the same of the key of every output of a whole cache |
| `RemapSpec.OutputsDisjoint` | src/in_mem_cache_remap.cpp:98-108 | outputs of one file never overlap |
| `RemapSpec.PieceUnique` | src/in_mem_cache_remap.cpp:98-108 | the specification determines the entry at a start offset |
| `RemapSpec.FullBlockIsOutput` | src/in_mem_cache_remap.cpp:86-94 | a new-grid block cached whole under one tag is an output |
| `RemapSpec.LastBlockIsOutput` | src/in_mem_cache_remap.cpp:98-108 | so is the short block at a known end of file |
| `RemapEntries.OutputByteWasCached` | src/in_mem_cache_remap.cpp:165-179 | each output byte was drained for the same file and offset under the same tag |
| `RemapEntries.CachedBytesComeOut` | src/in_mem_cache_remap.cpp:138-160 | for disjoint drained entries, a new-grid block (or the short last one) whose bytes are all held under one tag comes out whole |
| `RemapEntries.CachedBlockIsKept` | src/in_mem_cache_remap.cpp:86-94 | the same with the exact bytes of the output |
| `RemapEntries.ByteComesOutIff` | src/in_mem_cache_remap.cpp:67-161 | which bytes survive a remap of disjoint entries: exactly those whose new-grid block is cached under one tag, up to them when the file size is unknown, else whole or up to the end of file |
| `RemapEntries.CachedLastBlockIsKept` | src/in_mem_cache_remap.cpp:98-108 | the same for the short last block |
| `RemapRoundTrip.EntriesArePieces` | src/in_mem_cache_remap.cpp:138-160 | entries on a grid are a fixed point of remapping to that grid |
| `RemapRoundTrip.FinerKeepsCover` | src/in_mem_cache_remap.cpp:98-108 | a remap to a divisor of the block size loses no byte and no tag |
| `RemapRoundTrip.FileRoundTrip` | src/in_mem_cache_remap.cpp:111-161 | to a divisor and back restores one file's entries as a list |
| `RemapEntries.RemapThereAndBack` | src/in_memory_cache_reader.cpp:299-312 | to a divisor and back, in whatever order the cache lists its entries, restores every key with bytes and tag and nothing else |
| `CacheRemap.RemapCycle` | src/in_memory_cache_reader.cpp:299-312 | draining, re-cutting and putting back is a run of the read path that leaves exactly the re-cut entries cached and no read touched |
| `CacheRemap.RemapAndBackRestoresStore` | src/in_memory_cache_reader.cpp:299-312 | two such runs, to a divisor of the block size and back, restore the whole state |
| `CacheSystem.StepInv` | src/in_memory_cache_reader.cpp:65-106 | every step of every task, storage and remap keeps each entry equal to its range of its tagged version, and each buffer slice correct once copied |
| `CacheSystem.EveryStateCoherent` | src/in_memory_cache_reader.cpp:65-255 | hence every reachable state is coherent, however tasks interleave |
| `CacheSystem.ValidatedReadIsExact` | src/in_memory_cache_reader.cpp:108-255 | a finished validated read is exactly the requested range of the version it asked for |
| `CacheSystem.UnvalidatedReadOfUnchangingFileIsExact` | src/include/in_memory_data_cache_storage.hpp:33-35 | without validation the same holds of files whose versions agree |
| `CacheSystemTheorems.UnvalidatedReadCanBeStale` | src/include/in_memory_data_cache_storage.hpp:33-35 | for any range that two versions both have, some run of a handle of the one returns the bytes of the other |
| `CacheSystemTheorems.UnvalidatedIsExactIffUnchanging` | src/include/in_memory_data_cache_storage.hpp:33-35 | every finished read of a file in every run is exact if and only if its versions agree wherever both have bytes |
| `CacheSystemTheorems.CopyNeverFails` | src/utils/page_aligned_data_chunk.cpp:27-32 | no task of any run ever meets the copy error |
| `CacheSystemTheorems.TaskCanProceed` | src/in_memory_cache_reader.cpp:65-106 | every unfinished task of every reachable state can take its next step |
| `CacheSystemTheorems.PlansAgree` | src/in_memory_cache_reader.cpp:133-167 | two finished reads of one range give the same buffer, whatever their plans |
| `CacheSystem.RemappedOk` | src/in_memory_cache_reader.cpp:299-312 | remapping coherent entries yields coherent entries |
| `StorageContract.PolicyHitIsCached` | src/policy_data_cache_storage.cpp:228-251 | a hit of the policy storage is an entry it held, with an acceptable tag, and a lookup adds nothing |
| `StorageContract.PolicyStepForgetsOrPuts` | src/policy_data_cache_storage.cpp:188-317 | every call leaves a part of the old contents plus at most the offered payload |
| `StorageContract.StockHitIsCached` | src/extension_bounded_data_cache_storage.cpp:18-32 | the same of the stock storage's lookup |
| `StorageContract.StockPutForgetsOrPuts` | src/utils/include/shared_value_lru_cache.hpp:50-74 | the same of the stock storage's insertion |
| `StorageContract.StockClearsOnlyForget` | src/extension_bounded_data_cache_storage.cpp:34-45 | deletion, clearing and clearing a file leave a part of the old contents |
| `StorageContract.PolicyTakeIsContents` | src/policy_data_cache_storage.cpp:305-317 | what a drain hands over is exactly the contents, each entry once |
| `StorageContract.PolicyDrainIsStep` | src/in_memory_cache_reader.cpp:299-312 | draining the policy storage and remapping is a drain step of the read path and leaves it empty |
| `StorageContract.StockDrainIsStep` | src/in_memory_cache_reader.cpp:299-312 | the same of the stock storage, whatever its timeout drops |
| `StorageContract.PolicyGetIsStep` | src/in_memory_cache_reader.cpp:76-88 | a task's lookup in the policy storage is a step of the read path, which goes on with the payload found or to the remote side |
| `StorageContract.PolicyPutIsStep` | src/in_memory_cache_reader.cpp:102-105 | a task's insertion into it is a step that finishes the task |
| `StorageContract.StockGetIsStep` | src/in_memory_cache_reader.cpp:76-88 | the same of a lookup in the stock storage |
| `StorageContract.StockPutIsStep` | src/in_memory_cache_reader.cpp:102-105 | the same of an insertion into the stock storage |
| `StorageContract.ClearsEmpty` | src/policy_data_cache_storage.cpp:266-273 | clearing leaves either storage without contents |
| `SecondChance.SweepTakesFirstClear` | src/include/policy/clock_policy.hpp:55-77 | the victim is the first clear entry; those in front of it move to the back with bits cleared |
| `SecondChance.SweepAllReferenced` | src/include/policy/clock_policy.hpp:62-75 | with every bit set, one round clears them all and the head is taken |
| `SecondChance.SweepKeys` | src/include/policy/clock_policy.hpp:55-77 | a sweep forgets its victim and no other key |
| `Policies.ErasedRing` | src/include/policy/clock_policy.hpp:40-53 | erasing a ring node and moving the hand is removing the key from the rotated queue |
| `Policies.ClockPolicy.OnHit` | src/include/policy/clock_policy.hpp:24-29 | marks the key in the rotated queue and nothing else |
| `Policies.ClockPolicy.OnInsert` | src/include/policy/clock_policy.hpp:31-38 | insertion behind the hand appends to the rotated queue with the bit clear |
| `Policies.ClockPolicy.OnErase` | src/include/policy/clock_policy.hpp:40-53 | removes exactly that key from the rotated queue, wherever the hand is |
| `Policies.ClockPolicy.PopVictim` | src/include/policy/clock_policy.hpp:55-77 | never fails on a non-empty ring within the sweep guard, and takes the second-chance victim |
| `Policies.ClockPolicy.SweepRing` | src/include/policy/clock_policy.hpp:62-76 | the guarded loop computes the recursive sweep of the rotated queue |
| `ClockFifo.ClockWithoutHitsIsFifo` | src/include/policy/fifo_policy.hpp:19-48 | over every hit-free run CLOCK hands out exactly FIFO's victims |
| `PolicyOrder.ClockGivesSecondChances` | src/include/policy/clock_policy.hpp:24-77 | over every run the victim is the key that has waited longest among those not hit since their insertion or last sparing, or among all when each was hit |
| `PolicyOrder.HitKeyIsSpared` | src/include/policy/clock_policy.hpp:24-29 | a key just hit is not the next victim while another has not been hit |
| `PolicyOrder.LruEvictsLeastRecent` | src/include/policy/lru_policy.hpp:18-54 | over every run the victim is the key whose last insertion or hit is the earliest |
| `PolicyOrder.MruEvictsMostRecent` | src/include/policy/mru_policy.hpp:27-63 | over every run the victim is the key whose last insertion or hit is the latest |
| `PolicyOrder.FifoEvictsOldest` | src/include/policy/fifo_policy.hpp:19-48 | over every run the victim is the key inserted first, whatever was hit |
| `Policies.LruPolicy.OnHit` | src/include/policy/lru_policy.hpp:18-25 | moves a tracked key to the front, list and index staying in step |
| `Policies.LruPolicy.OnInsert` | src/include/policy/lru_policy.hpp:27-35 | puts the key in front, once |
| `Policies.LruPolicy.OnErase` | src/include/policy/lru_policy.hpp:37-44 | removes exactly that key |
| `Policies.LruPolicy.PopVictim` | src/include/policy/lru_policy.hpp:46-54 | takes the back, and fails only when empty |
| `Policies.FifoPolicy.OnInsert` | src/include/policy/fifo_policy.hpp:23-29 | puts a new key in front and leaves a known one where it is |
| `Policies.FifoPolicy.OnErase` | src/include/policy/fifo_policy.hpp:31-38 | removes exactly that key |
| `Policies.FifoPolicy.PopVictim` | src/include/policy/fifo_policy.hpp:40-48 | takes the oldest insertion |
| `Policies.MruPolicy.OnHit` | src/include/policy/mru_policy.hpp:27-33 | moves a tracked key to the front |
| `Policies.MruPolicy.PopVictim` | src/include/policy/mru_policy.hpp:55-63 | takes the front |
| `Policies.HitKeepsKeys` | src/include/policy/lru_policy.hpp:18-25 | whatever the policy, a hit keeps its key set |
| `Policies.InsertAddsKey` | src/include/policy/lru_policy.hpp:27-35 | whatever the policy, an insertion adds exactly that key |
| `Policies.EraseRemovesKey` | src/include/policy/lru_policy.hpp:37-44 | whatever the policy, an erasure removes exactly that key |
| `Policies.PopRemovesVictim` | src/include/policy/lru_policy.hpp:46-54 | whatever the policy, a non-empty one yields a tracked victim and forgets only it |
| `PolicyGroups.PageRoundUp` | src/utils/page_aligned_data_chunk.cpp:34-40 | the least multiple of the page size that holds the length |
| `PolicyGroups.EvictInv` | src/policy_data_cache_storage.cpp:165-186 | eviction ends with room for the entry, removes entries only, and meets neither the empty policy nor a victim without entry |
| `PolicyGroups.EvictsNoMoreThanNeeded` | src/policy_data_cache_storage.cpp:170-185 | before each victim the entry did not fit, and after the last it does |
| `PolicyGroups.PutCountsAllocation` | src/policy_data_cache_storage.cpp:189-202 | a chunk with an allocation is stored exactly when the allocation fits the group, and the allocation is what it adds to the bytes in use |
| `PolicyGroups.PutInv` | src/policy_data_cache_storage.cpp:188-226 | a Put keeps policy keys equal to entry keys, the byte count exact and the budget; other survivors are unchanged, and the payload is stored unless it exceeds the group |
| `PolicyGroups.GetInv` | src/policy_data_cache_storage.cpp:228-251 | a Get keeps the same; it hits exactly when the key is held, the tag acceptable and the entry younger than the timeout, and then returns the stored entry; a miss drops at most that key |
| `PolicyGroups.DropAllInv` | src/policy_data_cache_storage.cpp:275-292 | erasing any list of keys keeps the same and removes exactly those keys |
| `PolicyGroups.PutLeavesStaleIff` | src/policy_data_cache_storage.cpp:198-202 | an older payload survives a Put exactly when the chunk exceeds the group and the key holds something else |
| `PolicyGroups.OversizedPutLeavesStale` | src/policy_data_cache_storage.cpp:198-202 | a one-byte group that keeps its old byte when offered two for the same key |
| `PolicyStorage.BudgetIsSplit` | src/policy_data_cache_storage.cpp:101-137 | group capacities never add up to more than the budget |
| `PolicyStorage.BudgetIsUsed` | src/policy_data_cache_storage.cpp:101-137 | less of the budget stays unassigned than there are groups sharing it; explicit sizes are honoured and all other groups get equal shares |
| `PolicyStorage.ContainsIff` | src/policy_data_cache_storage.cpp:146 | a path matches a pattern exactly when the pattern occurs somewhere inside it |
| `PolicyStorage.ScanIsFirstMatch` | src/policy_data_cache_storage.cpp:144-150 | the chosen group is the first whose pattern occurs in the path, or the catch-all when none does |
| `PolicyStorage.StepInv` | src/policy_data_cache_storage.cpp:188-317 | every call keeps every group's invariant, the memo equal to the scan, and each key in its file's group only |
| `PolicyStorage.EveryRunKeepsBudgets` | src/policy_data_cache_storage.cpp:91-317 | over every configuration and run all of that holds and total used bytes stay within the budget |
| `PolicyStorage.OtherGroupsUntouched` | src/policy_data_cache_storage.cpp:188-264 | Put, Get and Delete leave every other group's entries, order and usage unchanged |
| `PolicyStorage.ClearFileDropsThatFile` | src/policy_data_cache_storage.cpp:275-292 | clearing a file removes its blocks and no others, in any listing order |
| `PolicyHistory.HitIsLastPut` | src/policy_data_cache_storage.cpp:188-251 | after any run of reader-made calls a hit is the most recent payload put under that key |
| `PolicyHistory.LookupHitsIff` | src/policy_data_cache_storage.cpp:155-163 | after any such run a lookup hits exactly when the key is held, the tag of its last Put is acceptable, and that Put is younger than the timeout |
| `PolicyHistory.MemoryStaysWithinBudget` | src/policy_data_cache_storage.cpp:188-226 | after any such run the page-rounded buffers of all cached blocks together fit the budget |
| `PolicyHistory.EveryEntryWasPut` | src/policy_data_cache_storage.cpp:188-226 | after any run at all, each entry has the payload, time and allocation of some Put of its key |
| `PolicyStorageImpl.Group.EvictToFit` | src/policy_data_cache_storage.cpp:165-186 | the loop over the policy object and the entry map computes the specified eviction and terminates |
| `PolicyStorageImpl.Group.Put` | src/policy_data_cache_storage.cpp:195-226 | the object's new state is the specified one |
| `PolicyStorageImpl.Group.Get` | src/policy_data_cache_storage.cpp:232-250 | the object's new state and the answer are the specified ones |
| `PolicyStorageImpl.PolicyDataCacheStorage.Create` | src/policy_data_cache_storage.cpp:91-137 | fails exactly on over-committed explicit budgets, else builds the specified groups, no object shared |
| `PolicyStorageImpl.PolicyDataCacheStorage.GroupFor` | src/policy_data_cache_storage.cpp:139-153 | returns and memoises the scan's answer and changes no group |
| `PolicyStorageImpl.PolicyDataCacheStorage.Put` | src/policy_data_cache_storage.cpp:188-226 | the whole storage takes the specified step |
| `PolicyStorageImpl.PolicyDataCacheStorage.Get` | src/policy_data_cache_storage.cpp:228-251 | the whole storage takes the specified step with the specified answer |
| `PolicyStorageImpl.PolicyDataCacheStorage.Delete` | src/policy_data_cache_storage.cpp:253-264 | likewise, reporting whether the key was there |
| `PolicyStorageImpl.PolicyDataCacheStorage.Clear` | src/policy_data_cache_storage.cpp:266-273 | empties every group and policy |
| `PolicyStorageImpl.PolicyDataCacheStorage.ClearFile` | src/policy_data_cache_storage.cpp:275-292 | each group loses exactly its blocks of the file, by erasures in some order; from a state of a run this is the specified step |
| `PolicyStorageImpl.PolicyDataCacheStorage.Take` | src/policy_data_cache_storage.cpp:305-317 | hands over every entry of every group exactly once and leaves all groups empty |
| `StockLru.PutInv` | src/utils/include/shared_value_lru_cache.hpp:50-74 | list and map keep the same keys, the limit holds, and the new key survives its own overflow |
| `StockLru.GetInv` | src/extension_bounded_data_cache_storage.cpp:18-32 | a hit is the stored entry with an acceptable tag; a miss, timeout or tag mismatch drops only that key |
| `StockLru.LeastKey` | src/include/in_mem_cache_block.hpp:22-26 | the first key in the ordered map's order |
| `StockLru.SharedValueLruCache.Put` | src/utils/include/shared_value_lru_cache.hpp:50-74 | the object's new state is the specified one |
| `StockLru.SharedValueLruCache.Delete` | src/utils/include/shared_value_lru_cache.hpp:78-85 | the object's new state is the specified one |
| `StockLru.SharedValueLruCache.Get` | src/utils/include/shared_value_lru_cache.hpp:89-106 | the object's new state and answer are the specified ones, timeout included |
| `StockLru.SharedValueLruCache.ClearFile` | src/utils/include/shared_value_lru_cache.hpp:117-129 | the ordered scan that stops at the first other file removes exactly the file's blocks and keeps the order of the rest |
| `StockLru.SharedValueLruCache.CollectFileKeys` | src/utils/include/shared_value_lru_cache.hpp:118-126 | starting at (file, 0, 0), the scan collects all of the file's keys and no others |
| `StockLru.SharedValueLruCache.Take` | src/utils/include/shared_value_lru_cache.hpp:149-171 | empties the cache in key order, reading the clock once per entry, and hands over exactly the entries that are fresh at their turn |
| `StockLru.FreshWasCached` | src/utils/include/shared_value_lru_cache.hpp:149-171 | what is handed over was cached under its key, no key twice |
| `StockLru.HandedOverIff` | src/utils/include/shared_value_lru_cache.hpp:154-160 | an entry is handed over exactly when it is not older than the timeout at its own clock reading |
| `StockLru.NoTimeoutTakesAll` | src/utils/include/shared_value_lru_cache.hpp:154-160 | without a timeout every entry is handed over |
| `StockLru.ExtensionBoundedStorage.Get` | src/extension_bounded_data_cache_storage.cpp:18-32 | the lookup with tag validation takes the specified step |
| `StockHistory.StockLookupHitsIff` | src/utils/include/shared_value_lru_cache.hpp:89-106 | after any run a lookup hits exactly when the key is held, the tag of its last Put is acceptable and that Put is not older than the timeout; the hit is that payload |
| `StockHistory.StockEvictsLeastRecent` | src/utils/include/shared_value_lru_cache.hpp:50-74 | after any run a new key in a full cache drops exactly the key whose last Put or hit is the earliest; any other Put drops nothing |
| `LruEquivalence.FitsIffBelowLimit` | src/policy_data_cache_storage.cpp:170 | one more equal charge fits the bytes exactly when the count is below budget / charge |
| `LruEquivalence.StepSame` | src/policy_data_cache_storage.cpp:165-292 | one call keeps both storages in the same keys, order and payloads and answers the same |
| `LruEquivalence.SwitchingStorageKeepsReplacement` | src/cache_filesystem_config.cpp:56-58 | so does every run: the "lru" policy storage is indistinguishable from the stock storage |
| `LruEquivalence.TooSmallBudgetDiffers` | src/cache_filesystem_config.cpp:56-58 | a budget below one charge answers differently for every key and payload |
| `SingleFlight.StepInv` | src/utils/include/shared_value_lru_cache.hpp:288-356 | every critical section of every thread keeps the token, count and registration invariant |
| `SingleFlightTheorems.Safety` | src/utils/include/shared_value_lru_cache.hpp:288-356 | in every reachable state at most one factory per key runs, a token's count is its participants, and a registered token has one |
| `SingleFlightTheorems.EraseRemovesOwnToken` | src/utils/include/shared_value_lru_cache.hpp:310-314 | a token is unregistered only by its own last participant, never another thread's token |
| `SingleFlightTheorems.EveryoneGetsTheCreatorsResult` | src/utils/include/shared_value_lru_cache.hpp:305-355 | every thread that finishes through a token reports what its creator's factory produced, value or exception |
| `SingleFlightTheorems.HitReportsCachedValue` | src/utils/include/shared_value_lru_cache.hpp:293-296 | over every run, a thread that finishes without a token reports the non-null value cached under its key when it left idle |
| `SingleFlightTheorems.CachedValueIsFound` | src/utils/include/shared_value_lru_cache.hpp:293-296 | a cached non-null value is always found: the call can neither wait nor create |
| `SingleFlightTheorems.FinishedCanCallAgain` | src/utils/include/shared_value_lru_cache.hpp:351-356 | a finished call returns, leaving its thread free and every other where it was |
| `SingleFlightTheorems.NullOnlyFromOwnFactory` | src/utils/include/shared_value_lru_cache.hpp:301-355 | over every run, whoever reports null ran the factory itself and it returned null |
| `SingleFlightTheorems.PublishedValueIsCached` | src/utils/include/shared_value_lru_cache.hpp:337-339 | a published value is in the cache afterwards, and of the other keys only evicted ones change |
| `SingleFlightTheorems.PublicationWakesEveryone` | src/utils/include/shared_value_lru_cache.hpp:335-342 | publication releases every sleeper on the token |
| `SingleFlightTheorems.PublishedWaiterCanReturn` | src/utils/include/shared_value_lru_cache.hpp:305-320 | a waiter of a published token is awake and its next step returns the outcome |
| `SingleFlightTheorems.WakeStaysEnabled` | src/utils/include/shared_value_lru_cache.hpp:305-320 | no other action disables that step |
| `SingleFlightTheorems.ThrowLeavesNoTrace` | src/utils/include/shared_value_lru_cache.hpp:335-349 | a throwing factory inserts nothing, and its token goes at once exactly when nobody waits |
| `SingleFlightTheorems.DrainedMissRunsFreshFactory` | src/utils/include/shared_value_lru_cache.hpp:293-325 | with nobody in flight on a key, a miss can only start a fresh factory |
| `SingleFlightTheorems.StrandedIffNull` | src/utils/include/shared_value_lru_cache.hpp:305-307 | a publication strands its waiters exactly when the factory returned null |
| `SingleFlightTheorems.NullStrandsWaiters` | src/utils/include/shared_value_lru_cache.hpp:305-307 | and then they never return, in any continuation |
| `SingleFlightTheorems.NullFactoryStrands` | src/utils/include/shared_value_lru_cache.hpp:326-349 | from every initial state, any two threads and any missing key have a run that strands the second |
| `SingleFlightTheorems.LatecomersAreStranded` | src/utils/include/shared_value_lru_cache.hpp:301-307 | a thread that joins such a token later is stranded too |
| `ThreadPool.EveryJobAccountedFor` | src/utils/thread_pool.cpp:13-41 | in every reachable state the idle count is exact, jobs start in push order, and each job is queued, running or finished exactly once |
| `ThreadPool.WaitMeansFinished` | src/utils/thread_pool.cpp:43-54 | when Wait lets a caller through on a running pool, every pushed job has finished and no worker runs |
| `ThreadPool.PassedCanWaitAgain` | src/utils/thread_pool.cpp:43-54 | a caller that was let through can leave and wait again |
| `ThreadPool.QueuedJobHasAwakeWorker` | src/utils/include/thread_pool.hpp:46-59 | a queued job is never left to sleeping workers |
| `ThreadPool.NoSleeperAfterStop` | src/utils/thread_pool.cpp:56-61 | in every reachable state of a stopped pool no worker sleeps |
| `ThreadPool.StoppedWorkerExits` | src/utils/thread_pool.cpp:21-25 | so each worker between jobs can take its next step, which is to exit, whatever is queued |
| `ThreadPool.NoJobStartsAfterStop` | src/utils/thread_pool.cpp:21-25 | no job starts after a shutdown |
| `ThreadPool.MissesIff` | src/utils/thread_pool.cpp:33-61 | a step leaves a caller asleep that may go exactly when it is the last completion with another caller blocked, or a shutdown with one blocked |
| `ThreadPool.WaitIsExactIff` | src/utils/include/thread_pool.hpp:31 | with careful shutdowns, Wait releases its callers on every history of a new pool if and only if at most one thread calls it or there is no worker |
| `ThreadPool.OneCallerMissesIffShutdown` | src/utils/thread_pool.cpp:56-61 | a history with one caller keeps the promise if and only if it never shuts down over a blocked caller |
| `ThreadPool.OneCallerNeverMisses` | src/utils/thread_pool.cpp:33-37 | the positive half, state by state |
| `ThreadPool.TwoCallersCanMiss` | src/utils/thread_pool.cpp:33-37 | from every new pool with a worker, any two callers have a history that leaves one blocked on an idle, living pool |
| `ThreadPool.ShutdownCanMiss` | src/utils/thread_pool.cpp:56-61 | from every new pool, any one caller can be left blocked by a shutdown |
| `ThreadPool.LeftBehindStaysBlocked` | src/utils/thread_pool.cpp:43-54 | a caller left behind stays blocked under every action but its own spurious wake-up and, while the pool lives, a push |
| `MultiLru.BackIsOldest` | src/utils/include/exclusive_multi_lru_cache.hpp:212-225 | the list's back is the oldest entry of its key, so removing that key's oldest entry pops the back |
| `MultiLruOrder.OverflowGivesUpOldest` | src/utils/include/exclusive_multi_lru_cache.hpp:70-88 | after every run under a monotone clock an inserted item is cached; exactly a full cache gives a handle back, that of the entry put by the earliest call, older than none, and all else stays in place |
| `MultiLru.EveryRunIsChronological` | src/utils/include/exclusive_multi_lru_cache.hpp:70-169 | every run whose clock readings never decrease keeps the list in the order of insertion times |
| `MultiLru.PopExpiredExactly` | src/utils/include/exclusive_multi_lru_cache.hpp:100-113 | after every such run a sweep removes exactly the key's expired entries, oldest first |
| `MultiLru.GetAndPopReturnsOldestFresh` | src/utils/include/exclusive_multi_lru_cache.hpp:92-126 | after every such run a pop evicts exactly those (none without a timeout) and returns the key's oldest fresh entry |
| `MultiLru.StepConserves` | src/utils/include/exclusive_multi_lru_cache.hpp:70-169 | one call neither loses nor duplicates a handle |
| `MultiLru.HandlesAreConserved` | src/utils/include/exclusive_multi_lru_cache.hpp:70-193 | over every run, the handles put in are exactly those cached plus those handed back |
| `MultiLruImpl.AgreeAfterRemoval` | src/utils/include/exclusive_multi_lru_cache.hpp:212-225 | removing a key's oldest entry keeps deques, list and count in agreement |
| `MultiLruImpl.PrependAgrees` | src/utils/include/exclusive_multi_lru_cache.hpp:70-88 | so does an insertion |
| `MultiLruImpl.ExclusiveMultiLruCache.DeleteFirstEntry` | src/utils/include/exclusive_multi_lru_cache.hpp:212-225 | removes and returns the key's oldest entry |
| `MultiLruImpl.ExclusiveMultiLruCache.Put` | src/utils/include/exclusive_multi_lru_cache.hpp:70-88 | inserts in front and hands back the globally oldest on overflow; the limit holds |
| `MultiLruImpl.ExclusiveMultiLruCache.GetAndPop` | src/utils/include/exclusive_multi_lru_cache.hpp:92-126 | the object's new state, evictions and target are the specified ones |
| `MultiLruImpl.ExclusiveMultiLruCache.ClearAndGetValues` | src/utils/include/exclusive_multi_lru_cache.hpp:129-141 | hands back every handle exactly once and empties all three structures |
| `MultiLruImpl.WalkKeys` | src/utils/include/exclusive_multi_lru_cache.hpp:149-156 | the ordered walk from a start key finds, in order, exactly the keys it reaches before the first that does not match |
| `MultiLruImpl.ExclusiveMultiLruCache.ClearFrom` | src/utils/include/exclusive_multi_lru_cache.hpp:147-169 | hands back the handles of exactly the walked keys, key by key and oldest first, and leaves the rest in place; each is present when its turn comes |
| `MultiLruImpl.RemoveKeysConserves` | src/utils/include/exclusive_multi_lru_cache.hpp:157-168 | that clearing neither loses nor duplicates a handle |
| `MultiLruImpl.ExclusiveMultiLruCache.ClearKey` | src/utils/include/exclusive_multi_lru_cache.hpp:158-166 | its part for one present key |
| `MultiLruImpl.ExclusiveMultiLruCache.Verify` | src/utils/include/exclusive_multi_lru_cache.hpp:177-193 | the recount always agrees |
| `DiskLru.AccessTimes.Remove` | src/disk_cache_reader.cpp:35-43 | removes the path from both maps; the erased count is one |
| `DiskLru.AccessTimes.Load` | src/disk_cache_reader.cpp:45-58 | takes over a listing with distinct paths, no insertion failing; it is a reload step of the run |
| `DiskLru.AccessTimes.Upsert` | src/disk_cache_reader.cpp:60-75 | gives the path the first free timestamp from the clock on; the maps stay inverse and the bump loop ends |
| `DiskLru.AccessTimes.FreeTime` | src/disk_cache_reader.cpp:67-69 | terminates at the first timestamp not in use |
| `DiskLru.AccessTimes.Evict` | src/disk_cache_reader.cpp:77-90 | removes and returns the path with the least timestamp in both maps; an eviction step of the run, after a reload step when the maps were empty |
| `DiskLru.AccessTimes.Clear` | src/disk_cache_reader.cpp:356-360 | empties both maps, a clear step of the run |
| `DiskLru.InverseSameSize` | src/disk_cache_reader.cpp:73-74 | inverse maps have equal sizes, so the size assertions hold |
| `DiskLru.NewestIffGapFree` | src/disk_cache_reader.cpp:60-75 | a new stamp is the latest exactly when no free value lies between the clock and a recorded stamp |
| `DiskLru.LateClockIsGapFree` | src/disk_cache_reader.cpp:60-75 | a clock later than every recorded stamp satisfies that |
| `DiskLru.EvictsLeastRecent` | src/disk_cache_reader.cpp:77-90 | over every such run of accesses, evictions, removals, reloads and clears, each eviction takes the least recently accessed path |
| `DiskLru.StandingClockEvictsMostRecent` | src/disk_cache_reader.cpp:60-75 | a standing clock makes the path accessed last the next victim |

## Left out

- `ObjectCacheStorage`: its agreement with its metadata map rests on DuckDB's ObjectCache and on destructor timing.
- Disk file I/O, temporary files, renames, extended attributes, disk-space checks, hashing and cache file naming: operating-system and library behaviour. The directory listing and the clock readings are inputs of the `DiskLru` methods.
- The disk reader's own block loop: it is the same four-case grid as the in-memory reader's and would only repeat `FixedGridChunks`.
- SQL functions, settings, table-function emitters, logging, extension loading, profile collectors and the remote delay simulation.
- The per-group statistics counters of the policy storage (hits, misses, evictions, admitted bytes, entry size range).
- Parsing the policy spec string and its percentages: the list of (pattern, policy, bytes) is an input. `Admit` accepts everything in every policy and is not modelled.
- `CopiableValueLruCache` and `ExclusiveLruCache`: smaller relatives of the two LRU caches modelled here.
- Clearing a block storage by an arbitrary predicate: only the one the repository uses, the blocks of one file, is modelled.
- The key comparison of the multi-value LRU is a parameter of the source; the model's keys are strings in their usual order.
- Timeouts in the LRU equivalence: the two backends compare with `>` and `>=`, so it is stated with the timeout off.
- 64-bit wrap-around: offsets and sizes are unbounded naturals, as for files and offsets whose sums stay below 2^64.
- Hash indexes of the policies are key sets, list iterators are positions, and hash-map iteration is an arbitrary order; the group memo holds the group's index instead of its address.
- `LayoutRegistry.Sort`: an insertion sort stands in for the library sort; nothing depends on the order of equal offsets.
- The layout registry does not change while one plan is made: concurrent registration between two lookups of one plan is not modelled.
- `ChunkedRead.FixedGridChunks`: the write address and the count of bytes already read move together and are one counter.
- `SingleFlight`: the cache inside `GetOrCreate` is a map that any other call may change arbitrarily between critical sections; its own order and limit are the subject of `StockLru`.
- `CacheSystem`: the storages are represented by what `StorageContract` proves of them; a lookup, insertion, clear or drain is one atomic step, as under the storages' locks. A stock lookup that meets a wrong tag takes its lock twice (`src/extension_bounded_data_cache_storage.cpp:20-25`): the lookup is the miss, and the deletion, whatever it then finds under the key, is a later `Forget`.
- `CacheSystem`: an open handle is assumed to read one version of its file for its whole life; a file that changes under an open handle is not modelled.
- Handle closing, destructor callbacks and shared-pointer lifetimes.
