# FLASH checkpoint verification

FLASH checkpoints and restores the GPU memory of a running inference server. An agent and
the application share a *gate* file; the agent takes a baseline image while the application
runs, stops it at a kernel boundary, and adds a delta of the memory that changed. Two
emulators of other systems (GCR and PhOS) copy through a two-slot pipeline into an image.
This project models that code in Dafny and proves, for every input and every schedule, that
what is restored is what was there. `dafny verify dfyconfig.toml` checks all of it.

How the parts hang together:

- **Pre-copy.** `Gate` is the handshake of agents, processes and threads; `GateTable` the
  allocation table they share; `DirtyBlocks` the agent's dirty list; `Precopy` puts them in
  one step system with application writes and byte-wise concurrent copies, and
  `PrecopyImages` runs the pipelines of both images inside it.
- **Images.** `ImageFormat` (sequential writers), `StreamQueue`, `StreamPipeline`,
  `StreamImage` (streamed baseline), `Partition`, `ParallelDelta` (parallel delta),
  `DenseBaseline` and `SparseDelta` (one capture of a span, sliced), `BaselineV4` (layout,
  dispatch and reader of 2 MB chunks sealed in the application), `V4Pipeline` (its launcher,
  slots, landing copies and workers), `PageMap` and `Bytes` beneath them.
- **Restore.** `RestoreRead`, `RestoreGroups`, `RestoreFull`, `RestoreRoundTrip`,
  `RestoreSelective`; `RestoreJobs`, `RestoreRing` and `RestoreV3` for the decryption ring
  against the serial path.
- **Encryption.** `PageCrypto` (threads over pages), `CaptureCrypto` (batches and their
  inverse), `IvLedger` (counter reservations of all pipelines of a process). The cipher is
  a per-key pair of functions of which only `unseal` after `seal` is known.
- **Emulators.** `DirtySet`, `DirtyTemplates`, `GcrTable`, `GcrPacking`, `GcrCapacity`,
  `GcrRound`, `GcrImage` for GCR, `PhosRecopy` for PhOS, `PingPong` and `Chunking` for both;
  `Arith` holds facts of division.

Threads take sequentially consistent steps, one shared access or one byte of a copy at a
time. A step system is a pair of a guard and an effect; its runs are sequences of states or
of steps, and claims about runs rest on an inductive invariant. Objects the source updates
in place are classes, its loops are methods with invariants, and each such method is tied to
a function that the lemmas are about.

Where comments and code of the repository disagree the code is followed:

- the delta header is 40 bytes and a delta block descriptor 64, although their comments say
  32 and 56;
- the template's test for a negative slot is on an unsigned value and never holds;
- the streaming writers' shared error flag is read at the join and never set;
- in the fused delta the check at the start of a run that the metadata is in step can never
  fire; only the check at its end can (`SparseDelta.SliceRegions`).

Findings that have their own lemmas, each with a concrete run or input:

- the pre-copy path writes RESUME before it clears `ckpt_req` and can leave the application
  parked for good (`Gate.ResumeFirstStrands`, exactly when in `Gate.LateClearIff`);
- marks on two neighbouring allocations merge so that only the first is captured
  (`GcrImage.AdjacentMarksLost`), and a mark between taking and clearing the dirty set is
  lost (`GcrImage.MarkBetweenLost`);
- a failed device copy of GCR is only counted, and stale staging bytes are sealed in its
  place (`GcrRound.FailedCopySealed`);
- an allocation of more than 4096 crypto pages makes PhOS use one IV in two phases
  (`PhosRecopy.HugeAllocReusesIv`, exactly when in `PhosRecopy.PhaseIvsApart`).

## Model

| member | source | states |
|---|---|---|
| `Precopy.PrecopyConsistent` | benchmarks/flash/ckpt_core.c:3116-3274 | for every interleaving of application writes, concurrent baseline copies, gate steps of any threads and agents, and delta copies: once the delta is served, delta where a listed range covers the address and base elsewhere is the memory at AT_BOUNDARY, for every byte whose 2 MB block was recorded before the round and which the baseline found allocated, provided the listed runs fitted the table |
| `Precopy.PrecopyRestores` | benchmarks/flash/libckpt_vllm.c:1346-1456 | end to end: from sealed images of those copies, restoring any chunk-aligned window inside a recorded allocation that the baseline holds whole succeeds, and every chunk of it is the memory at AT_BOUNDARY, provided the listed runs fitted the table |
| `PrecopyImages.StepKeepsInv` | benchmarks/flash/libckpt_vllm.c:1809-1911 | every step of the round and of the launchers, devices and workers behind its two images: what has landed of a chunk is what was copied of it, a request is answered well only with its image made, and the delta made is over the ranges listed |
| `PrecopyImages.RoundRestores` | benchmarks/flash/libckpt_vllm.c:1346-1456 | device to device, over every interleaving of application, agents, serving threads and the launchers, devices and workers of both images: once the delta is served with all runs listed, both files have been made, and their bytes restore every chunk-aligned recorded window that the baseline holds whole to the memory at AT_BOUNDARY |
| `Precopy.StepKeepsInv` | benchmarks/flash/ckpt_core.c:3116-3274 | each byte copied so far is unchanged since or its 64 KB page is marked; memory stands still while the application is parked; the listed ranges and the copies stay what the round needs: kept by every step |
| `Precopy.RunKeepsInv` | benchmarks/flash/ckpt_core.c:3116-3274 | that invariant holds in every reachable state |
| `Precopy.NothingWrittenMeanwhile` | benchmarks/flash/libckpt_vllm.c:1936-1943 | from the dirty listing until the agent writes RESUME the memory is the memory to be reproduced and no write is possible |
| `Precopy.DirtyIsListed` | benchmarks/flash/ckpt_core.c:3194-3248 | a dirty page in a recorded allocation always ends up inside a merged run, whatever list the driver reports; DirtyBlocks.CappedExact says which runs the table drops |
| `DirtyBlocks.CoalesceDirty` | benchmarks/flash/ckpt_core.c:3194-3248 | in place on the address buffer: the listed ranges are whole 2 MB blocks in order with a gap between any two, contain only blocks with a dirty page inside a recorded allocation, and contain all of them if and only if there are at most 8187 runs |
| `DirtyBlocks.RunsExact` | benchmarks/flash/ckpt_core.c:3219-3237 | the merged runs are separate and cover exactly the given blocks |
| `DirtyBlocks.Dedup` | benchmarks/flash/ckpt_core.c:3199-3203 | in-place removal of neighbouring duplicates leaves exactly the distinct blocks of the sorted list |
| `DirtyBlocks.MergeBlocks` | benchmarks/flash/ckpt_core.c:3210-3244 | the merging loop with its pending run and table limit emits the first 8187 maximal runs of the kept blocks |
| `DirtyBlocks.CappedExact` | benchmarks/flash/ckpt_core.c:3229-3239 | dropping runs past the table size loses a wanted address exactly when there are more runs than entries |
| `Gate.ParksOncePerRequest` | benchmarks/flash/libckpt_vllm.c:1914-1950 | over every run of any threads and agents that clear ckpt_req before RESUME: never more arrivals than stop requests, never more than one request unmet, and exactly one arrival per request outside the wait for AT_BOUNDARY |
| `Gate.ReleasedAfterRound` | benchmarks/flash/ckpt_core.c:4238-4242 | once a round has completed, every thread still in the wait loop is leaving it: no request is open that it could be held for |
| `Gate.LeavesInTwo` | benchmarks/flash/libckpt_vllm.c:1940-1946 | a thread that is leaving can always take its next step, is out after that step or the one after its lost swap, and nothing other threads or agents do, new requests included, lengthens its way or stops it |
| `Gate.NoStopWithoutRequest` | benchmarks/flash/libckpt_vllm.c:1914-1921 | with no agent attached nobody can start for, or go on to, the boundary |
| `Gate.StrandedIffAborted` | benchmarks/flash/ckpt_core.c:3183-3189 | with ckpt_req cleared first, an idle agent leaves a thread stranded if and only if it gave up after the boundary |
| `Gate.StrandedForever` | benchmarks/flash/ckpt_core.c:2438-2450 | a thread parked with no agent attached stays parked in every continuation: no later agent gets past its wait for the gate |
| `Gate.ResumeFirstStrands` | benchmarks/flash/ckpt_core.c:3271-3274 | a concrete run of the order RESUME before clearing ckpt_req: no error, one request met twice, thread stranded |
| `Gate.LateClearIff` | benchmarks/flash/ckpt_core.c:3271-3274 | with that order, once the round is over, no new agent has attached and no thread is between its test and its arrival, some thread is stranded for good if and only if one tested ckpt_req under the mutex between the two writes |
| `Gate.DeltaServedWhileStopped` | benchmarks/flash/libckpt_vllm.c:1936-1943 | in either order: while any thread of any process serves a delta request, the application is parked and cannot be released |
| `Gate.TakenOnce` | benchmarks/flash/libckpt_vllm.c:1814-1815 | no baseline or delta request is claimed twice by any number of processes |
| `Gate.AnsweredIsTaken` | benchmarks/flash/libckpt_vllm.c:1882-1911 | an answered request has been claimed, is the last one issued, and nobody serves it any more |
| `Gate.StepKeepsInv` | benchmarks/flash/libckpt_vllm.c:1914-1950 | mutex, first-sync signal, boundary phase, request channels and the counts of requests and arrivals agree after every step |
| `Gate.StepKeepsClaims` | benchmarks/flash/libckpt_vllm.c:1809-1911 | every step of any thread or agent keeps both request channels in order |
| `GateTable.AllocTable.RecordAlloc` | benchmarks/flash/libckpt_vllm.c:1510-1542 | appends an entry while there is room, keeps the largest request in user_va and user_size |
| `GateTable.AllocTable.MarkFreed` | benchmarks/flash/libckpt_vllm.c:1555-1575 | the walk from the end flags exactly the most recent live entry at the address |
| `GateTable.FreedTakesLast` | benchmarks/flash/libckpt_vllm.c:1555-1575 | a free takes exactly the most recent live allocation at its address off the list the baseline copies |
| `GateTable.FreeUndoesRecord` | benchmarks/flash/libckpt_vllm.c:1510-1575 | allocating and freeing again leaves the live list as it was |
| `GateTable.PrefixStays` | benchmarks/flash/libckpt_vllm.c:1838-1846 | whatever happens later, an entry keeps its index, address and size, so a prefix read earlier stays valid |
| `GateTable.LiveStaysApart` | benchmarks/flash/libckpt_vllm.c:1510-1575 | when the allocator hands out unused memory, the live entries are always disjoint |
| `BaselineV4.LayOutBaseline` | benchmarks/flash/ckpt_baseline.c:439-491 | the baseline layout is refused exactly when nothing is live or a live size is not a 2 MB multiple; otherwise every descriptor's data offset and the file size are the sums of map, ciphertext and metadata of the ranges before |
| `BaselineV4.LayOutDelta` | benchmarks/flash/ckpt_baseline.c:865-889 | the delta layout is refused exactly when a block is misaligned or empty, with the same sums without maps |
| `BaselineV4.CellsApart` | benchmarks/flash/ckpt_baseline.c:1041-1050 | no two chunks' ciphertexts or metadata entries overlap in the file, nor a ciphertext and an entry |
| `BaselineV4.Dispatch` | benchmarks/flash/ckpt_baseline.c:664-721 | for any split size the work items cover every chunk exactly once, in order, each with the counter its place in the image demands |
| `BaselineV4.FindRange` | benchmarks/flash/libckpt_vllm.c:917-929 | the lookup returns the first range that holds the allocation whole, or none when there is none |
| `BaselineV4.RestoreAlloc` | benchmarks/flash/libckpt_vllm.c:1346-1456 | restore of an allocation: refused exactly when the window is not whole chunks or some base or overlapping delta chunk does not decrypt; otherwise each chunk is the last covering delta block's, else the base's |
| `BaselineV4.OverlayBlock` | benchmarks/flash/libckpt_vllm.c:1398-1437 | one delta block replaces exactly the staging chunks it overlaps, each by its own decrypted chunk |
| `BaselineV4.OverlayRoundTrip` | benchmarks/flash/libckpt_vllm.c:1346-1456 | one chunk, over two sealed images: where a disjoint delta block covers the address the reader's last writer opens to what the delta copied there, elsewhere the base cell opens to what the baseline copied |
| `BaselineV4.SealedOpens` | benchmarks/flash/libckpt_vllm.c:1346-1380 | images written by the workers always decrypt |
| `BaselineV4.AllocRoundTrip` | benchmarks/flash/libckpt_vllm.c:1346-1456 | whole allocation, over two sealed images and disjoint delta blocks: the lookup and restore of a window held whole in the baseline succeed, and each chunk is what the delta copied where a block covers it and what the baseline copied elsewhere |
| `V4Pipeline.StepConservesSlots` | benchmarks/flash/ckpt_baseline.c:120-330 | every step of launcher, device or worker, failures included, leaves each slot with as many owners as before among free stack, queue, launcher and workers, and the same number in circulation |
| `V4Pipeline.StepKeepsInv` | benchmarks/flash/ckpt_baseline.c:120-330 | no copy is launched into a slot whose data is still to be sealed, slots in flight hold exactly what has landed of their item, workers have sealed the chunks they counted, and finished items stay in the file: kept by every step |
| `V4Pipeline.DrainedIsSealed` | benchmarks/flash/ckpt_baseline.c:1023-1063 | for any number of workers and slots, any split, any order in which device copies land and any interleaving: once the queue is drained without failure the bytes of the file are those of the image of what landed, every chunk sealed exactly under the counter its place demands |
| `V4Pipeline.PipelinesRoundTrip` | benchmarks/flash/libckpt_vllm.c:1346-1456 | device to device: after any two such runs, a baseline and a delta under one key, the restore of a window held whole in the baseline succeeds and returns, chunk by chunk, what landed for the covering delta block, else for the baseline |
| `V4Pipeline.NeverStuck` | benchmarks/flash/ckpt_baseline.c:120-330 | with a worker, a slot and a queue no smaller than the pool no schedule deadlocks, whatever has failed: some step other than a failure is enabled until the queue is closed and all workers have left, so the join returns |
| `V4Pipeline.StepsShorten` | benchmarks/flash/ckpt_baseline.c:120-330 | every step, a failing one included, leaves one item fewer to launch or less to land, hand over, seal and release, so all runs end |
| `V4Pipeline.CountersOnce` | benchmarks/flash/ckpt_baseline.c:1041-1063 | in every state of a run, failures included, each counter an encryption was started with is one of those the run reserved, and none was used twice |
| `PageCrypto.BuildIvInjective` | benchmarks/flash/ckpt_crypto.c:52-57 | distinct counters below 2^64 give distinct IVs, as section 8.2.1 of NIST SP 800-38D asks of a deterministic construction |
| `PageCrypto.JoinedAllDone` | benchmarks/flash/ckpt_crypto.c:140-197 | for any thread count and schedule no page is worked on twice, and the joined call succeeds if and only if every page was done |
| `PageCrypto.CryptRoundTrip` | benchmarks/flash/ckpt_crypto.c:199-251 | decrypting what was encrypted gives the pages back for any two thread counts and schedules |
| `Partition.Split` | benchmarks/flash/ckpt_crypto.c:159-181 | the running offset gives each thread its half-open span of the partition |
| `Partition.SharesCover` | benchmarks/flash/ckpt_crypto.c:159-181 | the shares add up to all pages |
| `Partition.ShareOf` | benchmarks/flash/ckpt_crypto.c:159-181 | every page is in exactly one thread's span |
| `IvLedger.NoIvReused` | benchmarks/flash/ckpt_baseline.c:495-498 | over any history of interleaved baseline and delta runs of V4Pipeline in one process, with any workers and failures, no two chunk encryptions the workers start use the same IV under the process key while the counter stays below 2^64 (section 8 of NIST SP 800-38D) |
| `IvLedger.HistoryKeepsInv` | benchmarks/flash/ckpt_baseline.c:902-905 | in every reachable state the runs' reservations are disjoint and below the next free counter, and all a run has encrypted are chunks of its own items |
| `CaptureCrypto.EncryptCaptures` | benchmarks/flash/ckpt_core.c:2531-2633 | gather, one encryption, scatter: each capture holds its own bytes sealed under its own counters, split where they were split, with one entry per chunk |
| `CaptureCrypto.CombinedRoundTrip` | benchmarks/flash/librst_vllm.c:1164-1258 | version 2: decrypting a range's combined sections and splitting them again gives back what was captured |
| `CaptureCrypto.DecryptSection` | benchmarks/flash/librst_vllm.c:929-965 | entry by entry decryption, the last piece cut at the section's end, succeeds if and only if every entry that starts inside the section opens; bytes behind the last entry are dropped |
| `CaptureCrypto.SplitEntries` | benchmarks/flash/librst_vllm.c:1164-1258 | counts entries until their sizes reach the GPU bytes |
| `CaptureCrypto.SplitExact` | benchmarks/flash/librst_vllm.c:1164-1258 | when the GPU entries' sizes sum to gpu_bytes the reader's split finds the boundary the writer appended at if and only if the last GPU entry is not empty |
| `CaptureCrypto.EncryptCpuPages` | benchmarks/flash/ckpt_core.c:2641-2737 | the CPU sections are sealed, the first chunk of each under the counter that follows all chunks of the captures before it, and their entries appended behind the GPU entries; nothing else changes, and the next free counter is behind all of them |
| `CaptureCrypto.CpuCountersApart` | benchmarks/flash/ckpt_core.c:2641-2737 | the counters of different captures' CPU sections never meet |
| `CaptureCrypto.SplitRoundTrip` | benchmarks/flash/librst_vllm.c:929-965 | version 3: for a driver that inverts its own encryption the split sections restore to the captured plaintext |
| `ImageFormat.WriteBaseline` | benchmarks/flash/ckpt_core.c:2191-2264 | the writer's buffer begins with exactly the image: header, descriptors with running offsets, and each range's four sections |
| `ImageFormat.WriteDelta` | benchmarks/flash/ckpt_core.c:2329-2397 | the delta file is exactly the image with the delta header |
| `ImageFormat.FillDescs` | benchmarks/flash/ckpt_core.c:2041-2063 | the running offset of the descriptor loop gives every range its place in the image, and ends at the image's size |
| `ImageFormat.BodyInBodies` | benchmarks/flash/ckpt_core.c:2191-2264 | the sections of every range lie at its descriptor's offset |
| `ImageFormat.AssembleBodies` | benchmarks/flash/ckpt_core.c:1795-1844 | if every range's sections are in place the data part is that of the image |
| `StreamQueue.CapturePool.Acquire` | benchmarks/flash/ckpt_core.c:714-722 | takes the most recently freed slot off the stack |
| `StreamQueue.CapturePool.Release` | benchmarks/flash/ckpt_core.c:724-730 | puts a slot back on the stack |
| `StreamQueue.WorkQueue.Push` | benchmarks/flash/ckpt_core.c:1742-1753 | the circular buffer appends at the tail |
| `StreamQueue.WorkQueue.Pop` | benchmarks/flash/ckpt_core.c:1755-1770 | takes the oldest item, or nothing when closed and drained |
| `StreamPipeline.StepConservesSlots` | benchmarks/flash/ckpt_core.c:714-730 | free, queued, held and written slots together always number the pool, each slot exactly once |
| `StreamImage.StepKeepsInv` | benchmarks/flash/ckpt_core.c:1742-1844 | every step of the producer or any writer keeps slots, queue order, descriptors and written bytes in order |
| `StreamImage.NoTwoOwners` | benchmarks/flash/ckpt_core.c:1795-1844 | in every reachable state each pool slot is in exactly one place: free stack, queue, producer or one writer |
| `StreamImage.PushNeverBlocks` | benchmarks/flash/ckpt_core.c:2041-2077 | with a queue no smaller than the pool a push never waits while the producer holds a slot |
| `StreamImage.NeverStuck` | benchmarks/flash/ckpt_core.c:3759-3805 | with at least one writer and one slot no schedule deadlocks, failed or not: some step other than a failing capture is enabled until all have ended, a capture call that is out returning with any content there is room for |
| `StreamImage.StepsShorten` | benchmarks/flash/ckpt_core.c:3759-3805 | every step but a partial buffer write makes progress, so all runs end |
| `StreamImage.StreamedIsSequential` | benchmarks/flash/ckpt_core.c:2079-2124 | under every schedule in which no capture call failed, after the join every range was captured and the bytes up to cur_off are the image write_baseline builds from the same captures; the stale bytes behind stay |
| `ParallelDelta.ParallelIsSequential` | benchmarks/flash/ckpt_core.c:367-411 | for any number of threads and any interleaving of their bytes, the parallel delta file is the sequential one |
| `ParallelDelta.UnfinishedCanStep` | benchmarks/flash/ckpt_core.c:367-411 | no writer thread ever waits for another |
| `RestoreRead.ParseWritten` | benchmarks/flash/librst_vllm.c:196-239 | parsing a written image, with or without a stale tail, gives back the descriptors it was written with |
| `RestoreRead.ReadWritten` | benchmarks/flash/librst_vllm.c:142-160 | reading a range back gives the sections it was captured with |
| `Bytes.LeRoundTrip` | benchmarks/flash/librst_vllm.c:120-135 | a header field is read back as written when it fits its width |
| `RestoreGroups.GroupRanges` | benchmarks/flash/librst_vllm.c:241-289 | one pass over the sorted ranges; refused exactly above 64 groups |
| `RestoreGroups.GroupsApart` | benchmarks/flash/librst_vllm.c:241-289 | groups are in order and do not even touch |
| `RestoreGroups.GroupHolds` | benchmarks/flash/librst_vllm.c:241-289 | each range lies inside the group it was put in |
| `RestoreGroups.GroupsCover` | benchmarks/flash/librst_vllm.c:241-289 | the groups cover exactly the union of the ranges |
| `RestoreFull.AssembleData` | benchmarks/flash/librst_vllm.c:142-190 | one range laid into its buffer: refused exactly when a page or a section would be read or written out of bounds; otherwise every present page is brought in from its section and nothing else changes |
| `RestoreFull.RestoreFromFiles` | benchmarks/flash/librst_vllm.c:196-359 | the whole restore: succeeds if and only if the files parse and every range and block fits, and then every byte of every group buffer is the last covering delta block's, else the base range's, else zero |
| `RestoreRoundTrip.SortedOverlay` | benchmarks/flash/librst_vllm.c:278-328 | over disjoint base ranges the order in which they are laid does not matter |
| `RestoreRoundTrip.FullRoundTrip` | benchmarks/flash/librst_vllm.c:330-359 | write then restore, for disjoint base ranges in any order and delta blocks inside the groups: each page is the last delta page present there, else the base page, else zero |
| `RestoreSelective.RestoreSelected` | benchmarks/flash/librst_vllm.c:459-593 | for every list of requests, aligned or not: succeeds if and only if every overlapping range can be read, and returns each request's bytes |
| `RestoreSelective.AssembleSelective` | benchmarks/flash/librst_vllm.c:388-457 | one range cut to one request: only the overlapping parts of present pages are copied |
| `RestoreSelective.SelectiveIsSlice` | benchmarks/flash/librst_vllm.c:517-593 | when the full restore succeeds, descriptors' lengths match their page counts and the base ranges are disjoint, the selective restore succeeds too, and each requested byte is the one the full restore puts there |
| `RestoreSelective.ZeroOutsideGroups` | benchmarks/flash/librst_vllm.c:517-593 | the full restore has zero outside all groups |
| `RestoreSelective.SelectiveZero` | benchmarks/flash/librst_vllm.c:517-593 | so has, under the hypotheses of SelectiveIsSlice, each requested byte of the selective restore |
| `SparseDelta.RunsMaximal` | benchmarks/flash/ckpt_core.c:1263-1292 | the region walk's regions are in order, apart and maximal runs of present pages |
| `SparseDelta.CountRegions` | benchmarks/flash/ckpt_core.c:1263-1285 | the first pass counts exactly the runs and the present pages |
| `SparseDelta.SliceRegions` | benchmarks/flash/ckpt_core.c:1300-1365 | the second pass rejects exactly when some run does not end on a transfer boundary; otherwise each region is its run with its slices of the three buffers |
| `SparseDelta.NeverRejects` | benchmarks/flash/ckpt_core.c:1300-1365 | if no transfer crosses the end of a run and sizes sum to the GPU bytes the walk never rejects |
| `SparseDelta.SlicesTile` | benchmarks/flash/ckpt_core.c:1300-1365 | the regions' slices tile the CPU and GPU buffers and follow one another in the metadata; when sizes sum to the GPU bytes the last slice ends at the number of transfers if and only if no empty transfer stands behind it |
| `SparseDelta.RegionsOverlay` | benchmarks/flash/ckpt_core.c:1300-1365 | overlaying the regions one by one is overlaying the whole capture page by page |
| `SparseDelta.SparseRestores` | benchmarks/flash/librst_vllm.c:142-190 | write then restore: over any baseline it fits, restoring the written fused delta gives the span's byte on present pages and the base byte elsewhere; the files always parse and fit |
| `DenseBaseline.SliceAllocs` | benchmarks/flash/ckpt_core.c:1389-1494 | the one-walk slicing succeeds exactly when every allocation is GPU-resident with its metadata on transfer boundaries, and gives each allocation offset 4096 times the GPU pages before it and exactly its own entries |
| `DenseBaseline.AllocBytes` | benchmarks/flash/ckpt_core.c:1389-1494 | each page of an allocation's slice has the bytes the span has there, whatever foreign pages lie between |
| `DenseBaseline.CoalescedIsSequential` | benchmarks/flash/ckpt_core.c:1626-1647 | for any number of writer threads and interleavings the mapped file starts with the image write_baseline builds from the per-allocation slices |
| `RestoreJobs.PrecomputeJobs` | benchmarks/flash/libckpt_vllm.c:451-540 | the jobs of an allocation: refused exactly when its start is not a transfer boundary or the metadata runs out; otherwise they tile its ciphertext and metadata |
| `RestoreJobs.JobSize` | benchmarks/flash/libckpt_vllm.c:505-510 | a job overshoots its target by less than its last transfer |
| `RestoreJobs.JobsFitExactly` | benchmarks/flash/libckpt_vllm.c:505-510 | every job fits a ring buffer of one chunk if and only if some transfer ends at every whole number of chunks into the allocation and, when the last chunk is cut, one ends between the allocation's end and that chunk's |
| `RestoreJobs.JobCount` | benchmarks/flash/libckpt_vllm.c:451-540 | an allocation never has more jobs than chunks, the last one rounded up |
| `RestoreJobs.JobsEndAligned` | benchmarks/flash/libckpt_vllm.c:451-540 | when the allocation ends on a transfer boundary the jobs end with it |
| `RestoreJobs.DecSlice` | benchmarks/flash/libckpt_vllm.c:1280-1335 | decrypting a slice of transfers gives the plaintext of their bytes |
| `RestoreV3.SerialSlice` | benchmarks/flash/libckpt_vllm.c:1280-1335 | the serial path accepts exactly the allocations whose start and end are transfer boundaries |
| `RestoreV3.JobPlain` | benchmarks/flash/libckpt_vllm.c:542-589 | a job's decryption is its part of the range's plaintext |
| `RestoreV3.RunDelivers` | benchmarks/flash/libckpt_vllm.c:1187-1241 | in every run of the ring, once the consumer is past an allocation's jobs, what it copied is the allowed part of each job's decryption |
| `RestoreV3.RingEqualsSerial` | benchmarks/flash/libckpt_vllm.c:1187-1241 | whenever the serial path accepts an allocation, the ring leaves in it exactly the bytes the serial path copies |
| `RestoreRing.StepKeepsInv` | benchmarks/flash/libckpt_vllm.c:542-589 | every step of any worker or of the consumer: slot s serves only jobs congruent to s, in increasing order, and a ready slot holds its job's decryption |
| `RestoreRing.RingDelivers` | benchmarks/flash/libckpt_vllm.c:1196-1241 | in every reachable state the bytes copied out for job j are those of its decryption |
| `RestoreRing.ReadsUndisturbed` | benchmarks/flash/libckpt_vllm.c:1196-1241 | no worker writes the buffer the consumer is reading |
| `RestoreRing.Progress` | benchmarks/flash/libckpt_vllm.c:542-589 | with at least one worker and one slot no schedule deadlocks before every job is consumed |
| `RestoreRing.StepsShorten` | benchmarks/flash/libckpt_vllm.c:542-589 | every step but a partial buffer write lessens the remaining work |
| `DirtySet.InsertCorrect` | benchmarks/gcr_emul/dirty_templates.cpp:45-68 | one merging insertion keeps the set canonical and adds exactly the inserted bytes |
| `DirtySet.CanonicalUnique` | benchmarks/gcr_emul/dirty_templates.cpp:28-68 | a canonical set is determined by the bytes it covers |
| `DirtySet.OrderIndependent` | benchmarks/gcr_emul/dirty_templates.cpp:28-68 | two insertion sequences of the same bytes leave the same set |
| `DirtySet.DirtyAddresses.AddAndMerge` | benchmarks/gcr_emul/dirty_templates.cpp:45-68 | the loop over the ordered set erases what touches and inserts the merged range |
| `DirtySet.DirtyAddresses.Snapshot` | benchmarks/gcr_emul/dirty_templates.cpp:70-90 | copies the first ranges out with their byte total |
| `DirtyTemplates.ReshapeAndCacheFlash` | benchmarks/gcr_emul/dirty_templates_kernels.cpp:1-64 | shadow execution of a launch inserts what the source's loops insert, merged branch included |
| `DirtyTemplates.MergedBranchIsElementLoop` | benchmarks/gcr_emul/dirty_templates_kernels.cpp:40-60 | with the head stride equal to the head size, at least one element and no wrap-around, the merged branch leaves the set of the per-element loop |
| `DirtyTemplates.EmptyHeadsDiverge` | benchmarks/gcr_emul/dirty_templates_kernels.cpp:40-60 | for one slot the merged branch and the loop agree if and only if there is at least one element |
| `GcrTable.GcrAllocs.ReserveSlot` | benchmarks/gcr_emul/libgcr_intercept.cpp:354-373 | the bump pointer hands out the next image bytes or nothing |
| `GcrTable.GcrAllocs.RecordAlloc` | benchmarks/gcr_emul/libgcr_intercept.cpp:375-392 | a new row with its slot, bytes taken even when the table is full |
| `GcrTable.GcrAllocs.RetireAlloc` | benchmarks/gcr_emul/libgcr_intercept.cpp:394-413 | retires the row at once or after the round in flight |
| `GcrTable.GcrAllocs.SweepPendingDrops` | benchmarks/gcr_emul/libgcr_intercept.cpp:415-434 | retires exactly the rows marked during the round |
| `GcrTable.GcrAllocs.MarkRange` | benchmarks/gcr_emul/libgcr_intercept.cpp:469-500 | marks no further than the allocation holding the start, raw when none does |
| `GcrTable.RecordedKeepsSlots` | benchmarks/gcr_emul/libgcr_intercept.cpp:354-389 | image slots stay disjoint and below the bump pointer |
| `GcrTable.MarkedCovers` | benchmarks/gcr_emul/libgcr_intercept.cpp:469-500 | marking covers exactly the clipped bytes on top of what was covered |
| `GcrPacking.BuildChunks` | benchmarks/gcr_emul/libgcr_intercept.cpp:1138-1232 | clip, cut and pack: the chunk list is the clipped ranges cut at staging size, packed next-fit |
| `GcrPacking.CutAllCarries` | benchmarks/gcr_emul/libgcr_intercept.cpp:1169-1205 | the chunks carry exactly the clipped bytes to their image places |
| `GcrPacking.PackedDisjoint` | benchmarks/gcr_emul/libgcr_intercept.cpp:1205-1225 | chunks of one slot lie side by side in staging |
| `GcrPacking.NeighboursExceed` | benchmarks/gcr_emul/libgcr_intercept.cpp:1205-1225 | two consecutive slots together exceed staging |
| `GcrPacking.PackCountBound` | benchmarks/gcr_emul/libgcr_intercept.cpp:1205-1225 | at most 2 * total / staging + 1 slots |
| `GcrPacking.SlotCapacitySuffices` | benchmarks/gcr_emul/libgcr_intercept.cpp:1165-1165 | one slot per range plus one is enough when no dirty range exceeds staging |
| `GcrPacking.SlotCapacityByTotal` | benchmarks/gcr_emul/libgcr_intercept.cpp:1165-1165 | for ranges of any size the allowance of n + 1 slots holds when twice the clipped bytes fill at most n staging buffers |
| `GcrCapacity.CapacityIsTight` | benchmarks/gcr_emul/libgcr_intercept.cpp:1165-1165 | the bound is tight: for every even n a dirty set of n ranges is one step beyond it and needs n + 2 slots |
| `GcrPacking.SingleRangeCapacity` | benchmarks/gcr_emul/libgcr_intercept.cpp:1165-1165 | for one range the allowance of two slots holds if and only if it is at most twice the staging size |
| `PingPong.StepKeepsInv` | benchmarks/gcr_emul/libgcr_intercept.cpp:1271-1332 | every step of producer or consumer keeps the two slots in order |
| `PingPong.DrainsInOrder` | benchmarks/phos_emul/libphos_intercept.c:1053-1228 | under every schedule the consumer writes back exactly the jobs handed over, in order, each once |
| `PingPong.Progress` | benchmarks/phos_emul/libphos_intercept.c:1106-1228 | until the consumer has exited some step is enabled that leaves less to do |
| `PingPong.StepsShorten` | benchmarks/phos_emul/libphos_intercept.c:1053-1228 | every step of either thread but a partial copy leaves less to do, and never less than nothing, whichever step a schedule takes |
| `GcrRound.ScatterBack` | benchmarks/gcr_emul/libgcr_intercept.cpp:1271-1332 | the consumer's loop seals each page of a slot to its image place in the array and leaves the rest |
| `GcrRound.RoundDelivers` | benchmarks/gcr_emul/libgcr_intercept.cpp:1411-1470 | under every schedule and with any copies failing, a drained round puts at each carried image byte, and only there, a byte sealed under an IV of the round, and that is the device value wherever no chunk that was to bring it failed to copy |
| `GcrRound.RoundProgress` | benchmarks/gcr_emul/libgcr_intercept.cpp:1411-1470 | until the consumer exits some event other than a failing copy is enabled, from the packing's own guarantee that every slot fits staging: no schedule deadlocks |
| `GcrRound.EventsShorten` | benchmarks/gcr_emul/libgcr_intercept.cpp:1411-1470 | every event that a schedule can take, a failing copy included, leaves less work and never less than none |
| `GcrRound.RoundEnds` | benchmarks/gcr_emul/libgcr_intercept.cpp:1411-1470 | whatever the schedule, no run of a round has more events than one for each chunk, five for each slot and two |
| `GcrRound.FailedCopySealed` | benchmarks/gcr_emul/libgcr_intercept.cpp:1411-1440 | a concrete run: the one copy of a round fails, the round drains as if nothing had happened, and what the staging buffer held is sealed into the image |
| `GcrImage.CaptureExact` | benchmarks/gcr_emul/libgcr_intercept.cpp:1169-1205 | the place of a byte receives that byte only, and receives it exactly when a dirty range starting in its allocation covers it |
| `GcrImage.RunKeepsInv` | benchmarks/gcr_emul/libgcr_intercept.cpp:354-434 | over every run of allocations, frees, marks, writes and rounds the image slots of all recorded rows stay disjoint |
| `GcrImage.ImageHoldsLastCapture` | benchmarks/gcr_emul/libgcr_intercept.cpp:1667-1713 | over every run the place of each byte of each recorded allocation holds the value of the last round that captured it, something sealed when that copy failed, or what it held before any round captured it |
| `GcrImage.DirtyGetsCaptured` | benchmarks/gcr_emul/libgcr_intercept.cpp:1667-1713 | a byte ever marked while its allocation was live has been taken by a round, its copy failing or not, or is still waiting for the next one |
| `GcrImage.RoundConsistent` | benchmarks/gcr_emul/libgcr_intercept.cpp:1667-1713 | after every round each byte ever marked dirty in a live allocation, not marked again since the snapshot and whose last copy did not fail, sits at its slot offset with its current device value, for ranges that do not cross allocations and snapshots whose clearing drops exactly what was taken |
| `GcrImage.ClearKeepsTaken` | benchmarks/gcr_emul/libgcr_intercept.cpp:1487-1497 | taking the dirty ranges and clearing the set are two calls: after the second exactly the bytes the first took are still waiting for the round |
| `GcrImage.MarkBetweenLost` | benchmarks/gcr_emul/libgcr_intercept.cpp:1487-1497 | a concrete run: a mark another thread makes between the two calls is dropped without having been taken |
| `GcrImage.AdjacentMarksLost` | benchmarks/gcr_emul/libgcr_intercept.cpp:1190-1191 | a concrete input: marks on two neighbouring allocations merge and the second is not captured |
| `GcrImage.RoundIvsUnique` | benchmarks/gcr_emul/libgcr_intercept.cpp:1411-1462 | no two page encryptions of one round or of two share the twelve bytes of an IV, while rounds and the pages of each stay below 2^32 (section 8 of NIST SP 800-38D) |
| `PhosRecopy.AllocTable.RecordAlloc` | benchmarks/phos_emul/libphos_intercept.c:247-262 | a new dirty row with the next image bytes; the bytes are taken even when the table is full, and a row that does not fit the image goes without |
| `PhosRecopy.AllocTable.RetireAlloc` | benchmarks/phos_emul/libphos_intercept.c:264-272 | the first live row holding the address, if any, is no longer live |
| `PhosRecopy.AllocTable.MarkDirty` | benchmarks/phos_emul/libphos_intercept.c:274-284 | the first live row holding the address, if any, is marked |
| `PhosRecopy.AllocTable.SnapshotLiveAllocs` | benchmarks/phos_emul/libphos_intercept.c:931-950 | lists the live allocations and clears exactly their dirty flags |
| `PhosRecopy.AllocTable.BuildChunks` | benchmarks/phos_emul/libphos_intercept.c:971-1016 | counts, then fills, exactly the chunks of the selected entries |
| `PhosRecopy.JobsCarry` | benchmarks/phos_emul/libphos_intercept.c:971-1016 | the chunks carry exactly the bytes of the selected entries to their image places |
| `PhosRecopy.PhaseDelivers` | benchmarks/phos_emul/libphos_intercept.c:1289-1318 | over every interleaving of application operations with the pipeline the phase's image holds its initial memory for every allocation nobody touched |
| `PhosRecopy.RecopyConsistent` | benchmarks/phos_emul/libphos_intercept.c:1381-1433 | at the end of phase 4 each snapshotted live allocation with a slot equals memory: its delta slot if it was marked during phase 2, its base slot otherwise, over every interleaving of application operations and new allocations with both copies |
| `PhosRecopy.PhaseDrains` | benchmarks/phos_emul/libphos_intercept.c:1106-1228 | a drained phase has written back every chunk handed over |
| `PhosRecopy.PhaseProgress` | benchmarks/phos_emul/libphos_intercept.c:1106-1228 | until the consumer has exited one of the two copying threads can always go on without the application, a byte of a copy included, and what it does leaves less work; the producer stops early only after a failed copy |
| `PhosRecopy.EventsShorten` | benchmarks/phos_emul/libphos_intercept.c:1106-1228 | whatever the application does leaves the phase's work as it is, and every event of the copying threads leaves less |
| `PhosRecopy.CanDrain` | benchmarks/phos_emul/libphos_intercept.c:1106-1228 | from every reachable state in which no copy has failed the copying threads alone can run the phase to its end |
| `PhosRecopy.PhaseEnds` | benchmarks/phos_emul/libphos_intercept.c:1106-1228 | in no run, whatever the application does, do the copying threads take more steps than the bytes to copy plus five for each chunk and two |
| `PhosRecopy.PhaseIvsApart` | benchmarks/phos_emul/libphos_intercept.c:1381-1433 | Phase 2 counts IVs from 0 and Phase 4 from 4096 per snapshotted allocation: within a round no counter serves both if and only if Phase 2 encrypts no more pages than that or Phase 4 copies none |
| `PhosRecopy.HugeAllocReusesIv` | benchmarks/phos_emul/libphos_intercept.c:1381-1433 | a concrete input: one allocation of 4097 crypto pages written during Phase 2 has its counter 4096 used in both phases |

## Left out

- PingPong.Progress: progress of the pipeline's two threads only; PhOS's free hooks wait for a flag that a sync hook clears (benchmarks/phos_emul/libphos_intercept.c:499-506, 1528-1531), so liveness of a single application thread is not claimed.
- PhosRecopy.RecopyConsistent: assumes every write is marked by its operation and nothing is in flight at the snapshot; frees wait for the round (benchmarks/phos_emul/libphos_intercept.c:499-506). Image bytes stand for what is sealed; each round restarts its IV counter (benchmarks/phos_emul/libphos_intercept.c:1314), so nothing is claimed between rounds.
- Precopy.PrecopyConsistent: assumes the tracker reports every written page, one application thread that writes GPU memory, and images whose copies ended without error; a block only partly inside a recorded allocation is not listed by the agent and not claimed.
- Precopy.PrecopyRestores: a restore whose own device copies fail is not modelled; windows are chunk-aligned, as the allocator hands them out.
- Gate.LeavesInTwo: bounds the steps of the leaving thread; that the scheduler lets it take them is not modelled. An agent that fails after the boundary never writes RESUME, which Gate.StrandedIffAborted states.
- IvLedger.NoIvReused: one process with its key; ckpt_core.c restarts its counter per process while it may reuse the key file (benchmarks/flash/ckpt_core.c:2904, 2932-2940), for which no uniqueness holds.
- GcrPacking.SlotCapacityByTotal: sufficient for several ranges, since the slots next-fit takes depend on the order of the pieces; that the bytes alone allow no better is GcrCapacity.CapacityIsTight, and the exact condition for one range is GcrPacking.SingleRangeCapacity. The allowance of n + 1 is not a bound in general, so the model's slot list grows.
- GcrImage.RoundConsistent: for rounds whose clearing drops only what the snapshot took. A mark made between the two calls is lost (GcrImage.MarkBetweenLost), and so is what a set of more than one million ranges has behind the snapshot's table. A byte whose copy failed is not retried before it is marked again (GcrRound.FailedCopySealed).
- RestoreJobs.PrecomputeJobs: refuses what the walk refuses, and lets a job exceed a ring buffer as the walk does; when none does is RestoreJobs.JobsFitExactly. The ring's model copies whole jobs.
- RestoreFull.RestoreFromFiles: where the reader would read or write outside a buffer the model returns an error instead of going on; an inconsistent residency map is an error even for pages nobody asked for. The library sort is represented by some sorted arrangement.
- RestoreSelective.RestoreSelected: the same treatment of out-of-bounds accesses.
- V4Pipeline.DrainedIsSealed: after a failed launch, event or encryption nothing is claimed of the file; the source discards it. A copy that lands is whole chunks in order; the bytes a chunk lands with are whatever the device held.
- BaselineV4.RestoreAlloc: takes the file apart as BaselineV4.FileOf does, from its bytes and layout; parsing the header and the reader's own refusals of truncated files are not part of this model. Restored allocations are 2 MB aligned.
- CaptureCrypto.EncryptCaptures: section sizes are whole numbers of chunks, as the callers pass them; the driver's own transfer encryption is an abstract function with an inverse.
- StreamImage.StreamedIsSequential: a capture call is assumed to fit the worst-case mapping; thread-creation failures are not modelled.
- RestoreRing.Progress: pool shutdown and its stop flag are left out; a failing device job is not modelled.
- DirtyTemplates.MergedBranchIsElementLoop: the reshape_and_cache_flash templates only; addresses are unbounded elsewhere and wrap at the machine word here.
- Addresses and file offsets are unbounded naturals except in DirtyTemplates and in the width checks of header fields.
- Files, shared memory and mappings are byte sequences with a possible stale tail; opening, truncating and advising are left out.
- CUDA calls, driver ioctls, AES-GCM and key storage are abstract functions or parameters; the kernel module is not part of this model.
- Timing, metrics, CSV output, sanity poisoning and verbose printing have no semantics here.
- Kernel-argument scanning and kernel-name caches: tracking is assumed complete instead.
- The v2 static image, ckpt_restore_selective_encrypted, restore_agent.c, ckpt_agent.c, libbaseline_uvm.c, ckpt_prealloc.c, the engine-state script and the benchmarks: wrappers, measurements or paths without a round trip of their own.
