# Burst compression pipeline: a verified model

The library drives hardware (de)compressors through burst interfaces. This project models that
pipeline in Dafny and proves what it guarantees: the memory of one queue pair (an operation array
whose front half stages operations and whose rest receives dequeued ones, a deque of outstanding
operations, an mbuf pool and an operation pool), the memory of one device (a stack of free memzones
and the set of zones on loan), the two drivers `Compress` and `Decompress` with their enqueue and
dequeue bursts, and around them the memzone allocator, the sizing arithmetic, the balanced splits and
the demo's synchronous and asynchronous evaluations.

The device behind a queue pair is a first-in first-out queue of at most 512 operations. How much it
accepts or returns, whether it counts errors and which operations it fails are its own, arbitrary
choice; only the number of times it makes no progress although it could is bounded, by a budget of any
size. The codec is any pair of tables, one of which undoes the other: every operation is one complete
stream, because every operation is flushed as final (section 3.2.3 of RFC 1951).

Files, from the bottom up:

- `Sequences`, `HostMemory`: lists and arithmetic by counting; memory as regions of bytes, slices,
  scattering and gathering.
- `MemoryPool`, `ZoneStack`, `DeviceMemory`, `SharedZones`, `Teardown`: the allocator with its tracker,
  the zones of a device, their sharing by many users, and destruction.
- `CallHistories`: what a call contributes to that sharing.
- `Operations`, `Accelerator`: operations, mbufs, the codec and the device queue.
- `PoolSizing`, `Config`, `Driver`: sizes and splits.
- `Ledger`, `Assembly`, `QueuePairMemory`: the accounts of a queue pair and the code that keeps them.
- `Pipeline`, `Plans`, `Reclaim`, `Results`, `Unpacking`, `RoundTrip`: what a run of jobs is, what a
  compression and a decompression set out to do, what becomes of zones, and what the results mean.
- `CompressDevice`, `SyncDemo`, `AsyncDemo`: the drivers and the demo.

Two conventions. Loops of the drivers are split into several methods, one per loop and one per loop
body, whose contracts are what their callers use; the contracts of the operations a user sees are those
of `CompressBuffer`, `DecompressBuffers`, `Recycle` and `Initialize`. And products and remainders that appear in specifications
are written by counting (`Product`, `Multiple`, `CeilDiv`, `Quot`); the lemmas of `Sequences` named
`CountingIs...` and `CeilDivIsDivision` give the usual operators, which the code uses.

## Model

| member | source | states |
|---|---|---|
| `CompressDevice.CompressDevice.CompressOn` | src/device.cc:156-238 | for every input, burst size, segment limit and device schedule Compress ends; on success the buffers are the deflated pieces of the input in order, each at the base of a zone of its own that was free or lies in new memory, and the queue pair is as it was; success or failure, no memory that existed before has changed but free zones of the device; it runs out of pool objects only if the pools cannot serve the configuration; every operation of the plan is executed exactly once; the host refuses it a zone at most once, and then the call ends with an I/O error, a lost mbuf and too few zones free at its start; any other I/O error leaves the pools full and has device trouble or a stream that does not fit as its cause; ten bursts in a row that move nothing while the device shows errors end the call with an I/O error; after any failure nothing is outstanding and every zone taken, no more than the input has segments, is given back as `GaveBack` describes |
| `CompressDevice.CompressDevice.DecompressOn` | src/device.cc:240-318 | for every schedule Decompress ends; on success every group of buffers has been inflated once, in order, to the front of its strides, the size reported is the sum and never exceeds the capacity, every operation has been executed exactly once, all pool objects and references are back; ten idle bursts in a row on a device with errors end it with an I/O error; it fails only for device trouble, undecodable buffers or pools that cannot serve; in every case only the output changes, no zone does, and what is still outstanding is known to the pool, as destruction requires |
| `CompressDevice.CompressDevice.CompressBuffer` | src/device.cc:156-165 | the entry checks in their order (empty input succeeds in any state; otherwise Invalid exactly if the device is not started or the queue pair unknown, Cancelled exactly if it runs and the pair has operations outstanding; a refused or empty request changes nothing), then all that `CompressOn` promises; with at most eight segments an operation it never runs out of pool objects; with one segment an operation a failure has put every zone taken back on the stack exactly once (`AllPutBack`) |
| `CompressDevice.CompressDevice.DecompressBuffers` | src/device.cc:240-256 | the entry checks in their order (capacity is refused before the state is looked at, and exactly when the output is absent or smaller than one segment a buffer; then Invalid and Cancelled exactly as for Compress; a refused request changes nothing), then all that `DecompressOn` promises; with at most eight segments it never runs out of pool objects |
| `CompressDevice.CompressDevice.EntryGuard` | src/device.cc:443-462 | Invalid exactly for a device that is not started or an unknown queue pair, Cancelled exactly for a known one of a started device that has operations outstanding, OK otherwise |
| `CompressDevice.Initialize` | src/device.cc:114-154 | validates, preallocates, sets up every queue pair and starts; it succeeds exactly when the configuration is acceptable, at least twenty zones are to be had and nothing else is refused, runs out of memory exactly below twenty zones, and preallocates fewer than configured only if the host refused one; success leaves every queue pair idle, of the computed sizes and apart from the others; on failure every request is answered Invalid |
| `CompressDevice.CompressDevice.BringUp` | src/device.cc:121-153 | configures, sets up every queue pair and starts: it succeeds exactly when nothing of that is refused; the device is Started then, Undefined if configuring was refused and Configured otherwise |
| `CompressDevice.ValidateConfiguration` | src/device.cc:353-415 | accepts exactly the configurations within all limits, given in numbers, a segment limit of zero becoming one; whatever passes has every size the pipeline relies on; a device without DEFLATE is NotImplemented, anything else Invalid |
| `CompressDevice.SetUpQueuePairs` | src/device.cc:429-441 | one queue pair memory and one device queue per queue pair, all separate, exactly unless the pools of one of them are refused |
| `CompressDevice.CompressDevice.GetErrorCount` | src/device.cc:84-110 | errors are looked at only on every tenth burst in a row that moved nothing, enqueue errors first; the counter's new value; it keeps up with the idle bursts in a row on a device with errors |
| `CompressDevice.CompressDevice.EnqueueBurst` | src/device.cc:464-488 | it fails exactly when the device accepted nothing, this was another tenth idle burst and the device shows errors; otherwise what the device did not accept moves to the front and driver and device stay in step; if nothing moved although there was room the device used up a stall |
| `CompressDevice.CompressDevice.DequeueBurst` | src/device.cc:490-535 | completes what came back, in order, up to the first failed operation, keeping the invariant of the run; it fails exactly when nothing came back on another tenth idle burst of a device with errors, or when not all that came back had succeeded, for which device trouble or an unfit stream is the cause |
| `CompressDevice.CompressDevice.CompleteAll` | src/device.cc:508-532 | operations dequeued are the oldest outstanding ones, so the front check never fires; exactly those before the first failure are reported and recycled |
| `CompressDevice.CompressDevice.ExchangeBurst` | src/device.cc:204-220 | one turn of a main loop: fewer staged operations, or as many and fewer in flight, or a stall used up |
| `CompressDevice.CompressDevice.StepCompression` | src/device.cc:204-226 | one round of Compress's main loop keeps the compression's invariant and gets nearer to the end; or it fails with everything taken still accounted for |
| `CompressDevice.CompressDevice.RepeatCompression` | src/device.cc:204-226 | the main loop ends, and on success only with all input assembled and nothing left to send |
| `CompressDevice.CompressDevice.FinishCompression` | src/device.cc:228-235 | the draining loop ends with nothing outstanding, in the device or in the driver |
| `CompressDevice.CompressDevice.StepDecompression` | src/device.cc:282-302 | the same for one round of Decompress's main loop |
| `CompressDevice.CompressDevice.StartDecompression` | src/device.cc:275-302 | Decompress's main loop ends with every buffer assembled |
| `CompressDevice.CompressDevice.Recycle` | src/device.cc:320-327 | puts the buffers' addresses back from the last to the first and counts how many were on loan |
| `CompressDevice.CompressDevice.ReleaseAll` | src/device.cc:537-542 | recycles the results and then releases the outstanding operations; the pools are full again but for lost objects |
| `CompressDevice.OutstandingIsInflightThenStaged` | src/memory.cc:351-544 | the outstanding operations are those inside the device followed by the staged ones, in order |
| `CompressDevice.Collector.OnDequeue` | src/device.cc:183-195 | the callbacks: one result buffer per destination segment that received data, or the bytes produced added up |
| `QueuePairMemory.QueuePairMemory.constructor` | src/memory.cc:237-324 | both pools and both arrays get the computed sizes, the mbuf pool each mbuf once; nothing is outstanding |
| `QueuePairMemory.QueuePairMemory.AppendData` | src/memory.cc:78-104 | chains the mbuf at the end and takes one reference, or changes nothing if the chain is at its limit |
| `QueuePairMemory.QueuePairMemory.UpdateOperation` | src/memory.cc:106-116 | the operation covers its whole source chain |
| `QueuePairMemory.QueuePairMemory.AssembleFromInput` | src/memory.cc:350-430 | the new operations, staged behind the others and outstanding, carry exactly the next segments of the input and as many zones, grouped by the segment limit, all that are left or as many as fill the burst; accounts balance; the dequeue region is untouched; without memory nothing is outstanding; without zones, that is after exactly one refused reservation, what was attached can be found and exactly the destination mbufs not yet chained are lost |
| `QueuePairMemory.QueuePairMemory.AssembleFromBuffers` | src/memory.cc:432-505 | the new operations carry exactly the next compressed buffers and the next strides of the output, grouped by count, all that are left or as many as fill the burst; accounts balance; the dequeue region is untouched |
| `QueuePairMemory.QueuePairMemory.AttachSegments` | src/memory.cc:374-399 | first loop of compress-side assembly: builds exactly the planned source chains, takes one reference a segment, and leaves all new operations outstanding in order |
| `QueuePairMemory.QueuePairMemory.AttachZones` | src/memory.cc:401-425 | second loop: one zone per source segment, operations completed in order; it fails exactly when the host refuses a zone, with an empty stack |
| `QueuePairMemory.QueuePairMemory.BulkAllocate` | src/memory.cc:608-625 | all or nothing for operations, then for mbufs, the oldest of the pool; handles are written only behind the staged ones; it succeeds whenever the pools serve the configuration and no more than a device queue and a burst are wanted; when the mbufs run short the operations just allocated are all that is lost |
| `QueuePairMemory.QueuePairMemory.AccumulateUnused` | src/memory.cc:507-526 | the rejected suffix becomes the front of the array, in order, and the dequeue region is untouched; more than was staged is refused |
| `QueuePairMemory.QueuePairMemory.RecycleResources` | src/memory.cc:528-544 | refuses anything but the oldest outstanding operation; otherwise returns it, each of its mbufs and its references, and accounts stay balanced |
| `QueuePairMemory.QueuePairMemory.Release` | src/memory.cc:546-575 | every outstanding operation, each of its mbufs and its references go back, exactly those, so that the pools are full but for what was lost before; exactly the destination buffers that are device memory are put, in order |
| `QueuePairMemory.IdleIsFull` | src/device.cc:204-237 | with nothing outstanding every operation and mbuf is back and both reference counts are zero |
| `Assembly.BalancedBuilt` | src/memory.cc:371-427 | after a round of assembly what left the pools is exactly what the new operations hold |
| `Assembly.BalancedPop` | src/memory.cc:529-544 | recycling the oldest operation keeps every pool object in exactly one place |
| `Assembly.RoundBroken` | src/memory.cc:404-410 | a round broken off for want of a zone loses exactly the destination mbufs it had allocated and not yet chained |
| `Assembly.RefusalLosesMbuf` | src/memory.cc:404-410 | one segment whose zone is refused: after the release one of its two mbufs is missing from the pool |
| `Assembly.BalancedForgets` | src/memory.cc:618-622 | operations allocated before the mbufs run short are lost, and nothing else |
| `Assembly.NeverShort` | src/memory.cc:609-625 | with pools that serve the configuration an allocation for a burst never fails |
| `Assembly.NextCut` | src/memory.cc:353-371 | the byte, segment and operation counts of a round: unless the input ends whole segments and whole operations that fill the burst |
| `Assembly.NextTake` | src/memory.cc:436-450 | the same for compressed buffers |
| `Assembly.CutsIntoSegments` | src/memory.cc:380-392 | cutting min(segment, rest) each time yields the segments of the burst's bytes |
| `PoolSizing.DequeueRegionHoldsBurst` | src/memory.cc:268-285 | the array has room for a full burst behind its first half |
| `PoolSizing.PoolByLoad` | src/memory.cc:244-270 | the pool sizes in numbers, by the segments of a burst: 1030 mbufs each up to 8, then 8192 and 6 each up to 128, then 8704 and 2 each |
| `PoolSizing.SufficientIffShortChains` | src/memory.cc:244-270 | pools of the computed sizes serve a device that holds everything back exactly when chains have at most eight segments, whatever the burst size |
| `Pipeline.RunExtends` | src/device.cc:221-226 | assembling more keeps the run's invariant: jobs delivered, in flight and staged partition the plan |
| `Pipeline.RunExecutes` | src/device.cc:490-497 | a batch of the device settles its operations and disturbs no other job's source or result |
| `Pipeline.RunCompletesAll` | src/device.cc:508-532 | recycling the completed operations moves exactly their jobs to the delivered ones |
| `Pipeline.ReportsAll` | src/device.cc:183-195 | what the callbacks record for a batch is what the batch's jobs yield |
| `Pipeline.HarvestReads` | src/device.cc:183-195 | the reported buffers, read in order, are the streams of the delivered jobs |
| `Pipeline.TidyExecutes` | src/device.cc:490-497 | the device writes nowhere but into destinations of its jobs |
| `Operations.ExecuteAllDelivers` | src/device.cc:490-497 | every operation of a batch ends with its stream at the front of its destination or with an error status |
| `Operations.ExecuteAllFrame` | src/device.cc:490-497 | slices apart from a batch's destinations keep their bytes |
| `Accelerator.HardwareQueue.EnqueueBurst` | src/device.cc:466-470 | the device accepts a prefix that fits its queue |
| `Accelerator.HardwareQueue.DequeueBurst` | src/device.cc:494-497 | the device finishes a prefix of its queue, in order, and hands the handles back at the place given |
| `HostMemory.GatherScattered` | src/device.cc:183-195 | what was scattered over a chain of disjoint slices is gathered back |
| `Plans.NextCompressJobs` | src/memory.cc:353-430 | one round continues the plan of cutting the input, without gap or overlap |
| `Plans.CompressSeparate` | src/memory.cc:404-425 | the plan never writes to a place twice nor to the input |
| `Plans.LoanUsable` | src/memory.cc:160-189 | zones on loan are distinct addressable memory, none of them the input |
| `Plans.CompressRound` | src/device.cc:221-226 | one successful round keeps the invariant of a compression |
| `Plans.StillWanted` | src/memory.cc:405-410 | when a zone is refused the call still needs more than it has |
| `Plans.PlanConfined` | src/memory.cc:404-425 | at any point a compression has changed, of the memory that was there, only free zones of the device |
| `Reclaim.UsedWithinPassed` | src/device.cc:183-195 | result buffers start at distinct zones among those of the completed operations |
| `Reclaim.AllUsedIff` | src/device.cc:183-195 | no zone of a completed operation is passed over if and only if every stream reaches its operation's last zone |
| `Reclaim.ReachesLast` | src/device.cc:186-194 | a stream reaches the last segment exactly when it does not fit the ones before |
| `Reclaim.ReleasedAll` | src/device.cc:537-542 | recycling and releasing after a failure puts back every zone of the call except those passed over |
| `Reclaim.NoneLost` | src/device.cc:197-235 | with one segment an operation every zone a failed call took is back on the stack exactly once, reported ones last to first and then the others |
| `Reclaim.PutBackHolds` | src/device.cc:197-235 | the stack then holds, as a multiset, what it held before the call and the zones the call obtained |
| `Reclaim.LeftOnLoan` | src/device.cc:537-542 | with more segments exactly the zones passed over stay on loan |
| `Results.CompressionDone` | src/device.cc:168-238 | concatenated result buffers are the concatenated streams of the input's pieces in order, one buffer a zone |
| `Results.SingleBuffers` | src/device.cc:168-171 | with one segment an operation there is exactly one buffer per segment, in the zones' order |
| `Results.AlwaysFit` | src/include/config.h:41-48 | zones of the compressed segment size hold every stream of a codec that keeps to that size |
| `Results.CompactIffRoom` | src/config.cc:59-73 | the derived size has room for every codec that at worst stores, if and only if no power of two up to 32768 lies in the four sizes above the segment size |
| `Results.ResultElsewhere` | src/device.cc:183-195 | result buffers lie in no region the host already had outside the free zones, such as an output allocated beforehand |
| `Results.ResultPuts` | src/device.cc:320-327 | recycling a result puts the zones it occupies, last to first, all of them on loan |
| `Unpacking.NextDecompressJobs` | src/memory.cc:432-505 | one round continues the plan: every buffer once, in order, strides without gaps |
| `Unpacking.StripShape` | src/memory.cc:478-500 | strides are pairwise disjoint and inside the capacity demanded on entry |
| `Unpacking.DecompressUsable` | src/device.cc:248-255 | destinations of all operations are apart from each other and from every source |
| `Unpacking.DecompressRound` | src/device.cc:296-302 | one successful round keeps the invariant of a decompression |
| `Unpacking.OnlyOutputChanges` | src/device.cc:261-263 | at any point only the output has changed |
| `RoundTrip.DecompressionDone` | src/device.cc:304-317 | a finished decompression has inflated every group to its place and counted the sum |
| `RoundTrip.OriginalBytes` | src/device.cc:157-318 | with one segment an operation a successful Decompress of a successful Compress leaves exactly the original bytes, contiguous, and reports exactly their number |
| `RoundTrip.ResultDecodes` | src/device.cc:157-318 | such a result can always be decompressed |
| `DeviceMemory.DeviceMemory.Preallocate` | src/memory.cc:120-158 | preallocates up to the bound and stops short of it only when the host refuses a zone; running out below twenty zones is an error, above it is not |
| `DeviceMemory.DeviceMemory.Take` | src/memory.cc:160-189 | top of the stack, or a zone obtained anew when it is empty; nothing only when the host refused it, which the host's count of refusals shows; the unsigned subtraction never underflows and zones stay accounted for |
| `DeviceMemory.DeviceMemory.Put` | src/memory.cc:191-209 | pushes exactly the zone that starts at the address if it is on loan; foreign and repeated addresses change nothing |
| `DeviceMemory.DeviceMemory.Destroy` | src/memory.cc:211-228 | every zone, free or on loan, is freed exactly once: its region is no longer the host's, the tracker forgets its address, the bytes allocated fall by its size, and no other region changes |
| `ZoneStack.TakeAllShape` | src/memory.cc:160-189 | a run of takes hands out distinct zones, the stack's from the top and then new ones |
| `ZoneStack.PutReversedRestores` | src/device.cc:320-327 | taking and putting back in reverse restores the stack in its old order, zones newly obtained below it in reverse order |
| `ZoneStack.PutAllExact` | src/memory.cc:191-209 | putting back distinct zones on loan pushes each exactly once |
| `ZoneStack.PutSlicesIsPutAll` | src/memory.cc:191-209 | putting by the addresses zones start at puts those zones |
| `SharedZones.EveryHistoryIsOrderly` | src/memory.cc:160-209 | under any interleaving of takes and puts that is fair, free and lent zones stay apart, together they are the zones ever obtained, and no zone has two holders |
| `SharedZones.OrderlyIffFair` | src/memory.cc:191-209 | a history stays orderly throughout if and only if nobody returns a zone that somebody else relies on |
| `SharedZones.HonestIsFair` | src/memory.cc:160-209 | holders each of which returns only what it holds, which can be told from its own events, are fair to each other in any interleaving |
| `SharedZones.RoundSettles` | src/memory.cc:160-209 | when every such holder gives back all it takes, whatever the interleaving, nothing is on loan afterwards |
| `SharedZones.HeldUntilReturned` | src/memory.cc:160-209 | a zone relied on is handed to nobody until its holder returns it |
| `SharedZones.EnoughNeverHot` | src/memory.cc:168-177 | with as many zones obtained as are ever on loan at once no take obtains another |
| `SharedZones.RecyclingTwiceShares` | src/device.cc:320-327 | a result recycled twice can make two holders share a zone |
| `CallHistories.CompressThenRecycle` | src/device.cc:156-238 | the events of a successful Compress whose result is recycled: one take a segment, returns of its own zones only, leading to the states the call and Recycle leave; with one segment an operation everything is returned |
| `CallHistories.FailedCompress` | src/device.cc:197-235 | the same for a failed Compress, which returns its zones by itself |
| `CallHistories.SettlesHonest` | src/device.cc:320-327 | such events are honest, whatever others do, and end with nothing held |
| `Teardown.DestroyDevice` | src/include/device.h:184-188 | releasing the queue pairs, whatever a call has left outstanding, and then destroying device memory frees every zone obtained exactly once, and the memory of all of them |
| `Teardown.PutSlicesConserves` | src/memory.cc:593-596 | releasing neither loses nor duplicates a zone |
| `MemoryPool.RtememzoneMemoryPool.Allocate` | src/memory_pool.cc:199-222 | a fresh address with the bytes asked for, nothing else changed; it runs out of memory exactly when the host refuses or the size is beyond `size_t`; a failed call changes neither pointer nor pool; debug builds mark both ends; zero-size requests get the static address |
| `MemoryPool.RtememzoneMemoryPool.Reallocate` | src/memory_pool.cc:224-247 | keeps the first min(old, new) bytes at a fresh address and every other allocation as it was; it runs out of memory exactly when the host refuses or the size is beyond `size_t`; a failed call changes nothing |
| `MemoryPool.RtememzoneMemoryPool.Free` | src/memory_pool.cc:249-263 | removes exactly the allocation; allocated bytes stay the sum of live sizes |
| `MemoryPool.RtememzoneMemoryPool.ReallocateAligned` | src/memory_pool.cc:151-174 | moving an allocation, from and to the static address included |
| `MemoryPool.RtememzoneAllocatorTracker.Release` | src/memory_pool.cc:309-319 | frees the zone that starts at the address and forgets it, if there is one |
| `MemoryPool.ReallocTotal` | src/memory_pool.cc:232-234 | the running total follows the sum of live sizes |
| `Config.Configuration.UpdateCompressedSegSize` | src/config.cc:59-73 | the bit search ends; the least power of two above the segment size while that fits 15 bits, otherwise the size expanded by a tenth, within 16 bits |
| `Config.Configuration.SetDecompressedSegSize` | src/include/config.h:103-106 | keeps the derived size in step |
| `Config.CompressedSizeFitsMbuf` | src/include/config.h:41-48 | for every allowed segment size the derived size is unique, strictly larger and fits an mbuf |
| `Config.LargestSegment` | src/include/config.h:41-48 | the largest segment allowed, 59460, is one short of the largest whose derived size fits an mbuf |
| `Config.CompressedSizeMonotone` | src/config.cc:59-73 | a larger segment never gets a smaller compressed segment |
| `Config.IncompressibleFits` | src/config.cc:59-73 | a segment stored uncompressed (section 3.2.4 of RFC 1951) fits if and only if no power of two up to 32768 lies in the four sizes above it |
| `Config.IncompressibleOverflows` | src/config.cc:59-73 | 2047 bytes get 2048, too few for a stored block |
| `Driver.GetNextLcore` | src/util.cc:45-62 | the next eligible lcore, with and without wrapping |
| `Driver.WorkerLcores` | src/driver.cc:198-220 | the workers are exactly the enabled lcores but the main one, in order |
| `Driver.PartitionLcores` | src/driver.cc:100-158 | contiguous shares that use up all workers, sizes at least one and differing by at most one |
| `Driver.SharesSum` | src/driver.cc:103-156 | where each share starts |
| `Driver.SharesEven` | src/driver.cc:103-156 | shares differ by at most one, and none is empty when there is enough |
| `AsyncDemo.Advance` | apps/demo_app.cc:249-256 | next queue pair of the device, or first of the next device |
| `AsyncDemo.Walk` | apps/demo_app.cc:562-574 | the walk visits the first n queue pairs, each once, in order, and never leaves the device list |
| `AsyncDemo.PairsExact` | apps/demo_app.cc:562-574 | the enumeration lists every queue pair exactly once |
| `AsyncDemo.SplitInput` | apps/demo_app.cc:579-596 | one segment a worker, of the even shares' sizes, concatenating to the input |
| `AsyncDemo.CheckPieces` | apps/demo_app.cc:676-686 | the comparison accepts exactly when the pieces, put together, are the input |
| `AsyncDemo.EvenDevicesSuffice` | apps/app_common.cc:92-100 | when devices divide workers evenly the uncut bound covers every device's need for every input |
| `AsyncDemo.PreallocationSufficesIff` | apps/app_common.cc:92-100 | within 16 bits, bounds that validation accepts cover every input if and only if devices divide workers evenly |
| `AsyncDemo.UnevenDevicesFail` | apps/app_common.cc:92-100 | otherwise, for some input with an acceptable bound, what the first device preallocates is less than its asynchronous share needs (preallocation alone: the synchronous part may have made it obtain more before) |
| `AsyncDemo.StoredBoundSufficesIff` | apps/app_common.cc:99-100 | for evenly divided workers and an accepted bound, the zones suffice if and only if the bound was not cut by its 16-bit type |
| `AsyncDemo.PreallocationTruncated` | apps/app_common.cc:99-100 | 65635 segments on one worker preallocate 100 zones |
| `AsyncDemo.AsyncCompressionNeverHot` | apps/demo_app.cc:609-616 | a device preallocated up to its bound serves any number of rounds, each any interleaving of its workers' calls and recyclings, without obtaining another zone, and nothing is on loan afterwards |
| `AsyncDemo.WorkerSucceeds` | src/memory.cc:404-425 | what a worker's successful call and recycling contribute to a round: as many takes as it is counted with, all returned |
| `AsyncDemo.WorkerFails` | src/device.cc:197-235 | a worker's failed call contributes no more takes than that, all returned |
| `SyncDemo.EvaluateSync` | apps/demo_app.cc:487-546 | three compressions, all but the last recycled, three decompressions of the last and the comparison, for every segment limit: it succeeds exactly when all of them do and the bytes restored are those of the input at the start; a failed one's status is what is returned, Invalid means that the bytes differ, and an I/O error names its cause; with one segment an operation and a lawful codec the comparison never fails, nothing stays on loan whatever happens, and success leaves the stack as one compression and its recycling would, so the later ones obtain no zone; with a compact codec and enough free zones an I/O error means device trouble |
| `SyncDemo.CompressRepeatedly` | apps/demo_app.cc:493-512 | the compressions: the last result is of the unchanged input; only the first one obtains zones |
| `SyncDemo.DecompressRepeatedly` | apps/demo_app.cc:524-528 | the decompressions into one output each find their sources unchanged and leave the zones alone |
| `SyncDemo.ResultRecycles` | src/device.cc:320-327 | recycling a result returns exactly its number of buffers |

## Findings

Five properties one might expect are false of the code. Each has an input and an exact condition.

- Exclusive use of zones (`SharedZones.RecyclingTwiceShares`, `SharedZones.OrderlyIffFair`): `Put`
  accepts the address of any zone on loan, so recycling one result twice, with the zone lent out anew in
  between, frees a zone in use. Zones are never shared exactly when nobody returns a zone that
  somebody else relies on.
- Room for incompressible data (`Config.IncompressibleOverflows`, `Config.IncompressibleFits`,
  `Results.CompactIffRoom`): the compressed segment size leaves one byte for 2047 bytes of input, and a
  stored block needs five. It leaves enough, for every codec that at worst stores, exactly when no power
  of two up to 32768 lies in the four sizes above the segment size.
- Preallocation with uneven devices (`AsyncDemo.UnevenDevicesFail`,
  `AsyncDemo.PreallocationSufficesIff`): the bound is the same for all devices, although some have a
  queue pair more. It covers all inputs exactly when the devices divide the workers evenly. This is about
  preallocation alone: before its asynchronous part the demo has compressed the whole input on the first
  device, which by then has obtained a zone for every segment of it.
- Preallocation of large inputs (`AsyncDemo.PreallocationTruncated`, `AsyncDemo.StoredBoundSufficesIff`):
  the bound is cut to 16 bits. It is sufficient exactly when it fits.
- Pools after a failed compression (`Assembly.RefusalLosesMbuf`, `Assembly.RoundBroken`,
  `CompressDevice.CompressDevice.CompressOn`): when a zone is refused, the destination mbufs already
  allocated and not yet chained never return to their pool, for releasing only finds what is chained.
  An I/O error leaves the pools full if the device or a stream is to blame, and never when a zone was refused.

Two smaller ones are exact conditions inside other results: pools suffice exactly for at most eight
segments an operation (`PoolSizing.SufficientIffShortChains`), and a multi-segment operation strands zones
exactly when its stream does not reach its last segment (`Reclaim.AllUsedIff`).

## Left out

- The DEFLATE format, checksums and transform structures: the codec is a pair of tables.
- `CompressDevice.Initialize`: socket ids, queue pair to lcore logging and the transform objects; what the
  environment refuses to queue pairs and device is a parameter. Whether window size and Huffman coding
  suit the device is one flag.
- Physical addresses and IOVA: memory is regions with offsets, and a zone is a region of its own, of
  exactly the size asked for.
- DPDK's per-lcore mempool caches: pools are counted, and an allocation fails only for want of objects.
- `QueuePairMemory.QueuePairMemory.FreeChain`: mbufs are counted and identified by handle, their 16-bit
  external-buffer reference count is an unbounded integer, and the headers beyond data, length and kind
  are not modelled.
- 32-bit overflow of burst size times segment limit times segment size, for configurations far beyond
  what the pools can hold.
- `CompressDevice.CompressDevice.GetErrorCount`: the stall counter is one static 32-bit variable shared by
  all devices; here it is unbounded and each device has its own. Contracts hold for every value of it.
- When the device works: operations are executed at the moment they are dequeued. A source that
  changes while an operation is inside the device is not covered.
- `CompressDevice.CompressDevice.CompressOn`: a queue pair that has seen an error is not promised to be
  usable; as in the code, staged operations are not reset and the device is not drained, so the
  precondition of the next call is that of an idle pair.
- `CompressDevice.CompressDevice.DecompressOn`: after an error operations stay outstanding, as in the code,
  which releases nothing; how many there are is not stated, only that no pool object is lost (when the
  pools run short, at most the operations just allocated).
- `CompressDevice.CompressDevice.DecompressBuffers`: the output must be a region of its own, as an Arrow
  buffer is; overlapping source and output are not covered.
- `CompressDevice.CompressDevice.CompressBuffer`: the input must not lie in a free zone of the device.
- `QueuePairMemory.QueuePairMemory.RecycleResources`: the front check of debug builds is always made; a
  release build would continue, but `CompleteAll` shows the check never fires.
- `Driver.GetNextLcore`: with wrapping, an eligible lcore must exist; without one the search never ends.
- `Config.Configuration.SetDecompressedSegSize`: a size of zero, for which the bit search never ends, and
  sizes beyond the expansion limit, for which the result would not fit its type, are excluded.
- `Driver.PartitionLcores`: an empty device list (a division by zero) is excluded, as are more devices
  than workers, which the driver refuses beforehand.
- `CallHistories.CompressThenRecycle`: the contract of a call is about a device nobody else uses during it;
  what it contributes to an interleaving are its own takes and returns.
- `SharedZones.EveryHistoryIsOrderly`: steps are atomic, as the mutex makes them; the tracker's own map is
  not locked by the code and its operations are taken as atomic too.
- `MemoryPool.RtememzoneMemoryPool.Allocate`: alignment, and statistics other than the bytes allocated.
- The demo's callbacks, the map of results keyed by device, timing and printing; reading Arrow and Parquet
  files; signal handling; command lines.
- The allocator based on `rte_malloc` and the choice of a memory pool.
