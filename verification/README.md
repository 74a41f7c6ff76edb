# A verified model of core Flight System pieces

The project models four parts of the cFE flight framework and proves what they are for.

* **The generic memory pool** of executive services. Pool memory is a sequence of bytes; every block is preceded
  by a descriptor of 24 bytes (64-bit layout, little endian). `PoolModel` states what each operation does to a
  pool record and to memory; `PoolRecord.GenPool` is the same as a class over an array of buckets and a byte
  store that copies descriptors in and out; `Heap` is the allocator the pool stands for (blocks in address order
  and one stack of free blocks per bucket), and `PoolRefinement` shows that the operations do to the bytes what
  the allocator does. On top of that come whole runs (`PoolRuns`), exact rules of single operations (`PoolRules`),
  what they answer over any bytes (`PoolAnswers`), and the rebuild of a lost record from memory alone
  (`PoolRebuild`). `Store` compares the two kinds of store and `PoolBackings` whole runs of a pool over either,
  `PoolStacks` is about the order in which blocks are issued again, `RebuildAnywhere` about a rebuild over memory
  that holds anything, and `CdsChain` treats the registration of blocks in the critical data store.
* **The test-ownership protocol** of the assert library: a transition system with one program counter per
  application, for any number of applications and any interleaving (`Ownership`, `OwnershipRules`,
  `OwnershipProgress`), and the names of its log file (`LogFile`); `OwnershipCalls` is about
  what an owner's own calls come to.
* **The generator of platform configuration** (`ConfigTool`), with a reader of what it prints (`ConfigReader`),
  order and distinctness of what it prints (`Numerals`, `ConfigRules`) and the agreement of its two modes.
* **Conversion of memory addresses** (`MemAddress`), and the **application and task tables** (`EsRecords`).

Where the code and what is written about it differ, the model follows the code:

* A request of size zero is granted (`modules/es/fsw/src/cfe_es_generic_pool.c:373-398`), but the block it yields
  can never be put back (`:471`); `PoolRules.PutAfterGet` gives the exact condition.
* A release looks only at the bytes before the offset, so user data that reads like a descriptor is accepted
  (`PoolRules.DataLikeDescriptor`); `PoolRules.PutKeepsBlocks` says exactly when a release is harmless.
* A rebuild runs on past the old tail if memory there looks like a block; `PoolRebuild.RebuildRecovers` and
  `PoolRuns.RunThenRebuild` give the exact condition. It fails after ordinary use: two requests, the record set up
  again over the same bytes, and one request (`PoolRules.RebuildMisled`, `PoolRules.RebuildMisledOnce`).
* The offset arithmetic of a carve can wrap around. `PoolRules.CarvesOutside` says exactly when a block is then
  handed out that does not fit, from the record alone (an instance is `PoolRules.OversizeBucketWraps`), and
  `PoolRules.ScanRoundEnds` when a round of the rebuild puts the tail elsewhere. The scan may then never end:
  `PoolRules.OversizeScanForever` is such a pool after one request, and `PoolRules.OversizeScanEnds` says exactly when
  the scan of such pools ends. For all other pools `PoolModel.Roomy`, room above the pool for its largest block, is
  enough for the scan to end and for the refinement, but not shown to be needed.
* A rebuild compares where a block starts with the end of the pool, not where it ends. `RebuildAnywhere.RebuildAny`
  says exactly when it yields a pool, over any memory; `RebuildAnywhere.RebuildOverruns` is a pool set up again with
  another block size.
* The free counter of a bucket has 32 bits, so a stack of a multiple of 2^32 free blocks looks empty
  (`PoolRules.PutThenGet`, `PoolRules.SmallPool`); `PoolStacks.StackHides` comes to a pool that turns a request down
  although all its blocks are free.
* `CurrentTestName` is said to be cleared with ownership (`modules/cfe_assert/src/cfe_assert_priv.h:121-128`). The
  code never clears it: it is empty afterwards exactly if it was empty before (`OwnershipRules.NameIsLeft`), and
  any name can be left (`OwnershipProgress.NameSurvives`).
* `STARTUP` is said to be the state after initialisation (`modules/cfe_assert/src/cfe_assert_priv.h:53-55`). The code
  never sets it (`OwnershipRules.SegmentDiscipline`).
* An application that owns the test library and registers again waits for itself forever
  (`OwnershipProgress.CanStillOwn`), which every application that waits can come to do, unless somebody has done it
  before (`OwnershipProgress.CanBlock`). The way out is that the system refuses the second registration before it
  waits. An owner whose task ends on an abort blocks the library as well (`OwnershipProgress.AbortBlocks`).
* Cutting the extension off a log name also cuts at a dot in a directory name (`LogFile.DirectoryLost`).
* The generator counts elements in an `int` but declares the length as `size_t` (`ConfigReader.DeclaredLength`).
* A rendered entry with an invalid offset gets an array in one mode and no name in the other
  (`ConfigRules.ModesAgree`).

Assumptions: mutex calls succeed; each application has one task that uses the test library, a defined and
distinct identifier, and the library is initialised once and first; only owners open and close logs and set
callbacks, between registering and executing or from within their tests;
`int` has 32 bits; the C library prints `(null)` for a missing name; names compare in the C locale.

## Model

| member | source | states |
|---|---|---|
| Descriptor.DecodeEncode | modules/es/ut-coverage/es_ut_helpers.c:326-337 | a descriptor copied into memory byte by byte and out again is the same descriptor |
| Descriptor.EncodeDecode | modules/es/ut-coverage/es_ut_helpers.c:326-337 | 24 bytes read as a descriptor and written back are the same bytes |
| Descriptor.Layout | modules/es/ut-coverage/es_ut_helpers.c:326-337 | which bytes of a descriptor are its check bits, mark, size and link, low byte first |
| Store.PokesAreSetFields | modules/es/ut-coverage/es_ut_helpers.c:315-337 | field assignments through a pointer into memory write the bytes that assigning the fields of a copy and committing it would |
| Store.BackingRefinement | modules/es/ut-coverage/es_ut_helpers.c:315-337 | any program of committed uses leaves the same bytes in the direct and the indirect store |
| Store.UncommittedChangeDiffers | modules/es/ut-coverage/es_ut_helpers.c:321-337 | an uncommitted change is lost in one store and visible in the other, exactly if it changes the field |
| Store.IndirectBuffer.Retrieve | modules/es/ut-coverage/es_ut_helpers.c:326-331 | the buffer holds the descriptor at the offset, memory is as before |
| Store.IndirectBuffer.Commit | modules/es/ut-coverage/es_ut_helpers.c:333-337 | the 24 bytes at the offset are the buffer's, all others as before |
| Store.DirectBuffer.Run | modules/es/ut-coverage/es_ut_helpers.c:315-324 | a program run in place leaves the bytes of the indirect run |
| PoolBackings.RunSame | modules/es/ut-coverage/es_ut_helpers.c:315-337 | a pool used over a direct store comes in every permitted run to the same record and the same bytes as over an indirect one |
| PoolBackings.StepsSame | modules/es/ut-coverage/es_ut_helpers.c:315-337 | and in every other run, too, whose records have their free blocks within memory, after a foreign offset was accepted as well |
| PoolBackings.PutSame | modules/es/ut-coverage/es_ut_helpers.c:315-337 | and to the same answers, though sizes and links are read while descriptors change in place |
| PoolBackings.RebuildSame | modules/es/ut-coverage/es_ut_helpers.c:315-337 | and to the same pool when it is rebuilt |
| PoolModel.BucketIndexRange | modules/es/fsw/src/cfe_es_generic_pool.c:80-91 | a bucket number names a bucket exactly from one to the number of buckets, wrap-around of the 16-bit subtraction included |
| PoolModel.NextBlockBounds | modules/es/fsw/src/cfe_es_generic_pool.c:187-189 | the next data offset is the tail plus a descriptor, rounded up to the alignment, if the sum it is computed from fits a word |
| PoolModel.NextBlockWraps | modules/es/fsw/src/cfe_es_generic_pool.c:187-189 | in every record with an alignment that is a power of two, it is that offset reduced to a word |
| PoolModel.SortSizesSorts | modules/es/fsw/src/cfe_es_generic_pool.c:304-322 | the specified order of sizes is ascending and has the same sizes as often |
| PoolModel.UsedBucketMeans | modules/es/fsw/src/cfe_es_generic_pool.c:466-475 | the test made on a descriptor accepts it exactly if it has the check pattern, an allocated mark with the number of a bucket, and a size from one to that bucket's |
| PoolAnswers.PutAnswers | modules/es/fsw/src/cfe_es_generic_pool.c:449-494 | for every record and all bytes: a release succeeds if and only if the offset is below the tail with such a descriptor in front of it, which error it gives otherwise, and what each failure leaves |
| PoolAnswers.SizeAnswers | modules/es/fsw/src/cfe_es_generic_pool.c:406-441 | the size query answers under the same condition, with the size in the descriptor, and changes nothing |
| PoolAnswers.RecycleAnswers | modules/es/fsw/src/cfe_es_generic_pool.c:100-153 | a block is reissued if and only if the bucket's counters differ and its first free block has a released block's descriptor of that bucket |
| PoolAnswers.ScanAnswers | modules/es/fsw/src/cfe_es_generic_pool.c:525-578 | a round of the scan finds a block, in use or free, if and only if it starts within the pool and has such a descriptor |
| PoolAnswers.InitializeAnswers | modules/es/fsw/src/cfe_es_generic_pool.c:238-335 | success if and only if there are sizes, none of them zero, and no alignment or a power of two; which error otherwise; and the whole record that is left |
| BucketSort.SwapSizes | modules/es/fsw/src/cfe_es_generic_pool.c:314-317 | three exclusive-or assignments swap two sizes |
| BucketSort.Pass | modules/es/fsw/src/cfe_es_generic_pool.c:306-321 | a pass settles one more of the largest sizes, keeps the multiset, and makes no swap only on a sorted table |
| BucketSort.Sort | modules/es/fsw/src/cfe_es_generic_pool.c:304-322 | the loop ends with the sizes ascending, the same multiset, and nothing else changed |
| Heap.LayoutSafety | modules/es/ut-coverage/es_UT.c:1647-1663 | blocks with their descriptors are disjoint, within bounds and aligned |
| Heap.OffsetsDistinct | modules/es/ut-coverage/es_UT.c:1647-1663 | an offset belongs to one block at most |
| Heap.Accounting | modules/es/ut-coverage/es_UT.c:1693-1695 | the blocks of a bucket are those in use and those on its free stack |
| Heap.PopValid | modules/es/fsw/src/cfe_es_generic_pool.c:100-153 | reissuing the top of a free stack keeps the allocator's layout, links and stacks valid |
| Heap.PushValid | modules/es/fsw/src/cfe_es_generic_pool.c:478-489 | releasing a block onto its stack keeps them valid |
| Heap.AppendValid | modules/es/fsw/src/cfe_es_generic_pool.c:162-230 | carving a block at the tail keeps them valid and moves the end behind it |
| PoolRefinement.RecycleRefines | modules/es/fsw/src/cfe_es_generic_pool.c:100-153 | on the bytes, recycling succeeds and takes the top of the bucket's free stack |
| PoolRefinement.RecycleRefuses | modules/es/fsw/src/cfe_es_generic_pool.c:113-118 | recycling from an empty stack fails and changes nothing |
| PoolRefinement.CreateRefines | modules/es/fsw/src/cfe_es_generic_pool.c:162-230 | on the bytes, carving fails without change exactly if the block would pass the end, and otherwise appends it |
| PoolRefinement.GetRefines | modules/es/fsw/src/cfe_es_generic_pool.c:373-398 | status, offset and the new allocator of a request: smallest bucket that fits, its own free stack first, else the tail; no splitting, no other bucket |
| PoolRefinement.PutRefines | modules/es/fsw/src/cfe_es_generic_pool.c:449-494 | status, size and the new allocator of releasing any block, in use or not |
| PoolRefinement.ReleaseRefines | modules/es/fsw/src/cfe_es_generic_pool.c:449-494 | a block in use of nonzero size is released with its size and tops its free stack |
| PoolRefinement.AlignMaskIs | modules/es/fsw/src/cfe_es_generic_pool.c:265-285 | the mask test accepts exactly the alignments zero and the powers of two |
| PoolRefinement.InitializeRefines | modules/es/fsw/src/cfe_es_generic_pool.c:238-335 | a successful initialisation, over any memory, gives an allocator without blocks and with sorted sizes |
| PoolRuns.StepRepresents | modules/es/fsw/src/cfe_es_generic_pool.c:373-494 | requests, releases and writes to user data keep the pool in step with the allocator |
| PoolRuns.RunSafety | modules/es/ut-coverage/es_UT.c:1647-1663 | after every run, blocks are disjoint with their descriptors, within the pool, below the tail and aligned |
| PoolRuns.RunAccounting | modules/es/ut-coverage/es_UT.c:1693-1737 | after every run, a bucket's allocation count is live plus free blocks, and releases minus recycles the free ones, modulo 2^32 |
| PoolRuns.RunKeepsData | modules/es/fsw/src/cfe_es_generic_pool.c:373-494 | no request or release changes a byte of any block's data, over whole runs |
| PoolRuns.TurnedDown | modules/es/fsw/src/cfe_es_generic_pool.c:456-475 | a release that is turned down changes no byte and no block |
| PoolRuns.RunThenRebuild | modules/es/ut-coverage/es_UT.c:1698-1737 | over any memory and after any run, a new record rebuilt gives back the tail if and only if the bytes first there do not look like a block behind it, and then counters and blocks; so always over memory free of the check pattern |
| PoolRules.PutThenGet | modules/es/ut-coverage/es_UT.c:1770-1782 | the block last released is the next one issued for its bucket, exactly if the 32-bit counters do not hide the stack |
| PoolStacks.LastReleasedFirst | modules/es/ut-coverage/es_UT.c:1770-1782 | over any run that leaves a bucket alone, the block last released to it is the next one issued for it, exactly if the counters do not hide the stack |
| PoolStacks.StackHides | modules/es/fsw/src/cfe_es_generic_pool.c:113-118 | 2^32 requests and their releases come to a pool that turns a request down although all its blocks are free |
| PoolRules.SmallPool | modules/es/fsw/src/cfe_es_generic_pool.c:113-118 | in a pool below 2^32 descriptors the counters hide nothing |
| PoolRules.DoublePut | modules/es/ut-coverage/es_UT.c:1718-1729 | releasing a released block fails and only counts an error |
| PoolRules.PutAfterGet | modules/es/fsw/src/cfe_es_generic_pool.c:373-494 | what a request yields can be released if and only if the request was not of size zero |
| PoolRules.GotBlock | modules/es/ut-coverage/es_UT.c:1647-1663 | a granted block is in use, of the size asked for, in the smallest bucket that holds it |
| PoolRules.GetFails | modules/es/ut-coverage/es_UT.c:1665-1676 | when exactly a request fails, and that failure changes nothing |
| PoolRules.SizeOfBlock | modules/es/fsw/src/cfe_es_generic_pool.c:406-441 | the size query answers with the requested size exactly for blocks in use of nonzero size |
| PoolRules.PutKeepsBlocks | modules/es/fsw/src/cfe_es_generic_pool.c:449-494 | a release keeps the pool's block boundaries exactly if the offset is a block's or is turned down |
| PoolRules.DataLikeDescriptor | modules/es/fsw/src/cfe_es_generic_pool.c:464-475 | user data can be written that makes a release of a foreign offset succeed |
| PoolRules.CarvesOutside | modules/es/fsw/src/cfe_es_generic_pool.c:187-202 | for every record, a carve succeeds for a block that does not fit where it belongs if and only if its end is out of range and, reduced to a word, within the pool |
| PoolRules.CarvesOutsideWord | modules/es/fsw/src/cfe_es_generic_pool.c:187-202 | the same from the computed offset: if and only if its sum with the block size is from 2^64 to 2^64 plus the end of the pool |
| PoolRules.ScanRoundEnds | modules/es/fsw/src/cfe_es_generic_pool.c:526-582 | a round of the scan puts the tail at the end of the block it found if and only if that end is in range |
| PoolRules.OversizeScanStays | modules/es/fsw/src/cfe_es_generic_pool.c:522-601 | with a bucket of 2^64 - 24 a round leaves the tail where it was and the next one finds the same block, in use or free |
| PoolRules.OversizeScanEnds | modules/es/fsw/src/cfe_es_generic_pool.c:522-601 | the scan of such a pool ends if and only if its first round finds nothing |
| PoolRules.OversizeScanForever | modules/es/fsw/src/cfe_es_generic_pool.c:522-601 | after one request and the record set up again, every number of rounds still finds the block |
| PoolRules.OversizeBucketWraps | modules/es/fsw/src/cfe_es_generic_pool.c:187-202 | an instance: with a bucket near 2^64 one block is handed out twice |
| PoolRebuild.ScanStep | modules/es/fsw/src/cfe_es_generic_pool.c:522-601 | one round of the scan takes in the next block, in use or free, as it was |
| PoolRebuild.RebuiltSame | modules/es/ut-coverage/es_UT.c:1698-1737 | the rebuilt allocator has the same blocks, and per bucket the same set of free blocks |
| PoolRebuild.RebuiltStackOrder | modules/es/fsw/src/cfe_es_generic_pool.c:586-600 | free blocks come back highest address first |
| PoolRebuild.RebuildRecovers | modules/es/ut-coverage/es_UT.c:1698-1737 | from memory alone a rebuild recovers the tail if and only if no block seems to follow the last; then allocation counts and free sets are as before, releases are the old releases minus recycles, recycles zero |
| PoolRebuild.OldBlocksReturn | modules/es/fsw/src/cfe_es_generic_pool.c:502-604 | a record set up again over a used pool and lost unused is not recovered: the scan goes on at least to the old tail, and the old pool is back if nothing seems to follow it |
| PoolRebuild.OldBlockFollows | modules/es/fsw/src/cfe_es_generic_pool.c:502-604 | nor is it after the first request, if that is for the block the old pool began with |
| PoolRules.RebuildMisled | modules/es/fsw/src/cfe_es_generic_pool.c:502-604 | in every pool with room for two blocks: two requests, the record set up again, one request, and a rebuild misses the tail |
| PoolRules.RebuildMisledOnce | modules/es/fsw/src/cfe_es_generic_pool.c:502-604 | so in a pool of 100 bytes with blocks of 8, whatever memory held |
| RebuildAnywhere.RebuildAny | modules/es/fsw/src/cfe_es_generic_pool.c:522-601 | over any memory, a rebuild yields a pool that represents an allocator if and only if the tail it comes to lies within the pool |
| RebuildAnywhere.RebuildFresh | modules/es/fsw/src/cfe_es_generic_pool.c:502-604 | so for every record just initialised |
| RebuildAnywhere.RebuildOverruns | modules/es/fsw/src/cfe_es_generic_pool.c:529-580 | a used pool of 100 bytes, set up again with a larger block, is rebuilt to a tail of 120 |
| PoolRecord.GenPool.FindBucket | modules/es/fsw/src/cfe_es_generic_pool.c:53-71 | the loop finds the first bucket that holds the request |
| PoolRecord.GenPool.RecyclePoolBlock | modules/es/fsw/src/cfe_es_generic_pool.c:100-153 | new record and bytes are those of the specified recycling, failures included |
| PoolRecord.GenPool.CreatePoolBlock | modules/es/fsw/src/cfe_es_generic_pool.c:162-230 | new record and bytes are those of the specified carving, failures included |
| PoolRecord.GenPool.GetBlock | modules/es/fsw/src/cfe_es_generic_pool.c:373-398 | the pool keeps implementing an allocator, which does the abstract request with the same status and offset |
| PoolRecord.GenPool.BlockSizeOf | modules/es/fsw/src/cfe_es_generic_pool.c:406-441 | the answer of the specified query, and nothing changes |
| PoolRecord.GenPool.PutBlock | modules/es/fsw/src/cfe_es_generic_pool.c:449-494 | the abstract release for a block; for any other offset that is turned down the allocator is as before |
| PoolRecord.GenPool.Initialize | modules/es/fsw/src/cfe_es_generic_pool.c:238-335 | the whole record after success and after each failure; on success an allocator without blocks |
| PoolRecord.GenPool.Rebuild | modules/es/fsw/src/cfe_es_generic_pool.c:502-604 | the scanning loop ends with the record and bytes of the specified scan |
| PoolRecord.GenPool.Recover | modules/es/ut-coverage/es_UT.c:1698-1737 | initialising and rebuilding over a lost pool's memory restores its tail exactly if no block seems to follow, and then its allocator |
| PoolRecord.GenPool.Usage | modules/es/fsw/src/cfe_es_generic_pool.c:624-636 | the free size reported is what lies behind the last block |
| PoolRecord.GenPool.BucketUsage | modules/es/fsw/src/cfe_es_generic_pool.c:669-689 | what is reported of a bucket counts its live and free blocks |
| CdsChain.ChainOrder | modules/es/ut-coverage/es_ut_helpers.c:447-471 | registered blocks lie in order, each behind its descriptor, below the tail |
| CdsChain.RunLinked | modules/es/ut-coverage/es_ut_helpers.c:447-471 | no registration or write to block data damages an earlier descriptor |
| CdsChain.LimitsSetOnce | modules/es/ut-coverage/es_ut_helpers.c:420-445 | the first registration sets the limits of the pool by the size of the store, and none after it changes them |
| CdsChain.LimitsAfter | modules/es/ut-coverage/es_ut_helpers.c:420-445 | which limits these are, for a store of the platform and for the store of the tests |
| CdsChain.WalkRecovers | modules/es/ut-coverage/es_ut_helpers.c:447-471 | walking by descriptor plus size visits exactly the registered blocks in order, and stops at the tail exactly if no mark is there |
| CdsChain.BlocksInUse | modules/es/ut-coverage/es_ut_helpers.c:465-469 | in every run, the descriptor in front of each registered block says that it is in use, of the pool's bucket, of its size, and not linked |
| CdsChain.ScanFindsInUse | modules/es/ut-coverage/es_ut_helpers.c:465-469 | a pool scan that comes to such a block takes it for one in use |
| CdsChain.RunNamed | modules/es/ut-coverage/es_ut_helpers.c:447-463 | within the registry, each record has the name, cut to its buffer, and the kind given for it |
| CdsChain.OldMarks | modules/es/ut-coverage/es_ut_helpers.c:447-471 | a registry set up again over the bytes of two registrations still sees the second behind its first: the walk goes past the tail |
| CdsChain.RegistryRecovered | modules/es/ut-coverage/es_UT.c:4641-4662 | what the walk finds is, entry by entry, what the registry says |
| CdsChain.Global.SetupSingleRegistry | modules/es/ut-coverage/es_ut_helpers.c:413-479 | memory, limits, tail, identifiers and records after a registration, the first one included |
| Ownership.InitialInv | modules/cfe_assert/src/cfe_assert_init.c:111-136 | initialisation establishes the invariant |
| Ownership.ActKeeps | modules/cfe_assert/src/cfe_assert_runner.c:205-333 | every step of an application keeps its own part of the invariant and the global one |
| Ownership.ActRespects | modules/cfe_assert/src/cfe_assert_runner.c:205-333 | and that of every other application |
| Ownership.RunKeeps | modules/cfe_assert/src/cfe_assert_runner.c:205-333 | every interleaving of any number of applications keeps the invariant |
| OwnershipRules.MutualExclusion | modules/cfe_assert/src/cfe_assert_runner.c:245-262 | at most one application is between taking and giving up ownership, and it is the recorded owner; at most one holds the lock |
| OwnershipRules.OnlyOwnerChanges | modules/cfe_assert/src/cfe_assert_runner.c:245-332 | nobody else changes anything shared but the lock, or an ownership that was free |
| OwnershipRules.OwnerUntilRelease | modules/cfe_assert/src/cfe_assert_runner.c:328-332 | an owner stays the owner, in every run, until its own execute clears it |
| OwnershipRules.StrangerExecutes | modules/cfe_assert/src/cfe_assert_runner.c:309-318 | a non-owner that calls execute leaves every run as if it had not been there |
| OwnershipRules.SegmentDiscipline | modules/cfe_assert/src/cfe_assert_runner.c:269-296 | begins and ends alternate in every run; the startup segment is the first, occurs once, and is closed before the library is active, and until then no test has set its name |
| OwnershipRules.OwnerLabelled | modules/cfe_assert/src/cfe_assert_runner.c:288-296 | while an owner may use the library, the current test name is its own and the open segment is its own setup segment |
| OwnershipCalls.SetupReports | modules/cfe_assert/src/cfe_assert_runner.c:291-296 | in every run, an application that comes to its first segment has set the reporting callback, and no log |
| OwnershipCalls.ReportStays | modules/cfe_assert/src/cfe_assert_runner.c:291-329 | from then on that callback stays, in every continuation in which the owner registers none, until its own execute clears it |
| OwnershipCalls.CallbackStays | modules/cfe_assert/src/cfe_assert_init.c:38-41 | in every run the callback is the one the owner last registered, whatever others do, until its own execute clears it |
| OwnershipCalls.LogStays | modules/cfe_assert/src/cfe_assert_init.c:46-106 | so is the log, with its names: the one the owner last opened, or none after it has closed it |
| OwnershipCalls.SetupSegment | modules/cfe_assert/src/cfe_assert_runner.c:294-296 | the segment open during setup is named after the test, as far as 63 characters go |
| OwnershipRules.NeverUndone | modules/cfe_assert/src/cfe_assert_runner.c:269-275 | an active library stays active, and reported segments are never taken back |
| OwnershipRules.CleanHandover | modules/cfe_assert/src/cfe_assert_init.c:46-106 | without an owner there is no callback, no log and no name, even after a failed opening, and no segment is open but the startup one |
| OwnershipRules.NameIsLeft | modules/cfe_assert/src/cfe_assert_runner.c:328-332 | giving up ownership leaves the test name as it is: empty if and only if the test had no name |
| OwnershipRules.LockIsReleased | modules/cfe_assert/src/cfe_assert_runner.c:245-262 | a holder is never blocked and lets go of the lock within four of its own turns, whatever the others do |
| OwnershipProgress.StuckForever | modules/cfe_assert/src/cfe_assert_runner.c:250-255 | an owner that ended or registered again stays the owner for good |
| OwnershipProgress.Progress | modules/cfe_assert/src/cfe_assert_runner.c:245-332 | otherwise some application's next step brings a waiting one strictly nearer to ownership |
| OwnershipProgress.CanStillOwn | modules/cfe_assert/src/cfe_assert_runner.c:245-332 | from every reachable state an application can still become the owner if and only if the present owner is not stuck |
| OwnershipProgress.CanBlock | modules/cfe_assert/src/cfe_assert_runner.c:245-255 | from every such state each waiting application can come to own the library and wait for it at once, and is then the owner for good |
| OwnershipProgress.AbortBlocks | modules/cfe_assert/src/cfe_assert_io.c:117-124 | an owner whose task ends on an abort is the owner for good, in every run |
| OwnershipProgress.SomeoneBlocks | modules/cfe_assert/src/cfe_assert_runner.c:245-255 | of two applications one can so keep the other from ever owning |
| OwnershipProgress.NameSurvives | modules/cfe_assert/src/cfe_assert_runner.c:288-332 | any name can be left behind when nobody owns the library |
| LogFile.TempIdempotent | modules/cfe_assert/src/cfe_assert_init.c:52-73 | the temporary name of a temporary name is itself |
| LogFile.TempNames | modules/cfe_assert/src/cfe_assert_init.c:58-73 | the temporary name is the stored name up to its last dot, or all of it, as far as .tmp leaves room, and .tmp |
| LogFile.TempIsFinal | modules/cfe_assert/src/cfe_assert_init.c:52-73 | both names coincide exactly if the stored name already ends in .tmp |
| LogFile.SameDirectory | modules/cfe_assert/src/cfe_assert_init.c:58-73 | both names are in one directory exactly if no slash follows the place of the cut |
| LogFile.DirectoryLost | modules/cfe_assert/src/cfe_assert_init.c:58-73 | a dot in a directory name moves the temporary file to another directory |
| LogFile.LogNames.Open | modules/cfe_assert/src/cfe_assert_init.c:46-89 | both buffers hold terminated names: the name cut to the buffer, and its stem with .tmp |
| LogFile.LogNames.Close | modules/cfe_assert/src/cfe_assert_init.c:95-106 | an open log is renamed from the temporary to the final name, and everything is cleared in any case |
| LogFile.StringCopyN | modules/cfe_assert/src/cfe_assert_init.c:52-56 | copying and terminating stores the name cut to the buffer |
| Numerals.DigitCount | modules/config/tool/cfeconfig_platformdata_tool.c:45-54 | how many digits a number has |
| Numerals.ZeroPaddingKeepsOrder | modules/config/tool/cfeconfig_platformdata_tool.c:83 | padded to the width of the largest index, indices print to that width, distinct, and in dictionary order exactly if in numeric order |
| Numerals.UnpaddedOrderDiffers | modules/config/tool/cfeconfig_platformdata_tool.c:83 | without padding 10 comes before 2 |
| ConfigTool.DigitWidth | modules/config/tool/cfeconfig_platformdata_tool.c:45-54 | the division loop ends with the number of decimal digits |
| ConfigTool.Count | modules/config/tool/cfeconfig_platformdata_tool.c:60-62 | the number of printed elements is the number of entries exactly up to the largest int |
| ConfigTool.AscendingIndex | modules/config/tool/cfeconfig_platformdata_tool.c:72-75 | the index computed in size_t and narrowed counts up from one |
| ConfigTool.RenderListContent | modules/config/tool/cfeconfig_platformdata_tool.c:35-90 | the loop prints header, elements in their order with a comma after all but the last, and footer |
| ConfigTool.FindDetailByName | modules/config/tool/cfeconfig_platformdata_tool.c:144-163 | the search loop returns what the specified search finds |
| ConfigTool.WritePlatformCfg | modules/config/tool/cfeconfig_platformdata_tool.c:171-197 | accepts exactly the known platforms and prints the arrays of their tables |
| ConfigTool.WriteValidEntries | modules/config/tool/cfeconfig_platformdata_tool.c:204-238 | accepts exactly the known platforms and prints the names of their tables |
| ConfigReader.PrintThenRead | modules/config/tool/cfeconfig_platformdata_tool.c:56-89 | reading a printed array gives back type, name, declared length and exactly the elements in order |
| ConfigReader.DeclaredLength | modules/config/tool/cfeconfig_platformdata_tool.c:56-62 | the declared length is the number of elements if and only if it fits an int |
| ConfigRules.EachIndexOnce | modules/config/tool/cfeconfig_platformdata_tool.c:60-76 | either order covers the indices from one to the count once each |
| ConfigRules.ElementsNumbered | modules/config/tool/cfeconfig_platformdata_tool.c:60-87 | for every list, with or without a maximum, what is read back at a position is the stem and a numeral of the number that belongs there, of the stated width, or the maximum |
| ConfigRules.OrdersReversed | modules/config/tool/cfeconfig_platformdata_tool.c:60-87 | the ascending list is the reverse of the descending one |
| ConfigRules.SizesInOrder | modules/config/tool/cfeconfig_platformdata_table.c:64-90 | increasing sizes below a custom maximum resolve to a strictly decreasing descending list headed by the maximum, and the ascending one the other way round |
| ConfigRules.NamesDistinct | modules/config/tool/cfeconfig_platformdata_tool.c:83 | the numbered names are distinct if and only if there is one at most or the longest fits the buffer |
| ConfigRules.FittingNames | modules/config/tool/cfeconfig_platformdata_tool.c:83 | names that fit are in dictionary order exactly as their indices, when zero-padded |
| ConfigRules.ModesAgree | modules/config/tool/cfeconfig_platformdata_tool.c:171-238 | read back, the two outputs have one array for each name in the same order, if and only if every rendered entry has a valid offset |
| ConfigRules.TableRead | modules/config/tool/cfeconfig_platformdata_tool.c:98-238 | read back, the outputs have one array for each array entry with elements, of its type, length and name, and one macro where the offset names it |
| ConfigRules.CommentFirst | modules/config/tool/cfeconfig_platformdata_tool.c:182-216 | in front of either output stands the comment that warns of edits |
| ConfigRules.LiveIsPrefix | modules/config/tool/cfeconfig_platformdata_tool.c:184-194 | what is rendered are the entries before the first without style |
| ConfigRules.SameNameMeans | modules/config/tool/cfeconfig_platformdata_tool.c:153 | platform names are the same if and only if they differ in the case of letters at most |
| ConfigRules.FindsFirst | modules/config/tool/cfeconfig_platformdata_tool.c:144-163 | the search finds the first platform of that name before the end, and nothing exactly if there is none |
| MemAddress.FromNative | cmake/sample_defs/example_2x32bit_cfe_es_memaddress.h:130-137 | two shifts by 16 give the two halves of the value |
| MemAddress.ShlTwice | cmake/sample_defs/example_2x32bit_cfe_es_memaddress.h:122-128 | two left shifts by 16 at any width keep what one by 32 would |
| MemAddress.ToNativeValue | cmake/sample_defs/example_2x32bit_cfe_es_memaddress.h:122-128 | the value is the low word plus what of the high word fits |
| MemAddress.NativeRoundTrip | cmake/sample_defs/example_2x32bit_cfe_es_memaddress.h:65-80 | every native value of 32 to 64 bits survives the conversion and back |
| MemAddress.PairRoundTrip | cmake/sample_defs/example_2x32bit_cfe_es_memaddress.h:65-80 | a pair keeps its low word and its high word modulo the room for it: whole at 64 bits, nothing at 32 |
| MemAddress.PairKept | cmake/sample_defs/example_2x32bit_cfe_es_memaddress.h:122-137 | a pair survives if and only if its high word fits |
| EsRecords.AppAdded | modules/es/ut-coverage/es_ut_helpers.c:194-249 | setting up an application keeps the records a consistent graph while there is room |
| EsRecords.ChildAdded | modules/es/ut-coverage/es_ut_helpers.c:256-284 | so does a child task |
| EsRecords.StatesSet | modules/es/ut-coverage/es_ut_helpers.c:513-538 | changing states keeps it too |
| EsRecords.GraphKeptIffRoom | modules/es/ut-coverage/es_ut_helpers.c:206-219 | an application beyond the table overwrites another and breaks the graph: it is kept if and only if there is room |
| EsRecords.FullTable | modules/es/ut-coverage/es_ut_helpers.c:206-219 | an instance: in a table for one application the second one breaks the graph |
| EsRecords.RunGraph | modules/es/ut-coverage/es_ut_helpers.c:206-283 | any setups keep the graph: identifiers distinct, tasks of used applications, main tasks their own, counters the numbers of records |
| EsRecords.ResetGraph | modules/es/ut-coverage/es_ut_helpers.c:206-283 | so the graph holds after a reset and any setups within the tables |
| EsRecords.ResetChildren | modules/es/ut-coverage/es_UT.c:971-979 | after a reset and any setups, every application has exactly the children that were set up for it |
| EsRecords.SetupRecords | modules/es/ut-coverage/es_ut_helpers.c:206-248 | what a setup leaves in both new records, with names cut to their buffers, and that all others are as before |
| EsRecords.ChildRecord | modules/es/ut-coverage/es_ut_helpers.c:263-283 | what a child's setup leaves in its record, and that all others are as before |
| EsRecords.RunKeepsApp | modules/es/ut-coverage/es_ut_helpers.c:513-538 | over any run an application keeps its record, and its state is the last that a change, with or without filter, has given it |
| EsRecords.RunKeepsTask | modules/es/ut-coverage/es_ut_helpers.c:206-283 | over any run a task in use keeps its record |
| EsRecords.RunChildren | modules/es/ut-coverage/es_UT.c:971-979 | an application's child count grows by exactly the children set up for it |
| EsRecords.NewAppChildless | modules/es/ut-coverage/es_UT.c:965-968 | a new application has none |
| EsRecords.Global.SetupSingleAppId | modules/es/ut-coverage/es_ut_helpers.c:194-249 | both tables and all counters after the call |
| EsRecords.Global.SetupChildTaskId | modules/es/ut-coverage/es_ut_helpers.c:256-284 | the task table and the task counter after the call |
| EsRecords.Global.SetAppStateHook | modules/es/ut-coverage/es_ut_helpers.c:513-538 | the loop sets the state of the used records the filter takes, and nothing else |
| EsRecords.Global.NumOfChildTasks | modules/es/fsw/src/cfe_es_api.c:989-1011 | the loop counts the used tasks of the application other than its main task, and reports name, counter, stack and priority of that |
| EsRecords.MainTaskReported | modules/es/fsw/src/cfe_es_api.c:989-1011 | in a consistent graph what is reported is the record of the application's main task |

## Left out

- I/O failures of the store: retrieve and commit always succeed; their error returns are not modelled.
- PoolModel.Create: a descriptor read or written outside memory has no effect in the value model; the class's methods show that it does not happen in the pools they require.
- 32-bit targets: the descriptor layout and the range of size_t are those of a 64-bit target.
- The calculation of a minimum pool size, and the mutex and handle layer above the pool: they would add easy members.
- PoolRecord.GenPool.PutBlock: for an offset that is no block but is accepted, the bytes are stated but the pool need not implement an allocator any more; PoolRules.PutKeepsBlocks says when.
- PoolRefinement.CreateRefines: like every refinement, about pools with room above them for the largest block in the range of size_t; PoolRules.CarvesOutside is about all others too.
- PoolRefinement.InitializeRefines: the source accepts block sizes without that room, and PoolRecord.GenPool.Initialize states the record for them, but an allocator is promised only with it.
- PoolRecord.GenPool.Rebuild: asks for that room, without which the scan need not end (PoolRules.OversizeScanStays).
- PoolRecord.GenPool.Recover: asks for that room, for the same reason.
- PoolRecord.GenPool.CreatePoolBlock: asks that the block's end does not wrap around into the pool, where the source would write outside its memory.
- Failing mutex calls, tasks deleted from outside, and an application with several tasks in the test library.
- Text of log lines, the choice of the reporting callback per message, and the stored status of the deferred check.
- Calls of register or execute from within an owner's tests, and log or callback calls by others than the owner.
- The segments that the test engine itself opens and closes while it runs tests; it is not part of this model.
- Ownership.ActKeeps: opening and closing the log is one step, since only the owner looks at the names.
- OwnershipProgress.CanStillOwn: says that ownership can be reached, not that every scheduler leads there.
- Buffer sizes that come from configuration have their default values in the protocol, the record tables and the registry.
- Argument handling of the generator, its list of platform names, and its error messages.
- ConfigReader.PrintThenRead: asks for names without the commas, blanks and brackets that the notation uses.
- EsRecords.AppAdded: identifiers beyond the range of the resource type are not modelled; the operating system is taken to hand out a task identifier whose slot is free.
- Widths of native addresses below 32 or above 64 bits.
- CdsChain.Global.SetupSingleRegistry: a registration whose descriptor lies outside the buffer is not modelled; the source does not check for it.
- The registry file of the critical data store, its signatures and checksums, and the rest of executive services, events, tables, time and the software bus.
