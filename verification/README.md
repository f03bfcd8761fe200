# DroidPerf in Dafny

DroidPerf is a profiler agent for the Android runtime. Most of it talks to JVMTI and to
perf events; what it computes with the answers is modelled and proved here.

| modules | source | what they hold |
|---|---|---|
| `SplaySpec`, `IntervalOps`, `SplayTree`, `SplayCost` | `src/splay.cpp` | the top-down splay tree of disjoint half-open intervals: tree values and their laws, lookup/insert/delete on tree values, the pointer code that refines them through the dummy header, and the amortised number of loop passes |
| `RangeSets` | `src/range.h` | the ordered map of closed ranges, and its refinement of a pointwise partial map |
| `LineTables` | `src/code_cache.cpp`, `src/agent.cpp` | bytecode-to-line index, the linear scan it agrees with, and the address-to-line index built on it |
| `CodeCache`, `CodeCacheProtocol`, `CodeCacheRuns` | `src/code_cache.cpp`, `src/lock.h` | the three indices of compiled methods, one call at a time and under any interleaving of threads; particular runs that show where bounds are reached |
| `WordArithmetic`, `PerfRing`, `PerfRecords`, `PerfMmaps`, `PerfProtocol`, `PerfDrain`, `PerfFrames`, `PerfWhole` | `src/perf_mmap.cpp`, `src/perf_interface.cpp` | the ring-buffer reader with 64-bit counters, what the bytes of records are and the parser and drain loop that read them; reader and drain loop against a concurrent producer, whatever it publishes, and for the records that the kernel writes for this program's events |
| `ContextTrie` | `src/new_context.cpp` | the interning tree of calling contexts |
| `Text`, `TraceFormat`, `ContextExport`, `LineExport`, `TraceToProfile` | `src/profiler.cpp`, `src/agent.cpp`, `scripts/ezview_fmt_gen/` | the printers of call paths and stacks and the line parser, the converter's context array, the exported context table, the loops from trace files to samples, and the way from call paths to samples |

How the model is laid out:

- Code that rewrites objects in place is a class or a heap method, proved against a function
  on values: `SplayTree` against `IntervalOps`, `RangeSets.RangeSet` against `Emplace`,
  `RemoveAt` and `Inside`, `PerfMmaps.PerfMmap` against the logical byte stream,
  `ContextTrie.NewContextTree` against the tree value `Tree`, `ContextExport.Profile`
  against `Export`. The laws are then proved about those functions.
- Concurrent code is a state machine whose events are the atomic steps of the source;
  a run is any sequence of admissible events.
- C++ `assert` is active, because several asserts contain the call that does the work: an
  assert that would fail is the state `Aborted`, an `ok` result that is false, or a
  precondition where the caller must guarantee it.
- Machine widths are written out where they matter: `uint64_t` counters and addresses,
  `uint32_t` versions and context ids, `int` printing of ids. Splay-tree addresses are
  natural numbers, since that code only compares them.

## Findings

- `interval_tree_delete` keeps every node for every tree exactly when start <= end + 1; the
  join overwrites a non-null right child for ranges reversed further
  (`IntervalOps.DeleteLosslessExactly`).
- `perf_skip_buffer_nbytes` skips min(n, available) exactly when adding n carries the tail past
  2^64 just if the head is numerically below the tail (`PerfRing.SkipExact`). When the head has
  wrapped and the sum has not, the skip goes to the head and bytes are lost
  (`PerfRing.SkipBeforeWrapLosesBytes`); when the sum carries and the head has not wrapped, the
  tail moves back (`PerfRing.SkipAcrossWrapMovesBack`). The same condition on the whole size is
  exact for a record: record sizes 1 to 7 make the skip length wrap, and net exactly the size
  under it like all others (`PerfRing.SkipRecordExact`).
- In every run of the reader and the kernel, the tail is where the bytes read and skipped put it, none
  lost and none passed twice, if and only if no skip fails that condition for the head it loaded
  (`PerfProtocol.InStepExactly`); `PerfProtocol.SkipEffect` says what a failing skip does.
- Whatever the kernel publishes and however its steps interleave with the drain loop, each sample handed
  on is what the fields are in consecutive published bytes behind a header of kind 9, and no byte is in two
  samples (`PerfDrain.SamplesAreReal`), as long as no skip of a record of 1 to 7 bytes, or over the
  wrap of the counters, goes back to bytes that have been written over (`PerfDrain.RoomKeptExactly`).
  The loop aborts exactly when a sample is cut off at the head it loaded (`PerfDrain.AbortsExactly`).
- The events ask for a call chain (`src/perf_util.cpp:35-38`, `src/perf_interface.cpp:144`), which the
  reader does not take: the loop comes to the reserved bits and the length of the chain as if they were a header,
  finds size 0, and drops everything published. So with the kernel quiet only the first sample of what
  has been published is handed on (`PerfFrames.OnlyFirstSample`), and with the kernel running no record
  published by the time a sample is handed on is handed on after it (`PerfFrames.ThreadSamplesDrop`). No
  assertion fails, and what is handed on are true samples (`PerfFrames.HandsOnRecords`). Nothing is dropped
  where a sample record is just what is read of it and no skip fails (`PerfWhole.DoneIsComplete`).
- The converter raises on a line that has a sample and a number that is negative or from 2^64 on, as the
  field is unsigned (`TraceToProfile.RaisesExactly`). `active_memory_usage` is printed with %d, so it exports
  exactly when its low 32 bits are below 2^31 (`TraceToProfile.TraceMetricFits`). A scope of 2^63 or more
  raises too, as its digits go into an int64 field.
- The loop for memory samples and cache misses skips unknown methods in the middle of a path: there is a
  sample exactly when some method of the path is known (`TraceToProfile.SampleIffSomeKnown`), at the
  context of the last known one, and exported parents can skip contexts of the trie. The loop for
  allocations wants all methods known, and its records are a part of the trie (`LineExport.ExportAll`).
- Versions of a group are unique exactly until 2^32 of them were issued
  (`CodeCacheProtocol.VersionsUniqueExactly`), a single thread can issue any number, and addition
  2^32 + 1 gets version 1 again (`CodeCacheRuns.VersionIsReused`). "Largest version" means "numbered
  last" in every run exactly while fewer than 2^32 were issued
  (`CodeCacheRuns.LargestIsLatestExactly`). A version published later may be the smaller one
  (`CodeCacheRuns.LaterVersionPublishedFirst`).
- `isAddrIn` is the half-open code span exactly for a non-empty span that ends below the top
  address (`CodeCache.IsAddrInExact`).
- `loadAddrLocationMap` stops at the first location it cannot resolve: addresses from there on
  get line 0 (`LineTables.Addr2LineCorrect`).
- On an increasing map `loadAddrLocationMap` fails its assert exactly when a range it looks at
  reaches past the code (`LineTables.LoadMapTiles`), which some two-entry map does for any code
  (`LineTables.LoadMapCanAbort`).
- Context ids are distinct exactly while at most 2^32 contexts exist, and exactly then id 0 still
  leads to the root (`ContextTrie.RunIdsDistinctExactly`). The next context is given id 0 and
  takes the root's place in the id map (`ContextTrie.RootIdIsReused`); a context is found by its
  id exactly until 2^32 more have been made (`ContextTrie.FoundById`).
- Any run of m operations on the interval tree makes at most m (26 log2 m + 6) passes of the splay
  loop (`SplayCost.RunIsLogarithmic`), although the loop replaces the zig-zag case by two links.
- A printed line parses back to its path with each run of equal adjacent method ids cut to its
  first frame, so the printed path is not the full path (`TraceFormat.RoundTrip`,
  `TraceFormat.KeptAreRunHeads`).

## Model

| member | source | states |
|---|---|---|
| `SplaySpec.SplayKeepsInOrder` | src/splay.cpp:6-56 | splaying any tree at any address keeps its in-order sequence of nodes |
| `SplaySpec.SplayKeeps` | src/splay.cpp:6-56 | the same nodes, none lost or doubled, and an ordered tree of disjoint intervals stays one |
| `SplaySpec.SplayedRoot` | src/splay.cpp:14-55 | the root contains the address or is its in-order neighbour: below the root's start, everything left ends by the address; from its end on, everything right starts after it |
| `SplaySpec.SplayFinds` | src/splay.cpp:58-69 | if any stored interval contains the address, it is the root after the splay |
| `SplaySpec.SplayBelowAll` | src/splay.cpp:98-99 | splaying below every interval brings up the minimum, without a left child |
| `SplaySpec.SplayAboveAll` | src/splay.cpp:160-161 | splaying where no interval reaches past the address brings up the maximum, without a right child |
| `SplaySpec.SplayHalvesLeftChain` | src/splay.cpp:14-29 | the zig-zig rotation halves the height of a left chain, which linking alone would not |
| `SplaySpec.SplayHalvesRightChain` | src/splay.cpp:30-43 | the mirror image for a right chain |
| `SplayCost.SplayAmortised` | src/splay.cpp:6-56 | the passes of one splay plus twice the growth of the potential are at most 8 log2 of the size plus 2, for every ordered tree and address |
| `SplayCost.StepAmortised` | src/splay.cpp:58-163 | the same for a lookup, an insertion or a deletion with its two or three splays, cuts and join, with 26 log2 and 6 |
| `SplayCost.RunIsLogarithmic` | src/splay.cpp:58-163 | any run of m operations from the empty tree makes at most m (26 log2 m + 6) passes of the splay loop |
| `SplaySpec.OrderedIffSorted` | src/splay.h:5-13 | the tree invariant holds exactly when the in-order sequence is sorted, non-empty and disjoint |
| `SplaySpec.OrderedIsUnshared` | src/splay.h:5-13 | no node of an ordered tree occurs twice |
| `IntervalOps.InsertCorrect` | src/splay.cpp:71-112 | 0 exactly when the interval is non-empty and apart from every stored one, and then the sequence grows by that node at one place; otherwise 1 and the sequence unchanged |
| `IntervalOps.DeleteCorrect` | src/splay.cpp:114-163 | the sequence splits into below, overlapping, above; `del_tree` holds exactly the nodes meeting the range, the new root exactly the others in order, and the join overwrites no child |
| `IntervalOps.DeleteLosslessExactly` | src/splay.cpp:154-162 | every node of every tree ends up in one of the two results if and only if start <= end + 1 |
| `IntervalOps.ReversedDeleteLosesANode` | src/splay.cpp:154-162 | for any range reversed by two or more, a three-node tree that loses its middle node |
| `IntervalOps.JoinCorrect` | src/splay.cpp:154-162 | the join concatenates the in-order sequences and writes over a null right child |
| `IntervalOps.CutBelowSplay` | src/splay.cpp:131-139 | the first split separates the intervals ending by start from those reaching past it |
| `IntervalOps.CutAboveSplay` | src/splay.cpp:140-152 | the second split separates the intervals starting before end from the others |
| `IntervalOps.StepRefines` | src/splay.cpp:58-163 | each operation acts on the node set as on a plain set of intervals, with the set's answer |
| `IntervalOps.RunRefinesSet` | src/splay.cpp:58-163 | any run from the empty tree: the contents are those of the plain set and every answer is the set's answer |
| `SplayTree.Splay` | src/splay.cpp:6-56 | the in-place loop terminates and returns a well-formed unshared tree of exactly the shape the recursive splay gives, touching only the tree's own nodes, in the number of passes that the bound is about |
| `SplayTree.LinkRight` | src/splay.cpp:28-29 | linking the root into the right tree keeps the three trees where the pointers say, without a shared node |
| `SplayTree.LinkLeft` | src/splay.cpp:42-43 | the same for the left tree |
| `SplayTree.RotateRight` | src/splay.cpp:19-23 | the rotation gives the rotated tree over the same nodes |
| `SplayTree.RotateLeft` | src/splay.cpp:33-37 | the mirror image |
| `SplayTree.GoLeft` | src/splay.cpp:16-29 | one pass towards the left keeps the three trees and leads to the same final tree with one pass less to go, or is the last |
| `SplayTree.GoRight` | src/splay.cpp:30-43 | the same towards the right |
| `SplayTree.LeftSpineFilled` | src/splay.cpp:7-11 | filling the hole of the left spine makes the tree hanging from the dummy header |
| `SplayTree.RightSpineFilled` | src/splay.cpp:7-11 | the same for the right spine |
| `SplayTree.PassRight` | src/splay.cpp:16-29 | one pass towards the left keeps what the loop will finally assemble |
| `SplayTree.PassLeft` | src/splay.cpp:30-43 | one pass towards the right keeps what the loop will finally assemble |
| `SplayTree.AssembleRoot` | src/splay.cpp:49-53 | the final assembly hangs both spines under the root |
| `SplayTree.Lookup` | src/splay.cpp:58-69 | a node and its start exactly when some stored interval contains the address; otherwise null and the start address untouched |
| `SplayTree.Insert` | src/splay.cpp:71-112 | the heap tree and the return code are those of the specification; a refused node is not written |
| `SplayTree.Delete` | src/splay.cpp:114-163 | the two heap trees are those of the specification |
| `SplayTree.SplitLow` | src/splay.cpp:131-139 | the two pieces of the first split |
| `SplayTree.SplitHigh` | src/splay.cpp:140-152 | the two pieces of the second split, for an empty tree too |
| `SplayTree.JoinTrees` | src/splay.cpp:154-162 | the joined tree, in each of the three cases |
| `SplayTree.Execute` | src/splay.cpp:58-163 | one operation answers, and hands back the deleted tree, as specified |
| `SplayTree.ExecuteAll` | src/splay.cpp:58-163 | any run of heap operations ends in a tree holding the plain set's intervals, with the plain set's answers; each tree handed back by a deletion is a tree of exactly the deleted intervals until one of its nodes is inserted again; the loop passes are within m (26 log2 m + 6) |
| `RangeSets.GetRangeCorrect` | src/range.h:69-77 | the predecessor lookup finds a range exactly when one covers the key, and then that one |
| `RangeSets.GetRangeByMembers` | src/range.h:69-77 | the lookup gives r if and only if r is stored and covers the key |
| `RangeSets.EmplaceKeepsDisjoint` | src/range.h:38-43 | inserting into free space keeps the ranges sorted and disjoint and adds exactly one |
| `RangeSets.InsertPointwise` | src/range.h:38-43 | afterwards exactly the keys of the new range map to it and the others are unchanged |
| `RangeSets.RemoveMembers` | src/range.h:57-67 | succeeds exactly when a range starts at the key, and takes exactly that range |
| `RangeSets.RemovePointwise` | src/range.h:57-67 | afterwards exactly the keys of the removed range are undefined and the others are unchanged |
| `RangeSets.RangesInsideCorrect` | src/range.h:89-103 | the walk with its early break gives exactly the contained ranges, in order |
| `RangeSets.PastEnd` | src/range.h:94-101 | nothing from the range at which the walk breaks on is contained |
| `RangeSets.ExactlyInside` | src/range.h:45-55 | the two-key remove acts exactly when a range with both ends equal is stored |
| `RangeSets.RangeSet.Insert` | src/range.h:38-43 | reports success; in free space the set stays disjoint and maps exactly the new keys to the data |
| `RangeSets.RangeSet.GetRangesInside` | src/range.h:89-103 | returns the contained ranges in order |
| `RangeSets.RangeSet.RemoveRange` | src/range.h:45-55 | succeeds exactly when a range with both ends is stored |
| `RangeSets.RangeSet.Remove` | src/range.h:57-67 | removes the range that starts at the key, and reports whether there was one |
| `RangeSets.RunRefines` | src/range.h:38-67 | any run of disjoint inserts and removes represents the partial map the same run gives pointwise |
| `RangeSets.AnswersRefine` | src/range.h:38-67 | every result of such a run is the partial map's result |
| `LineTables.ScanLine` | src/agent.cpp:266-274 | the scan returns the line of the last entry before the first later one that starts past the location |
| `LineTables.LineIndexFinds` | src/code_cache.cpp:102-119 | the index maps a location to the line of the last entry starting at or before it, duplicates included, and nothing outside |
| `LineTables.IndexAgreesWithScan` | src/code_cache.cpp:102-119 | on a sorted table, from the first start to the method end, index and scan give the same line |
| `LineTables.LineIndexDisjoint` | src/code_cache.cpp:102-119 | the ranges built from a sorted table never overlap |
| `LineTables.EntriesLoad` | src/code_cache.cpp:102-112 | on locations that are not negative no range constructor fails its assert |
| `LineTables.LoadMapTiles` | src/code_cache.cpp:137-177 | no assert fails if and only if no range looked at reaches past the code; the loaded ranges tile the code from its start without gap or overlap, up to the last address or the first location that cannot be resolved |
| `LineTables.LoadMapCanAbort` | src/code_cache.cpp:163-167 | for every code span, a two-entry increasing map on which the assert about the code end fails |
| `LineTables.TilingFinds` | src/code_cache.cpp:188-198 | in such a tiling an address gets the line of the first map entry whose address exceeds it |
| `LineTables.Addr2LineCorrect` | src/code_cache.cpp:188-198 | addr2line gives the line of the location of the first map entry past the address, or 0 beyond the resolved part |
| `LineTables.Addr2LineOffCode` | src/code_cache.cpp:188-198 | with a loaded map, an address below the code, or past it and past the last range, fails the assert |
| `LineTables.LineOfLocation` | src/code_cache.cpp:68-121 | on a sorted table a covered location has the line of the last entry at or before it, any other location, a negative one too, has none |
| `LineTables.AddrLineIsTableLine` | src/code_cache.cpp:137-198 | the two loads together: the line of a code address is that of the last table entry at or before the location of the first map entry above the address, and 0 when that location or an earlier one is not covered |
| `LineTables.CompiledMethod.LoadBciLineTable` | src/code_cache.cpp:68-121 | the loop builds the index, only for a managed method without one whose tables are available; it fails exactly when some range has its bounds reversed in 64-bit unsigned order, as a start below zero can make it |
| `LineTables.CompiledMethod.LoadAddrLocationMap` | src/code_cache.cpp:137-186 | the loop builds the specified address ranges, or fails on the assert about the address order |
| `CodeCache.IsAddrInExact` | src/code_cache.cpp:130-135 | the wrapped-sum test is the half-open span exactly for a good span |
| `CodeCache.SpinLock.TryLock` | src/lock.h:7-9 | takes the lock exactly when it was free |
| `CodeCache.SpinLock.Unlock` | src/lock.h:18-22 | frees a held lock and leaves a free one free |
| `CodeCache.GetMethodByVersion` | src/code_cache.cpp:318-336 | version 0 asks for the method with the largest version; any other for a method with that version, or none if there is none |
| `CodeCache.CodeCacheManager.BeginAdd` | src/code_cache.cpp:386-403 | the first locked part of addMethod: the group exists and the next version is issued |
| `CodeCache.CodeCacheManager.FinishAdd` | src/code_cache.cpp:303-305 | the second locked part: the method is in its group and in the range set, with the range end computed in 64 bits; it fails exactly when that end is below the start |
| `CodeCache.CodeCacheManager.RemoveMethod` | src/code_cache.cpp:441-449 | for a known id the method at the address leaves its group and the range set, with the range assert as result; an unknown id changes nothing |
| `CodeCache.CodeCacheManager.GetMethodByAddr` | src/code_cache.cpp:451-456 | the answer of the range set, with the lock free again |
| `CodeCache.CodeCacheManager.GetMethodById` | src/code_cache.cpp:458-464 | a live method of that id with the largest version, if there is one |
| `CodeCacheProtocol.NextKeepsInv` | src/code_cache.cpp:386-409 | every step of every thread keeps the protocol's invariant |
| `CodeCacheProtocol.BeginKeepsInv` | src/code_cache.cpp:386-464 | a thread may start an addition of free code, a removal of a published method, or a lookup at any time |
| `CodeCacheProtocol.FindKeepsInv` | src/code_cache.cpp:388-400 | finding or making the group keeps the invariant |
| `CodeCacheProtocol.NumberKeepsInv` | src/code_cache.cpp:282-286 | issuing a version and entering the unlocked window keeps it |
| `CodeCacheProtocol.PublishKeepsInv` | src/code_cache.cpp:303-305 | publishing after the unlocked window keeps it, whatever others did meanwhile |
| `CodeCacheProtocol.AddRangeKeepsInv` | src/code_cache.cpp:407-408 | the range insert inside the assert keeps it |
| `CodeCacheProtocol.UnpublishKeepsInv` | src/code_cache.cpp:308-316 | taking a method out of its group keeps it |
| `CodeCacheProtocol.RemoveRangeKeepsRanges` | src/code_cache.cpp:447-448 | the assert on the range removal holds, and exactly the removed method's range goes |
| `CodeCacheProtocol.RunKeepsInv` | src/code_cache.cpp:386-464 | the invariant holds in every state of every run of any number of threads |
| `CodeCacheProtocol.LockFreeAgreement` | src/code_cache.cpp:386-449 | in every run no assert fails, and whenever the lock is free the group maps and the range set describe the same live methods, and an address lookup gives m exactly when m is live and isAddrIn holds |
| `CodeCacheProtocol.LookupsAreRight` | src/code_cache.cpp:451-464 | in every run each lookup answers by address with the live method around it and by id with the live method of the largest version, or nothing when there is none |
| `CodeCacheProtocol.VersionsUniqueExactly` | src/code_cache.cpp:282-286 | in every run the versions issued to a group are distinct if and only if at most 2^32 were issued |
| `CodeCacheProtocol.LargestVersionIsLatest` | src/code_cache.cpp:318-336 | in every run with fewer than 2^32 additions, the live method with the largest version is the one numbered last, whatever the order of publishing |
| `CodeCacheRuns.AnyNumberIssued` | src/code_cache.cpp:281-316 | for every n some run of one thread has issued exactly n versions |
| `CodeCacheRuns.VersionIsReused` | src/code_cache.cpp:282 | a run in which additions 1 and 2^32 + 1 have the same version |
| `CodeCacheRuns.LargestIsLatestExactly` | src/code_cache.cpp:318-336 | in all runs with n additions the largest version is the one numbered last, if and only if n < 2^32 |
| `CodeCacheRuns.OldestWins` | src/code_cache.cpp:318-336 | for every larger n, a run in which an older live method has the largest version |
| `CodeCacheRuns.LaterVersionPublishedFirst` | src/code_cache.cpp:286-304 | a run of two threads in which version 2 is published before version 1, and stays the answer by id |
| `WordArithmetic.MaskIsRemainder` | src/perf_mmap.cpp:41-42 | the mask by a power of two minus one is the remainder |
| `WordArithmetic.WrappedDistance` | src/perf_mmap.cpp:36 | the 64-bit difference of two wrapped counters is their true distance |
| `WordArithmetic.OffsetOfWrapped` | src/perf_mmap.cpp:41-42 | the buffer offset of a wrapped counter is that of the unwrapped one |
| `WordArithmetic.ToInt32` | src/profiler.cpp:95-104 | what %d shows of a number: in the signed 32-bit range, and the number less a multiple of 2^32 |
| `WordArithmetic.ToInt64` | src/agent.cpp:301 | the same for %ld and 64 bits |
| `WordArithmetic.SameInt32` | src/profiler.cpp:95 | %d shows two numbers alike exactly when their low 32 bits agree |
| `PerfRing.CopiedAt` | src/perf_mmap.cpp:44-56 | the two-piece copy takes the bytes at the successive offsets round the buffer |
| `PerfRing.ReadIsSlice` | src/perf_mmap.cpp:25-63 | a read gives the stream slice [tail, tail + n) and advances by n, or leaves everything unchanged when the bytes are not there |
| `PerfRing.ReadsCompose` | src/perf_mmap.cpp:25-63 | reading n and then m is reading n + m |
| `PerfRing.SkipExact` | src/perf_mmap.cpp:16-22 | a skip advances by min(n, available) if and only if the sum carries just when the head is below the tail |
| `PerfRing.SkipFails` | src/perf_mmap.cpp:16-22 | otherwise a skip of less than what is there goes to the head, and one of more goes on by n past 2^64, below where it was |
| `PerfRing.SkipBeforeWrapLosesBytes` | src/perf_mmap.cpp:16-22 | with the head wrapped and the sum not, a skip of two bytes drops all four that are unread |
| `PerfRing.SkipAcrossWrapMovesBack` | src/perf_mmap.cpp:16-22 | with the sum carried and the head not wrapped, a skip moves the tail back |
| `PerfRing.SkipRecordExact` | src/perf_mmap.cpp:215-219 | header and skip together net exactly the record size or stop at the head, for every size from 1, if and only if tail plus size carries just when the head is below the tail |
| `PerfRing.SkipRestNets` | src/perf_mmap.cpp:220-227 | skipping all leaves the tail at the head |
| `PerfRecords.FieldExactly` | src/perf_mmap.cpp:99-101 | a field is read as x exactly when its bytes are those of x, byte i holding the bits from 8 i on |
| `PerfRecords.HeaderExactly` | src/perf_mmap.cpp:93-95 | a header is read exactly from the bytes of its kind, misc and size, in 4, 2 and 2 bytes |
| `PerfRecords.PreciseIsBit14` | src/perf_interface.cpp:320 | a sample is precise exactly when the bit-wise and of misc with 0x4000 is not zero |
| `PerfRecords.SampleExactly` | src/perf_mmap.cpp:103-116 | a sample is read as x exactly when its bytes are x's instruction pointer in 8, process and thread id in 4 each, data address in 8 and cpu in 4, where the type has them, and the others are zero |
| `PerfRecords.SampleItem` | src/perf_interface.cpp:316-323 | where the bytes of a sample record are, the numbers they were made of are handed on |
| `PerfRecords.ParseOfRecords` | src/perf_interface.cpp:309-333 | the parse of any stream of records gives back the numbers of its sample records, in order |
| `PerfRecords.ParseSkipsRecords` | src/perf_interface.cpp:309-333 | whole skipped records of size 8 or more are passed record by record: parsing resumes exactly behind them, at the end of the stream too |
| `PerfRecords.ShortParsesWell` | src/perf_interface.cpp:325-331 | until nearly 2^64 bytes have been produced no record meets the failing case of a skip |
| `PerfMmaps.PerfMmap.ReadFrom` | src/perf_mmap.cpp:25-63 | 0 with the next n stream bytes, 1 with nothing changed when they are not there, -1 for a null page |
| `PerfMmaps.PerfMmap.ReadBytes` | src/perf_mmap.cpp:29-62 | on a mapped page the memcpy code returns the next n stream bytes and leaves the rest of the output alone, or changes nothing |
| `PerfMmaps.PerfMmap.SkipBytes` | src/perf_mmap.cpp:16-22 | the tail moves as the skip on ring values |
| `PerfMmaps.PerfMmap.ReadHeader` | src/perf_mmap.cpp:93-95 | the header whose bytes are at the tail, exactly when 8 bytes are there |
| `PerfMmaps.PerfMmap.ReadSample` | src/perf_mmap.cpp:97-209 | exactly when all bytes of the enabled fields are there, the sample of which these are the bytes: instruction pointer, process, thread, data address, cpu |
| `PerfMmaps.PerfMmap.SkipAll` | src/perf_mmap.cpp:220-227 | consumes the rest of the stream |
| `PerfMmaps.PerfMmap.SkipRecord` | src/perf_mmap.cpp:215-219 | skips by the size less the header, in 64-bit arithmetic |
| `PerfMmaps.PerfMmap.Remaining` | src/perf_mmap.cpp:211-213 | the number of unread bytes |
| `PerfMmaps.PerfMmap.DrainOne` | src/perf_interface.cpp:314-332 | one pass advances the tail strictly, never past the head, to the item after the one parsed; where the bytes of a sample record are, its numbers are handed on |
| `PerfMmaps.PerfMmap.Drain` | src/perf_interface.cpp:309-333 | the loop terminates with the samples the stream parses to, on a stream of records their numbers in order, and with tail = head unless a truncated sample fails the assert |
| `PerfProtocol.NextKeepsInv` | src/perf_mmap.cpp:16-63 | every step of kernel and reader, a failing skip included, keeps the last bytes of the stream in the ring and the tail at a position of what has been published |
| `PerfProtocol.WriteKeepsInv` | src/perf_mmap.cpp:25-63 | a byte written up to a buffer ahead of the tail touches no unread byte |
| `PerfProtocol.CopyKeepsInv` | src/perf_mmap.cpp:44-56 | each byte copied is the next of the stream, although the producer writes in between |
| `PerfProtocol.SkipKeepsInv` | src/perf_mmap.cpp:16-22 | after any skip, from whatever older head, the tail stands for a position of the published stream |
| `PerfProtocol.CommitKeepsInv` | src/perf_mmap.cpp:58-59 | moving the tail hands over exactly the bytes copied while the producer went on writing |
| `PerfProtocol.SkipEffect` | src/perf_mmap.cpp:16-22 | a skip passes min(n, what its head showed); failing, it goes to that head and loses the rest, or goes back by 2^64 - n |
| `PerfProtocol.RoomKeptExactly` | src/perf_mmap.cpp:16-22 | a step leaves the tail at overwritten bytes exactly when it is a failing skip that goes back too far |
| `PerfProtocol.StepInStep` | src/perf_mmap.cpp:16-63 | a step leaves the tail where it is due exactly when it is no failing skip |
| `PerfProtocol.InStepExactly` | src/perf_mmap.cpp:16-63 | in every run no byte has been lost or passed twice if and only if no skip failed its condition for the head it loaded |
| `PerfProtocol.ReadReturnsNextBytes` | src/perf_mmap.cpp:25-63 | in every run a finished read returns exactly the next bytes of the stream unless they have been written over, which without failing skips they never are |
| `PerfDrain.NextKeepsInv` | src/perf_interface.cpp:309-333 | every access of the drain loop and every step of the kernel keeps the loop at its place in a record and the samples before it real |
| `PerfDrain.KernelKeepsPlace` | src/perf_interface.cpp:309-333 | what the kernel writes or publishes meanwhile does not disturb the loop |
| `PerfDrain.AwaitFieldKeepsPlace` | src/perf_mmap.cpp:97-123 | a sample is read field by field; the assertion fails exactly when the field is not there |
| `PerfDrain.AwaitRecordKeepsPlace` | src/perf_mmap.cpp:215-219 | a skipped record of any size, 1 to 7 included, leaves the loop behind the record's start |
| `PerfDrain.FieldsEnd` | src/perf_interface.cpp:316-323 | the bytes of a header of kind 9 and of the fields of the sample handed on are the published ones |
| `PerfDrain.RoomKeptExactly` | src/perf_mmap.cpp:215-219 | the loop comes to overwritten bytes exactly by a record skip that goes back to them |
| `PerfDrain.SamplesAreReal` | src/perf_interface.cpp:309-333 | in every interleaving with every publication, the bytes of each sample handed on stand in the published stream behind a header of kind 9, positions increase, and no byte is in two samples |
| `PerfDrain.DoneLeavesNothing` | src/perf_interface.cpp:309-315 | when the loop is done, everything that was published when it last looked has been read or skipped |
| `PerfDrain.SamplesGrow` | src/perf_interface.cpp:309-333 | samples handed on and their places are never taken back |
| `PerfDrain.AbortsExactly` | src/perf_interface.cpp:315-321 | an assertion of the loop fails exactly when a sample is cut off at the head it loaded; headers are always there |
| `PerfFrames.GotHeaderKeepsFraming` | src/perf_interface.cpp:316-331 | when complete records are published, a sample or a record to skip is taken at its true beginning |
| `PerfFrames.NextKeepsFramedInv` | src/perf_interface.cpp:309-333 | every step keeps the loop at a record's beginning, or behind what is read of a longer sample record |
| `PerfFrames.HandsOnRecords` | src/perf_interface.cpp:309-333 | in every interleaving that publishes complete records no assertion fails and every sample handed on is that of a sample record |
| `PerfFrames.DropsPublished` | src/perf_interface.cpp:325-327 | after a sample from a longer record no record published by then is ever handed on |
| `PerfFrames.KernelRecordStops` | src/perf_util.cpp:35-38 | the call chain that the events ask for reads as a header of size 0 |
| `PerfFrames.OnlyFirstSample` | src/perf_interface.cpp:309-333 | with the kernel quiet exactly the first sample record of what has been published is handed on |
| `PerfFrames.ThreadSamplesDrop` | src/perf_interface.cpp:309-333 | the two for this program's events: in every run no assertion fails, and a record published before a sample was handed on is not handed on after it |
| `PerfWhole.NextKeepsWhole` | src/perf_interface.cpp:309-333 | where a sample record is just what is read of it, every step keeps the samples handed on those before the loop's place |
| `PerfWhole.SamplesArePrefix` | src/perf_interface.cpp:309-333 | then, without failing skips, no assertion fails and the samples handed on are a prefix of those of the stream at any later time |
| `PerfWhole.DoneIsComplete` | src/perf_interface.cpp:309-333 | then, when the loop finds nothing more, it has handed on the samples of everything published: the numbers of its sample records, in order |
| `PerfWhole.RecordsAreWhole` | src/perf_interface.cpp:309-333 | every stream of records, samples with just the fields that are read, is of this kind |
| `ContextTrie.AddKeepsTrie` | src/new_context.cpp:118-142 | adding keeps every parent id below its child's and siblings distinct on the five-field key |
| `ContextTrie.PathsAreUnique` | src/new_context.h:59-65 | two contexts are the same if and only if their key paths from the root are equal |
| `ContextTrie.AddFindsPath` | src/new_context.cpp:118-142 | the context returned has the parent's path plus the key, and a new one is made exactly when no context had that path |
| `ContextTrie.RunIsTrie` | src/new_context.cpp:97-142 | any sequence of calls, on contexts or by id, makes an interning trie whose ids are those of the 32-bit counter and whose id map leads to the newest context with each id |
| `ContextTrie.RunIdsDistinctExactly` | src/new_context.cpp:118-142 | in every run the ids are distinct if and only if at most 2^32 contexts were made, and exactly then id 0 leads to the root |
| `ContextTrie.FoundById` | src/new_context.cpp:111-116 | a context is what its id leads to if and only if fewer than 2^32 contexts were made after it |
| `ContextTrie.RootIdIsReused` | src/new_context.cpp:121-139 | the call that makes one context more than 2^32 gives it the root's id and place in the id map |
| `ContextTrie.RunOfSize` | src/new_context.cpp:118-142 | a run can make any number of contexts |
| `ContextTrie.NewContext.FindChild` | src/new_context.cpp:51-59 | a child that agrees in bci, method id, binary address, numa node and method version, exactly when there is one |
| `ContextTrie.KeysAreFields` | src/new_context.h:59-65 | keys are the same exactly when the five fields are |
| `ContextTrie.SameContextExactly` | src/new_context.cpp:118-142 | two calls under a parent answer the same context exactly when the two frames agree in all five fields |
| `ContextTrie.NewContext.AddChild` | src/new_context.cpp:45-49 | the child joins the set and points back |
| `ContextTrie.NewContextTree.constructor` | src/new_context.cpp:97-102 | the tree holds the root as context 0 |
| `ContextTrie.NewContextTree.AddContext` | src/new_context.cpp:118-142 | the answer is a child of the parent that agrees with the frame in the five fields, an old one exactly when there was one; the linked objects, the counter and the id map mirror the tree value after every call, also when ids wrap |
| `ContextTrie.NewContextTree.AddContextById` | src/new_context.cpp:111-116 | the same, five fields included, for the parent that the id map names, or a failed assert when it names none |
| `Text.SplitJoin` | scripts/ezview_fmt_gen/android-converter.py:211-222 | splitting at a character undoes joining with it, for parts free of it |
| `Text.ReadIntOfDecimal` | scripts/ezview_fmt_gen/android-converter.py:217 | reading a printed integer gives it back |
| `Text.DecimalIsPlain` | src/profiler.cpp:95 | %d prints digits without leading zeros, behind a minus sign for a negative number |
| `Text.ReadIntExactly` | scripts/ezview_fmt_gen/android-converter.py:217 | exactly white space, a sign or none, digits and white space are read, as the number they stand for |
| `Text.UniversalFirst` | scripts/ezview_fmt_gen/android-converter.py:211 | in text mode each of the three line ends becomes one line feed |
| `Text.FileLinesCut` | scripts/ezview_fmt_gen/android-converter.py:211 | iterating over a file gives what the line feeds cut its text into, none missing and none doubled |
| `Text.FileLinesSnoc` | scripts/ezview_fmt_gen/android-converter.py:211 | with lines ended as in text mode, a line added to complete lines is read as one more line |
| `TraceFormat.Output.Write` | src/io.cpp:63-71 | text below the buffer size is appended whole |
| `TraceFormat.PrintPath` | src/profiler.cpp:93-123 | the loops of both printers add the kept frames, each followed by a blank, and the metric, or nothing for an empty path |
| `TraceFormat.PrintAlloc` | src/agent.cpp:250-301 | the loop adds the stack from the outermost frame in, without the frames of the method left out, and the counter, or nothing |
| `TraceFormat.AllocFramesExactly` | src/agent.cpp:250-301 | the frames printed of a stack are those at exactly the indices whose method is not the one left out, from the highest down |
| `TraceFormat.KeptExactly` | src/profiler.cpp:93-102 | the frames printed of a path are those at exactly the first index and the indices where the method changes, in order |
| `TraceFormat.KeptAreRunHeads` | src/profiler.cpp:93-105 | the kept frames are the first frames of the maximal runs of equal adjacent method ids, in order |
| `TraceFormat.ParseLine` | scripts/ezview_fmt_gen/android-converter.py:211-222 | the parsing loop computes the frames and metric of a line, skips lines without the separator, and raises on malformed ones |
| `TraceFormat.ReadLineSkips` | scripts/ezview_fmt_gen/android-converter.py:213-214 | a line is skipped exactly when it holds no blank followed by a bar |
| `TraceFormat.ReadLineExactly` | scripts/ezview_fmt_gen/android-converter.py:215-222 | any other line raises exactly when a blank-separated piece before its first bar has no colon or what follows up to the next is no number; otherwise each piece is read as line and method id, and the number as the metric |
| `TraceFormat.RoundTrip` | src/profiler.cpp:93-105 | printing any non-empty path and parsing the line gives the path with each run cut to its first frame, and the printed metric |
| `TraceFormat.AllocRoundTrip` | src/agent.cpp:250-301 | printing a stack and parsing the line gives its frames, none cut, and the printed counter |
| `TraceFormat.IdReadsBack` | src/profiler.cpp:97 | a frame's id reads back as the signed 32-bit number with its low 32 bits |
| `TraceFormat.PrintedIdsEqual` | src/profiler.cpp:95 | two methods have the same printed id exactly when the low 32 bits of their ids agree |
| `TraceFormat.PrintedIsLine` | src/profiler.cpp:93-105 | what is printed for a path is one line of text |
| `ContextExport.GetContextIdWalks` | scripts/ezview_fmt_gen/android-converter.py:57-75 | the context of a path is reached by walking its frames, and no earlier context, parent or child link changes |
| `ContextExport.ContextIsItsPath` | scripts/ezview_fmt_gen/android-converter.py:57-75 | two frame paths lead to the same context if and only if they are equal |
| `ContextExport.KeyTextInjective` | scripts/ezview_fmt_gen/android-converter.py:57-75 | the text key of a child determines its frame |
| `ContextExport.ContextArray.GetId` | scripts/ezview_fmt_gen/android-converter.py:57-75 | the recursion over the shared array makes the same contexts as the function on values, and raises exactly when some frame does not read as numbers |
| `ContextExport.AddRecordKeepsExport` | scripts/ezview_fmt_gen/drcctprof_data_builder.py:126-139 | adding a record keeps parents above their children in the trie, parents before children and each child listed once |
| `ContextExport.AddRecordKeepsDirect` | scripts/ezview_fmt_gen/drcctprof_data_builder.py:126-139 | if each record so far is under its parent in the trie and the new one is, all are |
| `ContextExport.Profile.AddContext` | scripts/ezview_fmt_gen/drcctprof_data_builder.py:126-139 | the tables change as on values |
| `ContextExport.Profile.AddSample` | scripts/ezview_fmt_gen/drcctprof_data_builder.py:188-203 | raises exactly when a line number is outside int64 or the metric of a sample outside uint64; otherwise adds records for the contexts that had none, each under the one before it, keeps the others under their parents, and adds one sample at the last context, none for an empty path |
| `LineExport.TraceMsgs` | scripts/ezview_fmt_gen/android-converter.py:226-249 | the memory-sample and cache-miss loops intern every prefix of the path and gather the known frames, or raise on the first unreadable one |
| `LineExport.AllocMsgs` | scripts/ezview_fmt_gen/android-converter.py:300-317 | the allocation loop gathers all frames, or none when it comes to an unknown method |
| `LineExport.MsgsAreRight` | scripts/ezview_fmt_gen/android-converter.py:226-252 | the gathered contexts go down the path, the last is that of the last known frame, and there are none exactly when there is no sample |
| `LineExport.ExportLine` | scripts/ezview_fmt_gen/android-converter.py:223-252 | a line adds one sample at the context of its frames down to the last known one, or nothing; it raises exactly when a frame that is reached does not read as numbers, or a line with a sample has a metric or a known line number out of range |
| `LineExport.LastKnownExactly` | scripts/ezview_fmt_gen/android-converter.py:228-234 | the context of a line's sample is that of its last known frame |
| `LineExport.MsgsExport` | scripts/ezview_fmt_gen/android-converter.py:228-251 | a line with a sample leaves a record for each of its known frames and for no others, a new one under the context of the last known frame before |
| `LineExport.ExportAll` | scripts/ezview_fmt_gen/android-converter.py:181-252 | a loop over any list of files: it raises exactly when a line does; otherwise parents are above their children, for allocations just above, and the samples are those of all lines in order |
| `TraceToProfile.PrintoutParses` | scripts/ezview_fmt_gen/android-converter.py:211-222 | the file of any printout is parsed to the printed frames and numbers, call by call, and raises exactly when one of the printed lines does |
| `TraceToProfile.WalkedFrames` | scripts/ezview_fmt_gen/android-converter.py:57-75 | the frames on the way down to a context are those of the path that leads to it |
| `TraceToProfile.DepthIsDepth` | scripts/ezview_fmt_gen/android-converter.py:234 | how far the converter finds known methods in a line is how far the printed path has them |
| `TraceToProfile.SampleIffSomeKnown` | scripts/ezview_fmt_gen/android-converter.py:226-252 | a printed path has a sample if and only if one of its methods is known, those cut from runs included |
| `TraceToProfile.RaisesExactly` | scripts/ezview_fmt_gen/drcctprof_data_builder.py:188-203 | with digit scopes a printed line raises if and only if it has a sample and its number is negative or from 2^64 on, or a known method's scope is 2^63 or more |
| `TraceToProfile.TraceMetricFits` | src/profiler.cpp:104 | the metric printed with %d exports if and only if its low 32 bits are below 2^31 |
| `TraceToProfile.AllocCounterFits` | src/agent.cpp:301 | the counter printed with %ld exports if and only if it is below 2^63 |
| `TraceToProfile.SamplesOfCalls` | scripts/ezview_fmt_gen/android-converter.py:211-252 | the samples of a printout are those of the calls that have one, in order, at the right contexts |
| `TraceToProfile.ProfileTraces` | src/profiler.cpp:93-123 | memory samples and cache misses from call paths to the profile: one sample for each path with a known method, in order, at the context whose frames are those where a run of one method begins, down to the last of these with a known method, with the low 32 bits of the metric, signed; it raises exactly when one of the printed lines does |
| `TraceToProfile.ProfileAllocs` | src/agent.cpp:250-301 | allocations from stacks to the profile: one sample for each stack with a frame to print and all of these known, in order, at the context whose frames are the whole stack from the outermost in but for the method left out, with the counter, signed; its records are a part of the trie |

## Left out

- PerfMmaps.PerfMmap.Drain: the records it skips meet the exact condition of `PerfRing.SkipRecordExact`; where a skip that does not goes is in `PerfProtocol.SkipEffect`.
- PerfMmaps.PerfMmap.DrainOne: the same for the record at the tail.
- PerfMmaps.PerfMmap.ReadSample: says what is read, not that the next record starts there; for this program's records it does not, as `PerfFrames` shows.
- PerfProtocol.InStepExactly: steps are sequentially consistent, so the memory barriers are assumed to work.
- PerfDrain.SamplesAreReal: for runs in which the loop does not come to overwritten bytes; `PerfDrain.RoomKeptExactly` says when a step takes it there.
- PerfFrames.ThreadSamplesDrop: the kernel publishes complete records, with zero in the reserved bits behind the cpu number.
- PerfWhole.SamplesArePrefix: for streams in which a sample record is just what is read of it, which are not those of this program's events.
- CodeCacheProtocol.LockFreeAgreement: loaded code ranges are disjoint and unloads name published methods that no other thread is removing; freeing a removed method while a lookup's answer is still in use is not modelled.
- LineTables.IndexAgreesWithScan: tables are sorted by start location and locations are not negative; on other tables ranges can overlap.
- LineTables.LoadMapTiles: address maps increase strictly and start above the code start.
- ContextTrie.RunIsTrie: deleting contexts and the order of the unordered containers.
- TraceFormat.PrintPath: pieces of 1024 characters or more, on which the output routine aborts, are excluded.
- TraceFormat.PrintAlloc: the same; the scope strings made from the line number table are given.
- TraceToProfile.ProfileTraces: one printout and one file; `LineExport.ExportAll` is about any list of files.
- TraceFormat.Output.Write: takes the formatted text; format expansion, a stream that is not open and the returned count are not modelled.
- ContextExport.Profile.AddSample: the location, function and string tables that a sample also fills, whose keys are only told apart by hash; context ids are below 2^64.
- TraceFormat.RoundTrip: scopes are free of blanks, bars, colons and line ends, as digit scopes are; the integer reader takes ASCII blanks, a sign and digits, not the underscores and other digits that Python allows.
- LineExport.ExportAll: exports ids, parents, children and samples, for method maps already read; the paths in the method maps and the order of threads are parameters.
- CodeCacheManager's table of methods that are not compiled and the per-thread method cache: plain maps beside the three indices.
- `isDisjointRange` and `getRangesIntersect` of RangeSet: they call data members and cannot be instantiated.
- `src/context.cpp`: the same tree as `src/new_context.cpp`.
- Context payload of a splay node: an opaque number; allocation failure and freeing of nodes.
- Decoding of the scope string: joining numbers with "0" cannot be undone uniquely.
- Live-object tracking and active memory: it subtracts a tag rather than a size, so there is no conservation law.
- The `inside_agent` flag: one handler path returns without clearing it, so it excludes no re-entry.
- JVMTI and JNI calls, perf set-up, signals, thread keys and files: calls into code outside the repository; their results are parameters.
- Metrics, XML output, argument parsing, statistics and floating-point scaling.
