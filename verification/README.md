# Verified model of the profiler's algorithmic core

The Tracy profiler that is bundled with this repository contains several pieces of intricate sequential and
concurrent code. This project restates them in Dafny, in the form they have in C++ (classes whose methods
update their fields, loops over arrays, worker threads), and proves what they are for.

| Files | What they model |
|---|---|
| `EditScript`, `CommonSubsequence`, `Frontier`, `DiffTrace`, `Ses`, `Diff`, `UnifiedHunks`, `HunkCuts`, `DiffRoundTrip` | `tracy/dtl`: the O(NP) comparison with its frontier array and back-pointer table, the script container in both orders, the script patcher, the unified-hunk composer and its patcher |
| `Merge`, `Diff3`, `MergeRuns` | `tracy/dtl`: the three-way merge |
| `InfoWord`, `RobinHoodLayout`, `RobinHoodCrowds`, `RobinHood`, `RobinHoodRuns` | the robin-hood hash table (flat map) |
| `SortOrder`, `Inversions`, `PdqSort`, `BlockPartition` | pattern-defeating quicksort with both partitions |
| `Bytes`, `RoundRobin`, `FileFormat`, `WriterSteps`, `FileWrite`, `ReaderSteps`, `FileRead`, `FileRoundTrip` | the trace file pipeline: N compressing or decompressing workers with double buffers, as step systems over all interleavings and as the producer's and consumer's methods |
| `TaskDispatch` | the job queue with its barrier, as a step system |
| `ChildLists`, `FieldIO`, `Timeline`, `GpuTimeline` | saving and loading zone trees through the file pipeline |
| `ZoneTally`, `ZoneMeasures`, `ZoneStatistics`, `ZoneRuns`, `ZoneTimes` | zone statistics kept live, and made again from a loaded tree |
| `GhostForest`, `GhostZones` | ghost zones built from stack samples |
| `MemorySteps`, `MemoryPlot`, `MemoryTies`, `MemoryEvents`, `CpuUsage` | the memory usage plot, made again afterwards and while events come, and the CPU usage sweep |

How the parts hang together:

* **Comparison.** `Frontier` says, without mentioning any path, how far each diagonal of the edit grid can be
  followed with p surplus deletions. `DiffTrace` relates the frontier array and the recorded coordinates to that,
  `Diff.Diff.Search` keeps the relation through the rounds, and `CommonSubsequence` shows that no script and no
  common subsequence can do better than what the replay of the coordinates yields.
* **Hash table.** `RobinHoodLayout.Laid` is the invariant of the slots and info bytes. The lemmas about it treat
  inserting, erasing, relabelling and running out of room as changes of sequences; the methods of
  `RobinHood.Table` are proved to make just these changes, and to keep a ghost map `contents`. `RobinHoodCrowds` says,
  of the hash function alone, when there is room.
* **Sorting.** Any strict weak order, any stretch of an array. Array bounds are proved everywhere, so the unguarded
  scans are proved to stop within the stretch, at an element that the choice of the pivot left there.
* **Concurrency.** One action of a thread is one step, and every order of steps is a run. The methods of
  `FileWrite` and `FileRead` are the producer and the consumer; while they wait, the worker they wait for takes
  its steps. The two are linked: what the methods keep is the invariant of the step system.
* **Codecs.** A compressor is any function of the blocks it has seen and the next block; the only thing assumed of
  it (`FileFormat.Undoes`) is that its decoder undoes it block by block.

Where a property of the code does not hold without a condition, the condition is proved to be exact, or a
counterexample stands beside the theorem: the comparison completes if and only if the coordinate cap is not reached
(`Diff.Diff.Compose`), a file can be opened if and only if at least one byte was written
(`FileRoundTrip.RoundTrip`), an insertion into a hash table can overflow only if for some multiplier and size 127 keys
or more are at home in too few buckets, so never with fewer than 127 keys, and with one hash for all keys exactly from
127 keys on (`RobinHoodRuns.EmplaceSameHash`), one-byte nesting counters tell a re-entered location if and only if it is not
entered a positive multiple of 256 times (`ZoneStatistics.CountersWrap`), two scripts merge if and only if their
shapes fit (`Merge.MergeIsExact`), the memory plot stays at zero or above if and only if at no time more is freed
before it is allocated than is in use throughout (`MemorySteps.SignOfPlot`), and it equals the plot that grew while
the events came if and only if no allocation came before a free at the same time and frees at one time have one size
(`MemoryTies.AgreesHoweverSorted`; `MemoryEvents.TieTurned` is a run in which the two differ).

## Model

| member | source | states |
|---|---|---|
| Frontier.SnakeEndsFurthest | tracy/dtl/Diff.hpp:569-584 | the snake that starts on the better of the two neighbours ends on the furthest row its diagonal can reach with p surplus deletions |
| Frontier.StartWithinLevel | tracy/dtl/Diff.hpp:273-282 | until the far corner is reached every frontier point a snake starts from lies inside the M by N grid |
| Frontier.CornerReached | tracy/dtl/Diff.hpp:282-284 | the last diagonal reaches row N exactly at the level of the far corner, so p never exceeds the deletions a best script needs |
| DiffTrace.RowsAdvance | tracy/dtl/Diff.hpp:273-281 | following one snake moves exactly that diagonal of the frontier array to the current level, in both sweeps and for the delta diagonal |
| DiffTrace.NodeFromNeighbour | tracy/dtl/Diff.hpp:569-584 | the recorded coordinate and its back-pointer describe one edit followed by one snake, and the back-pointer is an earlier coordinate |
| CommonSubsequence.ScriptCostBound | tracy/dtl/Diff.hpp:256-260 | no insert/delete script between two sequences costs less than M + N minus twice the LCS length |
| CommonSubsequence.SubsequenceBound | tracy/dtl/Diff.hpp:256-260 | no common subsequence, however chosen, is longer than the LCS length |
| CommonSubsequence.DistanceIsLcs | tracy/dtl/Diff.hpp:256-260 | M + N minus twice the LCS length is attained by some script, so it is the edit distance |
| EditScript.Accounting | tracy/dtl/Ses.hpp:83-117 | what a script keeps counts in both its ends, and the rest of both ends is its cost |
| Diff.Diff.constructor | tracy/dtl/Diff.hpp:547-564 | the shorter input becomes the first one, and the swap is remembered so that both inputs can still be told apart |
| Diff.Diff.FollowSnake | tracy/dtl/Diff.hpp:569-584 | a maximal run of equal elements is followed, and one coordinate with the better neighbour's path entry is recorded; all indices are in range |
| Diff.Diff.Round | tracy/dtl/Diff.hpp:273-281 | a whole round takes every diagonal of level p from level p - 1 to level p, recording delta + 2p + 1 coordinates |
| Diff.Diff.Search | tracy/dtl/Diff.hpp:270-284 | the search ends with p the surplus deletions of a best script, or earlier just when the coordinates run out |
| Diff.Diff.CollectStops | tracy/dtl/Diff.hpp:285-300 | back-pointers strictly decrease to one root, and the stops on the way form a walk from the corner to the origin, one edit and one snake apart |
| Diff.Diff.RecordSequence | tracy/dtl/Diff.hpp:589-641 | the replay of a walk uses up both inputs and yields a script between them, its line numbers right, with the common elements as LCS, in the swapped case too |
| Diff.Diff.Compose | tracy/dtl/Diff.hpp:260-310 | completes exactly when (M - L)(N - L) is below the coordinate cap; then `editDistance` is the length of a shortest script, the script is a shortest one, and the recorded LCS is a longest common subsequence |
| Diff.Diff.Patch | tracy/dtl/Diff.hpp:231-253 | a script applied to anything that begins with its source yields its target and leaves the rest alone |
| Diff.Diff.ComposeUnifiedHunks | tracy/dtl/Diff.hpp:383-513 | the hunks and the commons between them are the script, the deletions of each gap in front, cut just where five commons or more stand in a row: each change begins with an edit, ends in three commons unless the script ends, and has as much context before it as there is, up to three; the headers locate each hunk between the source and the target of the script |
| HunkCuts.HunksDetermined | tracy/dtl/Diff.hpp:400-513 | a script is cut into hunks in one way only: what is stated of the hunks fixes them, headers included |
| HunkCuts.OneCut | tracy/dtl/Diff.hpp:461-511 | two ways of cutting one list of entries have the same changes, contexts, gaps and tail |
| Diff.Diff.UniPatch | tracy/dtl/Diff.hpp:182-226 | the first application of hunks to the sequence they describe yields the target; the headers end up shifted by the drift of the hunks before |
| UnifiedHunks.HunksComplete | tracy/dtl/Diff.hpp:400-513 | when every entry has been read and nothing but context is pending, the emitted hunks and the gaps between them are a script with the same ends |
| UnifiedHunks.DriftIsGrowth | tracy/dtl/Diff.hpp:187-198 | the running offset added to a header is what the earlier hunks have added to the length |
| UnifiedHunks.HunkFacts | tracy/dtl/Diff.hpp:188-226 | the moved header of a hunk is where the list position has to go, and leads to where it stands after the hunk |
| DiffRoundTrip.DiffAndPatch | tracy/dtl/Diff.hpp:231-253 | for all sequences, whichever is longer and in both script orders: compare, then patch the first, gives the second |
| DiffRoundTrip.DiffAndUniPatch | tracy/dtl/Diff.hpp:182-226 | for all sequences: compare, cut into hunks, patch the first by the hunks, gives the second |
| Ses.Ses.AddSequence | tracy/dtl/Ses.hpp:83-117 | a new entry goes to the end, or, a deletion in the deletes-first order, behind the deletions of its gap |
| Ses.InsertedProjections | tracy/dtl/Ses.hpp:83-117 | in either order a new entry ends up last in every projection it belongs to and in no other |
| Ses.BothOrdersAgree | tracy/dtl/Ses.hpp:83-117 | the deletes-first script has the source, target, commons and cost of the plain one and deletes before adds in every gap |
| Ses.DeletesFirstIsCanonical | tracy/dtl/Ses.hpp:83-117 | a deletes-first script is determined by its source entries and target entries alone |
| Merge.MergeIsExact | tracy/dtl/Diff3.hpp:117-203 | two scripts with the same source merge if and only if in no gap the insertions of one contradict those of the other; the result inserts and keeps in every gap what an independent description says |
| Merge.CombineSymmetric | tracy/dtl/Diff3.hpp:117-203 | exchanging the two changed sides changes neither the result nor the conflict |
| Merge.UnchangedSideYields | tracy/dtl/Diff3.hpp:83-103 | merged with a side that changed nothing a script stays as it is |
| Merge.SameChangesMerge | tracy/dtl/Diff3.hpp:117-203 | two sides that made the same changes never conflict and merge to just these |
| Diff3.ReadStep | tracy/dtl/Diff3.hpp:128-193 | each reading step keeps both cursors at the same position of the ancestor and writes what the merge of the rest demands |
| Diff3.Diff3.MergeScripts | tracy/dtl/Diff3.hpp:117-203 | reading two scripts side by side ends, and gives the target of their merge, or the ancestor and a conflict when they have none |
| Diff3.Diff3.AddDecentSequence | tracy/dtl/Diff3.hpp:235-240 | what is left of one script when the other ends loses nothing: all of it is appended |
| Diff3.Diff3.MergeSides | tracy/dtl/Diff3.hpp:83-103 | when one side did not change the other one is returned; otherwise the merge of both scripts; success exactly without conflict |
| MergeRuns.Merged3 | tracy/dtl/Diff3.hpp:61-110 | for all three sequences, unless a coordinate cap is reached: a side that did not change gives way to the other, equal changes give just these, and two changed sides merge exactly when no insertions contradict each other, to what the gap description says |
| MergeRuns.MergeEitherWay | tracy/dtl/Diff3.hpp:83-103 | two merges that differ in which changed side is called A and which C give the same sequence, or both a conflict |
| RobinHoodLayout.PathIsMonotone | tracy/server/tracy_robin_hood.h:1413-1435 | between a key's home and its slot no info byte is below the key's running info |
| RobinHoodLayout.NothingAhead | tracy/server/tracy_robin_hood.h:1427-1435 | a search that stops at a smaller info byte has not missed the key |
| RobinHoodLayout.OtherInfoOtherKey | tracy/server/tracy_robin_hood.h:1419-1430 | slots whose byte differs from the running info hold other keys, so skipping the key comparison there loses nothing |
| RobinHoodLayout.InsertKeepsLayout | tracy/server/tracy_robin_hood.h:1371-1388 | shifting up and writing the new byte keeps every slot's byte encoding its displacement and hash bits, and the order of the slots |
| RobinHoodLayout.EraseKeepsLayout | tracy/server/tracy_robin_hood.h:1390-1409 | backward-shift deletion keeps them too |
| RobinHoodLayout.HalvingKeepsLayout | tracy/server/tracy_robin_hood.h:2393-2419 | halving all info bytes gives the layout for one hash bit less and makes room for every node to move once more |
| RobinHoodLayout.RunEndsBeforeSentinel | tracy/server/tracy_robin_hood.h:2130-2149 | below the load limit an unbroken run of taken slots from a home bucket ends before the sentinel: a buffer of min(max load, 255) slots is enough |
| RobinHoodLayout.LabelAtHome | tracy/server/tracy_robin_hood.h:1342-1354 | the home bucket is the hash without its five low bits, reduced to the table; the info byte holds one increment and as many of these five bits as fit below it |
| RobinHoodLayout.InsertedRoom | tracy/server/tracy_robin_hood.h:1381-1386 | unless the load limit is zeroed, every byte may still move up once after an insertion, so none exceeds 0xFF |
| RobinHoodLayout.StoredStep | tracy/server/tracy_robin_hood.h:2221-2229 | a rehash meets each key once, and there is room for it in the new table |
| RobinHoodCrowds.NoRoomIsTight | tracy/server/tracy_robin_hood.h:1381-1386 | when a byte cannot move up although no hash bit is left to give up, some stretch of buckets is home to 126 keys more than it has buckets |
| RobinHoodCrowds.LaidIsNotOverfull | tracy/server/tracy_robin_hood.h:1371-1388 | in no table is a stretch of buckets home to 127 keys more than it has buckets |
| RobinHoodCrowds.FewAreNotCrowded | tracy/server/tracy_robin_hood.h:2393-2400 | fewer than 127 keys are never crowded, whatever the hash function |
| RobinHoodCrowds.SpreadIsNotCrowded | tracy/server/tracy_robin_hood.h:1342-1354 | keys of any number that each have a home of their own are never crowded |
| RobinHoodCrowds.SameHash | tracy/server/tracy_robin_hood.h:2385-2391 | with one hash for all keys 127 of them are crowded, and 128 are more than any table holds |
| RobinHood.Table.FindIdx | tracy/server/tracy_robin_hood.h:1413-1435 | finds the slot of a key if and only if the table maps it, staying within the info bytes |
| RobinHood.Table.Find | tracy/server/tracy_robin_hood.h:1965-1969 | agrees with looking the key up in a plain map |
| RobinHood.Table.ShiftDown | tracy/server/tracy_robin_hood.h:1390-1409 | the nodes of one run move down by one, up to the first that is at home or free, and no other |
| RobinHood.Table.ShiftInfoUp | tracy/server/tracy_robin_hood.h:1379-1387 | the info bytes move with their nodes, and the load limit is zeroed as soon as one could not move again |
| RobinHood.Table.FindFreeSlot | tracy/server/tracy_robin_hood.h:2375-2378 | the search for an empty slot ends at a real slot before the sentinel |
| RobinHood.Table.Erase | tracy/server/tracy_robin_hood.h:2044-2062 | removes exactly that key, and says whether it was there |
| RobinHood.Table.EraseAt | tracy/server/tracy_robin_hood.h:2027-2042 | removing the node of a slot removes exactly its key from the map |
| RobinHood.Table.TryIncreaseInfo | tracy/server/tracy_robin_hood.h:2393-2419 | relabels all info bytes in place, eight at a time, restores the sentinel, and fails exactly when no hash bit is left |
| InfoWord.WordHalvesEachByte | tracy/server/tracy_robin_hood.h:2406-2410 | eight info bytes loaded as one word, shifted, masked and stored back are halved one by one |
| RobinHood.Table.InsertMove | tracy/server/tracy_robin_hood.h:1444-1485 | a key known to be new is added to the map, or nothing changes but for an overflow that cannot be relieved |
| RobinHood.Table.RehashPowerOfTwo | tracy/server/tracy_robin_hood.h:2210-2243 | the new table has the same map; on overflow it is a part of the old one. It overflows, or stops at once again, only if for its multiplier and size the keys are tight |
| RobinHood.Table.IncreaseSize | tracy/server/tracy_robin_hood.h:2422-2449 | allocates, relabels, hashes with the next multiplier or doubles the size, each exactly when the source does; the map stays; it fails, or leaves no room, only if the keys are crowded for some multiplier and size |
| RobinHood.Table.InsertKeyPrepareEmptySpot | tracy/server/tracy_robin_hood.h:2341-2391 | either finds the key, or opens one slot such that writing the node there completes a table with one key more; reports an overflow only for a key that is not there while the others are crowded, so the 256 tries never run out otherwise; never does it place a node past the buffer |
| RobinHood.Table.Emplace | tracy/server/tracy_robin_hood.h:2254-2280 | adds a key that is missing and leaves one that is there; tells which; succeeds unless the keys are crowded, which takes 127 of them, and fails if with the new key they fit no table |
| RobinHood.Table.InsertOrAssign | tracy/server/tracy_robin_hood.h:2283-2309 | the map with the key set to the value; succeeds unless the keys are crowded, and fails if with the new key they fit no table |
| RobinHood.Table.Reserve | tracy/server/tracy_robin_hood.h:2187-2205 | keeps the map, and the table has the smallest size for c elements and its own, or its old size if that is no smaller and no rehash is forced |
| RobinHood.Table.Compact | tracy/server/tracy_robin_hood.h:2080-2097 | keeps the map, and the table has the smallest size for its elements, or its old size if that is no larger |
| RobinHood.OneSmallest | tracy/server/tracy_robin_hood.h:2082-2085 | the first doubling of 8 that may hold n elements is the least power of two that may |
| RobinHood.Table.Clear | tracy/server/tracy_robin_hood.h:1676-1694 | the empty map in the same storage |
| RobinHood.Table.Size | tracy/server/tracy_robin_hood.h:2099-2102 | the counter is the number of keys of the map |
| RobinHoodRuns.RunAll | tracy/server/tracy_robin_hood.h:1790-1830 | for any hash function, any run of all operations gives, one by one, the answers of a plain map, or reports an overflow; and that only if the keys were crowded at some moment, so never while there are fewer than 127 |
| RobinHoodRuns.EmplaceSameHash | tracy/server/tracy_robin_hood.h:2254-2280 | with one hash for all keys an insertion succeeds if and only if the key is there or there are fewer than 127 |
| PdqSort.InsertionSort | tracy/server/tracy_pdqsort.h:74-92 | a sorted rearrangement of the stretch |
| PdqSort.UnguardedInsertionSort | tracy/server/tracy_pdqsort.h:97-115 | the same without a bounds check, stopped by an element before the stretch that none in it is below |
| PdqSort.PartialInsertionSort | tracy/server/tracy_pdqsort.h:121-145 | rearranges the stretch, and it is sorted if it says so; it says so if and only if at most eight pairs of the stretch stood in the wrong order |
| Inversions.SortedHasNone | tracy/server/tracy_pdqsort.h:117-120 | no pair stands in the wrong order just in sorted sequences |
| Inversions.AboveAnyOrder | tracy/server/tracy_pdqsort.h:131-141 | over how many places an element is moved does not depend on how the elements before it have been sorted |
| PdqSort.Sort3 | tracy/server/tracy_pdqsort.h:154-158 | three elements in order, the others untouched |
| PdqSort.ChoosePivot | tracy/server/tracy_pdqsort.h:411-419 | median of three or pseudomedian of nine: one element not above the pivot and one not below it remain in the stretch to stop the scans |
| PdqSort.PartitionRight | tracy/server/tracy_pdqsort.h:326-364 | below the pivot, pivot, not below it; the scans stop within the stretch; the flag says exactly whether it was partitioned before |
| PdqSort.PartitionLeft | tracy/server/tracy_pdqsort.h:370-393 | not above the pivot, pivot, above it |
| PdqSort.PartitionRightBranchless | tracy/server/tracy_pdqsort.h:199-316 | the block partition meets the same contract as the plain one |
| BlockPartition.FillLeft | tracy/server/tracy_pdqsort.h:244-259 | the offset buffer names exactly the misplaced elements of the scanned block, in order |
| BlockPartition.FillRight | tracy/server/tracy_pdqsort.h:261-276 | the same for the right side, downwards |
| BlockPartition.SwapOffsets | tracy/server/tracy_pdqsort.h:172-192 | takes the first num misplaced elements of both sides to the other side, by swaps or by one cyclic move, and no other offset becomes wrong |
| BlockPartition.NonePending | tracy/server/tracy_pdqsort.h:236-295 | nothing is pending exactly when every scanned element is on its side |
| BlockPartition.LastMovedOut | tracy/server/tracy_pdqsort.h:297-307 | moving the last pending element to the border leaves just the earlier ones pending on a side that is one shorter |
| BlockPartition.PartitionBlocks | tracy/server/tracy_pdqsort.h:231-307 | block after block, with leftovers moved to the border, everything is on its side of the border and is a rearrangement |
| PdqSort.PdqSortLoop | tracy/server/tracy_pdqsort.h:397-488 | for any strict weak order the stretch becomes a sorted rearrangement, whatever the counter of bad partitions says, and nothing outside it is touched |
| PdqSort.SkipEquals | tracy/server/tracy_pdqsort.h:421-429 | when the pivot equals the element before the stretch, all elements equal to it are put in their final places at once |
| PdqSort.PdqSort | tracy/server/tracy_pdqsort.h:490-513 | sorts the given stretch with either partition |
| Bytes.BytesRoundTrip | tracy/server/TracyFileWrite.hpp:253-269 | numbers that fit their width survive being stored |
| Bytes.StoredLowFirst | tracy/server/TracyFileWrite.hpp:253-269 | byte i of a stored number is its digit i to the base 256 |
| Bytes.SignedLowFirst | tracy/server/TracyWorker.cpp:211-216 | so it is with a signed one: two's complement, low byte first |
| FileFormat.DecodesBlock | tracy/server/TracyFileRead.hpp:70-84 | a decoder that has seen the earlier chunks of its stream gives back the block that was encoded |
| FileFormat.PastIs | tracy/server/TracyFileWrite.hpp:232-251 | the blocks a stream has had before are every n-th one, in order |
| FileFormat.FileLayout | tracy/server/TracyFileWrite.hpp:186-197 | the bytes of a file: four that identify it, compression kind, number of streams; and where the frames before it end, the length of chunk i, low byte first, and what its stream's codec makes of block i |
| FileFormat.DividedOnlyOneWay | tracy/server/TracyFileWrite.hpp:208-251 | a byte stream can be divided in one way only into blocks all but the last of which are full: it does not matter in which pieces it was handed over |
| FileFormat.FrameAt | tracy/server/TracyFileRead.hpp:479-502 | chunk i and its length are where the frames before it end |
| FileFormat.HeaderParses | tracy/server/TracyFileRead.hpp:416-459 | the header written gives back the compression kind and the number of streams |
| WriterSteps.StepKeepsInv | tracy/server/TracyFileWrite.hpp:232-287 | every step of the producer or of any worker, in any order, keeps the invariant of the writing pipeline |
| WriterSteps.PhaseAdvances | tracy/server/TracyFileWrite.hpp:271-287 | a worker takes its handle through idle, input ready and output ready strictly in turn; no phase is left out |
| WriterSteps.FileInOrder | tracy/server/TracyFileWrite.hpp:232-287 | in every run, at every moment, the file is the header and the chunks of the first blocks in the order of their production, each stream having compressed its blocks in that order |
| WriterSteps.StoppedFile | tracy/server/TracyFileWrite.hpp:153-165 | once finished, the file is a function of the bytes written alone, whatever the workers' timing |
| WriterSteps.NoInterference | tracy/server/TracyFileWrite.hpp:85-105 | no worker touches the buffer being filled or the chunk being put in the file |
| WriterSteps.NoInterferenceInRuns | tracy/server/TracyFileWrite.hpp:271-287 | so it is at every moment of every run |
| WriterSteps.PreviousBlockStays | tracy/server/TracyFileWrite.hpp:85-105 | in every run, while a worker compresses, the previous block of its stream is still in the stream's other buffer, where a streaming codec refers to it |
| WriterSteps.HoldsInputBuffer | tracy/server/TracyFileWrite.hpp:236-243 | the buffer being filled is the input buffer of the stream whose turn it is, so what is submitted is what was written |
| WriterSteps.NeverStuck | tracy/server/TracyFileWrite.hpp:253-269 | the producer can go on, or waits for the oldest block, whose worker can go on and is done after at most four steps |
| FileWrite.FileWrite.Write | tracy/server/TracyFileWrite.hpp:167-177 | appends any number of bytes; a buffer they just fill stays until more bytes come |
| FileWrite.FileWrite.WriteBig | tracy/server/TracyFileWrite.hpp:214-230 | bytes crossing buffers are appended in order |
| FileWrite.FileWrite.WriteBlock | tracy/server/TracyFileWrite.hpp:232-251 | a full buffer is submitted to the stream whose turn it is and another idle buffer is taken |
| FileWrite.FileWrite.ProcessPending | tracy/server/TracyFileWrite.hpp:253-269 | the oldest submitted block, and no other, is put in the file |
| FileWrite.FileWrite.Finish | tracy/server/TracyFileWrite.hpp:153-165 | the finished file is the header and the chunks of all the bytes written, divided into full blocks and a last one |
| ReaderSteps.StepKeepsInv | tracy/server/TracyFileRead.hpp:479-517 | every step of the consumer or of any worker, in any order, keeps the invariant of the reading pipeline |
| ReaderSteps.PhaseAdvances | tracy/server/TracyFileRead.hpp:504-517 | a worker takes its handle through the phases strictly in turn and leaves the other buffer as it is |
| ReaderSteps.ReadsInOrder | tracy/server/TracyFileRead.hpp:519-584 | in every run the bytes read and skipped are the first bytes of the stream that was written |
| ReaderSteps.NoInterference | tracy/server/TracyFileRead.hpp:70-84 | no worker touches the buffer being read |
| ReaderSteps.NoInterferenceInRuns | tracy/server/TracyFileRead.hpp:504-517 | so it is at every moment of every run |
| ReaderSteps.PreviousBlockStays | tracy/server/TracyFileRead.hpp:70-84 | in every run, while a worker decompresses, the previous block of its stream is still in the buffer it swaps away, where a streaming codec refers to it |
| ReaderSteps.NeverStuck | tracy/server/TracyFileRead.hpp:563-584 | while there is something left to read, the consumer can go on or waits for a stream whose worker can |
| FileRead.OpenStreams | tracy/server/TracyFileRead.hpp:479-493 | each stream gets its first chunk, fewer streams being used for a file with fewer chunks |
| FileRead.FileRead.GetNextDataBlock | tracy/server/TracyFileRead.hpp:563-584 | takes the next block from the stream whose turn it is and hands that stream its next chunk |
| FileRead.FileRead.Read | tracy/server/TracyFileRead.hpp:139-149 | the next size bytes of the stream |
| FileRead.FileRead.ReadFields | tracy/server/TracyFileRead.hpp:180-412 | Read2 to Read10: the next bytes cut into fields of the given sizes, in or across blocks |
| FileRead.FileRead.Skip | tracy/server/TracyFileRead.hpp:151-161 | passes over exactly size bytes |
| FileRoundTrip.WriteAll | tracy/server/TracyFileWrite.hpp:167-177 | the file does not depend on how the bytes were split into calls |
| FileRoundTrip.ReadAll | tracy/server/TracyFileRead.hpp:139-161 | any sequence of reads and skips within the length is answered from the byte stream that was written |
| FileRoundTrip.RoundTrip | tracy/server/TracyFileWrite.hpp:208-251 | write in any pieces, read in any others: what comes back is the flat stream; the file can be opened if and only if at least one byte was written |
| TaskDispatch.StepKeepsInv | tracy/server/TracyTaskDispatch.cpp:21-79 | every critical section, job, notification and spurious wake-up, in any order, keeps the invariant |
| TaskDispatch.AtMostOnce | tracy/server/TracyTaskDispatch.cpp:34-79 | in every interleaving no job is run more than once |
| TaskDispatch.JobsAreCounted | tracy/server/TracyTaskDispatch.cpp:34-79 | in every interleaving there are as many jobs as were queued, and in all they have been run as often as some thread ran a job |
| TaskDispatch.NewestTaken | tracy/server/TracyTaskDispatch.cpp:62-71 | in every run a worker takes, of the jobs in the queue, the one queued last |
| TaskDispatch.SyncIsBarrier | tracy/server/TracyTaskDispatch.cpp:48-60 | whenever `Sync` returns, every job queued before has been run and has finished |
| TaskDispatch.NoLostWakeup | tracy/server/TracyTaskDispatch.cpp:62-79 | a sleeping `Sync` is woken by the last worker to finish, and queued work finds an awake worker |
| TaskDispatch.BarrierInRuns | tracy/server/TracyTaskDispatch.cpp:48-60 | in every run, when `Sync` returns every job queued so far has been run, once |
| TaskDispatch.WakeupInRuns | tracy/server/TracyTaskDispatch.cpp:62-79 | in every run, while `Sync` sleeps some worker is busy and the last one wakes it, and queued work finds an awake worker |
| TaskDispatch.NeverStuck | tracy/server/TracyTaskDispatch.cpp:21-79 | while a `Sync` or the destructor is under way some thread can take a useful step |
| ChildLists.LaidRepresents | tracy/server/TracyWorker.cpp:7633-7654 | numbering child lists in pre-order loses nothing of the forest |
| ChildLists.LaidNumbers | tracy/server/TracyWorker.cpp:7640-7654 | the list of a zone is numbered after all lists within the zones before it, and the lists within it follow its own |
| ChildLists.RepresentsOne | tracy/server/TracyWorker.cpp:7633-7654 | a table of child lists and a list of roots stand for one forest only |
| ChildLists.NamedOnce | tracy/server/TracyWorker.cpp:7640-7654 | every child list of a loaded forest is named by exactly one zone, and no number is left out |
| FieldIO.WriteTimeOffset | tracy/server/TracyWorker.cpp:211-216 | the signed difference to the reference time is written as eight bytes in two's complement, low byte first, and the reference time follows |
| Timeline.Worker.WriteTimeline | tracy/server/TracyWorker.cpp:8516-8553 | any forest, open zones included, is written as its zones in pre-order, each end after its children; returns the last reference time |
| Timeline.ZoneLayout | tracy/server/TracyWorker.cpp:8531-8553 | in the bytes of a zone come, low byte first: source location (2), start less the reference time (8), extra data (4), number of children (4), the children, and the end less the last time before it (8) |
| Timeline.Worker.ReadTimeline | tracy/server/TracyWorker.cpp:7771-7813 | reading what was written rebuilds the forest with its child lists numbered in pre-order, consumes just its bytes and returns the writer's reference time |
| Timeline.Worker.ReadTimelineHaveSize | tracy/server/TracyWorker.cpp:7640-7654 | a zone without children gets none; other children go to the next free list |
| Timeline.Load | tracy/server/TracyWorker.cpp:7771-7813 | loading a saved file, through codec and workers, gives the same forest, and every byte has been read |
| GpuTimeline.GpuWorker.WriteTimeline | tracy/server/TracyWorker.cpp:8555-8598 | the same for GPU zones with two reference clocks |
| GpuTimeline.ZoneLayout | tracy/server/TracyWorker.cpp:8569-8598 | the same for GPU zones: both starts (8 each), source location (2), call stack (3), thread (2), number of children (8), the children, both ends (8 each), query number (2) |
| GpuTimeline.GpuWorker.ReadTimeline | tracy/server/TracyWorker.cpp:7816-7850 | reading them back, with or without query ids in the file, and both clocks' reference times |
| GpuTimeline.Load | tracy/server/TracyWorker.cpp:7816-7850 | the round trip of GPU zones through a file |
| ZoneTally.AnyOrder | tracy/server/TracyWorker.cpp:7679-7733 | the statistics depend on which zones were added, not on the order |
| ZoneMeasures.AddAllMeasures | tracy/server/TracyWorker.cpp:7679-7733 | what has been added up for a location is, of its zones, their number, the sums, least and greatest of times and self times, the same of those not entered again, and the number on each thread |
| ZoneMeasures.OneMeasure | tracy/server/TracyWorker.cpp:7679-7733 | these measures fix every accumulator |
| ZoneTally.SelfTimesAddUp | tracy/server/TracyWorker.cpp:7707-7721 | in a nested forest the self times of all zones sum up to the spans of the outermost ones |
| ZoneStatistics.Rebuilder.ProcessTimeline | tracy/server/TracyWorker.cpp:1711-1727 | the recursive walk adds each closed zone of the forest once, re-entry judged by what is around it, and leaves the counters as they were |
| ZoneStatistics.Rebuilder.ReconstructZoneStatistics | tracy/server/TracyWorker.cpp:7679-7733 | one closed zone is added to its location only, with its span less its children as self time; accumulators that measured some zones measure these and the new one |
| ZoneStatistics.Live.NewZone | tracy/server/TracyWorker.cpp:3573-3620 | opening a zone puts it on top of its thread's stack and changes no statistics |
| ZoneStatistics.Live.ProcessZoneEnd | tracy/server/TracyWorker.cpp:4895-4995 | ending a zone keeps the statistics equal to those of the walk over all forests so far, and they measure the zones that have ended; an end without a zone changes nothing |
| ZoneStatistics.PathEnd | tracy/server/TracyWorker.cpp:4895-4995 | ending the innermost zone adds to the walk exactly what that zone adds by itself |
| ZoneStatistics.EndRecord | tracy/server/TracyWorker.cpp:4950-4995 | span, self time and re-entry as the stack machine computes them are those the walk would compute |
| ZoneStatistics.Rebuild | tracy/server/TracyWorker.cpp:1711-1740 | total, self, min, max, non-reentrant and per-thread counts of every location, made again from the loaded forests, equal the live ones and measure the zones that have ended |
| ZoneStatistics.CountersWrap | tracy/server/TracyWorker.cpp:3573-3620 | one-byte counters detect re-entry if and only if the nesting of the location is not a positive multiple of 256 |
| ZoneRuns.RunIsNested | tracy/server/TracyWorker.cpp:4895-4995 | in every run of zone events whose times do not go back, at every moment each zone, ended or open, lies within the one around it |
| ZoneRuns.SelfTotalsAddUp | tracy/server/TracyWorker.cpp:4950-4995 | after every such run that ends all its zones, self times summed over all locations equal the summed top-level spans; nothing is assumed of the forest |
| ZoneTimes.EntryIsTold | tracy/server/TracyWorker.cpp:3573-3620 | in every run the stack holds just the zones whose ends have not come, by going back over the events |
| ZoneTimes.TimeIsTold | tracy/server/TracyWorker.cpp:4950-4995 | if times do not go back, what a zone's time in children leaves of its time is the time in which it was the innermost zone of its thread |
| ZoneTimes.LogIsTold | tracy/server/TracyWorker.cpp:4895-4995 | what a run records of each zone is what its events tell: the location and time of the begin its end belongs to, whether its location is open around it (up to multiples of 256), and as self time the time it was innermost |
| ZoneTimes.WholeRun | tracy/server/TracyWorker.cpp:1711-1740 | any run of zone events, whose forests are laid out and the statistics made again: they equal the live ones at every location, measure the zones that the events tell of, and the self times add up |
| GhostZones.GetStackWithInlines | tracy/server/TracyWorker.cpp:4314-4338 | counted from the end, the functions of the first entry, then those of the second, and so on, the innermost function of each entry first, an unknown entry standing for itself |
| GhostZones.StackUnfolds | tracy/server/TracyWorker.cpp:4317-4336 | where in the stack each function of each entry is |
| GhostZones.GhostBuilder.Trim | tracy/server/TracyWorker.cpp:4344-4356 | a sample earlier than expected ends the outermost zone and everything still running at that sample; ends no other zone; nothing of the thread ends later |
| GhostZones.GhostBuilder.ExtendZones | tracy/server/TracyWorker.cpp:4357-4380 | zones are prolonged down the stack for as long as they are of its functions and end with the outermost one |
| GhostZones.GhostBuilder.AddGhostZone | tracy/server/TracyWorker.cpp:4340-4412 | after any non-decreasing sample times the forests are laminar and every zone has ended by the last sample or ends with the root; a path of last zones is of the stack's functions; exactly `gcnt` zones are new, the first of them only where none could be prolonged |
| GhostForest.EndSetLaminar | tracy/server/TracyWorker.cpp:4347-4355 | changing the end of a last zone concerns only its list, its parent and its children |
| GhostForest.WithinRoot | tracy/server/TracyWorker.cpp:4344-4356 | no zone of a thread ends after the last outermost one, which is why trimming the rightmost path is enough |
| GhostForest.NestedAllTheWay | tracy/server/TracyWorker.cpp:4340-4412 | a zone lies within all its ancestors |
| GhostZones.SymbolsBecomeKnown | tracy/server/TracyWorker.cpp:4366-4369 | symbols arriving between samples never make a stored frame name a function out of range |
| MemoryPlot.ReconstructMemAllocPlot | tracy/server/TracyWorker.cpp:7205-7313 | for any lists: one point per allocation and free and the initial one, in time order and frees first at one time, each the sum of the events before it, ending at the unfreed size, with `max` and `sum` right; never below zero exactly when at no time more is freed too early than is in use throughout |
| MemoryPlot.AllInTurn | tracy/server/TracyWorker.cpp:7248-7276 | every free comes after its allocation in the plot if and only if every free time is strictly later than the allocation time |
| MemorySteps.SignOfPlot | tracy/server/TracyWorker.cpp:7248-7276 | the running usage never falls below zero if and only if, at every time, what is freed by then but not allocated before is no more than what is allocated before and freed later |
| MemorySteps.LowPoint | tracy/server/TracyWorker.cpp:7248-7276 | for every time some point of the plot has just the difference of the two |
| MemorySteps.NeverNegative | tracy/server/TracyWorker.cpp:7253-7266 | if every free is strictly later than its allocation, the running usage is never below zero, as the assertions demand |
| MemoryPlot.FreeNext | tracy/server/TracyWorker.cpp:7263-7275 | when a free comes next in the merge, all allocations merged so far were earlier than it, and the plot goes down by the size of its block |
| MemoryEvents.MemData.ProcessMemAllocImpl | tracy/server/TracyWorker.cpp:6070-6111 | an allocation extends the lists, the address map, the usage and the growing plot in agreement; one at an address in use changes nothing |
| MemoryEvents.MemData.ProcessMemFreeImpl | tracy/server/TracyWorker.cpp:6113-6142 | a free ends the one lasting allocation of its address and keeps that agreement, and says exactly when all frees are still later than their allocations; one of an unknown address changes nothing |
| MemoryEvents.MemData.MemAllocChanged | tracy/server/TracyWorker.cpp:7169-7203 | the growing plot gets one point, its maximum and sum stay those of its points and its minimum that of the points after the initial one |
| MemoryTies.OneOrder | tracy/server/TracyWorker.cpp:7205-7313 | events at different times can be put in order of time in one way only |
| MemoryTies.DistinctTimes | tracy/server/TracyWorker.cpp:7248-7276 | when no two events come at one time both conditions for equal plots are met |
| MemoryEvents.MemData.Reconstruct | tracy/server/TracyWorker.cpp:7205-7313 | after any run of events: where frees at one time have one size, the plot made again is, point by point, the one that grew if and only if no allocation came before a free at the same time, or neither changed anything; whatever the sizes, memory taken and then given back at one time makes them differ |
| MemoryTies.SameIffSettled | tracy/server/TracyWorker.cpp:7248-7276 | two orders of the same events, one as they came and one with frees first, give one plot if and only if every allocation ahead of a free at its time, and that free, are of size zero |
| MemoryTies.TurnedDiffers | tracy/server/TracyWorker.cpp:7248-7276 | an allocation and then a free at one time, both of some size, make the plots differ however ties were sorted |
| MemoryTies.AgreesHoweverSorted | tracy/server/TracyWorker.cpp:7207-7276 | every plot the merge may give, as the sort may leave equal times in any order, is the one that grew if and only if ties are settled and frees at one time have one size |
| MemoryEvents.TieTurned | tracy/server/TracyWorker.cpp:7205-7313 | one block of size 8 allocated and freed at time 5: the plot that grows is 0, 8, 0 and the one made again is 0, -8, 0 |
| MemoryPlot.SortedFrees | tracy/server/TracyWorker.cpp:7207-7212 | sorting leaves the same frees, in the order of their times |
| MemorySteps.FreedAtOnce | tracy/server/TracyWorker.cpp:7248-7276 | a block freed at the time of its allocation breaks the condition when alone and meets it beside another block in use |
| CpuUsage.SweepCpu | tracy/server/TracyWorker.cpp:7353-7399 | passing everything at one time on one CPU keeps both counts equal to the marked CPUs and within a byte |
| CpuUsage.SweepStep | tracy/server/TracyWorker.cpp:7339-7405 | after a step the counts are the numbers of CPUs then inside an own or foreign interval, and fewer endpoints are left |
| CpuUsage.MarksAreInside | tracy/server/TracyWorker.cpp:7353-7399 | marks of passed beginnings count exactly the CPUs inside an interval |
| CpuUsage.InsideCountBounds | tracy/server/TracyWorker.cpp:7361-7372 | own and foreign together never exceed the number of CPUs |
| CpuUsage.ReconstructContextSwitchUsage | tracy/server/TracyWorker.cpp:7316-7409 | looking up any time in the result gives the true counts at that time, and consecutive points differ |

## Left out

Comparison and merge:

- The restart of the comparison after the coordinate cap is reached, and the trivial mode: `Compose` stops there and reports that it did not complete.
- Custom comparators and the printers, and parsing a script from a stream.
- Diff.Diff.UniPatch: states the first application only, because the source moves the stored headers along and a second call would find them moved.
- `Ses::isOnlyAdd` and its kin, which the merge does not use.

Hash table:

- The hash function and its mixing are one uninterpreted function of key and multiplier, and the multiplier, which is 64 bits wide, wraps around as in the source.
- Overflow of `size_t` when doubling, and failing allocation.
- Node-based tables, the pool allocator, iteration, copying and swapping.
- RobinHood.Table.Emplace: of keys that are crowded for some multiplier and size, but fit a table for some other, it does not say whether an overflow is reported, as that depends on which multipliers and sizes come up.
- RobinHood.Table.RehashPowerOfTwo: on an overflow exception only says that no mapping has changed and some may be gone, as the source loses the nodes it has not moved yet.

Sorting:

- `std::make_heap` and `std::sort_heap` are replaced by a method with their contract, PdqSort.HeapSort, which is an insertion sort.
- Cache-line alignment of the offset buffers, and moving as opposed to copying of elements.

File pipeline:

- LZ4 and Zstd are any codec that undoes itself block by block; the size of a chunk is assumed to fit four bytes.
- Memory orders, the yielding wait loops and the joining of threads; a step is atomic.
- Opening, mapping and unmapping of files, malformed files, and the headers of old formats.
- A file of no bytes at all can be written; opening it would wait for a stream that does not exist, so ReadAll refuses it.
- FileRead.FileRead.Read: reading past the end of the stream is excluded, as the source runs past the last chunk.

Job queue:

- TaskDispatch.NeverStuck: fairness of the scheduler is not modelled, so it says that a useful step exists and not that it is taken.
- Several queuing threads, and jobs that queue further jobs.

Trace processing:

- Fibers, validation of zone ids, failure reporting, source locations without payload, and the separate reading of child list sizes from old versions.
- Packed fields, slabs and short pointers: zones are values and lists of zones are sequences; the table of child lists of a worker is a sequence field.
- Zone lists per location hold the number of zones only; sums of squares are left out because they are floating point.
- The array of nesting counters has no initializer at tracy/server/TracyWorker.cpp:1735; the statistics assume it to be zero.
- GPU statistics, which are an easier form of the zone statistics.
- GhostZones.GhostBuilder.AddGhostZone: takes the symbols known at the time of the call as a parameter, and an entry without symbols as its own address.
- Memory plot values are integers where the source has doubles, and the parallel sort is replaced by PdqSort; what is proved of the merge holds however a sort leaves equal times.
- Call stacks and threads of allocations, and discarding all allocations of a pool at once.
- `SortedVector::sort`, which sorts the part that is in order already.
- Vulkan, windowing, sockets, importers and the user interface.
