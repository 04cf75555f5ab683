# ripmalloc: allocators, trace generators and the trace replayer in Dafny

This project models the core of ripmalloc, a small C library of memory
allocators, together with the benchmark machinery around it. It has three parts.

- **The allocators and their data structures.**
  - The word-packed bitmap (`src/data_structures/bitmap.c`).
  - The bitmap buddy allocator that sits on it (`src/bitmap_buddy_allocator.c`). It keeps one bit per node of a binary tree of blocks.
  - The intrusive doubly linked list (`src/data_structures/double_linked_list.c`).
  - The slab allocator, which threads its free slabs on that list (`src/slab_allocator.c`).
- **The trace generators** (`benchmarks/benchmark.py`, `benchmarks/benchmark_generator.py`). They write workload files of `a,<index>[,<size>]` and `f,<index>` lines after an `i,<type>` / `p,<a>,<b>` header.
- **The trace replayer** (`src/helpers/parse.c`, `benchmark_allocator.c`, `file_benchmark.c`, `memory_manipulation.c`). It parses the header, replays every request against a table of pointer slots, logs each outcome and reports leaks.

Each source file maps to one Dafny module:

| Dafny file | module | models |
|---|---|---|
| `words.dfy`, `bitmap.dfy` | `Words`, `Bitmaps` | single-bit operations on 32-bit words; the `Bitmap` class over an `array<bv32>` |
| `buddy_tree.dfy` | `BuddyTree` | node arithmetic of the buddy tree; the bitmap a set of granted blocks must show; the merge walk |
| `bitmap_buddy.dfy` | `BitmapBuddy` | the `BuddyAllocator` class: init, malloc, free, and the recursive bitmap walks |
| `double_linked_list.dfy` | `DoubleLinkedList` | `Node` and `List` classes with a ghost `nodes` sequence as the list's abstract value |
| `slab_allocator.dfy` | `Slab` | the `SlabAllocator` class: addresses are numbers, the free list is a `List` |
| `memory_pattern.dfy` | `MemoryPattern` | filling and checking a byte range of an array |
| `trace_events.dfy`, `py_random.dfy` | `TraceEvents`, `PyRandom` | trace lines as events; the `random` calls as an explicit draw stream |
| `trace_generator.dfy` | `TraceGenerator` | `benchmark.py`: the `Generator` class holding `lines` and `alloc_sizes` |
| `benchmark_generator.dfy` | `BenchmarkGenerator` | `benchmark_generator.py`: the `Script` class holding the script's globals |
| `text.dfy`, `parse.dfy`, `trace_lines.dfy` | `Text`, `Parse`, `TraceLines` | `atoi`/`strtoul`/`strtok`; the three parse functions; splitting a buffer at '\n' |
| `benchmark_allocator.dfy` | `BenchmarkAllocator` | `Allocator_malloc_free` with its log buffer; pointer-table sizing; the log path |
| `file_benchmark.dfy` | `FileBenchmark` | `Allocator_benchmark` |
| `trace_conformance.dfy` | `TraceConformance` | what a generated trace does when it is replayed |

A few conventions run through the model.

- **Pointers.** They are natural numbers, and 0 stands for NULL.
- **The allocator behind the replayer** is a `Backend` value:
  - the pointer it grants for the k-th line (0 when it refuses);
  - whether that line's free reports failure;
  - the two fragmentation figures that are logged.

  The replayer's properties therefore hold for every allocator.
- **Randomness.** The Python generators draw from an `Rng` object whose draws are a parameter, so their properties hold for every sequence of draws.

## Model

| member | source | states |
|---|---|---|
| Words.SetBit | src/data_structures/bitmap.c:25-31 | or-ing in `1 << b` sets bit b and leaves every other bit of the word as it was |
| Words.ClearBit | src/data_structures/bitmap.c:34-40 | and-ing with `~(1 << b)` clears bit b and leaves every other bit as it was |
| Bitmaps.Bitmap.Create | src/data_structures/bitmap.c:4-16 | NULL exactly when `num_bits <= 0`; otherwise a fresh bitmap of `num_bits` bits in `ceil(num_bits / 32)` words, every bit clear |
| Bitmaps.Bitmap.Zeroed | src/data_structures/bitmap.c:4-16 | a bitmap of `numBits` bits in `ceil(numBits / 32)` zeroed words, every bit clear |
| Bitmaps.Bitmap.Test | src/data_structures/bitmap.c:43-49 | true exactly for an index inside the bitmap whose bit is set; false out of range |
| Bitmaps.Bitmap.Set | src/data_structures/bitmap.c:25-31 | an index in range gets its bit set and no other bit changes; out of range nothing changes |
| Bitmaps.Bitmap.Clear | src/data_structures/bitmap.c:34-40 | an index in range gets its bit cleared and no other bit changes; out of range nothing changes |
| Bitmaps.Bitmap.FirstInWord | src/data_structures/bitmap.c:58-63 | the first bit of one word equal to the target, or -1 when the word has none |
| Bitmaps.Bitmap.FindFirstSet | src/data_structures/bitmap.c:52-67 | -1 exactly when no bit is set; otherwise a set bit with every bit before it clear |
| Bitmaps.Bitmap.FindFirstZero | src/data_structures/bitmap.c:70-85 | -1 exactly when every bit is set; otherwise a clear bit with every bit before it set |
| BuddyTree.ParentIdx | src/bitmap_buddy_allocator.c:18-20 | a non-root node is a child (2p+1 or 2p+2) of its parent; the root is its own parent under C's truncating division |
| BuddyTree.Log2Bounds | src/bitmap_buddy_allocator.c:9-11 | `floor(log2(m))` is the power of two that brackets m |
| BuddyTree.LevelIdxRange | src/bitmap_buddy_allocator.c:9-11 | a node is at level l exactly when it lies between `firstIdx(l)` and `firstIdx(l+1)` |
| BuddyTree.StartIdxRange | src/bitmap_buddy_allocator.c:26-28 | the position of a node within its level is below 2^level, and the level's first index plus it gives the node back |
| BuddyTree.Children | src/bitmap_buddy_allocator.c:18-20 | both children of i have parent i and are one level deeper |
| BuddyTree.SiblingInvolution | src/bitmap_buddy_allocator.c:13-16 | the sibling of a non-root node is a different node with the same parent, and the sibling of the sibling is the node |
| BuddyTree.BuddyIdxNotSibling | src/bitmap_buddy_allocator.c:13-16 | `buddyIdx` as written never gives the sibling: node 1 gets the root, and any deeper node gets a node under another parent |
| BuddyTree.SubtreeSplit | src/bitmap_buddy_allocator.c:41-51 | a node below b other than b is below exactly one of b's two children |
| BuddyTree.PaintSubtreeSplit | src/bitmap_buddy_allocator.c:41-51 | setting b and then painting both child subtrees paints b's whole subtree, which is what `update_child` does |
| BuddyTree.PaintPathStep | src/bitmap_buddy_allocator.c:30-39 | setting a node and then painting from its parent up paints the node's whole path to the root, which is what `update_parent` does |
| BuddyTree.MergedClearsAncestors | src/bitmap_buddy_allocator.c:53-67 | the merge walk only clears bits, and only those of strict ancestors of its start |
| BuddyTree.MarkingEmpty | src/data_structures/bitmap.c:4-16 | with nothing granted the required bitmap is all clear, as `bitmap_create` leaves it |
| BuddyTree.AllocMarks | src/bitmap_buddy_allocator.c:87-88 | marking a free node's subtree and path yields exactly the bitmap of the grants with that node added, and the grants stay disjoint |
| BuddyTree.MergeRestores | src/bitmap_buddy_allocator.c:53-67 | from the state after clearing a freed block, the sibling-based merge walk yields exactly the bitmap of the remaining grants |
| BuddyTree.FreeMarks | src/bitmap_buddy_allocator.c:196-197 | clearing a granted block's subtree and merging yields exactly the bitmap of the grants without it |
| BuddyTree.MergeAsWrittenFreesLiveAncestors | src/bitmap_buddy_allocator.c:53-67 | with blocks 5 and 6 granted and 5 freed, the merge walk as written clears the root and node 2 although block 6 still lies below them; the sibling-based walk leaves them set |
| BitmapBuddy.HalvedScaledBack | src/bitmap_buddy_allocator.c:124 | `(m >> k) << k` never exceeds m |
| BitmapBuddy.BlockInMemory | src/bitmap_buddy_allocator.c:90-91 | every block of a level ends inside the managed memory |
| BitmapBuddy.BlockBytesMonotone | src/bitmap_buddy_allocator.c:90 | deeper levels have smaller blocks |
| BitmapBuddy.HalvingStopsUnique | src/bitmap_buddy_allocator.c:171-176 | the halving loop's stopping condition holds at one level only |
| BitmapBuddy.ChooseLevel | src/bitmap_buddy_allocator.c:171-176 | the loop as written stops at the level reached by halving while half the size still holds the request, and never goes below the last level |
| BitmapBuddy.OversizeGranted | src/bitmap_buddy_allocator.c:171-178 | a 5000-byte request to a 2000-byte allocator stops the loop at level 0, whose only block is smaller than the request |
| BitmapBuddy.RoundedBlockShort | src/bitmap_buddy_allocator.c:171-176 | when the memory size is not a multiple of 2^levels, the loop can stop at a level whose real blocks are smaller than the request |
| BitmapBuddy.FitLevel | src/bitmap_buddy_allocator.c:168-176 | None exactly when even the whole-memory block is too small; otherwise the deepest level whose blocks hold the request |
| BitmapBuddy.FitLevelAgrees | src/bitmap_buddy_allocator.c:171-176 | when the memory size is a multiple of 2^levels and holds the request, the corrected choice finds a level and it is the level where the halving loop stops |
| BitmapBuddy.GeneratorConfigBlockShort | src/bitmap_buddy_allocator.c:171-176 | with the benchmark generator's 16276 bytes on 10 levels, requests of 113 to 119 bytes stop the loop at level 7, whose 120-byte blocks are too small |
| BitmapBuddy.UpdateChild | src/bitmap_buddy_allocator.c:41-51 | the node and its whole subtree get the value; no other bit changes |
| BitmapBuddy.UpdateParent | src/bitmap_buddy_allocator.c:30-39 | the node and all its ancestors get the value; no other bit changes |
| BitmapBuddy.Merge | src/bitmap_buddy_allocator.c:53-67 | the bitmap becomes the merge walk's result, with the sibling as the buddy; a start bit that is still set changes nothing |
| BitmapBuddy.ClearBlock | src/bitmap_buddy_allocator.c:196-197 | clearing a granted block's subtree and merging upward leaves the bitmap marking exactly the other grants |
| BitmapBuddy.BuddyAllocator.Init | src/bitmap_buddy_allocator.c:99-141 | refuses 20 or more levels and a failed mapping; otherwise a valid allocator with `min_bucket_size = total >> levels`, a clear bitmap of 2^(levels+1)-1 bits, and nothing granted |
| BitmapBuddy.BuddyAllocator.FindFree | src/bitmap_buddy_allocator.c:70-83 | the first node of the level not in use, or -1 when every node of the level is in use |
| BitmapBuddy.BuddyAllocator.GetBuddy | src/bitmap_buddy_allocator.c:69-97 | nothing and no change when the level is full; otherwise the first free node is granted and its subtree and path marked, and the returned pointer lies 8 bytes into that node's block, which fits in memory |
| BitmapBuddy.BuddyAllocator.Malloc | src/bitmap_buddy_allocator.c:157-179 | size 0 gets nothing; otherwise the block granted is on the deepest level that holds the size plus 8 bytes of metadata, is the first free one there and lies in memory; an oversize request or a full level gets nothing and changes nothing |
| BitmapBuddy.BuddyAllocator.Free | src/bitmap_buddy_allocator.c:181-200 | NULL changes nothing; otherwise the block leaves the granted set and the bitmap again marks exactly the blocks still granted |
| DoubleLinkedList.List.constructor | src/data_structures/double_linked_list.c:3-13 | an empty list: no head, no tail, size 0 |
| DoubleLinkedList.List.Find | src/data_structures/double_linked_list.c:31-40 | the item itself when it is a node of the list, NULL otherwise |
| DoubleLinkedList.List.PushFront | src/data_structures/double_linked_list.c:66-80 | the item becomes the first node and the rest of the list is unchanged; NULL changes nothing |
| DoubleLinkedList.List.PushBack | src/data_structures/double_linked_list.c:82-96 | the item becomes the last node and the rest of the list is unchanged; NULL changes nothing |
| DoubleLinkedList.List.Insert | src/data_structures/double_linked_list.c:42-64 | a NULL item changes nothing; a NULL previous pushes to the front; a previous not in the list changes nothing and returns NULL; otherwise the item is placed right after previous |
| DoubleLinkedList.List.InsertAt | src/data_structures/double_linked_list.c:52-63 | the item is placed right after the i-th node, at the tail when that node was last |
| DoubleLinkedList.List.InsertBetween | src/data_structures/double_linked_list.c:52-61 | the item is placed between two adjacent nodes; head and tail stay |
| DoubleLinkedList.List.Detach | src/data_structures/double_linked_list.c:98-117 | NULL or an empty list changes nothing; otherwise the item is removed from its position, its links are cleared, and the other nodes keep their order |
| DoubleLinkedList.List.DetachAt | src/data_structures/double_linked_list.c:101-116 | the i-th node is removed and the others keep their order |
| DoubleLinkedList.List.PopFront | src/data_structures/double_linked_list.c:119-122 | the first node is removed and returned; an empty list gives NULL |
| DoubleLinkedList.List.PopBack | src/data_structures/double_linked_list.c:124-127 | the last node is removed and returned; an empty list gives NULL |
| Slab.ClearLowBitsFloor | src/slab_allocator.c:48 | masking off the low k bits rounds down to a multiple of 2^k |
| Slab.PageRoundUp | src/slab_allocator.c:47-48 | the mapping size is the least multiple of the page size not below the size needed |
| Slab.HeaderSlot | src/slab_allocator.c:222-226 | a pointer is accepted as a slab's data pointer only when it is the data address of one of the n slabs |
| Slab.HeaderSlotOfData | src/slab_allocator.c:222-226 | the data pointer of slab k leads back to slab k |
| Slab.DataInBuffer | src/slab_allocator.c:211-212 | every slab's data pointer lies strictly inside the mapping, so the range check accepts it |
| Slab.ThreadSlabs | src/slab_allocator.c:85-94 | after pushing the n slab headers to the front in address order, the list holds them in reverse order, each with its data address |
| Slab.Descending | src/slab_allocator.c:86-94 | the free-list order after init: slab n-1 first, slab 0 last |
| Slab.SlabAllocator.FreeDistinct | src/slab_allocator.c:235-241 | no slab is on the free list twice |
| Slab.SlabAllocator.OnFreeList | src/slab_allocator.c:235-241 | a slab's header is on the free list exactly when the slab is free |
| Slab.SlabAllocator.Make | src/slab_allocator.c:14-114 | slab size is header plus requested bytes; the mapping is page-rounded; all n slabs are free, the last one first |
| Slab.SlabAllocator.Reserve | src/slab_allocator.c:143-181 | an empty free list gives NULL and changes nothing; otherwise the head slab's data pointer is returned and the slab leaves the free list |
| Slab.SlabAllocator.Release | src/slab_allocator.c:186-256 | succeeds exactly for a non-NULL pointer inside the mapping that is a slab's data pointer and whose slab is not already free; success pushes the slab at the front of the free list, failure changes nothing |
| Slab.SlabAllocator.PushFree | src/slab_allocator.c:245-249 | a non-free slab goes to the front of the free list and the free count grows by one |
| Slab.ReleaseThenReserve | src/slab_allocator.c:143-256 | the free list is last in, first out: a successful release followed by a reserve hands back the same pointer and restores the free list |
| MemoryPattern.FirstMismatch | src/helpers/memory_manipulation.c:11-16 | None exactly when every byte equals the pattern; otherwise the first byte that differs |
| MemoryPattern.Fill | src/helpers/memory_manipulation.c:4-6 | every byte of the range gets the pattern and no other byte changes |
| MemoryPattern.Verify | src/helpers/memory_manipulation.c:9-19 | 0 exactly when the whole range holds the pattern, -1 otherwise; the reported offset is the first mismatch |
| MemoryPattern.FirstMismatchAt | src/helpers/memory_manipulation.c:11-16 | a differing byte preceded only by matching ones is the first mismatch |
| MemoryPattern.FillThenVerify | src/helpers/memory_manipulation.c:4-19 | verifying a range right after filling it with the same pattern reports no corruption |
| PyRandom.Rng.RandInt | benchmarks/benchmark.py:27 | `random.randint(lo, hi)` lies in [lo, hi] |
| PyRandom.Rng.Choice | benchmarks/benchmark.py:27 | `random.choice` returns an element of the list |
| PyRandom.Rng.Sample | benchmarks/benchmark.py:54 | `random.sample(xs, k)` returns k distinct elements of xs |
| PyRandom.DistinctCard | benchmarks/benchmark.py:54 | a list without repeats has as many elements as its set |
| TraceEvents.RenderAll | benchmarks/benchmark.py:8-15 | one line per event, each the event's text |
| TraceEvents.LiveReplayPrefix | src/helpers/parse.c:150-219 | every prefix of a replayable trace is replayable |
| TraceEvents.ReplayAlternates | src/helpers/parse.c:150-219 | in a replayable trace the events of each index alternate alloc, free, alloc, …, and the index is live at the end exactly when its last event is an allocation of the size the table holds |
| TraceEvents.AlternatesReplays | src/helpers/parse.c:150-219 | conversely, a trace whose every index alternates starting with an alloc replays, and leaves live exactly the indices with an odd number of events |
| TraceGenerator.EmptyTable | benchmarks/benchmark.py:89 | `[None] * slots` |
| TraceGenerator.ReplayWithinBudget | benchmarks/benchmark.py:6 | along a trace the guards accept, the live sizes never exceed `total_mem` |
| TraceGenerator.ReplayLive | benchmarks/benchmark.py:5-17 | a trace the generator's guards accept never allocates a live slot nor frees an empty one, and leaves live exactly the table's occupied slots with their sizes |
| TraceGenerator.AvailableIdxs | benchmarks/benchmark.py:19-20 | the ascending list of exactly the empty (or exactly the occupied) slots |
| TraceGenerator.Generator.constructor | benchmarks/benchmark.py:78-89 | lines are the header, the table is all empty, no event yet |
| TraceGenerator.Generator.WriteAlloc | benchmarks/benchmark.py:5-10 | accepted exactly when the slot is empty and the live sizes plus the new size stay within `total_mem`; acceptance appends the alloc line and fills the slot, refusal changes nothing |
| TraceGenerator.Generator.WriteFree | benchmarks/benchmark.py:12-17 | accepted exactly when the slot is occupied; acceptance appends the free line; either way the slot ends empty |
| TraceGenerator.Generator.TryRandomAlloc | benchmarks/benchmark.py:25-27 | -1 and no draw exactly when no slot is empty; otherwise the slot is `random.choice` of the empty slots and the size lies in [16, total_mem//4]; the slot gets that size and the trace gains its alloc line exactly when the size fits the budget, and otherwise nothing changes |
| TraceGenerator.Generator.TryRandomFree | benchmarks/benchmark.py:29-31 | -1 and no change exactly when no slot is live; otherwise `random.choice` of the live slots is emptied and the trace gains its "f,idx" line |
| TraceGenerator.Generator.Balance | benchmarks/benchmark.py:22-31 | a trace already at the 1000-line target is unchanged; otherwise it never grows past the target, and it ends short only when the rounds ran out |
| TraceGenerator.Generator.RampStep | benchmarks/benchmark.py:35-42 | one step adds at most `max_slots/20 + 2` lines, all accepted by the guards |
| TraceGenerator.Generator.RampSteps | benchmarks/benchmark.py:34-42 | twenty steps keep the trace accepted by the guards |
| TraceGenerator.Generator.RampPattern | benchmarks/benchmark.py:33-43 | the ramp workload keeps the trace accepted by the guards |
| TraceGenerator.Generator.Saturate | benchmarks/benchmark.py:46-49 | up to `max_slots` allocations; at most that many lines |
| TraceGenerator.Generator.PeakDrop | benchmarks/benchmark.py:51-58 | `min(#occupied, max_slots/4)` distinct occupied slots survive, and afterwards exactly the survivors are occupied |
| TraceGenerator.Generator.FreeExcept | benchmarks/benchmark.py:56-58 | every listed slot not kept is emptied; nothing else changes |
| TraceGenerator.Generator.FreeUnlessKept | benchmarks/benchmark.py:57-58 | one slot is emptied unless it is kept |
| TraceGenerator.Generator.PeakPattern | benchmarks/benchmark.py:45-60 | the peak workload keeps the trace accepted by the guards |
| TraceGenerator.Generator.Churn | benchmarks/benchmark.py:67-73 | 500 free/alloc rounds add at most 1000 lines |
| TraceGenerator.Generator.PlateauPattern | benchmarks/benchmark.py:62-74 | the plateau workload keeps the trace accepted by the guards |
| TraceGenerator.Config | benchmarks/benchmark.py:79-90 | slab: 64000 bytes and 1000 slots; buddy and bitmap: 2000 bytes and 16 slots; `max_slots` is half the slots |
| TraceGenerator.ConfigParamLine | benchmarks/benchmark.py:82-86 | the parameter line is "p,64,1000" for slab and "p,2000,4" otherwise |
| TraceGenerator.GenerateFile | benchmarks/benchmark.py:76-95 | a file starts with "i,<type>" and its parameter line, then holds exactly the rendered events, which the generator's guards accept under the configured slots and budget, and which never allocate a live index nor free a free one |
| BenchmarkGenerator.MinBucketSize | benchmarks/benchmark_generator.py:12-15 | at least 16, and 2^(levels-1) buckets of it cover the memory up to the rounding |
| BenchmarkGenerator.BaseSizes | benchmarks/benchmark_generator.py:17-18 | `int(levels*7/10)` sizes, the k-th being the minimum bucket times 2^k |
| BenchmarkGenerator.BaseSizesDouble | benchmarks/benchmark_generator.py:17-18 | the base sizes start at the minimum bucket and each doubles the one before |
| BenchmarkGenerator.ScriptBaseSizes | benchmarks/benchmark_generator.py:6-18 | for 16276 bytes and 10 levels the base sizes are 31, 62, …, 1984 |
| BenchmarkGenerator.Size | benchmarks/benchmark_generator.py:34-36 | a size varied by at most a quarter and floored at 8 lies in [8, base + base/4] |
| BenchmarkGenerator.Ascending | benchmarks/benchmark_generator.py:65 | `sorted(set)`: strictly increasing, and exactly the elements of the set |
| BenchmarkGenerator.ScriptInvAlloc | benchmarks/benchmark_generator.py:33-42 | allocating the next index with an in-range size keeps the trace replayable, in order, and in range |
| BenchmarkGenerator.ScriptInvFree | benchmarks/benchmark_generator.py:56-59 | freeing an allocated index that is not yet freed keeps the invariant |
| BenchmarkGenerator.PickToFree | benchmarks/benchmark_generator.py:47-55 | with more than 10 live indices, between 3 and `max_free` distinct live indices are chosen |
| BenchmarkGenerator.TraceOkFree | benchmarks/benchmark_generator.py:66-67 | appending the free of a live index keeps the trace replayable and takes the index out of the live table |
| BenchmarkGenerator.DrawSize | benchmarks/benchmark_generator.py:34-36 | every drawn size lies in [8, 1984 + 1984/4] |
| BenchmarkGenerator.RemainingStart | benchmarks/benchmark_generator.py:65 | the final free list is the sorted live indices, without repeats |
| BenchmarkGenerator.RemainingStep | benchmarks/benchmark_generator.py:66-68 | freeing the next remaining index keeps the trace replayable |
| BenchmarkGenerator.RemainingDone | benchmarks/benchmark_generator.py:64-70 | once every remaining index is freed, nothing is live |
| BenchmarkGenerator.Script.constructor | benchmarks/benchmark_generator.py:20-25 | empty trace and sets, index 0 |
| BenchmarkGenerator.Script.AllocOne | benchmarks/benchmark_generator.py:33-42 | one allocation of the next index with an in-range size, one more line |
| BenchmarkGenerator.Script.AllocRound | benchmarks/benchmark_generator.py:31-46 | at least one allocation, never past the 900-line mark, one line per index handed out |
| BenchmarkGenerator.Script.FreeBatch | benchmarks/benchmark_generator.py:47-61 | with 10 or fewer live indices nothing is written; otherwise at least one free, never past the 900-line mark unless already there |
| BenchmarkGenerator.Script.FreeEach | benchmarks/benchmark_generator.py:56-61 | the chosen indices are freed in order until the 900-line mark |
| BenchmarkGenerator.Script.FreeRemaining | benchmarks/benchmark_generator.py:64-70 | the final frees keep the trace replayable within 1000 lines, and leave nothing live unless the cut at 1000 lines came first |
| BenchmarkGenerator.FreeSampled | benchmarks/benchmark_generator.py:56-61 | the batch of frees as a pure step: invariant kept, trace extended, line bounds |
| BenchmarkGenerator.FreeAll | benchmarks/benchmark_generator.py:64-70 | the final loop as a pure step: replayable, at most 1000 lines, nothing live unless cut |
| BenchmarkGenerator.Generate | benchmarks/benchmark_generator.py:4-73 | header then 900 to 1000 event lines that hand out indices 0, 1, 2, … in order, with sizes in range, never allocating a live index nor freeing a free one, and leaving nothing live unless cut at 1000 lines |
| Text.NatToString | benchmarks/benchmark.py:8 | a non-empty string of digits, one digit exactly for numbers below 10 |
| Text.ValueOfNatToString | src/helpers/parse.c:141 | reading the decimal text of n gives n back |
| Text.AtoiNatToString | src/helpers/parse.c:141 | `atoi` of a number's text followed by a non-digit is the number; `strtoul` is the number up to ULONG_MAX |
| Text.Strtoul | src/helpers/parse.c:75 | the result never exceeds ULONG_MAX |
| Text.Tokens | src/helpers/parse.c:122-134 | `strtok` on ",": non-empty tokens without commas |
| Text.TokensCons | src/helpers/parse.c:122-134 | a leading non-empty field is the first token and the rest tokenises as before |
| Text.SkipSpace | src/helpers/parse.c:141 | what `atoi` skips first: a suffix starting at a non-space |
| TraceLines.Segments | src/helpers/benchmark_allocator.c:39-49 | the lines of a buffer split at '\n', none containing '\n' |
| TraceLines.SegmentsSplit | src/helpers/benchmark_allocator.c:39-112 | splitting at a line boundary splits the lines |
| TraceLines.SegmentsOfJoin | benchmarks/benchmark.py:94 | splitting `"\n".join(lines)` gives back lines that are non-empty and newline-free |
| Parse.FirstCommand | src/helpers/parse.c:6-11 | the first line from pos on that does not start with '%', every skipped line being a comment |
| Parse.NextCommand | src/helpers/parse.c:6-11 | the skip loop finds that line |
| Parse.StripLineEnd | src/helpers/parse.c:35 | the token cut at its first '\r' or '\n' |
| Parse.CreateCommand | src/helpers/parse.c:14-48 | a kind only for an "i" line whose second token, stripped, names it; an "i" line with another name gets none |
| Parse.CommentCreatesNothing | src/helpers/parse.c:14-26 | a '%' line is never a creation command |
| Parse.CreateCommandOfHeader | src/helpers/parse.c:14-48 | the header "i,<name>" written by the generators, with or without '\n', yields that kind |
| Parse.ParseAllocatorCreate | src/helpers/parse.c:3-49 | the kind read from the first non-comment line, and the reading position after it |
| Parse.CreateParameters | src/helpers/parse.c:51-113 | (0,0) for an unknown kind or a line without a second token; otherwise `strtoul` of the second and third tokens, each 0 when missing; the "p" tag is not enforced |
| Parse.CreateParametersOfHeader | src/helpers/parse.c:60-104 | the generators' "p,a,b" line yields (a, b) |
| Parse.ParseAllocatorCreateParameters | src/helpers/parse.c:51-113 | the parameters of the first non-comment line, and the reading position after it |
| Parse.Classify | src/helpers/parse.c:122-199 | the checks in order: type "a" or "f", an index token whose `atoi` is in the table, the slot's state, and for variable sizes a third token with a positive `atoi` |
| Parse.Live | src/helpers/parse.c:169-213 | the number of non-NULL slots, at most the table size |
| Parse.LiveUpdate | src/helpers/parse.c:169-217 | writing one slot changes the count by the change in that slot's occupancy |
| Parse.LiveZero | src/helpers/benchmark_allocator.c:20 | an all-NULL table counts 0 |
| Parse.Request | src/helpers/parse.c:115-227 | 0 exactly for an accepted allocation the allocator grants or an accepted free it does not fail; then the slot holds the granted pointer or NULL; every failure returns -1 and leaves the table as it was |
| Parse.RequestLive | src/helpers/parse.c:169-213 | the allocation counter moves by one exactly on a successful allocation or free |
| Parse.ParseRequest | src/helpers/parse.c:115-227 | the return value and the table after the call are `Request`'s, and the counter follows the number of live slots |
| Parse.RequestTypeAsWritten | src/helpers/parse.c:122-124 | the code as written compares the first token without checking that there is one |
| Parse.CommaLineHasNoToken | src/helpers/parse.c:122-124 | the line "," passes the replay loops' filters yet has no token |
| Parse.TokenlessLineRejected | src/helpers/parse.c:122-133 | a line without tokens is rejected and changes nothing |
| BenchmarkAllocator.Clamp | src/helpers/benchmark_allocator.c:27-34 | what fits in a buffer of `capacity` bytes: a prefix shorter than the capacity, the whole text when it fits |
| BenchmarkAllocator.ClampAppend | src/helpers/benchmark_allocator.c:126-140 | writing into a truncated log is the same as truncating the whole text |
| BenchmarkAllocator.LogBuffer.Write | src/helpers/benchmark_allocator.c:126-140 | the log becomes the old text plus the new one, truncated to the buffer |
| BenchmarkAllocator.SnprintfAsWritten | src/helpers/benchmark_allocator.c:27-34 | the offset grows by the length of the text whether or not it fit |
| BenchmarkAllocator.UncheckedWritesOverrun | src/helpers/benchmark_allocator.c:126-140 | once one unchecked write overflows, the offset passes the capacity and the next write's size argument wraps past the buffer |
| BenchmarkAllocator.Entry | src/helpers/benchmark_allocator.c:85-92 | the log line starts with the whole instruction, then ",0" or ",1" for the outcome, and ends in '\n'; a fixed-size line has nothing else |
| BenchmarkAllocator.LeadingCommas | src/helpers/benchmark_allocator.c:64-65 | the run of ',' at the start of a line |
| BenchmarkAllocator.LoggedInstructionAsWritten | src/helpers/benchmark_allocator.c:85-92 | what the log receives after `strtok` has cut the instruction buffer: a prefix of the line |
| BenchmarkAllocator.LoggedInstructionKeepsOnlyType | src/helpers/benchmark_allocator.c:85-92 | for every "a,…" or "f,…" line only the type letter is logged |
| BenchmarkAllocator.Zeros | src/helpers/benchmark_allocator.c:20 | the table of n NULL slots |
| BenchmarkAllocator.Process | src/helpers/benchmark_allocator.c:39-112 | one line: blank or comment lines are skipped; over-long lines set -1 and are not logged; other lines go to the parser, take its table, set -1 on failure and append the log entry, unless the entry does not fit, which stops the run with -1; a stopped run stays as it is |
| BenchmarkAllocator.ProcessAllSnoc | src/helpers/benchmark_allocator.c:39-112 | the loop over lines is the step applied to each line in turn |
| BenchmarkAllocator.ProcessAllAppend | src/helpers/benchmark_allocator.c:39-112 | the loop over two batches of lines is the loop over the first, continued over the second |
| BenchmarkAllocator.ProcessAllStopped | src/helpers/benchmark_allocator.c:73-105 | after a `break` no line changes anything |
| BenchmarkAllocator.FinishRun | src/helpers/benchmark_allocator.c:73-76 | a run that broke off ignores the rest of the buffer |
| BenchmarkAllocator.ResultSticky | src/helpers/benchmark_allocator.c:54-75 | once the result is an error it stays an error |
| BenchmarkAllocator.StopMeansFailure | src/helpers/benchmark_allocator.c:73-106 | the loop only breaks off with result -1 |
| BenchmarkAllocator.CleanRun | src/helpers/benchmark_allocator.c:39-112 | a run ending with result 0 never stopped, and every non-blank line was short enough and accepted by the parser |
| BenchmarkAllocator.LogBounded | src/helpers/benchmark_allocator.c:71-77 | the log only grows, stays below the capacity, and the table keeps its size |
| BenchmarkAllocator.LeakLinesExact | src/helpers/benchmark_allocator.c:119-133 | no leak line is written exactly when no slot is in use |
| BenchmarkAllocator.LeakReportEmpty | src/helpers/benchmark_allocator.c:115-141 | the leak report is empty exactly when nothing leaked |
| BenchmarkAllocator.MallocFree | src/helpers/benchmark_allocator.c:14-144 | the header and then the whole buffer are processed; the result is -1 when a slot is still in use, else the loop's result; the log is the header, entries and leak report, truncated to the buffer |
| BenchmarkAllocator.ScanLine | src/helpers/benchmark_allocator.c:42 | the end of the current line: the next '\n' or the end of the buffer |
| BenchmarkAllocator.ReplayLine | src/helpers/benchmark_allocator.c:44-111 | one pass of the loop body has exactly the effect of `Process` on the table, result, log and line number |
| BenchmarkAllocator.NextLine | src/helpers/benchmark_allocator.c:40-46 | stepping past the '\n' adds exactly the current line to the lines consumed |
| BenchmarkAllocator.BrokenLine | src/helpers/file_benchmark.c:41-51 | a '\n' ends exactly the line that began after the previous one |
| BenchmarkAllocator.FinalLine | src/helpers/file_benchmark.c:54-64 | the text after the last '\n' is the last line |
| BenchmarkAllocator.LeakScan | src/helpers/benchmark_allocator.c:115-143 | the log gains the leak report; the result is -1 when a slot is in use, else unchanged |
| BenchmarkAllocator.PointerCountAsWritten | src/helpers/benchmark_allocator.c:278-295 | slabs for a slab allocator; 2^(levels-1) for both buddy kinds, half the generator's 2^levels slots |
| BenchmarkAllocator.PointerCount | src/helpers/benchmark_allocator.c:278-295 | one slot per index the generator can write: the slabs, or the generator's 2^levels slots, twice the count as written for both buddy kinds |
| BenchmarkAllocator.LastDot | src/helpers/benchmark_allocator.c:168 | `strrchr(path, '.')`: the position of the last '.', None when there is none |
| BenchmarkAllocator.LastDotAppend | src/helpers/benchmark_allocator.c:167-168 | the last '.' of a joined path is the last one of its file-name part if there is one, else the last one of the folder part |
| BenchmarkAllocator.LogFolderHasDot | src/helpers/benchmark_allocator.c:167-168 | the log folder "./benchmarks/logs" already holds a '.', so `strrchr` always finds one |
| BenchmarkAllocator.LogPathWithoutExtension | src/helpers/benchmark_allocator.c:166-173 | for a file name without '.', the path as written is cut to ".log" |
| BenchmarkAllocator.LogPath | src/helpers/benchmark_allocator.c:165-173 | the log file is the file name in the log folder with its extension replaced by, or extended with, ".log" |
| BenchmarkAllocator.LogPathAgrees | src/helpers/benchmark_allocator.c:166-173 | for a file name with an extension, the path as written is the intended one |
| FileBenchmark.TableSize | src/helpers/file_benchmark.c:11-27 | slab: the slab count; buddy: 2^(levels-1), half the generator's 2^levels slots; bitmap: the bitmap's bit count 2^(levels+1)-1, one slot per node, at least the generator's 2^levels slots |
| FileBenchmark.Handle | src/helpers/file_benchmark.c:43-49 | a line that is non-empty, shorter than 256 and not a '%' comment goes to the request handler; any other line changes nothing |
| FileBenchmark.ReplayAllSnoc | src/helpers/file_benchmark.c:40-64 | the loop over lines is the handler applied to each in turn |
| FileBenchmark.ReplayAllSkipped | src/helpers/file_benchmark.c:43-46 | lines the handler never sees leave the table as it was |
| FileBenchmark.Benchmark | src/helpers/file_benchmark.c:3-75 | -1 exactly for an empty buffer or when some slot is still in use after the last line; 0 otherwise |
| FileBenchmark.LiveIsZero | src/helpers/file_benchmark.c:67-74 | the count of live slots is 0 exactly when every slot is NULL |
| FileBenchmark.CommentsOnlyPass | src/helpers/file_benchmark.c:43-74 | a buffer of comments and blank lines passes |
| FileBenchmark.AllocatorBenchmark | src/helpers/file_benchmark.c:3-75 | the result is `Benchmark`'s, and the pointer counter is the number of live slots |
| FileBenchmark.NullTable | src/helpers/file_benchmark.c:29-35 | a new table of n NULL slots |
| FileBenchmark.ReplayBuffer | src/helpers/file_benchmark.c:37-64 | after the loop and the trailing segment the table is the replay of every line of the buffer, and the counter tracks the live slots |
| FileBenchmark.Advance | src/helpers/file_benchmark.c:40-53 | one pass of the loop: a '\n' hands the line before it to the handler and opens the next line; any other character extends the current line |
| FileBenchmark.LineEnd | src/helpers/file_benchmark.c:41-51 | a '\n' hands the line before it to the handler and adds it to the lines consumed |
| FileBenchmark.HandleLine | src/helpers/file_benchmark.c:43-49 | the filter and the handler call have exactly `Handle`'s effect on the table |
| FileBenchmark.LeakCheck | src/helpers/file_benchmark.c:67-74 | -1 when some slot is in use, 0 otherwise |
| TraceConformance.NatToStringLength | src/helpers/benchmark_allocator.c:51 | a number below 10^k has at most k digits |
| TraceConformance.TokensOfRender | benchmarks/benchmark.py:8-15 | the tokens of a rendered line: the type letter, the index and, for variable-size types, the size |
| TraceConformance.RenderHandled | src/helpers/file_benchmark.c:43-46 | every rendered line is non-empty, newline-free, shorter than 256 characters and not a comment |
| TraceConformance.ClassifyRendered | src/helpers/parse.c:122-219 | the rendered line of an event the generator accepted is classified as that allocation or free when the tables agree |
| TraceConformance.StepConforms | src/helpers/parse.c:115-227 | with an allocator that always grants and never fails a free, replaying the rendered line succeeds and the tables still agree |
| TraceConformance.ReplayConforms | src/helpers/file_benchmark.c:40-64 | the replayer's table after the generated lines agrees slot for slot with the generator's table |
| TraceConformance.GeneratedTraceOutcome | src/helpers/file_benchmark.c:3-75 | the replayer fails on a generated trace exactly when the generator left some slot live |
| TraceConformance.HeaderConforms | src/helpers/parse.c:3-113 | the generated header lines parse back to the allocator kind and to (64, 1000) or (2000, 4) |
| TraceConformance.BuddyTableTooSmall | src/helpers/benchmark_allocator.c:283-290 | with 4 levels the buddy and bitmap tables have 8 slots while the generator uses 16; the generator accepts "a,8,16", which the replayer rejects |
| TraceConformance.CorrectedTableHoldsTrace | src/helpers/benchmark_allocator.c:278-295 | the corrected table size matches the generator's slot count for every allocator kind |

## Left out

- **Randomness.** `random.random`, `randint`, `choice` and `sample` are an explicit draw stream, and every property holds for all streams. The exact Mersenne Twister values are not modelled.
- **Scaling.** The floating-point `scale` in benchmark_generator.py:52-53 is not modelled as a float: `MaxFree` computes `3 + 27 * min(line_count, 900) / 900` exactly, with integer division in place of the float product and `int()` truncation.
- TraceGenerator.Generator.Balance: its `while` loop is bounded by a `fuel` count. The Python loop can run forever when no write is accepted, so the model states what holds after the rounds it is given.
- **Generated sizes.** TraceGenerator.GenerateFile does not carry the lower bound 16 on sizes through its contract. The conformance lemmas therefore assume positive sizes.
- **Leaks in generated traces.** The generated traces end with live slots, so GeneratedTraceOutcome states the replayer's verdict in terms of those slots rather than as a pass.
- **File and terminal I/O.** The following are left out: fopen and fgets, ftell and fseek (`count_remaining_characters`), mmap, ftruncate, the file writes, `printf`, and `print_state`/`print_memory_map`. The files reach the model as a sequence of lines or a string.
- `run_benchmark_from_file` and `Allocator_benchmark_initialize`: only their parts are modelled, namely the log path, the header parse and the pointer-table size.
- **fgets in the header parse.** The 255-character chunking is not modelled. Neither is the uninitialised `line` buffer when nothing is read.
- **C integers.** Overflow, `atoi` beyond `int` range, and the undefined shift for 0 levels are not modelled. A requires of `levels > 0` stands in for the shift.
- **Allocator type.** The unknown type (-1) is not modelled. The parameter parse stands for it with `None`.
- **Variable-size flag.** `is_variable_size_allocation` is taken as false for slab and true for buddy and bitmap. `VARIABLE_ALLOCATION_DELIMITER` is defined outside the core.
- **Stale handler call.** file_benchmark.c:48 calls the request handler with four arguments, while parse.c:115 takes five. The model uses the five-argument `parse_allocator_request` with the table size.
- **Free outcome.** `allocator->free` returning `(void*)-1` is a `freeFails` answer of the backend, which the allocators here never give.
- **Allocator behind the replayer.** The allocator reached through `config->allocator` is an oracle (`Backend`), not one of the modelled allocators.
- **The slab header read.** `Release` of an in-range pointer that is not a slab's data pointer reads a forged `SlabNode` header in the C code. The model refuses such a pointer instead.
- **Log contents.** The `%p` text of the leak log is a hexadecimal rendering of the slot value. The 255-character truncation of the log path by `snprintf` is not modelled, and neither is `written < 0`.
- **The buddy allocator.** `src/buddy_allocator.c` is not part of this model. Only its table size enters the replayer.
- **Bitmap lifetime.** `bitmap_destroy` and the destructors only release memory, and are not modelled.
- **Bitmap buddy block contents.** The two metadata ints stored in front of a block are not modelled as memory. `Free` takes the granted block itself.

## Findings

| source | as written | input that shows it | evidently intended | confidence | as-written member | corrected member |
|---|---|---|---|---|---|---|
| src/bitmap_buddy_allocator.c:13-16, 61 | `buddyIdx` returns idx-1 for odd idx and idx+1 for even idx, the reverse of the sibling | blocks 5 and 6 granted, free 5: merge looks at 4, finds it clear and clears 2 and 0 although 6 is live | the sibling: idx+1 for odd idx, idx-1 for even | high, not executed | BuddyTree.MergeAsWrittenFreesLiveAncestors | BuddyTree.MergeRestores |
| src/bitmap_buddy_allocator.c:171-178 | the level loop never checks that the block it stops at holds the request | 5000 bytes asked of a 2000-byte allocator with 4 levels get the 2000-byte block | return NULL when even the whole memory is too small; pick a level whose real block size holds the request | high, not executed | BitmapBuddy.OversizeGranted | BitmapBuddy.FitLevel |
| src/bitmap_buddy_allocator.c:171-176 | the loop halves the memory size, but the block granted is `(memory >> levels) << (levels - level)`, smaller when the memory size is not a multiple of 2^levels | 117 bytes asked of a 1000-byte allocator with 4 levels stop at level 3, whose blocks have 124 bytes; with the benchmark generator's 16276 bytes on 10 levels, 113 to 119 bytes stop at level 7, whose blocks have 120 bytes (GeneratorConfigBlockShort) | pick the deepest level whose real block holds the request | high, not executed | BitmapBuddy.RoundedBlockShort | BitmapBuddy.FitLevel |
| src/helpers/parse.c:122-124 | `strcmp(token, "a")` with no check that `strtok` found a token | the line "," passes both replay loops' filters and leaves `token` NULL | reject a line without tokens | high, not executed | Parse.CommaLineHasNoToken | Parse.TokenlessLineRejected |
| src/helpers/benchmark_allocator.c:27-34, 126-140 | the offset grows by `snprintf`'s return value even when the text did not fit | a header longer than the log buffer: the offset passes `max_log_size` and the next size argument wraps | grow the offset only by what was written | medium, not executed | BenchmarkAllocator.UncheckedWritesOverrun | BenchmarkAllocator.LogBuffer.Write |
| src/helpers/benchmark_allocator.c:64-65, 85-92 | the instruction is logged after `strtok` has cut it at the first ',' | "a,3,100" is logged as "a,0" | log the whole instruction | high, not executed | BenchmarkAllocator.LoggedInstructionKeepsOnlyType | BenchmarkAllocator.Entry |
| src/helpers/benchmark_allocator.c:283-290 | the buddy and bitmap tables have `1 << (levels-1)` slots | "p,2000,4" gives 8 slots; the generator writes "a,8,16", which the replayer rejects | 2^levels slots, the generator's count | medium, not executed | TraceConformance.BuddyTableTooSmall | TraceConformance.CorrectedTableHoldsTrace |
| src/helpers/benchmark_allocator.c:166-173 | `strrchr` on the whole log path finds the '.' of "./benchmarks/logs" when the file name has none | "trace" gives the log path ".log" | look for the extension in the file name only | high, not executed | BenchmarkAllocator.LogPathWithoutExtension | BenchmarkAllocator.LogPath |
