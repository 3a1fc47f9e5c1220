# Verified models of the benchmark kernels and performance models

This Dafny project models the algorithmic code of the repository that is not RTL, and
proves what that code promises. `dafny verify dfyconfig.toml` checks everything.

The code that works in place is modelled in place: list cells are objects whose `next` and
`info` fields are rewritten, memory is an array that is read and written by byte or by
aligned word, the FFT swaps and adds inside its data array, and the cache and predictor
models are classes with mutable fields. Each such method is proved to compute a function of
its input, and the theorems are about those functions.

| area | modules | main results |
|---|---|---|
| CoreMark list | `StableSort`, `ListItems`, `ListHeap`, `ListBench`, `ListTally`, `ListTies`, `ListInit`, `ListSeeds` | the non-recursive mergesort is a stable sort even with the comparison that rewrites the items it compares; of all lists, benchmark passes restore exactly those sorted by distinct indices with equal data bytes; which seeds and sizes make such lists; any number of iterations keeps them; what the benchmark returns, search by search and crc by crc |
| radix-2 FFT | `Dft`, `Sine`, `Fft` | twiddle recurrence, bit reversal and in-place butterflies together give the discrete Fourier transform, with its cosines and sines, for every power-of-two length |
| uop-cache repack model | `Plru`, `UocModel`, `UocInvariant`, `UocHistory`, `UocSegments`, `UocRun` | an eviction never takes one of the last three ways sealed in its set; the single pass gives the counters of a two-pass reading of the trace; nothing is evicted exactly when no set sees more than eight heads |
| value predictors | `Lcg`, `ValuePred`, `ValueCoverage`, `ValueRun` | full period of the generator in every number of low bits; for all six kinds and every stream, which predictions are issued and which are right; exact coverage on progressions and on streams where contexts determine values |
| CRC-16 | `Crc` | all bursts of 16 bits and all odd errors are detected; bursts of 17 bits escape in exactly one pattern |
| CoreMark state machine | `NumberTokens`, `CoreState`, `TokenCounts`, `StateBench`, `InitialWords` | end states are exactly the three number languages; what every counter counts; what the scan of an initial block finds; corruption and repair with one key restore the block exactly when no visited byte turns into a comma; set up once, any number of runs leave it alone |
| string routines | `Words`, `ByteStrings`, `WideStrings`, `ScanStrings` | the word-wide routines meet the contracts of the byte loops, for all alignments, with memory that ends at the aligned word of the terminator |
| number text | `NumberText`, `SeedText` | layout and digit bounds of the printer; what is printed is read back exactly when no blank or plus comes first |

`Arithmetic` holds powers of two and facts about products and remainders, `Options` the
optional values.

## How the source is modelled

- **List.** `Cell` pairs a node with the item it holds; a list is a sequence of cells whose
  nodes are linked in that order. The two kernels that `calc_func` calls return arbitrary
  16-bit values: `bench` is any function of the operation, its parameter, the running crc
  and the number of kernel calls so far. The sort needs a non-empty list, since it writes
  through the tail without a test (`tests/coremark/src/core_list_join.c:752`, against the
  comment at line 755); the benchmark needs three nodes.
- **FFT.** Floating point is exact real arithmetic. `sin` is any function that is odd, is 1
  at the quarter turn 1.5707963267948966 and obeys the law of addition; the cosine is the sine
  of the angle to the quarter turn. `halt` is a result value.
- **Uop cache.** A trace is a sequence of typed events. Program counters of uops are even
  and a group carries at most four of them.
- **Strings.** Every string lies in an array of its own, and the index into the array is
  the address, so alignment is the remainder by eight. An array that is only read may end
  with the aligned word that holds its own terminator: a load beyond that word would be out
  of range, whatever the other string is. Source and destination of a copy may be the same
  array, as long as the regions are apart.
- **Integers.** 8-, 16-, 32- and 64-bit words are bit-vectors where wrap-around matters
  (`data16`, crc, seeds, words of strings); indices and sizes are unbounded unless said
  otherwise. `parseval` reduces to 32 bits after every operation.

## What the proofs found

- The benchmark's comment that the list is back in its original state holds for lists sorted
  by distinct indices with equal data bytes, and for no others: `ListTies.BenchRestores`
  says so of every list, with equal indices too. A search reverses cells with equal indices,
  and the stable sort at the end leaves them so.
- `core_list_init` does make equal indices: for every block of more than 322 cells, and for
  some seeds in smaller ones, 0x14 with 31 cells for instance (`ListSeeds.CollidingSeed`).
  `ListSeeds.DistinctInitialIff` says for which, and `ListSeeds.PassOnNewList` that the
  program's backward pass, run on such a list, does not restore it. The shipped seeds are
  safe at all three block sizes.
- `strspn` with one accepted character loops while no byte equals the character
  (`tests/coremark-pro/baremetal/string_opt.c:121`), where its comment means the opposite.
  `ScanStrings.SpanOneRightIff` says exactly when the result is still right, and
  `ScanStrings.SpanOneWrong` gives 16 bytes on which it is not.
- The `2delta` predictor is the `stride` predictor: both arms of its update do the same
  (`ValuePred.TwoDeltaIsStride`), although the module documentation distinguishes them.
- The built-in string "-87e+832", meant as a scientific number, is none for the automaton,
  which wants a point before the exponent: it is read as the invalid word "-87e" and the
  integer "+832" (`InitialWords.InitialBlockRead`).
- Repairing the corrupted state block relies on the seed. The program builds and corrupts
  the block with one seed; seed 0x19 damages the block of 666 bytes at the smallest period
  (`StateBench.NotRepaired`). `StateBench.ProgramRepairedIff` is the exact condition; the
  shipped seeds are safe.

## Model

| member | source | states |
|---|---|---|
| StableSort.SortCorrect | tests/coremark/src/core_list_join.c:612-764 | for any total preorder the bottom-up merge sort returns a sorted, stable permutation of its input |
| ListItems.OwnComparisonsOrdered | tests/coremark/src/core_list_join.c:215-242 | both comparisons of the file order items by a total preorder |
| StableSort.SortedUnique | tests/coremark/src/core_list_join.c:346-347 | a strictly sorted arrangement is the only sorted one of its elements, so sorting by distinct indices returns to it |
| ListItems.CalcFunc | tests/coremark/src/core_list_join.c:169-214 | returns and caches what the operation gives, folds it into the crc, and remembers the first state and matrix results; a cached item is only read |
| ListItems.OperationMeans | tests/coremark/src/core_list_join.c:178-208 | operation 0 runs the state kernel with bits 3 to 6 as both digits of its period, at least 0x22; operation 1 the matrix kernel with the same argument; any other returns the data; the first result other than zero is kept |
| ListTally.CalcValue | tests/coremark/src/core_list_join.c:209-212 | an item without the flag: the last seven bits of the operation's result are returned and stored under the flag, all sixteen are fed into the crc |
| ListTally.ForwardMiddle | tests/coremark/src/core_list_join.c:313-320 | the sort by data leaves the same cells in ascending order of seven-bit values, every item flagged, indices and high bytes as before |
| ListItems.RunOperation | tests/coremark/src/core_list_join.c:181-208 | kernel call, minimum corruption period 0x22, and the crcstate and crcmatrix rules |
| ListItems.WithCacheFacts | tests/coremark/src/core_list_join.c:210-211 | caching sets the flag and the seven value bits and leaves the high byte alone |
| ListItems.RebuiltFacts | tests/coremark/src/core_list_join.c:236-240 | regenerating copies the high byte over the low byte, and changes nothing exactly when both were equal |
| ListItems.CalcFacts | tests/coremark/src/core_list_join.c:169-214 | an evaluation settles its item with the returned value as key; no index, no high byte and no settled item changes, so later evaluations return the same key |
| ListItems.CompareFacts | tests/coremark/src/core_list_join.c:215-242 | a comparison settles both items and says how they are then ordered; it changes no index and no high byte |
| ListItems.MergeRunsIsMerge | tests/coremark/src/core_list_join.c:701-746 | merging while the comparison rewrites items gives the merge in the order that the items end up with |
| ListItems.ImpureSortCorrect | tests/coremark/src/core_list_join.c:634-764 | with either comparison of the file, or any total preorder that only looks: permutation, sorted and stable in the order of the final items, indices and high bytes unchanged, and every item of a list of two or more settled |
| ListHeap.RunCmpComplex | tests/coremark/src/core_list_join.c:220-226 | evaluates a, then b, and returns the difference; all item changes are those of the comparison on values |
| ListHeap.RunCmpIdx | tests/coremark/src/core_list_join.c:233-242 | difference of indices; both items regenerated exactly when no results record is given |
| ListHeap.TakeNext | tests/coremark/src/core_list_join.c:704-734 | the next cell comes from the left run unless that is used up or its head is greater; the cursors move past it |
| ListHeap.Append | tests/coremark/src/core_list_join.c:736-745 | the cell is linked behind the tail, or starts the list |
| ListHeap.StepAlong | tests/coremark/src/core_list_join.c:687-699 | q stands insize cells further or at the end, psize counts the steps |
| ListHeap.MergeOne | tests/coremark/src/core_list_join.c:701-746 | one inner loop appends exactly the merge of the two runs |
| ListHeap.Pass | tests/coremark/src/core_list_join.c:664-752 | one pass merges all runs pairwise, terminates the list, and counts the merges |
| ListHeap.MergeSort | tests/coremark/src/core_list_join.c:634-764 | for every non-empty list and every comparison the sort terminates with a well-formed list of the cells that the sort on values gives, each still holding its item, and with the same items and registers |
| ListHeap.Find | tests/coremark/src/core_list_join.c:569-584 | the first cell with the index, or for a negative index with the data byte; none if there is none |
| ListHeap.Reverse | tests/coremark/src/core_list_join.c:599-611 | the same cells in reverse order |
| ListHeap.Remove | tests/coremark/src/core_list_join.c:511-524 | the list without the cell's item: the successor node is unlinked and holds the removed item |
| ListHeap.UndoRemove | tests/coremark/src/core_list_join.c:542-554 | the removed node is linked back behind the changed one and the items are swapped back |
| ListHeap.UndoInvertsRemove | tests/coremark/src/core_list_join.c:526-540 | undoing a remove gives the list before it: same nodes, same order, same items |
| ListHeap.MoveNext | tests/coremark/src/core_list_join.c:294-301 | the successor of the found cell becomes the second cell, everything else keeps its order |
| ListHeap.CacheNextDistinct | tests/coremark/src/core_list_join.c:294-301 | moving the successor keeps the same cells, each once |
| ListBench.SearchOnce | tests/coremark/src/core_list_join.c:281-304 | one search: find, reverse, count, and cache the successor |
| ListBench.SearchLoop | tests/coremark/src/core_list_join.c:279-312 | all searches, with the counts folded into the result |
| ListBench.RemoveCrcRestore | tests/coremark/src/core_list_join.c:324-341 | remove behind the head, crc from the found cell on, and undo: the list is unchanged |
| ListBench.CrcWalk | tests/coremark/src/core_list_join.c:333-337 | the crc is fed the first cell's data once for every cell walked over |
| ListBench.CoreBenchList | tests/coremark/src/core_list_join.c:258-362 | the whole benchmark on the heap computes the benchmark on values: result, items, registers and final list |
| ListTally.SearchesTally | tests/coremark/src/core_list_join.c:279-311 | after n searches: the list, the index looked for, the hits, the misses, and the sum of bit 9 of every found item that is odd and bit 8 of the last but one item at every miss |
| ListTally.BenchValue | tests/coremark/src/core_list_join.c:312-362 | the value returned is the crc of a message, started with four a hit less one a miss plus the bits: the first item's data once for every cell from the wanted one on, and the first item's data of the final list once for every other cell |
| ListTally.BackwardValue | tests/coremark/src/core_list_join.c:312-362 | going backward, the same in terms of the original items alone; the second crc is fed two equal bytes, the high byte of the item with the smallest index |
| ListBench.BenchOutcome | tests/coremark/src/core_list_join.c:346-347 | on every list of three or more cells the same cells come back sorted by index, every item regenerated from its high byte |
| ListTies.BenchRestores | tests/coremark/src/core_list_join.c:251-257 | for every list of three or more cells, whatever its indices: one search for index 0 leaves list and items as they were if and only if the list was sorted by distinct indices with equal data bytes, and these are exactly the lists that every pass restores |
| ListTies.MissRestores | tests/coremark/src/core_main.c:59-65 | the same for the backward pass of `iterate` with one search, when no item has a zero byte, so that the search misses |
| ListBench.EqualIndicesNotRestored | tests/coremark/src/core_list_join.c:256 | three sorted cells with two equal indices and equal bytes come back in another order |
| ListBench.OriginalRestored | tests/coremark/src/core_list_join.c:256 | a list in original state comes back in original state, for both signs of the finder index |
| ListBench.BackwardPassRepeatable | tests/coremark/src/core_list_join.c:313-320 | a pass with a non-positive index runs no kernel, and its result does not depend on the registers |
| ListBench.Iterate | tests/coremark/src/core_main.c:51-73 | any number of forward and backward passes leaves list and items as they were; crc and crclist are those of running every pass on the original list |
| ListTally.IterationCrc | tests/coremark/src/core_main.c:62-72 | an iteration feeds the values of its two passes into the crc, the backward one the same every time; the first crc is remembered |
| ListInit.NewItemData | tests/coremark/src/core_list_join.c:405-412 | a new item has equal bytes and no flag; its operation is its number modulo 8, its argument number xor seed modulo 16 |
| ListInit.InsertNew | tests/coremark/src/core_list_join.c:470-495 | a new cell behind the head, and nothing when the memory block is used up |
| ListInit.InsertAll | tests/coremark/src/core_list_join.c:390-416 | head, tail, and as many items between them as fit, the last inserted first, each with its data in both bytes |
| ListInit.SetIndices | tests/coremark/src/core_list_join.c:417-433 | every cell but head and tail gets its index: its position in the first fifth, mixed with the seed behind |
| ListInit.CoreListInit | tests/coremark/src/core_list_join.c:377-455 | a fresh list of exactly these cells and items, sorted by index |
| ListSeeds.InitialIsOriginal | tests/coremark/src/core_list_join.c:251-257 | the new list is one that a pass restores if and only if its indices are distinct |
| ListSeeds.DistinctInitialIff | tests/coremark/src/core_list_join.c:417-433 | for every size and seed, the indices are distinct if and only if there are at most 322 cells and for no position behind the first fifth all of these hold: it is 7 modulo 8, it agrees with the seed in bits 8 to 13, and the low byte of position xor seed is below a fifth of the size (or is 0) |
| ListSeeds.LargeNotDistinct | tests/coremark/src/core_list_join.c:426-431 | with more than 322 cells two of them have the same index, for every seed |
| ListSeeds.ShippedSeedsDistinct | tests/coremark/src/core_main.c:299-320 | the performance, validation and profile seeds give distinct indices, for blocks of 400, 666 and 2000 bytes |
| ListSeeds.CollidingSeed | tests/coremark/src/core_list_join.c:426-431 | seed 0x14 gives two cells of a 666-byte list the index 3 |
| ListSeeds.NewListRestored | tests/coremark/src/core_list_join.c:251-257 | unless the seed is a multiple of eight, a backward pass with one search restores the new list if and only if its indices are distinct |
| ListSeeds.PassOnNewList | tests/coremark/src/core_main.c:59-65 | set up, then that pass on the heap: `res->list` still leads to the list that was set up if and only if the indices are distinct, for every kernel; the items come back in any case |
| ListSeeds.SetUpAndIterate | tests/coremark/src/core_main.c:51-73 | from a seed with distinct indices, any number of iterations with any kernels leaves list and items as they were set up |
| Dft.SumIsEval | tests/coremark-pro/baremetal/radix2-big-64k_kernel_direct.c:137-178 | the defining sum of a Fourier coefficient equals its Horner form |
| Dft.EvalSplits | tests/coremark-pro/baremetal/radix2-big-64k_kernel_direct.c:149-177 | a polynomial is its even half plus z times its odd half, at the square of z |
| Dft.HalfTurn | tests/coremark-pro/baremetal/radix2-big-64k_kernel_direct.c:99-111 | a root of order 2m, to the m, is -1 |
| Dft.CoefficientSplits | tests/coremark-pro/baremetal/radix2-big-64k_kernel_direct.c:152-175 | a butterfly combines coefficients k of both halves into coefficients k and k + m |
| Dft.StagesComputeDft | tests/coremark-pro/baremetal/radix2-big-64k_kernel_direct.c:137-178 | all stages on the bit-reversed input give the discrete Fourier transform, for every length 2^levels |
| Fft.IntLog2 | tests/coremark-pro/baremetal/radix2-big-64k_kernel_direct.c:70-77 | the exponent of a power of two, and halt for exactly the other numbers |
| Fft.ReverseInvolution | tests/coremark-pro/baremetal/radix2-big-64k_kernel_direct.c:118-135 | reversing the bits of an index twice gives the index |
| Fft.BitReversedInvolution | tests/coremark-pro/baremetal/radix2-big-64k_kernel_direct.c:118-135 | the permutation applied twice is the identity |
| Fft.ReversedIncrement | tests/coremark-pro/baremetal/radix2-big-64k_kernel_direct.c:126-133 | the inner loop terminates and steps j from the reverse of i to the reverse of i + 1 |
| Fft.BitReverse | tests/coremark-pro/baremetal/radix2-big-64k_kernel_direct.c:119-135 | the in-place swaps give the bit-reversal permutation, and touch nothing behind the transform |
| Fft.FillLevel | tests/coremark-pro/baremetal/radix2-big-64k_kernel_direct.c:97-113 | the recurrence writes the powers 1 to dual - 1 of the level's root |
| Fft.CalculateTwiddles | tests/coremark-pro/baremetal/radix2-big-64k_kernel_direct.c:80-116 | the table holds the powers of every level's factor in order; no table for size 1, halt for other than powers of two |
| Fft.TwiddleRoots | tests/coremark-pro/baremetal/radix2-big-64k_kernel_direct.c:98-102 | the factor of level `bit` is cos(pi / 2^bit) + d i sin(pi / 2^bit) for direction d |
| Sine.HalfAngle | tests/coremark-pro/baremetal/radix2-big-64k_kernel_direct.c:100-102 | 1 - 2 sin^2 of the half angle is the cosine, from oddness and addition alone |
| Sine.UnitPower | tests/coremark-pro/baremetal/radix2-big-64k_kernel_direct.c:104-109 | powers of a point on the unit circle are the points at multiples of its angle |
| Sine.AnglesAreRoots | tests/coremark-pro/baremetal/radix2-big-64k_kernel_direct.c:97-102 | factors at the angles pi / 2^bit obey the root law: the first is -1, each is the square of the next |
| Sine.SumIsFourier | tests/coremark-pro/baremetal/radix2-big-64k_kernel_direct.c:137-178 | a coefficient for the root at angle 2 pi / n is the Fourier sum with cosines and sines |
| Fft.FirstColumn | tests/coremark-pro/baremetal/radix2-big-64k_kernel_direct.c:152-160 | the multiplication-free butterflies do the first column of every block |
| Fft.Column | tests/coremark-pro/baremetal/radix2-big-64k_kernel_direct.c:163-176 | the butterflies with one twiddle do one more column of every block |
| Fft.StageInPlace | tests/coremark-pro/baremetal/radix2-big-64k_kernel_direct.c:149-177 | one stage in place equals the stage on values, and the cursor reads exactly the entries of its level |
| Fft.TransformInternal | tests/coremark-pro/baremetal/radix2-big-64k_kernel_direct.c:138-178 | with a table of powers of roots of unity the data becomes its discrete Fourier transform; halt leaves it alone |
| Fft.Kernel | tests/coremark-pro/baremetal/radix2-big-64k_kernel_direct.c:230-243 | for exact sines: halt unless the length is a power of two; otherwise every coefficient of the result is the sum of x[j] (cos(2 pi j k / n) - i sin(2 pi j k / n)) |
| Plru.VictimFollowsPath | tools/uoc_repack_model.py:170-176 | a way is the victim exactly when all three nodes on its path point to it |
| Plru.OuterVictims | tools/uoc_repack_model.py:170-176 | clear bits lead to way 0, set bits to way 7 |
| Plru.TouchSets | tools/uoc_repack_model.py:178-186 | a touch turns the nodes above the way away from it and no others, and keeps the tree below 128 |
| Plru.NodeRemembers | tools/uoc_repack_model.py:170-186 | after any touches a node points away from the last way touched below it |
| Plru.MinimumLifeSpan | tools/uoc_repack_model.py:170-199 | a touched way can be the victim only after three touches of different other ways |
| Plru.LifeSpanSharp | tools/uoc_repack_model.py:170-199 | three are enough: sibling, other pair, other half make any way the victim |
| Plru.TreeStaysBelow128 | tools/uoc_repack_model.py:160 | after any touches the tree fits in seven bits |
| Plru.PLRUSet.Find | tools/uoc_repack_model.py:164-168 | the first valid way that holds the tag, or -1 |
| Plru.PLRUSet.ChooseVictim | tools/uoc_repack_model.py:170-176 | the loop over the levels finds the victim |
| Plru.PLRUSet.TouchWay | tools/uoc_repack_model.py:178-186 | the loop over the levels does the touch, and nothing else changes |
| Plru.PLRUSet.Install | tools/uoc_repack_model.py:188-199 | the first free way, or the victim if there is none, gets the tag and is touched |
| UocModel.HeadInjective | tools/uoc_repack_model.py:207-212 | on even program counters index and tag together determine the head |
| UocModel.HeadParts | tools/uoc_repack_model.py:207-212 | an address is 64 times its tag plus twice its index plus its lowest bit |
| UocSegments.EntriesGreedy | tools/uoc_repack_model.py:331-335 | every entry ends as soon as it is whole: at the fourth uop, or at an opcode 0x67, 0x73, 0x0f or 0x2f |
| UocSegments.EntriesCover | tools/uoc_repack_model.py:309-337 | between flushes, the entries and the unfinished one are all uops in their order |
| UocSegments.EntriesAfterFlush | tools/uoc_repack_model.py:291-297 | a flush drops the unfinished entry, and what follows is cut as if it came first |
| UocSegments.TraceTold | tools/uoc_repack_model.py:221-353 | for every trace the single pass ends with the counters of two passes, one that cuts the trace into entries and one that replays their heads: entries, known heads, sets, installs, evictions, lookups, hits, misses, streaks, flushes, truncated and recovered slots |
| UocInvariant.StepsInv | tools/uoc_repack_model.py:290-337 | every event keeps the cache invariant (unique tags, known heads, occupancy) and the counter invariant |
| UocInvariant.Accounting | tools/uoc_repack_model.py:339-374 | on every trace: lookups are hits plus misses, streaks add up to hits, occupancy is installs minus evictions, heads <= installs <= heads + misses, recovered <= truncated <= 4 groups - uops |
| UocHistory.EvictionsSpare | tools/uoc_repack_model.py:188-199 | at every slot of every trace, the way that the next eviction in a set would take is none of the last three ways sealed there |
| UocHistory.EvictionTakesVictim | tools/uoc_repack_model.py:269-278 | sealing a new tag into a full set replaces the victim and no other way |
| UocHistory.Histograms | tools/uoc_repack_model.py:299-307 | the histograms count the groups of the trace by width and by cause, and widths account for all groups and uops |
| UocInvariant.Capacity | tools/uoc_repack_model.py:156-212 | no eviction if and only if no set sees more than eight distinct heads; then no lookup misses and every head is installed once |
| UocRun.RunState.SealInSet | tools/uoc_repack_model.py:269-278 | a hit touches, a miss installs, and an eviction is reported exactly when no way was free |
| UocRun.RunState.Seal | tools/uoc_repack_model.py:263-288 | the mutable seal does the sealing step of the state machine |
| UocRun.RunState.Recover | tools/uoc_repack_model.py:281-287 | exactly the truncated groups of the entry are marked recovered |
| UocRun.RunState.CountLookup | tools/uoc_repack_model.py:317-326 | hit and miss counters and the streak of hits |
| UocRun.RunState.Open | tools/uoc_repack_model.py:313-330 | a new entry is opened with its residency; only known heads count as lookups |
| UocRun.RunState.Slot | tools/uoc_repack_model.py:309-337 | one uop extends or opens an entry, and a control transfer or the fourth uop seals it |
| UocRun.RunState.BeginGroup | tools/uoc_repack_model.py:299-307 | group counters, both histograms, and the empty slots of truncating groups |
| UocRun.RunState.Group | tools/uoc_repack_model.py:299-337 | a whole group is one step of the state machine |
| UocRun.RunState.Flush | tools/uoc_repack_model.py:291-297 | a flush drops the open entry and ends the streak |
| UocRun.RunState.Finish | tools/uoc_repack_model.py:339-342 | the last entry is sealed and the last streak closed |
| UocRun.RunModel | tools/uoc_repack_model.py:221-374 | every figure of the report is that of the trace, cut into entries and replayed; and the figures agree with each other |
| UocRun.ReportTold | tools/uoc_repack_model.py:344-374 | the report of the final state is the two-pass reading of the events |
| UocRun.ReportsConsistently | tools/uoc_repack_model.py:355-374 | the width histogram accounts for groups and uops, four times the recovered cycles are the recovered slots, per-set occupancy adds up to installs minus evictions, and the capacity law in terms of the report |
| Lcg.GeometricDivides | tools/value_pred_model.py:46-53 | the sum of n powers of a multiplier that is 1 modulo 4 has exactly as many factors two as n |
| Lcg.IterateIsUnreduced | tools/value_pred_model.py:53 | reducing to 31 bits in every step changes nothing modulo 2^31 |
| Lcg.FullPeriod | tools/value_pred_model.py:41-57 | in the k low bits, k <= 31, n steps lead back to the seed if and only if 2^k divides n, from every seed |
| Lcg.IteratesDistinct | tools/value_pred_model.py:52-54 | iterates of a seed less than 2^31 steps apart are different |
| Lcg.SeedWindow | tools/value_pred_model.py:44-52 | two values of the stream are equal exactly when their places are equal modulo 1024 |
| Lcg.StreamRecurrence | tools/value_pred_model.py:44-53 | the stream starts every window with 12345 and goes on with 1103515245 x + 12345 modulo 2^31 |
| Lcg.StreamCrc32Seed | tools/value_pred_model.py:41-57 | the nested loops emit the windows one after the other, n values or all 174080 |
| ValueRun.SatConf.Increase | tools/value_pred_model.py:100-104 | the counter goes up by one, at most to the maximum |
| ValueRun.Predictor.Learn | tools/value_pred_model.py:148-183 | the update after a value, for all six kinds; no two table entries ever share a counter |
| ValueRun.Predictor.Observe | tools/value_pred_model.py:121-185 | predict, count, update and shift for one value |
| ValueCoverage.RunCounts | tools/value_pred_model.py:106-186 | for every kind, stream, maximum and threshold: a prediction is issued exactly where the values last seen after the same context (for stride kinds the last steps) agree often enough, and is right exactly where the last of them says so |
| ValueRun.RunPredictor | tools/value_pred_model.py:106-186 | the three counts returned are these, and correct <= confident <= total, the length of the stream |
| ValuePred.TwoDeltaIsStride | tools/value_pred_model.py:153-166 | the kinds stride and 2delta are in the same state after every stream |
| ValueCoverage.LastValueAt | tools/value_pred_model.py:124-152 | last-value speaks exactly after T + 1 equal values, and is right if another one follows |
| ValueCoverage.StrideCoverage | tools/value_pred_model.py:128-166 | on an arithmetic progression modulo 2^64 both stride kinds are right on all but the first T + 2 values, and never wrong |
| ValueCoverage.ContextCoverage | tools/value_pred_model.py:132-183 | for fcm1, fcm2 and vtage, where a context determines the next value: confident predictions are right, and exactly the values whose context came up more than T times before are covered |
| ValueCoverage.AlwaysRightIffDetermined | tools/value_pred_model.py:132-147 | with threshold zero the table predictors are never wrong if and only if each context determines the next value |
| ValueCoverage.ContextOnPeriodic | tools/value_pred_model.py:106-186 | on P distinct values repeated, a table with contexts of k values predicts all but the first k + P (T + 1) values, all correctly |
| ValueCoverage.OnCrc32Seed | tools/value_pred_model.py:41-57 | on the crc32_seed stream with confidence 7: 165887, 165886 and 165884 of 174080 for fcm1, fcm2 and vtage of order 4, all correct |
| Crc.ShiftRegister | tests/coremark/src/core_util.c:174-185 | the branches with carry and mask are one shift of the register with feedback 0xA001 |
| Crc.CrcU8 | tests/coremark/src/core_util.c:164-188 | eight steps, least significant bit first |
| Crc.CrcU16 | tests/coremark/src/core_util.c:189-195 | the fold over the two little-endian bytes |
| Crc.Crc16 | tests/coremark/src/core_util.c:203-207 | the same for the signed parameter |
| Crc.CrcU32 | tests/coremark/src/core_util.c:196-202 | the fold over the four little-endian bytes |
| Crc.CheckValue | tests/coremark/src/core_util.c:164-188 | the crc of "123456789" from zero is 0xbb3d, the published check value of CRC-16/ARC |
| Crc.OfMessageAppend | tests/coremark/src/core_util.c:189-202 | the crc of a message continues the crc of its prefix |
| Crc.FeedLinear | tests/coremark/src/core_util.c:164-188 | the register is linear over exclusive-or of start value and message |
| Crc.CollideByWindow | tests/coremark/src/core_util.c:164-188 | two messages collide exactly when the window of differing bits takes the zero register back to zero |
| Crc.BurstDetected | tests/coremark/src/core_util.c:164-207 | different messages of one length that differ within 16 consecutive bits have different crcs, from every start value |
| Crc.SeventeenBitBurst | tests/coremark/src/core_util.c:164-207 | messages that agree outside 17 bits collide if and only if they are equal or differ by the generator |
| Crc.FeedParity | tests/coremark/src/core_util.c:164-188 | the parity of the register is that of start value and message |
| Crc.OddErrorDetected | tests/coremark/src/core_util.c:164-207 | an error of an odd number of bits changes the crc |
| NumberTokens.Classification | tests/coremark/src/core_state.c:205-214 | end state INT, FLOAT or SCIENTIFIC if and only if the word is of that language |
| NumberTokens.InvalidIffNotViable | tests/coremark/src/core_state.c:205-214 | INVALID if and only if no number starts with the word |
| NumberTokens.Characters | tests/coremark/src/core_state.c:198-204 | the characters of each class: decimal digits, signs, the point, e and E |
| CoreState.OneTransition | tests/coremark/src/core_state.c:230-326 | the switch: next state and the transition counters of one character |
| CoreState.Transition | tests/coremark/src/core_state.c:216-330 | the scan loop, from a position to the end of the token; it stays in front of the next zero |
| CoreState.TokenClassified | tests/coremark/src/core_state.c:205-214 | a call on non-empty input advances, classifies the word up to comma or end by language, and stops as INVALID at the first character that rules a number out |
| CoreState.ScanBlock | tests/coremark/src/core_state.c:65-76 | the loop of calls: end states tallied, transitions counted, until the zero |
| TokenCounts.CallReads | tests/coremark/src/core_state.c:216-330 | one call reads one word, up to a comma, a zero or the first hopeless character, and every counter grows by the steps of the word that it tells of |
| TokenCounts.ScanAllReads | tests/coremark/src/core_state.c:65-76 | all calls: the end states are those of the words of the block; the counters of START, S1, S2 and EXPONENT count the characters read there, those of INT and FLOAT the steps out of them, that of INVALID the steps to it from START and SCIENTIFIC |
| CoreState.CallsCounted | tests/coremark/src/core_state.c:66-69 | the final counts add up to the number of calls |
| StateBench.Corrupt | tests/coremark/src/core_state.c:77-83 | exactly every step-th byte of the block that is not a comma is changed by the key |
| StateBench.RepairedIff | tests/coremark/src/core_state.c:97-103 | the second pass restores the block if and only if every visited byte is a comma, or both keys are equal and no visited byte was turned into a comma |
| StateBench.CountsCrc | tests/coremark/src/core_state.c:105-109 | the checksum of final and track counters, alternating, as 32-bit words |
| StateBench.CountBytesAt | tests/coremark/src/core_state.c:105-109 | the checked message is, state by state, the final and the track counter as four bytes each, the low one first |
| StateBench.CoreBenchState | tests/coremark/src/core_state.c:45-111 | both scans, both passes, and the checksum over the counters of the words of the block and of the corrupted block |
| StateBench.CopyTokens | tests/coremark/src/core_state.c:148-185 | as many strings as leave two bytes free, selected by consecutive seeds |
| StateBench.CoreInitState | tests/coremark/src/core_state.c:139-195 | the block is the selected strings, each with a comma, then zeros to the end; memory behind it is untouched |
| StateBench.SeedsCountUp | tests/coremark/src/core_state.c:155-160 | the strings are selected by consecutive seeds |
| InitialWords.InitialBlockRead | tests/coremark/src/core_state.c:113-195 | for every seed and size, the first scan of the initial block ends, string by string, in the state of the string's kind; error strings give invalid words and one empty word |
| StateBench.InitialScansStop | tests/coremark/src/core_state.c:66-96 | from an initial block of two or more bytes, and steps of two or more, both scans find a zero inside the block |
| StateBench.InitialRepaired | tests/coremark/src/core_state.c:97-103 | with equal seeds, every initial block is restored if the key turns a comma into neither zero nor a character of the strings |
| StateBench.ShippedKeys | tests/coremark/src/core_main.c:150-164 | the keys of the performance, validation and profile seeds satisfy that condition |
| StateBench.ProgramRepairedIff | tests/coremark/src/core_main.c:240-244 | with block and key from one seed: restored if and only if every visited character of the strings is kept and, where padding is visited, both keys are equal and no comma |
| StateBench.NotRepaired | tests/coremark/src/core_state.c:97-103 | seed 0x19 for block and both keys damages its block of 666 bytes at period 0x22 |
| StateBench.SetUpAndBench | tests/coremark/src/core_list_join.c:187-194 | after the set-up, any number of calls with equal safe seeds and steps of two or more leave all memory alone, so that each result depends only on step and crc |
| Words.ZeroDetected | tests/coremark-pro/baremetal/string_opt.c:23-24 | HASZERO is non-zero if and only if some byte is zero |
| Words.ByteDetected | tests/coremark-pro/baremetal/string_opt.c:26-27 | HASZERO of a word mixed with a broadcast byte detects exactly that byte |
| ByteStrings.StrCpy | tests/dhrystone/src/string_bare.c:3-7 | the string and its terminator are copied and nothing else is written |
| ByteStrings.StrCmp | tests/dhrystone/src/string_bare.c:9-12 | the difference of the first bytes that differ or end a string |
| ByteStrings.MemCpy | tests/dhrystone/src/string_bare.c:14-19 | exactly n bytes are copied |
| ByteStrings.CompareOrders | tests/dhrystone/src/string_bare.c:9-12 | zero if and only if the strings are equal, negative if and only if the first comes before the second in the order of unsigned bytes |
| WideStrings.CopyToAlignment | tests/dhrystone/src/string_ww.c:15 | the byte loop stops at an aligned address or behind the terminator |
| WideStrings.CopyWords | tests/dhrystone/src/string_ww.c:17-21 | whole words are copied up to the word of the terminator; the source array may end with that word |
| WideStrings.StrCpy | tests/dhrystone/src/string_ww.c:12-28 | the same memory as the byte loop, for all alignments |
| WideStrings.CompareWords | tests/dhrystone/src/string_ww.c:37-39 | skipping equal words without a terminator keeps the comparison; each array may end with the word of its own terminator |
| WideStrings.StrCmp | tests/dhrystone/src/string_ww.c:30-43 | the same integer as the byte loop, for all alignments |
| WideStrings.MemCpy | tests/dhrystone/src/string_ww.c:45-55 | the same memory as the byte loop, for all alignments |
| ScanStrings.ByteSetBuild | tests/coremark-pro/baremetal/string_opt.c:32-37 | the bitmap holds exactly the characters of the string |
| ScanStrings.SlotIsShift | tests/coremark-pro/baremetal/string_opt.c:36 | the word of a character in the bitmap is its upper two bits |
| ScanStrings.BitSet | tests/coremark-pro/baremetal/string_opt.c:36-42 | setting one bit adds one character to its word |
| ScanStrings.FirstUnique | tests/coremark-pro/baremetal/string_opt.c:44-134 | the first-index specifications determine the result |
| ScanStrings.StrCspnOne | tests/coremark-pro/baremetal/string_opt.c:51-68 | word-at-a-time scan for one character |
| ScanStrings.StrCspnTwo | tests/coremark-pro/baremetal/string_opt.c:70-95 | word-at-a-time scan for two characters |
| ScanStrings.StrCspnMany | tests/coremark-pro/baremetal/string_opt.c:97-103 | bitmap scan for any set of characters |
| ScanStrings.StrCspn | tests/coremark-pro/baremetal/string_opt.c:44-104 | on all four paths, the first place that holds a rejected character or the terminator |
| ScanStrings.StrChr | tests/coremark-pro/baremetal/string_opt.c:136-164 | the first place of the character, the terminator included; null if and only if it does not occur |
| ScanStrings.StrSpnMany | tests/coremark-pro/baremetal/string_opt.c:127-133 | the first place that holds no accepted character |
| ScanStrings.StrSpnOne | tests/coremark-pro/baremetal/string_opt.c:112-125 | computes the loops for one accepted character as they are written |
| ScanStrings.StrSpn | tests/coremark-pro/baremetal/string_opt.c:106-134 | right for no or several accepted characters; for one, what the loops as written give |
| ScanStrings.SpanOneRightIff | tests/coremark-pro/baremetal/string_opt.c:113-124 | for one accepted character the result is right if and only if a mismatch comes before the first aligned address or the first aligned word holds the character; else it leaves memory or returns too much |
| ScanStrings.SpanOneWrong | tests/coremark-pro/baremetal/string_opt.c:121 | sixteen bytes on which the span of length 0 is returned as 9 |
| NumberText.ValueOfDigits | tests/coremark/src/barebones/ee_printf.c:30-31 | the digits in any base 2 to 36, either case, stand for the number |
| NumberText.DigitAlphabet | tests/coremark/src/barebones/ee_printf.c:30-31 | digit d is character d of the lower-case or the upper-case alphabet |
| NumberText.NoLeadingZero | tests/coremark/src/barebones/ee_printf.c:97-108 | a positive number gets no leading zero |
| NumberText.DigitCount | tests/coremark/src/barebones/ee_printf.c:55 | a number below 2^k has at most k digits in every base |
| NumberText.DigitLoop | tests/coremark/src/barebones/ee_printf.c:97-108 | the division loop leaves the digits in reverse order, at most 64 of them |
| NumberText.SignAndSize | tests/coremark/src/barebones/ee_printf.c:67-95 | sign character, magnitude and what is left of the field |
| NumberText.Fill | tests/coremark/src/barebones/ee_printf.c:113-115 | as many characters as the counter says, and where the counter ends |
| NumberText.BareLayout | tests/coremark/src/barebones/ee_printf.c:67-139 | without width and precision: minus, plus or blank for a signed number, 0 or 0x if asked for, and the digits |
| NumberText.LayoutLength | tests/coremark/src/barebones/ee_printf.c:110-139 | the length is the larger of the width and sign plus prefix plus the larger of precision and digits, for all flags |
| NumberText.Number | tests/coremark/src/barebones/ee_printf.c:52-140 | exactly the layout is written and the end returned; nothing is written for a base out of range |
| SeedText.ParseDigits | tests/coremark/src/core_util.c:90-110 | the digit loops stop at the first other character with the value, reduced to 32 bits |
| SeedText.ParseVal | tests/coremark/src/core_util.c:70-118 | the number the text stands for, with sign, base prefix and unit, reduced to 32 bits |
| SeedText.DigitCharacters | tests/coremark/src/core_util.c:86-103 | decimal digits, and a to f in hexadecimal |
| SeedText.UnitsRead | tests/coremark/src/core_util.c:109-117 | printed digits are read as the number, 2^10 times it before a K and 2^20 times it before an M, with sign and prefix, reduced to 32 bits |
| SeedText.DecimalRoundTrip | tests/coremark/src/core_util.c:70-118 | for signed decimals below 2^31 in magnitude, printing and parsing gives the number back if and only if it is zero or no blank and no plus is printed first |
| SeedText.HexRoundTrip | tests/coremark/src/core_util.c:85-103 | the same for prefixed lower-case hexadecimal below 2^31 |

## Left out

- The SystemVerilog core and the C++ testbenches.
- IEEE rounding, the real `sin`, failing `malloc`, and the exit codes of `halt` in the FFT kernel; its generated input vector.
- The bodies of the state and matrix kernels as seen from `calc_func`: they are arbitrary functions there, so that they read or write the list's memory is excluded, not proved; `core_matrix.c` altogether.
- The layout of list nodes and items in their memory block, and lists too small to hold a tail: `core_list_init` allocates objects here, as many as the block has room for, and is given that number.
- Debug code under `RV64GC_COREMARK_DEBUG_RESULTS` and `CORE_DEBUG`.
- 32-bit overflow of `insize` in the sort, of `total` in `core_init_state` and of `size` and `precision` in `number`: these are unbounded integers here.
- Alignment and size of memory are the only things known about addresses; that aligned words may be loaded whole is what the source assumes.
- Trace parsing, summaries and reports of both Python models.
- The streams `crc32_s0` and the generic generator.
- Float, string and address formatting and argument handling in `ee_printf.c`; upper-case hexadecimal is printed but not part of a round trip, since `parseval` does not read it.
- `bump_alloc.c`, stubs, port files, runners and renderers.
- SeedText.ParseVal: signed overflow, undefined in C, is taken as wrap-around.
