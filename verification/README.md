# Verification of the SEAM minimizer, queue, I/O sets and DEFLATE kernels

This project models, in Dafny, the parts of the SEAM runtime (the virtual machine of Alice ML) whose
correctness is hardest to see, and proves what they are for:

- **The graph minimizer** (`seam/generic/Minimizer.cc`, `MinimizerLoader.cc`). A depth-first loader numbers
  the data reachable from a root and records predecessor edges. Partition refinement in the manner of
  Hopcroft then finds the classes of nodes that stand for the same data, and the data graph is redirected to
  one node per class. Main result: `MinimizeData.LoadAndMinimize`. For every store without mixed pairs (see below)
  and every root, the infinite unfolding behind the root is unchanged, no two nodes that are reachable afterwards
  stand for the same unfolding, and everything else in the store is as it was. `SharedData` says the same without
  the comparison, by label numbers and mutability: alike closures, tuples, transforms and immutable data, cyclic ones
  too, are found at one address, and everything else at its own address along every path. Underneath it are the agenda
  invariant with its signed counters, the tiling of the node array by blocks under swaps, and a lexicographic
  termination measure.
- **The DEFLATE code of the bundled zlib 1.2.3** (`seam-support/zlib`). The encoder's side is modelled from
  symbol frequencies to bits: heap, tree, length-limited code lengths, canonical codes, run-length coded trees,
  bit buffer. The decoder's side is modelled from bits to bytes: two-level tables, the bit accumulator, the
  header states, the slow states and the fast loop, the circular window. Main results:
  - `BlockStream.RoundTrip`: whatever literals and matches are sent as blocks with dynamic trees, and however the
    bytes are cut into calls of `inflate` with output buffers of whatever sizes, the output is what copying from
    the whole output history gives, all of it or, where the calls bring too little, a beginning of it.
    `BlockStream.DecodeStream` promises this for every encoder: for any blocks with any codes a decoder can work with,
    their lengths sent as any symbols that stand for them. What the bits mean is stated by the rules of RFC 1951
    (`BlockStream.BlockLayout`, `CodeLengths.RepeatRule`, `Huffman.CodeByRule`, `BlockSymbols.SymbolRule`,
    `BlockSymbols.DistanceRule`), not by the tables of the source. The decoder
    goes to the fast loop exactly where the source does; `FastDecode.InflateFast` and `SlowDecode.SlowStep` refine
    the same meaning of a symbol, `BlockDecoder.Next`.
  - `EncoderTree.BuildTree`: for all frequencies, a complete code of limited length. Unless the frequencies exceed
    sixteen bits, more frequent symbols have no longer codes and no other way to give out the lengths takes fewer
    bits, limit or no limit; if the limit is not hit, no other code takes fewer bits, and none that takes as few has
    a shorter longest code. The limit is not hit if the frequencies add up to less than a Fibonacci number.
  - `InflateTable.Build`: lengths are rejected exactly if some bits begin with no code or with two, apart from a
    single code of one bit and no code at all; the tables decode every code, and the space for them is always enough, which
    `inftrees.h:38-42` leaves to a search: at most 864 entries for literals and lengths and 608 for distances.
- **The checksums** CRC-32 and Adler-32. The table-driven CRC loops are proved equal to polynomial division with the
  first 32 bits and the remainder inverted,
  `crc32_combine` to the CRC of the concatenation; `adler32` is proved equal to its definition without 32-bit
  overflow for every running sum it is given, with the exact condition under which one byte is added wrongly, and
  `adler32_combine` is shown to be right exactly when neither half of the true result is 0.
- **The circular queue and the pending-I/O sets** (`seam/adt/Queue.hh`, `seam/generic/IOHandler.cc`). Every run
  of queue operations refines an unbounded sequence; every future that was ever made waits in exactly one set
  entry or has been bound exactly once.

The model takes the form of the source: the partition, the node array, the loader's table, the bit writer and
reader, the inflater with its window, the queue and the sets are classes with their fields; loops are loops with
invariants; the comparison functions are functions. All files are verified together:
`dafny verify dfyconfig.toml`.

## How the files hang together

- Minimizer: `Heap` (store), `Compare` (the ordering), `PBlocks` (counters and marks), `NodeArray` (permutation
  and quicksort), `DataGraph` (bisimilarity), `Refinement` (agenda invariant), `Splitting`, `Counters`,
  `InitialBlocks` (steps of the loops), `Minimizer` (the class `Partition`), `Reduction` (unfoldings and
  redirection), `Loader`, `SharedData` (what is shared, without the comparison), `MinimizeData`.
- Huffman codes: `Bits`, `Huffman`, `InflateTable`; `TreeHeap`, `TreeShape`, `BitLengths`, `LengthLimit`,
  `HuffmanOptimal` (why merging the lightest nodes is best), `HuffmanTree`, `OptimalLengths`, `EncoderTree`.
- Trees in the stream: `CodeLengths`, `BitStream`, `BitInput`, `TreeSender`, `CodeLensDecoder`, `DynamicTrees`,
  `TreeReader`.
- Blocks: `History`, `InflateWindow`, `InflateCalls`, `FastCopy`, `LengthCodes`, `BlockDecoder`, `FastDecode`,
  `SlowDecode`, `BlockEncoder`, `BlockSymbols`, `DynamicBlock`, `BlockStream`.
- Checksums: `Crc32`, `CrcTables`, `CrcCombine`, `Adler32`.
- Queue and I/O: `Queue` (module `QueueModel`), `IOSet`, `IOHandler`. `Wrappers` holds the option type.

## Where code and comments disagree

- `inflate.c:1039-1053`: the distance of a match is checked once, against the window and the output of the call at
  hand. A distance larger than the window passes while the output buffer covers it; if the match then goes on in a
  later call, the MATCH state reads before the window or from the wrong place in it. `InflateWindow.FarMatch` is an
  input for which it reads before the window (window of 256 bytes, 300 bytes put out in a buffer of 301, distance
  300). `InflateWindow.Inflater.MatchOverCalls` states that this happens if and only if the match does not fit the
  room left, there is another call, and the distance is larger than the window.
- `inffast.c:46` and `inffast.c:287` assume fewer than eight bits on entry. All other states leave fewer, but a call
  that resumes in the middle of a literal/length code can enter the fast loop with more. `FastDecode.InflateFast`
  needs only that the bits at hand are fewer than eight or fewer than the next code has, which
  `BlockStream.DecodeSymbols` establishes; giving unused bytes back is right all the same.
- `inftrees.h:38-42` calls the true maximum of the table size unknown; `InflateTable.Build` bounds it, so that the
  branches for a full table (`inftrees.c:212-213`, `inftrees.c:279-281`) are never taken by `inflate`.
- `trees.c:655` says that a forced code is 0 or 1. With symbol 1 as the only used one the forced code is 2
  (`trees.c:651`, `HuffmanTree.ForcedCodeTwo`); `HuffmanTree.ForceTwo` follows the code.
- `trees.c:822-824` can leave `max_blindex` at 2, although at least four lengths must be sent (`trees.c:844`):
  `DynamicTrees.ZeroTablesSendTooFew` shows it for 257 and 3 zero lengths. `DynamicTrees.BuildBlTree` states that
  this happens if and only if only repeat symbols, of more than one kind, are sent, and `DynamicTrees.PlainSent` that
  a code length other than 0 in the literal tree excludes it. `build_tree` always gives one to the end-of-block symbol.
- `Minimizer.cc:364-381` tests only one of the two blocks for mutability, so `compare` is not an ordering on all
  stores. `Compare.AntisymmetricIff` states exactly when it is antisymmetric, `Compare.MixedMutabilityBreaksOrder`
  gives two blocks for which it is not, and the minimizer is proved for stores without mixed pairs: a mutable and an
  immutable block of one label whose blocks are compared by contents or by address depending on mutability.
- `adler32.c:144-147` reduces with `>` where `>=` is meant; `Adler32.CombinePieces` and `Adler32.CombineEmpty`
  state the consequence. `adler32.c:69-78` reduces by one subtraction each: a single byte is added wrongly if and only
  if the second sum handed in is so large that it needs two (`Adler32.Checksum`, `Adler32.UnreducedByte`); sums whose
  halves are at most BASE, as `adler32_combine` returns them, never are (`Adler32.ContinuesCombined`).
- `IOHandler.cc:337`: `IsWritable` hands its set to `select` as the set of descriptors to read; it is not part of the
  model.

## Model

| member | source | states |
|---|---|---|
| `MinimizeData.LoadAndMinimize` | seam/generic/Minimizer.cc:1015-1046 | loading and minimizing keep the unfolding of every node that was reachable, leave no two reachable nodes with the same unfolding, reach nothing new, and change nothing else; by labels and mutability alone: along every path the same data, blocks not to be shared at their own address, alike blocks that may be shared at one address; an integer root changes nothing |
| `SharedData.SharedFrom` | seam/generic/Minimizer.cc:324-383 | if unfoldings are kept and no two reachable nodes unfold alike, then the same data is found along every path, a block with one of the listed labels or a mutable one of another label at its own address, and alike blocks of other kinds at one address |
| `SharedData.LabelsSplit` | seam/store/StoreConfig.cc:135-149 | the labels that keep their address and those that are always shared, by their numbers in the store, are those the comparison lists |
| `SharedData.LikenessUnfolds` | seam/generic/Minimizer.cc:324-383 | blocks that may be shared and look the same, as do those their pointers lead to, have the same unfolding, cyclic or not |
| `SharedData.OneKindUnmixed` | seam/generic/Minimizer.cc:364-381 | a store has no mixed pairs if and only if no label that is shared by mutability has both mutable and immutable blocks |
| `Compare.TotalPreorder` | seam/generic/Minimizer.cc:385-415 | compare is antisymmetric, transitive and reflexive on stores without mixed pairs |
| `Compare.EqualIffSameObservation` | seam/generic/Minimizer.cc:290-383 | two nodes compare equal if and only if they look the same without following pointers (and are the same node where they are compared by address) |
| `Compare.AntisymmetricIff` | seam/generic/Minimizer.cc:364-381 | compare is antisymmetric if and only if every mixed pair is ordered by contents as by address |
| `Compare.MixedMutabilityBreaksOrder` | seam/generic/Minimizer.cc:364-381 | two blocks that differ only in mutability compare as -1 one way and 0 the other |
| `Compare.ScanChildren` | seam/generic/Minimizer.cc:290-308 | the loop over the children from the last index down computes the lexicographic comparison |
| `PBlocks.Increment` | seam/generic/Minimizer.cc:116-127 | adds one to the absolute value of one counter, keeps all marks and the count of negative counters |
| `PBlocks.Mark` | seam/generic/Minimizer.cc:163-181 | marks an edge exactly if its counter is not 0; counters keep their absolute values, cell 0 counts the marks |
| `PBlocks.Unmark` | seam/generic/Minimizer.cc:195-212 | removes exactly one mark |
| `PBlocks.Decrement` | seam/generic/Minimizer.cc:129-144 | takes one off a counter and keeps its mark unless it was the last such edge |
| `PBlocks.AgendaIffMarked` | seam/generic/Minimizer.cc:183-193 | cell 0 is not 0 if and only if some edge is marked |
| `Counters.AddIncoming` | seam/generic/Minimizer.cc:641-652 | counts all predecessor edges of a node into a block |
| `Counters.MoveIncoming` | seam/generic/Minimizer.cc:654-666 | moves all predecessor edges of a node from one block to another, marks of emptied edges go |
| `Counters.MarkHalves` | seam/generic/Minimizer.cc:850-879 | after a split, marks and stack pushes come out as the agenda rule says for every edge |
| `Counters.PutCompleteOnAgenda` | seam/generic/Minimizer.cc:214-234 | marks exactly the edges with a counter other than 0, pushes the block if there is one |
| `NodeArray.DynNodeArray.InitNext` | seam/generic/Minimizer.cc:524-537 | appends a node with its number; the lookup table stays the inverse of the permutation |
| `NodeArray.DynNodeArray.Swap` | seam/generic/Minimizer.cc:454-473 | exchanges two nodes and keeps the lookup table the inverse of the permutation |
| `NodeArray.DynNodeArray.PartitionRange` | seam/generic/Minimizer.cc:475-489 | one round of quicksort: a rearrangement of the range, split by the pivot, no index out of range |
| `NodeArray.DynNodeArray.Sort` | seam/generic/Minimizer.cc:491-498 | the range is sorted by compare and is a rearrangement, everything else unchanged |
| `DataGraph.StableCoarseIsBisimilarity` | seam/generic/Minimizer.cc:1015-1043 | a stable partition that separates no bisimilar nodes is bisimilarity, both ways |
| `Refinement.SplitKeepsAgenda` | seam/generic/Minimizer.cc:841-879 | marking only the half with fewer incoming edges, unless the block was marked, keeps the agenda invariant |
| `Refinement.UnmarkKeepsAgenda` | seam/generic/Minimizer.cc:1034-1041 | taking a splitter off the agenda is paid for by the splits pending at its parents |
| `Refinement.PendingDone` | seam/generic/Minimizer.cc:818-887 | when every block is uniform in the marked parents no split is pending |
| `Refinement.EmptyAgendaIsStable` | seam/generic/Minimizer.cc:1029-1043 | with no marks left the partition is stable |
| `Refinement.SplitKeepsCoarse` | seam/generic/Minimizer.cc:838-848 | splitting by the parents of a block separates no bisimilar nodes |
| `Refinement.ParentsBisimClosed` | seam/generic/Minimizer.cc:903-951 | the parents along one edge of a block of a coarse partition are closed under bisimilarity |
| `Splitting.MarkOne` | seam/generic/Minimizer.cc:770-810 | marking a node that is not marked yet moves it behind the split index; the marked nodes are exactly those behind their split indices and the to-do list holds exactly the blocks with marked nodes |
| `Splitting.ListedAreParents` | seam/generic/Minimizer.cc:920-944 | the parents collected while following a block back are exactly its parents along the edge |
| `Splitting.AfterSplit` | seam/generic/Minimizer.cc:838-848 | splitting off the marked nodes keeps tiling, counters and everything that holds of the partition |
| `Minimizer.Partition.InsertNode` | seam/generic/Minimizer.cc:727-730 | the next number, no predecessors |
| `Minimizer.Partition.AddParent` | seam/generic/Minimizer.cc:812-816 | adds one predecessor edge to one node |
| `Minimizer.Partition.InitBlocks` | seam/generic/Minimizer.cc:732-768 | blocks tile the sorted array, counters are exact, and two nodes share a block if and only if they look the same |
| `Minimizer.Partition.InitAgenda` | seam/generic/Minimizer.cc:889-901 | every block is marked for all its incoming edges, and every marked block is on the stack |
| `Minimizer.Partition.SplitBlockAtNode` | seam/generic/Minimizer.cc:770-810 | marks one node for splitting; tiling, counters and the lookup table survive the swap |
| `Minimizer.Partition.FollowBack` | seam/generic/Minimizer.cc:903-951 | marks exactly the parents of the block along the edge, those in the block itself last |
| `Minimizer.Partition.SplitBlock` | seam/generic/Minimizer.cc:836-881 | splits one block and keeps the invariant of the refinement and the stack |
| `Minimizer.Partition.DoSplits` | seam/generic/Minimizer.cc:818-887 | splits every block on the to-do list and leaves nothing pending |
| `Minimizer.Partition.ProcessEdge` | seam/generic/Minimizer.cc:1036-1040 | one splitter: the invariant is kept and fewer marks or more blocks are left |
| `Minimizer.Partition.Refine` | seam/generic/Minimizer.cc:1029-1043 | ends on every graph (blocks, then marks, then stack height), and then no marks are left |
| `Minimizer.Partition.LeadRoot` | seam/generic/Minimizer.cc:972-981 | makes the root the first node of its block |
| `Minimizer.Partition.RedirectBlock` | seam/generic/Minimizer.cc:984-1005 | redirects every edge into a block to its first node |
| `Minimizer.Partition.ReduceGraph` | seam/generic/Minimizer.cc:961-1008 | every edge leads to the leader of where it led, the root leads its own block, nothing else changes |
| `Minimizer.Partition.Minimize` | seam/generic/Minimizer.cc:1015-1046 | the store is redirected to one representative per bisimilarity class, with the root representing itself |
| `Minimizer.FinalPartition` | seam/generic/Minimizer.cc:1029-1045 | at the end two nodes are in one block if and only if they are bisimilar |
| `Minimizer.BlockBound` | seam/generic/Minimizer.cc:831-881 | there are never more blocks than nodes, which bounds the outer loop |
| `Reduction.BisimilarIffSameUnfolding` | seam/generic/Minimizer.cc:961-1008 | nodes are bisimilar if and only if they have the same unfolding |
| `Reduction.RedirectedUnfolding` | seam/generic/Minimizer.cc:961-1008 | redirection leaves every unfolding as it was |
| `Reduction.ReachesRepresentatives` | seam/generic/Minimizer.cc:961-1008 | exactly the representatives are reachable from the root afterwards |
| `Reduction.MaximalSharing` | seam/generic/Minimizer.cc:961-1008 | no two reachable nodes have the same unfolding afterwards |
| `Reduction.RedirectNode` | seam/generic/Minimizer.cc:994-1004 | redirects all recorded edges into one node, edge by edge |
| `Loader.PartitionSeen.Add` | seam/generic/MinimizerLoader.cc:47-52 | numbers a node with the counter and counts on |
| `Loader.PartitionSeen.Find` | seam/generic/MinimizerLoader.cc:53-60 | finds the number of a node exactly if it has one |
| `Loader.PushFields` | seam/generic/MinimizerLoader.cc:236-241 | pushes one frame per field, the last field first |
| `Loader.Run` | seam/generic/MinimizerLoader.cc:186-251 | ends on every store, cycles and sharing included, with every reachable node numbered once and every edge accounted for; the counter is the number of nodes |
| `Loader.LoadedGraph` | seam/generic/MinimizerLoader.cc:186-251 | the predecessor lists hold every edge of the reachable graph exactly once and nothing else |
| `Bits.BiReverse` | seam-support/zlib/trees.c:1146-1156 | the loop reverses the low bits of a code |
| `Bits.Increment` | seam-support/zlib/inftrees.c:241-250 | the loop that increments a code stored backwards computes the reversal of the next code |
| `Bits.BackIncrementRev` | seam-support/zlib/inftrees.c:241-250 | incrementing backwards is incrementing the code itself |
| `Huffman.FirstCodes` | seam-support/zlib/trees.c:587-592 | the first code of each length, in 16-bit arithmetic that does not overflow |
| `Huffman.GenCodes` | seam-support/zlib/trees.c:577-609 | every symbol of non-zero length gets its canonical code, reversed |
| `Huffman.CodeByRule` | seam-support/zlib/trees.c:587-608 | the code of a symbol is the first code of its length, by the recurrence of section 3.2.2 of RFC 1951, plus the number of earlier symbols of that length, sent from its highest bit |
| `Huffman.CodesPrefixFree` | seam-support/zlib/trees.c:577-609 | no code begins with another one, for every length vector that is not over-subscribed |
| `InflateTable.CountLengths` | seam-support/zlib/inftrees.c:106-110 | counts the symbols of each length |
| `InflateTable.CodesLeft` | seam-support/zlib/inftrees.c:130-136 | detects over-subscribed lengths, else gives what is left of the code space |
| `InflateTable.SortSymbols` | seam-support/zlib/inftrees.c:140-147 | sorts the symbols by length, then by symbol |
| `InflateTable.EnterCodes` | seam-support/zlib/inftrees.c:200-289 | every code is found through the root table or its sub-table; offsets fit 16 bits |
| `InflateTable.FillRest` | seam-support/zlib/inftrees.c:291-323 | marks the rest of an incomplete code invalid; there is never a sub-table to drop back from |
| `InflateTable.StartSubTable` | seam-support/zlib/inftrees.c:258-288 | a new sub-table lies after all others, below the space counted as used; the codes entered so far pay for all sub-tables before it |
| `InflateTable.SubTableBits` | seam-support/zlib/inftrees.c:268-276 | a sub-table is wide enough for every code that begins like its first one, and no wider than the longest of them |
| `InflateTable.RoomPaid` | seam-support/zlib/inftrees.c:258-281 | where a new sub-table begins, all sub-tables before it take no more entries than there are codes before it, and the first code of the new one |
| `InflateTable.GroupComplete` | seam-support/zlib/inftrees.c:130-138 | in a complete code a sub-table holds at least as many codes as if all were as long as its first |
| `InflateTable.FillTable` | seam-support/zlib/inftrees.c:140-329 | a complete code is entered, within a bound on the entries used |
| `InflateTable.Build` | seam-support/zlib/inftrees.c:32-329 | returns -1 if and only if some bits begin with no code or with two codes, unless no symbol has a code or, except for the code-length code, only one has and it has one bit; otherwise bits that begin with a code decode to its symbol and use up its length, all other bits are marked invalid, and one level is enough when it is as wide as the longest code; every entry and every address looked up lies below the number of entries used, which is at most 864 for literals and lengths and 608 for distances as inflate builds them, so the table is never full |
| `InflateTable.RejectedIff` | seam-support/zlib/inftrees.c:130-138 | the two tests on the rest of the code space reject exactly the lengths a decoder cannot work with, as bits and codes say |
| `InflateTable.Overlap` | seam-support/zlib/inftrees.c:134-135 | in an over-subscribed set of lengths the zero bits begin with two codes |
| `InflateTable.Uncovered` | seam-support/zlib/inftrees.c:137-138 | in an incomplete one there are bits that begin with no code |
| `InflateTable.SentBeginsWith` | seam-support/zlib/trees.c:600-608 | a code as the encoder sends it, followed by any bits, begins with that code |
| `InflateTable.CompleteCovers` | seam-support/zlib/inftrees.c:130-138 | in a complete code all bits begin with some code |
| `TreeHeap.PqDownHeap` | seam-support/zlib/trees.c:455-478 | restores the heap below a node and keeps the nodes |
| `TreeHeap.FirstIsSmallest` | seam-support/zlib/trees.c:445-447 | the first node of a heap is the smallest |
| `TreeShape.MergeStep` | seam-support/zlib/trees.c:668-690 | a merge keeps the merged nodes in pairs after their fathers, no node twice |
| `HuffmanTree.InitHeap` | seam-support/zlib/trees.c:636-643 | exactly the symbols that occur are on the heap, the others get length 0 |
| `HuffmanTree.ForceTwo` | seam-support/zlib/trees.c:650-657 | adds codes not in use until there are two, changes nothing else |
| `HuffmanTree.ForcedCodeTwo` | seam-support/zlib/trees.c:651-655 | when only symbol 1 is used the forced code is 2 |
| `HuffmanTree.Heapify` | seam-support/zlib/trees.c:659-662 | makes a heap of the symbols |
| `HuffmanTree.MergeLeast` | seam-support/zlib/trees.c:669-688 | the two least nodes become the sons of the new node, which takes their place |
| `HuffmanTree.MergeAll` | seam-support/zlib/trees.c:667-692 | ends with one tree over all symbols that occur; unless the frequencies exceed sixteen bits, every merge was of the two lightest nodes, the lowest ones among those, and the depths are the heights of the subtrees |
| `HuffmanOptimal.MergeBound` | seam-support/zlib/trees.c:664-690 | for any lengths that fit the code space before a merge of the two lightest nodes there are lengths that fit after it, with a total smaller by the weight of the father at least |
| `HuffmanOptimal.LowerBound` | seam-support/zlib/trees.c:664-690 | no lengths that fit the code space have a total below the sum of the weights of all fathers |
| `HuffmanOptimal.TreeTotal` | seam-support/zlib/trees.c:509-519 | the total of the depths in the tree, weighted by frequency, is the sum of the weights of all fathers |
| `HuffmanOptimal.BestAssignment` | seam-support/zlib/trees.c:548-566 | lengths that are not shorter for lighter nodes cost no more than the same lengths given out in any other way |
| `HuffmanOptimal.LowestTree` | seam-support/zlib/trees.c:441-447 | merging the lowest of the lightest nodes gives a tree no higher than any lengths that fit the code space and cost as little |
| `HuffmanOptimal.HeavyStep` | seam-support/zlib/trees.c:664-690 | a node of height n weighs at least the n-th Fibonacci number, and merging keeps it so |
| `OptimalLengths.BestLengths` | seam-support/zlib/trees.c:480-519 | the lengths in the tree take no more bits than any other lengths for which there are codes |
| `OptimalLengths.LimitedLighterLonger` | seam-support/zlib/trees.c:548-566 | the second pass gives lighter leaves codes that are not shorter |
| `OptimalLengths.LengthsInOrder` | seam-support/zlib/trees.c:548-566 | then more frequent symbols have no longer codes and no other way to give out the lengths takes fewer bits |
| `OptimalLengths.NoneLower` | seam-support/zlib/trees.c:441-447 | any other lengths that take as few bits have a longest code that is as long |
| `BitLengths.FirstPass` | seam-support/zlib/trees.c:507-529 | lengths by depth, cut at the limit; the code space is over-used by one unit for every two nodes that were too deep; without those every node has its depth |
| `BitLengths.PairStep` | seam-support/zlib/trees.c:514-523 | two sons share the width of their father, one unit too much if they were too deep |
| `LengthLimit.RepairCounts` | seam-support/zlib/trees.c:535-546 | the repair loop ends with counts that fill the code space exactly; its downward search always stops at a length of at least 1 |
| `LengthLimit.ShorterExists` | seam-support/zlib/trees.c:537-538 | while the code space is over-used some code is shorter than the longest |
| `LengthLimit.Reassign` | seam-support/zlib/trees.c:548-566 | gives exactly the counted number of leaves each length, never running out of leaves; leaves later in the order of the merged nodes get codes that are not shorter |
| `LengthLimit.GenBitLen` | seam-support/zlib/trees.c:490-567 | every leaf has a length in 1..max_length, the counts are exact and the Kraft sum is 1, with or without overflow; without, every leaf has its depth, and with it later leaves have no shorter codes; there is no overflow if the root has no more than max_length levels below it |
| `EncoderTree.BuildTree` | seam-support/zlib/trees.c:619-701 | for all frequencies: every symbol that occurs has a length in 1..max_length, the Kraft sum is 1, and the codes are canonical; unless the frequencies exceed sixteen bits, more frequent symbols have no longer codes, no other way to give out the lengths takes fewer bits, and if no node was too deep, no other lengths for which there are codes take fewer bits and none that take as few have a shorter longest code; no node is too deep if at most max_length + 1 symbols occur or the frequencies add up to less than a Fibonacci number |
| `EncoderTree.RoundTrip` | seam-support/zlib/inftrees.c:32-329 | the decoder never rejects a tree of the encoder, and reads back each of its codes followed by any bits |
| `CodeLengths.ScanTree` | seam-support/zlib/trees.c:707-744 | counts exactly the symbols that are sent for a table of lengths |
| `CodeLengths.TreeExpands` | seam-support/zlib/trees.c:752-797 | what is sent for a table of lengths in 0..15 expands to it, whatever was sent before, with extra bits in range |
| `CodeLengths.BothTreesExpand` | seam-support/zlib/trees.c:857-860 | both tables one after the other expand to both |
| `CodeLengths.RepeatRule` | seam-support/zlib/trees.c:67-68 | 16 can say exactly 3 to 6 more of the last length, and nothing without one; 17 exactly 3 to 10 zeros, 18 exactly 11 to 138 |
| `BitStream.StreamBit` | seam-support/zlib/trees.c:217-230 | bit i of a stream of bytes is bit i mod 8 of byte i div 8 |
| `BitStream.BitWriter.SendBits` | seam-support/zlib/trees.c:217-230 | appends the bits to all bits sent so far, through a 16-bit buffer |
| `BitStream.BitWriter.BiWindup` | seam-support/zlib/trees.c:1178-1187 | puts out the rest, filled up with zeros |
| `BitInput.BitReader.Pull` | seam-support/zlib/inflate.c:433-440 | moves a byte into the accumulator without changing the bits to come; 32 bits are enough |
| `BitInput.BitReader.NeedBits` | seam-support/zlib/inflate.c:443-447 | succeeds if and only if there are that many bits in the input given so far |
| `BitInput.BitReader.Peek` | seam-support/zlib/inflate.c:450-451 | the low bits of the accumulator are the next bits |
| `BitInput.BitReader.DropBits` | seam-support/zlib/inflate.c:454-458 | uses up bits |
| `TreeSender.SendTree` | seam-support/zlib/trees.c:752-797 | sends exactly the run-length symbols of the table, with their codes and extra bits |
| `CodeLensDecoder.NextEntry` | seam-support/zlib/inflate.c:878-882 | with any number of bits at hand the entry found is that of the next code, or more input is needed |
| `CodeLensDecoder.UseSymbol` | seam-support/zlib/inflate.c:883-922 | one symbol does what the format says, or an error: nothing to repeat, too many lengths, not enough input |
| `CodeLensDecoder.TrySymbol` | seam-support/zlib/inflate.c:876-922 | one symbol, or the call ends with nothing used; a byte is taken only when the symbol needs it |
| `CodeLensDecoder.CodeLens` | seam-support/zlib/inflate.c:876-923 | over calls with any amounts of input, bits sent for a table of lengths are read as that table, without an error branch, and nothing after them is used; fewer than eight bits are left at hand |
| `DynamicTrees.BuildBlTree` | seam-support/zlib/trees.c:803-830 | a complete code of at most seven bits for all symbols to be sent, and the last of its lengths that is not 0, which is below 3 if and only if only repeat symbols, of more than one kind, are sent |
| `DynamicTrees.PlainSent` | seam-support/zlib/trees.c:811-824 | a table with a code length other than 0 is not sent by repeat symbols alone |
| `DynamicTrees.ZeroTables` | seam-support/zlib/trees.c:707-744 | 257 and 3 zero lengths are sent by the two repeat symbols for zeros alone |
| `DynamicTrees.ZeroTablesSendTooFew` | seam-support/zlib/trees.c:822-824 | for those tables max_blindex is 2 |
| `DynamicTrees.SendOrder` | seam-support/zlib/trees.c:851-854 | sends three bits for the length of each code-length code, in the order 16, 17, 18, 0 and then from 8 up and from 7 down in turn |
| `DynamicTrees.OrderListed` | seam-support/zlib/trees.c:70-71 | the listed order is that rule |
| `DynamicTrees.SendAllTrees` | seam-support/zlib/trees.c:838-862 | the bits of the whole header |
| `TreeReader.LenLens` | seam-support/zlib/inflate.c:855-862 | over calls with any amounts of input and for all bits, every code-length code gets the three bits at its place by that rule, or 0 if its place was not sent; exactly these bits are used |
| `TreeReader.ReadCode` | seam-support/zlib/inflate.c:837-873 | the counts and the code-length code, and a table that decodes it |
| `TreeReader.ReadTrees` | seam-support/zlib/inflate.c:837-923 | over calls with any amounts of input, a header for two tables, with any complete code-length code and any symbols that stand for the lengths, is read as those tables, using exactly its bits; fewer than eight bits are left at hand |
| `TreeReader.TreesRoundTrip` | seam-support/zlib/trees.c:838-862 | sending both tables through the bit buffer to bytes and reading the bytes, given to any number of calls, gives both tables unless the calls bring too few bytes |
| `History.CopiedIsCopyBytes` | seam-support/zlib/inflate.c:1047-1070 | there is exactly one output in which each byte of a match is the byte dist before it |
| `History.HoldsWrapped` | seam-support/zlib/inflate.c:355-363 | writing past the end of the window and on at its start keeps the last bytes in order |
| `InflateWindow.Inflater.UpdateWindow` | seam-support/zlib/inflate.c:323-371 | the window holds the last bytes of all output, as many as fit, in order |
| `InflateWindow.Inflater.NewCall` | seam-support/zlib/inflate.c:1133-1139 | returning and being called again with another output buffer changes nothing in the output |
| `InflateWindow.Inflater.DistanceOK` | seam-support/zlib/inflate.c:1039-1043 | accepts no distance before the start of the output, and every one that fits the output and the window |
| `InflateWindow.Inflater.MatchState` | seam-support/zlib/inflate.c:1046-1070 | copies a piece of a match as copying from the whole output would |
| `InflateWindow.Inflater.MatchOverCalls` | seam-support/zlib/inflate.c:1046-1070 | a match over any calls: what is put out is a beginning of the match; it gets stuck, about to read outside of the window or at a wrong place in it, if and only if it goes on in a later call and the distance is larger than the window |
| `InflateWindow.FarMatch` | seam-support/zlib/inflate.c:1039-1053 | an accepted distance for which the next call would read before the window |
| `InflateWindow.Inflater.Run` | seam-support/zlib/inflate.c:1039-1076 | over any calls with output buffers of any sizes, the output is that of copying from the whole output, as far as there was room; only distances beyond the output or larger than the window end it early |
| `InflateCalls.NextCall` | seam-support/zlib/inflate.c:1133-1139 | returning and being called again brings more input and a new output buffer and changes neither the bits to come nor the output |
| `InflateCalls.NeedOverCalls` | seam-support/zlib/inflate.c:443-447 | over calls with any amounts of input, takes a byte only while it is needed, so fewer than eight bits more than asked for are at hand |
| `FastCopy.CopyThrees` | seam-support/zlib/inffast.c:234-244 | three bytes at a time from window or output, overlapping or not, is the byte-by-byte rule |
| `FastCopy.CopyDirect` | seam-support/zlib/inffast.c:246-259 | the same for a match within the output |
| `FastCopy.FastMatch` | seam-support/zlib/inffast.c:186-259 | all copy paths (direct, write at 0, wrapped, contiguous) give the bytes the distance means; too far back if and only if beyond window and output |
| `BlockDecoder.BuildTable` | seam-support/zlib/inftrees.c:32-329 | the table of every length vector a decoder can work with finds codes and marks all else invalid, and exactly the others are rejected |
| `BlockDecoder.SameLookup` | seam-support/zlib/inffast.c:127-132 | what a lookup finds depends on no more bits than the longest code has |
| `FastDecode.FastSymbol` | seam-support/zlib/inffast.c:127-132 | one or two lookups with 15 bits at hand find the symbol that all remaining bits say |
| `FastDecode.FastPair` | seam-support/zlib/inffast.c:139-184 | length and distance with their extra bits, in at most four or five bytes of input |
| `FastDecode.FastRead` | seam-support/zlib/inffast.c:120-184 | one symbol, in at most six bytes of input; lengths are 3..258 |
| `FastDecode.FastStep` | seam-support/zlib/inffast.c:120-285 | at most six bytes of input and 258 bytes of output, and exactly what the symbol means |
| `FastDecode.FastLoop` | seam-support/zlib/inffast.c:110-285 | the loop decodes symbols one by one, each as its own bits say, until input or room is short |
| `FastDecode.InflateFast` | seam-support/zlib/inffast.c:67-301 | gives back the bytes the loop did not use, none that were at hand on entry; fewer than eight bits are left |
| `SlowDecode.SlowSymbol` | seam-support/zlib/inflate.c:957-972 | with as much input as is needed, the same symbol, and fewer than eight bits left; fails, using nothing, if and only if the bits given so far are too few |
| `SlowDecode.SymbolOverCalls` | seam-support/zlib/inflate.c:1002-1017 | the same over calls, resumed where the input ran out |
| `SlowDecode.SlowDistance` | seam-support/zlib/inflate.c:1002-1033 | the distance code and its extra bits, over calls |
| `SlowDecode.SlowRest` | seam-support/zlib/inflate.c:973-1033 | what follows the code of a literal or length, over calls |
| `SlowDecode.PutSymbol` | seam-support/zlib/inflate.c:1039-1076 | a literal or match is put out over calls with output buffers of any sizes as the symbol means, or the calls end, or a match with a distance larger than the window is stuck |
| `SlowDecode.SlowStep` | seam-support/zlib/inflate.c:957-1076 | over calls with any amounts of input and any output sizes the states decode exactly what the fast loop decodes |
| `LengthCodes.InitLengths` | seam-support/zlib/trees.c:259-272 | every length has the one code that covers it, 258 a code of its own; bases agree with those of the decoder |
| `LengthCodes.InitDists` | seam-support/zlib/trees.c:274-290 | every distance up to 32768 has the code that covers it |
| `LengthCodes.LengthRule` | seam-support/zlib/trees.c:61-62 | extra bits and first lengths of the length codes by the rule of section 3.2.5 of RFC 1951 |
| `LengthCodes.DistRule` | seam-support/zlib/trees.c:64-65 | the same for distance codes |
| `BlockEncoder.SendToken` | seam-support/zlib/trees.c:1084-1108 | a literal or match is sent as its codes and extra bits |
| `BlockEncoder.CompressBlock` | seam-support/zlib/trees.c:1072-1118 | a block is sent as its literals and matches and the end-of-block symbol |
| `BlockSymbols.TokenDecodes` | seam-support/zlib/trees.c:1084-1108 | what is sent for a literal or match decodes to it and uses exactly its bits |
| `BlockSymbols.BlockDecodes` | seam-support/zlib/trees.c:1072-1118 | after n symbols, n literals or matches of the block are applied and exactly their bits used; one more ends the block |
| `BlockSymbols.SymbolRule` | seam-support/zlib/inflate.c:957-996 | any bits that begin with a literal/length code mean the literal, the end of the block, or a match of the length the standard gives with its extra bits; 286 and 287 are invalid |
| `BlockSymbols.DistanceRule` | seam-support/zlib/inflate.c:1002-1033 | the same for distance codes; 30 and 31 are invalid |
| `BlockSymbols.NoCodeRule` | seam-support/zlib/inftrees.c:291-323 | bits that begin with no code are invalid |
| `DynamicBlock.Tally` | seam-support/zlib/trees.c:1022-1042 | counts the symbols of a block |
| `DynamicBlock.PlanBlock` | seam-support/zlib/trees.c:938-952 | the trees of a block have codes for all its symbols and are complete, and so is the code for their lengths |
| `DynamicBlock.EncodeBlock` | seam-support/zlib/trees.c:993-997 | sends the type, the trees and the symbols of a block after whatever was sent before |
| `BlockStream.EncodeStream` | seam-support/zlib/trees.c:993-1010 | the bytes hold all blocks one after the other, the last one marked as such, filled up to a whole byte |
| `BlockStream.BuildTables` | seam-support/zlib/inflate.c:928-949 | both tables of a block are built if and only if a decoder can work with both length vectors; together they fit ENOUGH entries |
| `BlockStream.BlockLayout` | seam-support/zlib/trees.c:838-862 | where everything is in the bits of a block: last block, type, the three numbers, the lengths of the code-length codes, then all other lengths |
| `BlockStream.DecodeSome` | seam-support/zlib/inflate.c:950-1076 | at LEN, the fast loop if six bytes of input and 258 bytes of room are left, else the slow states: the symbols ahead are decoded either way |
| `BlockStream.DecodeSymbols` | seam-support/zlib/inflate.c:950-1076 | over any calls, the symbols of a block are decoded to its output; if the calls end before, the output so far is a beginning of it and input or room is missing |
| `BlockStream.DecodeBlock` | seam-support/zlib/inflate.c:775-1076 | the same for a whole block of any encoder, from its type bits on |
| `BlockStream.DecodeStream` | seam-support/zlib/inflate.c:774-1076 | ends on every input; a stream of blocks of any encoder is decoded to the output of all its tokens |
| `BlockStream.RoundTrip` | seam-support/zlib/inflate.c:774-1076 | every stream of blocks of literals and matches survives encoding and decoding over any calls: if these bring all bytes and the last one has room for it, all output is there, else a beginning of it |
| `Crc32.CrcIsRemainder` | seam-support/zlib/crc32.c:80-105 | bit by bit, the checksum continued from any checksum is the inverted remainder of the message followed by 32 zeros, with the inverted checksum added to its first 32 bits |
| `Crc32.CrcOfMessage` | seam-support/zlib/crc32.c:219-250 | for a checksum from the start: the first 32 bits of the message are inverted, and so is the remainder |
| `Crc32.CrcAppend` | seam-support/zlib/crc32.c:219-250 | checksums can be continued piece by piece |
| `Crc32.CrcCombined` | seam-support/zlib/crc32.c:370-423 | the checksum of a concatenation is that of the first piece moved on by the bits of the second, plus that of the second |
| `CrcTables.MakePoly` | seam-support/zlib/crc32.c:121-124 | the pattern has bit 31 - k exactly for the terms x^k |
| `CrcTables.MakeCrcTable` | seam-support/zlib/crc32.c:126-146 | table k holds the register after a byte and k zero bytes |
| `CrcTables.Crc32Tables` | seam-support/zlib/crc32.c:106-146 | tables for the terms of the CRC-32 polynomial, whose pattern is 0xedb88320 |
| `CrcTables.PatternValue` | seam-support/zlib/crc32.c:106-124 | the terms make the pattern 0xedb88320 |
| `CrcTables.Crc32Bytes` | seam-support/zlib/crc32.c:219-250 | the byte loop computes the checksum, 0 for no buffer |
| `CrcTables.CheckValue` | seam-support/zlib/crc32.c:219-250 | the byte loop gives 0x12477cdf for the bytes ff ff ff ff 80 |
| `CrcTables.DoLit4Steps` | seam-support/zlib/crc32.c:256-258 | one word by four tables is 32 steps of the register |
| `CrcTables.Crc32Little` | seam-support/zlib/crc32.c:262-293 | words of four bytes from any starting alignment give the same checksum |
| `CrcCombine.MatrixTimes` | seam-support/zlib/crc32.c:342-356 | adds up the columns that the vector selects |
| `CrcCombine.MatrixSquare` | seam-support/zlib/crc32.c:359-367 | squaring doubles the number of zero bits |
| `CrcCombine.OneZeroBit` | seam-support/zlib/crc32.c:384-390 | the operator for one zero bit |
| `CrcCombine.Combine` | seam-support/zlib/crc32.c:370-423 | repeated squaring applies exactly eight zero steps per byte |
| `CrcCombine.CombinePieces` | seam-support/zlib/crc32.c:370-423 | combining the checksums of two pieces gives the checksum of both |
| `Adler32.ReduceAtEnd` | seam-support/zlib/adler32.c:96-106 | reducing once at the end equals reducing after every byte |
| `Adler32.NmaxIsLargest` | seam-support/zlib/adler32.c:11-13 | NMAX is exactly the largest number of bytes whose sums always fit 32 bits |
| `Adler32.BaseIsLargestPrime` | seam-support/zlib/adler32.c:11 | BASE is prime and no number between it and 65536 is |
| `Adler32.ModBySubtraction` | seam-support/zlib/adler32.c:22-51 | the chains of subtractions compute the remainder |
| `Adler32.LongBytes` | seam-support/zlib/adler32.c:96-121 | blocks of NMAX bytes with one reduction each give the definition |
| `Adler32.ShortBytes` | seam-support/zlib/adler32.c:84-94 | fewer than 16 bytes |
| `Adler32.Checksum` | seam-support/zlib/adler32.c:57-125 | for every running sum and every length, the checksum is that of the definition if and only if one byte does not leave the second sum unreduced; otherwise that half is too large by BASE |
| `Adler32.AdlerOf` | seam-support/zlib/adler32.c:57-125 | the two halves in closed form: one plus the sum of the bytes, and the number of bytes plus their sum weighted by how many bytes are left, modulo BASE |
| `Adler32.UnreducedByte` | seam-support/zlib/adler32.c:69-78 | a running sum for which one byte does |
| `Adler32.ContinuesCombined` | seam-support/zlib/adler32.c:69-78 | no checksum with halves of at most BASE is such a sum |
| `Adler32.Combine` | seam-support/zlib/adler32.c:128-149 | both halves are congruent to the true ones, and in 1..BASE if those combined are at most BASE, as its own results are |
| `Adler32.CombinePieces` | seam-support/zlib/adler32.c:128-149 | right if and only if neither half of the true checksum is 0; such a half comes out as BASE |
| `Adler32.CombineEmpty` | seam-support/zlib/adler32.c:142-148 | combining two empty pieces is not the checksum of the empty piece |
| `QueueModel.Queue.Enqueue` | seam/adt/Queue.hh:119-129 | appends, growing when full |
| `QueueModel.Queue.Enlarge` | seam/adt/Queue.hh:48-62 | a larger array with the same elements |
| `QueueModel.Queue.Dequeue` | seam/adt/Queue.hh:133-141 | removes the first element |
| `QueueModel.Queue.GetNumberOfElements` | seam/adt/Queue.hh:64-68 | the number of elements, in either layout |
| `QueueModel.Queue.GetNthElement` | seam/adt/Queue.hh:69-77 | the n-th element, in either layout |
| `QueueModel.Queue.RemoveNthElement` | seam/adt/Queue.hh:78-96 | removes exactly the n-th element |
| `QueueModel.Queue.Remove` | seam/adt/Queue.hh:142-174 | removes the first occurrence, if there is one |
| `QueueModel.Queue.Blank` | seam/adt/Queue.hh:176-223 | keeps the elements, leaves room for one more, and clears every unused slot of a queue that is not empty |
| `QueueModel.Queue.Clone` | seam/adt/Queue.hh:225-237 | a copy in an array of its own |
| `QueueModel.Replay` | seam/adt/Queue.hh:119-223 | any run of operations, growing and shrinking included, refines an unbounded sequence |
| `IOSet.Set.Add` | seam/generic/IOHandler.cc:99-109 | the future that is waited for already, or a new entry at the end |
| `IOSet.Set.Remove` | seam/generic/IOHandler.cc:111-123 | removes the entry of a descriptor and binds its future |
| `IOSet.Set.EnterIntoFDSet` | seam/generic/IOHandler.cc:125-131 | adds exactly the descriptors, and their maximum |
| `IOSet.Set.Schedule` | seam/generic/IOHandler.cc:133-146 | keeps exactly the entries that are not ready, in order, and binds the future of each removed entry once, although it removes while scanning |
| `IOSet.FuturesSplit` | seam/generic/IOHandler.cc:133-146 | every future stays with its entry or is bound |
| `IOHandler.Handler.Wait` | seam/generic/IOHandler.cc:309-368 | a future exactly if select does not find the descriptor ready, or for a connection; descriptors stay distinct, and every future is accounted for |
| `IOHandler.Handler.Ask` | seam/generic/IOHandler.cc:224-244 | asks for exactly the descriptors that are waited for; there is nothing to ask if and only if all sets are empty |
| `IOHandler.Handler.Select` | seam/generic/IOHandler.cc:219-263 | exactly the entries whose descriptors are ready leave their sets and have their futures bound; nothing happens if there is none to ask for, if select is interrupted or if it finds none ready |
| `IOHandler.Handler.Close` | seam/generic/IOHandler.cc:370-374 | afterwards none of the three sets mentions the descriptor |
| `IOHandler.Handler.Purge` | seam/generic/IOHandler.cc:286-290 | changes no entry |
| `IOHandler.BoundAtMostOnce` | seam/generic/IOHandler.cc:111-146 | in every state no future is bound twice, and none that is waited for is bound |

## Left out

- Store, scheduler, transients and the base maps: blocks are values at addresses, futures are numbers, maps are mathematical maps.
- Garbage collection: addresses do not change while the minimizer runs.
- Stores with mixed pairs: the minimizer is proved for the others only, because `compare` is no ordering there.
- DynamicArray and Stack: sequences stand for them; growth and the raw frame layout are not modelled.
- PBlock, PNode, the agenda and the to-do list: values in sequences of the partition instead of shared mutable blocks.
- Tree arrays and the heap array of the encoder: passed to and returned from methods as sequences, not fields of a stream state.
- InflateTable.Build: the table is a map from addresses to entries; the bounds are 864 and 608, not the 852 and 592 that a search found.
- BlockStream.RoundTrip: requires distances of at most the window size, which the stream header guarantees (`inflate.c:622-626`, `deflate.h:276`); other distances are covered by InflateWindow.Inflater.Run. The encoder's blocks are all sent with trees of their own.
- BlockStream.DecodeBlock: stored blocks and blocks with the fixed trees are recognized but not decoded.
- EncoderTree.BuildTree: whether a limited tree is best among those within the limit is left open; the source claims it nowhere.
- The stricter distance check that INFLATE_STRICT compiles in.
- TreeReader.TreesRoundTrip: requires a code length other than 0 in the literal tree, which the end-of-block symbol guarantees.
- Adler32.Checksum: a missing buffer of length 1 is undefined in the source.
- CrcCombine.Combine: lengths are not negative; for a negative length the source does not end.
- QueueModel.Queue.constructor: requires a capacity of at least 2; with 1 the source grows a full queue by nothing.
- Registers wider than 32 bits, `crc32_big` and its byte-reversed tables, and the literal tables in `crc32.h`, `trees.h` and `inffixed.h`.
- `opt_len` and `static_len`, and the choice between stored, static and dynamic blocks.
- Sixteen-bit overflow of symbol counts before a tree is built.
- String matching in `deflate.c`, stream headers and trailers, dictionaries, `inflateSync`, `inflateCopy`, `infback.c`.
- `select` itself (its answer is a parameter), its failures other than interruption, sockets, `IODesc` and the memory allocation failures of `updatewindow` and `inflate`.
