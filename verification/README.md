# A verified model of the storage engine

This project models, in Dafny, the parts of a small database system that carry its data, and proves what each of
them promises over all inputs and all runs.

- **The search tree** (`Entries`, `Node`, `Shape`, `Search`, `Surgery`, `Insertion`, `Removal`, `Thinning`,
  `Predecessor`, `BTree`, `Cursor`, `Range`, `Height`, `Copy`, `Runs`): a mutable B-tree on the heap. Nodes own
  fixed-size slot arrays and are changed by swaps, as in the program. A ghost shape ties memory to an in-order
  sequence; insertion by splitting upward, removal by borrowing, merging and collapsing, the explicit-stack iterator,
  the range query, copying and the height bound are proved against that sequence and the finite map it stands for.
  The comparer is an arbitrary strict total order. `Skeleton`, `Repair`, `Overrun` and `FullRoot` describe
  the very trees that insertion, update and removal leave, and the way removal takes through them.
- **Two arena allocators** (`Arena`, `Coalescing`, `FreeList`, `SortedList`, `TaggedBlocks`, `BoundaryTags`): one keeps
  an address-sorted, coalesced free list in header words, the other a doubly linked list of occupied blocks. Both are
  proved against one description of an arena as a tiling by blocks: an allocation takes the block its fit policy
  picks, a release merges it with what touches it. The second allocator, which stores no free block at all, is shown
  to do on that tiling exactly what the first does.
- **The manager** (`Shards`, `Plan`, `Cluster`): routing by separators, transfers between neighbouring servers, the
  redistribution loop and the range fan-out. A server is the in-order sequence its tree is proved to hold; requests
  are answered, and answered correctly.
- **The data file** (`Codec`, `Stream`, `Collection`): length-prefixed records addressed by offset and read through a
  stream, the key comparer, and the compaction that rewrites the file.

`Basics` holds what they share about sequences and products.

`dafny verify dfyconfig.toml` checks everything.

## What the proofs found

- Removing from a B-tree may merge two children of a full parent. The shift loop of `node_merge`
  (`search_tree.h:491-495`) then touches one slot past both slot arrays: `ShiftOut` stays inside exactly when the
  parent has fewer than 2t - 1 keys. `Dispose` says of every tree and key whether that happens (`MergesFull`, decided
  on the tree before the call), and `MergeBelowFullRoot` reaches it for every degree t, by inserting 2t * t keys in
  descending order (eight for t = 2) and removing the greatest. The arrays of `Node` have one slot more, so that the
  rest of the removal can be followed past such a merge.
- Both allocators refuse to take back an empty payload that starts at the very end of the arena. `PayloadOutside` and
  `AllocateAndReturn` give the exact condition, `EmptyPayloadAtEnd` a run.
- A released boundary tag keeps its owner, so releasing a payload twice is accepted twice and counts its bytes twice;
  `BoundaryTagsAllocator.Deallocate` says what either release does, `ReleasedTwice` is a run.
- `transfer_left` moves the record after the least one and then uses that record's key as the separator, so a routed
  cluster stays routed exactly when the transfer fails. The status assignment at `manager_server.cpp:549-552` is a
  comparison and has no effect; it is never reached with that status, because the least key is present.
- Prefix sums of served deficits are not cleared, so a second run of deficits replays the first. The redistribution
  succeeds with every target met exactly when the deficits form at most one run; `TwoRuns` is the smallest shape of
  failure. Whether it succeeds or not, routing survives exactly when there is no deficit at all.
- `obtain_next` compares for difference, not for order: it fails on an absent key even when greater keys exist.
- Writing through a handle that already has a position, without the update flag, appends a record that the handle will
  not read. Only fresh handles are written that way, so collections are not affected.

## Model

| member | source | states |
|---|---|---|
| `Nodes.Node.constructor` | associative_container/search_tree/include/search_tree.h:209-220 | a new node owns fresh slot arrays, no keys and only null subtrees |
| `Nodes.Node.FindPath` | associative_container/search_tree/include/search_tree.h:361-392 | binary search over the live keys: a result at or above zero is the key's slot, a negative one names the gap with every smaller key on its left and every greater key on its right |
| `Nodes.PlaceAround` | associative_container/search_tree/include/search_tree.h:429-459 | all three median cases: the row ends as the row with the pending element inserted, minus the element at the cut, which is handed back |
| `Nodes.Node.Insert` | associative_container/search_tree/include/search_tree.h:397-414 | keys and subtrees become the old ones with the entry inserted at its index and the new subtree right of it |
| `Nodes.Node.Split` | associative_container/search_tree/include/search_tree.h:419-471 | equals inserting into the 2t keys and cutting them into t keys, the median and t - 1 keys, with the subtrees cut to match; the overfull node never exists |
| `Nodes.MergeSubtrees` | associative_container/search_tree/include/search_tree.h:476-508 | refuses an index without a key; otherwise the left subtree holds left + separator + right and the parent loses that key and the right subtree |
| `Nodes.ShiftOut` | associative_container/search_tree/include/search_tree.h:491-495 | on slot arrays of 2t-1 keys and 2t subtrees every access of the merge's shift is inside exactly when the parent has fewer than 2t-1 keys, and then the live slots lose the key and the subtree right of it |
| `Nodes.PassRight` | associative_container/search_tree/indexing_tree/b_tree/include/b_tree.h:1140-1164 | a left neighbour's last key goes up, the separator goes in front of the target, the subtree moves over |
| `Nodes.PassLeft` | associative_container/search_tree/indexing_tree/b_tree/include/b_tree.h:1166-1190 | a right neighbour's first key goes up, the separator goes behind the target, the subtree moves over |
| `Shapes.FlatPlug` | associative_container/search_tree/indexing_tree/b_tree/include/b_tree.h:303-350 | the in-order sequence of a tree is what lies before a subtree, the subtree, and what lies after it |
| `Shapes.FlatPair` | associative_container/search_tree/include/search_tree.h:486-505 | in-order contents of a node around two neighbouring subtrees and their separator |
| `Shapes.DescendAll` | associative_container/search_tree/include/search_tree.h:515-540 | a tree held in memory is held, with no object shared, around every one of its subtrees |
| `Shapes.AscendAll` | associative_container/search_tree/indexing_tree/b_tree/include/b_tree.h:860-887 | and back: changing one subtree in place yields a represented whole |
| `Shapes.BalancedPlug` | associative_container/search_tree/indexing_tree/b_tree/include/b_tree.h:1446-1467 | equal leaf depth and t-1..2t-1 keys per node survive putting a subtree of the right height back |
| `Search.ReachChild` | associative_container/search_tree/include/search_tree.h:530-537 | entering the subtree the node search names keeps every smaller key on the left of the path and every greater one on the right |
| `Search.SearchFound` | associative_container/search_tree/indexing_tree/b_tree/include/b_tree.h:1033-1044 | a search that lands on a key has found the value the tree's map gives it |
| `Search.SetFound` | associative_container/search_tree/indexing_tree/b_tree/include/b_tree.h:827-838 | overwriting the found slot is exactly a map update and keeps order and balance |
| `Insertion.SearchMissed` | associative_container/search_tree/indexing_tree/b_tree/include/b_tree.h:841-858 | a search that misses names the one place where inserting keeps the sequence sorted, and the key is not in the map |
| `Insertion.CarryUp` | associative_container/search_tree/indexing_tree/b_tree/include/b_tree.h:868-886 | one split: sibling and median are pending one level up, and finishing there still gives the same final sequence |
| `Insertion.CarryDone` | associative_container/search_tree/indexing_tree/b_tree/include/b_tree.h:862-866 | a node with a free slot ends the loop with the intended sequence and a balanced tree |
| `Insertion.CarryRoot` | associative_container/search_tree/indexing_tree/b_tree/include/b_tree.h:873-882 | splitting the root makes a balanced tree one level higher with the intended sequence |
| `Thinning.ThinMerged` | associative_container/search_tree/indexing_tree/b_tree/include/b_tree.h:1192-1195 | after a merge only the parent may be short, one level up, for the same final sequence |
| `Thinning.ThinDone` | associative_container/search_tree/indexing_tree/b_tree/include/b_tree.h:1107-1112 | when no node is short any more the tree is balanced and holds the intended sequence |
| `Thinning.ThinFromLeft` | associative_container/search_tree/indexing_tree/b_tree/include/b_tree.h:1140-1164 | borrowing from the left leaves nothing short |
| `Thinning.ThinFromRight` | associative_container/search_tree/indexing_tree/b_tree/include/b_tree.h:1166-1190 | borrowing from the right leaves nothing short |
| `Thinning.OnlyKid` | associative_container/search_tree/indexing_tree/b_tree/include/b_tree.h:1114-1122 | an emptied root has exactly one subtree, which is a balanced tree with the intended sequence |
| `Predecessor.Exchanged` | associative_container/search_tree/indexing_tree/b_tree/include/b_tree.h:1068-1089 | swapping an inner key with the greatest key of its left subtree turns its removal into removing the last key of a leaf |
| `Entries.SortedUnique` | associative_container/search_tree/indexing_tree/b_tree/include/b_tree.h:1025-1045 | two sorted sequences with the same map are equal, so the map fixes the stored order |
| `BTrees.Create` | associative_container/search_tree/indexing_tree/b_tree/include/b_tree.h:1271-1286 | building a tree fails exactly for a degree below two |
| `BTrees.BTree.constructor` | associative_container/search_tree/indexing_tree/b_tree/include/b_tree.h:1271-1286 | an empty tree meets every invariant |
| `BTrees.BTree.FindPath` | associative_container/search_tree/include/search_tree.h:515-540 | the stack records the nodes and subtree numbers from the root; its top is the key or the leaf slot where it belongs; n nodes on it mean at least 2 t^(n-1) - 1 stored keys |
| `BTrees.BTree.InsertUp` | associative_container/search_tree/indexing_tree/b_tree/include/b_tree.h:860-887 | the split loop, on memory: it ends, and the tree then holds exactly the intended sequence and every invariant |
| `BTrees.BTree.InsertInner` | associative_container/search_tree/indexing_tree/b_tree/include/b_tree.h:821-888 | insert: old map plus the pair, or an error for a present key; update: the value replaced, or an error for an absent key; an error changes nothing; the very tree an insertion or an update leaves |
| `BTrees.BTree.Obtain` | associative_container/search_tree/indexing_tree/b_tree/include/b_tree.h:1025-1045 | the map's value, nothing for an absent key |
| `BTrees.BTree.RemoveUp` | associative_container/search_tree/indexing_tree/b_tree/include/b_tree.h:1105-1195 | the repair loop, on memory, ends with exactly the intended sequence and every invariant; a left neighbour of at least t keys lends its last one and the right neighbour is unchanged, else a right one lends its first, else the joined node, with the left neighbour if there is one, is in the tree; it tells exactly when a merge takes place below a full parent |
| `BTrees.BTree.Dispose` | associative_container/search_tree/indexing_tree/b_tree/include/b_tree.h:1050-1196 | returns the key's value and leaves the old map without the key, all invariants restored; an absent key changes nothing; the very tree that is left, and from the tree before the call whether a merge below a full parent takes place |
| `Repairs.RepairMends` | associative_container/search_tree/indexing_tree/b_tree/include/b_tree.h:1107-1195 | what the repaired tree shows of the short node and its neighbours: who lent which key, or which two were joined, and what stayed as it was |
| `Repairs.MendMerge` | associative_container/search_tree/indexing_tree/b_tree/include/b_tree.h:1192-1195 | a merge prefers the left neighbour and hands the tree to be left on to the parent |
| `Repairs.InnerRemoved` | associative_container/search_tree/indexing_tree/b_tree/include/b_tree.h:1068-1089 | for a key above the leaves the tree left is that of removing, at its leaf, the predecessor it was exchanged with |
| `BTrees.BTree.SeekLower` | associative_container/search_tree/indexing_tree/b_tree/include/b_tree.h:1217-1230 | the search path of a lower bound in the cursor's own terms |
| `BTrees.BTree.Scan` | associative_container/search_tree/indexing_tree/b_tree/include/b_tree.h:1251-1256 | collects the longest prefix of what the cursor has left whose keys are below the upper bound, or equal to it when it is included |
| `BTrees.BTree.ObtainBetween` | associative_container/search_tree/indexing_tree/b_tree/include/b_tree.h:1201-1263 | on a non-empty tree exactly the stored pairs whose keys are strictly between the bounds or equal to an included one, in key order |
| `Ranges.SeekStart` | associative_container/search_tree/indexing_tree/b_tree/include/b_tree.h:1219-1242 | where the search stops, all keys before are below the bound and all keys after the current one are above it |
| `Ranges.LowerSplit` | associative_container/search_tree/indexing_tree/b_tree/include/b_tree.h:1246-1249 | skipping the current key when it fails the lower bound leaves exactly the keys that meet it |
| `Ranges.UpperSplit` | associative_container/search_tree/indexing_tree/b_tree/include/b_tree.h:1251-1256 | stopping at the first key beyond the upper bound selects exactly the interval; a key is collected exactly when it is below the bound, or equal to it when it is included |
| `Ranges.InsideMeans` | associative_container/search_tree/indexing_tree/b_tree/include/b_tree.h:1246-1256 | the tests on the two bounds, with their flags, in the order's own terms |
| `Ranges.SelectBetween` | associative_container/search_tree/indexing_tree/b_tree/include/b_tree.h:1201-1263 | the pairs selected are those of the interval, without the tests that select them |
| `BTrees.BTree.Traverse` | associative_container/search_tree/indexing_tree/b_tree/include/b_tree.h:303-350 | stepping from the first key to the end visits every stored pair once, in strictly increasing key order |
| `BTrees.BTree.First` | dbms/db_storage/src/db_storage.cpp:615-650 | the least key's pair |
| `BTrees.BTree.Greatest` | dbms/db_storage/src/db_storage.cpp:512-540 | the greatest key's pair, through the reverse iterator's first position |
| `BTrees.BTree.ObtainNext` | dbms/db_storage/src/db_storage.cpp:557-595 | the next pair; the scan stops only on the key itself, so an absent key is an error even when greater keys exist, and the greatest key is its own successor |
| `Cursors.Cursor.Begin` | associative_container/search_tree/indexing_tree/b_tree/include/b_tree.h:382-399 | a fresh iterator has the whole in-order sequence left |
| `Cursors.Cursor.Advance` | associative_container/search_tree/indexing_tree/b_tree/include/b_tree.h:303-350 | each step drops exactly the head of the sequence the stack stands for; at the end it stays |
| `Cursors.Cursor.Current` | associative_container/search_tree/indexing_tree/b_tree/include/b_tree.h:365-380 | depth, position and pair under the iterator; an error exactly at the end |
| `Ranges.SeekPoints` | associative_container/search_tree/indexing_tree/b_tree/include/b_tree.h:538-543 | the search path of a bound, from its stopping place on, is a valid iterator state at that place |
| `Cursors.Cursor.RBegin` | associative_container/search_tree/indexing_tree/b_tree/include/b_tree.h:649-668 | the stack of the reverse iterator's start is a valid forward state with exactly the last pair left |
| `Cursors.InnerNext` | associative_container/search_tree/indexing_tree/b_tree/include/b_tree.h:313-327 | from an inner key the next one is the least of the subtree on its right |
| `Cursors.RiseOn` | associative_container/search_tree/indexing_tree/b_tree/include/b_tree.h:335-346 | climbing out of a last subtree leaves the same pairs to visit |
| `Heights.TreeLong` | associative_container/search_tree/indexing_tree/b_tree/include/b_tree.h:1446-1467 | a tree of height h holds at least 2 t^(h-1) - 1 keys |
| `Heights.PathBound` | associative_container/search_tree/include/search_tree.h:515-540 | a search path of h + 1 nodes means at least 2 t^h - 1 stored keys |
| `Copies.Copy` | associative_container/search_tree/indexing_tree/b_tree/include/b_tree.h:1472-1507 | a copy of the same shape and pairs, in nodes none of which existed before |
| `Copies.AlikeFlat` | associative_container/search_tree/indexing_tree/b_tree/include/b_tree.h:1472-1507 | trees of one shape with the same pairs have the same in-order sequence |
| `BTrees.BTree.Copy` | associative_container/search_tree/indexing_tree/b_tree/include/b_tree.h:1291-1310 | the copy constructor: same contents, degree and comparer, memory of its own |
| `Runs.ServeAll` | associative_container/search_tree/indexing_tree/b_tree/include/b_tree.h:821-1196 | any run of insert, update, obtain and dispose answers and ends as a finite map would |
| `Runs.ServeCopy` | associative_container/search_tree/indexing_tree/b_tree/include/b_tree.h:1291-1310 | any run on a copy leaves the original's contents as they were |
| `Runs.ServeOriginal` | associative_container/search_tree/indexing_tree/b_tree/include/b_tree.h:1291-1310 | any run on the original leaves a copy taken before it as it was |
| `Skeletons.AimsUp` | associative_container/search_tree/indexing_tree/b_tree/include/b_tree.h:868-886 | one split hands the tree to be built, as a function of the tree before, on to the parent unchanged |
| `FullParents.OverrunsMerge` | associative_container/search_tree/indexing_tree/b_tree/include/b_tree.h:1130-1195 | a short node without a richer neighbour is merged, and the slots are overrun there or further up |
| `FullParents.InnerFull` | associative_container/search_tree/indexing_tree/b_tree/include/b_tree.h:1068-1089 | for a key above the leaves the question is decided at the leaf of its predecessor, before the two keys change places |
| `FullRoots.LateMerges` | associative_container/search_tree/indexing_tree/b_tree/include/b_tree.h:1105-1195 | in the tree that 2t*t descending insertions leave, removing the greatest key merges below a root with 2t-1 keys |
| `FullRoots.MergeBelowFullRoot` | associative_container/search_tree/indexing_tree/b_tree/include/b_tree.h:821-1196 | that run, on memory, for every degree |
| `Arenas.PicksMeans` | allocator/allocator_sorted_list/src/allocator_sorted_list.cpp:150-184 | first fit, best fit and worst fit in their own words, ties to the lowest address |
| `Arenas.TilesApart` | allocator/allocator_sorted_list/src/allocator_sorted_list.cpp:344-372 | blocks of a tiling are disjoint and in address order, neighbours touch |
| `Coalescing.TakenKeeps` | allocator/allocator_sorted_list/src/allocator_sorted_list.cpp:198-228 | allocation keeps tiling, full coalescing and accounting; exactly one block becomes used, of just the requested size or else whole, and never a header or more above it; no other used block changes |
| `Coalescing.ReleasedKeeps` | allocator/allocator_sorted_list/src/allocator_sorted_list.cpp:280-312 | release keeps tiling, full coalescing and accounting; exactly the released block stops being used |
| `Coalescing.ReleaseTaken` | allocator/allocator_sorted_list/src/allocator_sorted_list.cpp:198-312 | releasing the block just allocated restores the blocks exactly, carved or taken whole |
| `Coalescing.Accounting` | allocator/allocator_sorted_list/src/allocator_sorted_list.cpp:228-312 | free bytes and used bytes add up to the arena |
| `Coalescing.RunKeeps` | allocator/allocator_sorted_list/src/allocator_sorted_list.cpp:132-323 | after any run of allocations and releases the blocks tile the arena, free space is coalesced and free and used bytes add up to it |
| `Coalescing.NothingLeaks` | allocator/allocator_sorted_list/src/allocator_sorted_list.cpp:242-312 | once every block is released the arena is one free block again |
| `Coalescing.PayloadsApart` | allocator/allocator_sorted_list/src/allocator_sorted_list.cpp:198-228 | no byte belongs to the payloads of two used blocks |
| `Coalescing.PayloadOutside` | allocator/allocator_sorted_list/src/allocator_sorted_list.cpp:260-264 | a payload starts outside the arena exactly when it is the empty payload of the last block |
| `FreeLists.LaidTaken` | allocator/allocator_sorted_list/src/allocator_sorted_list.cpp:198-226 | the header words written by allocation lay out the new blocks, and the list leads through them in address order |
| `FreeLists.LaidReleased` | allocator/allocator_sorted_list/src/allocator_sorted_list.cpp:280-310 | the header words written by release lay out the merged blocks, and the list leads through them in address order |
| `SortedLists.Create` | allocator/allocator_sorted_list/src/allocator_sorted_list.cpp:52-78 | building an allocator fails exactly for an arena smaller than one header |
| `SortedLists.SortedListAllocator.constructor` | allocator/allocator_sorted_list/src/allocator_sorted_list.cpp:52-130 | one free block fills the arena |
| `SortedLists.SortedListAllocator.Search` | allocator/allocator_sorted_list/src/allocator_sorted_list.cpp:150-184 | the walk finds the policy's choice and its predecessor in the list, or shows that nothing fits |
| `SortedLists.SortedListAllocator.Allocate` | allocator/allocator_sorted_list/src/allocator_sorted_list.cpp:132-240 | fails, changing nothing, exactly when no free block fits; otherwise takes the policy's choice |
| `SortedLists.SortedListAllocator.Deallocate` | allocator/allocator_sorted_list/src/allocator_sorted_list.cpp:242-323 | null is ignored; a used block inside the arena is released and merged with what touches it; everything else is refused and nothing changes |
| `SortedLists.SortedListAllocator.CreateBlocksInfo` | allocator/allocator_sorted_list/src/allocator_sorted_list.cpp:344-372 | terminates with exactly the blocks, their sizes and whether they are used, in address order |
| `SortedLists.EmptyPayloadAtEnd` | allocator/allocator_sorted_list/src/allocator_sorted_list.cpp:260-264 | a concrete run in which an empty payload handed out at the arena's end cannot be given back |
| `SortedLists.TwoRequests` | allocator/allocator_sorted_list/src/allocator_sorted_list.cpp:132-240 | a concrete run, in numbers: in an arena of 36 bytes two requests for two bytes get offsets 16 and 34, and then even an empty one fails |
| `SortedLists.AllocateAndReturn` | allocator/allocator_sorted_list/src/allocator_sorted_list.cpp:132-323 | allocate then deallocate restores blocks, list head and counter, except exactly when the picked free block is the last one and as long as its header, which takes a request for no bytes |
| `TaggedBlocks.LayoutTiles` | allocator/allocator_boundary_tags/src/allocator_boundary_tags.cpp:313-361 | the gaps and occupied blocks tile the arena, gaps never touch, free bytes are the arena minus the occupied bytes |
| `TaggedBlocks.PlacingTakes` | allocator/allocator_boundary_tags/src/allocator_boundary_tags.cpp:192-226 | allocating in a gap is, on the blocks of the arena, exactly the sorted-list allocator's allocation |
| `TaggedBlocks.RemovalReleases` | allocator/allocator_boundary_tags/src/allocator_boundary_tags.cpp:262-281 | unlinking a block is, on the blocks of the arena, exactly the sorted-list allocator's release with both merges |
| `BoundaryTags.UsedApart` | allocator/allocator_boundary_tags/src/allocator_boundary_tags.cpp:200-218 | occupied blocks with their tags are disjoint and in address order |
| `BoundaryTags.LinkedIn` | allocator/allocator_boundary_tags/src/allocator_boundary_tags.cpp:200-223 | the tag words written by allocation keep previous and next pointers mutually inverse and sorted |
| `BoundaryTags.LinkedOut` | allocator/allocator_boundary_tags/src/allocator_boundary_tags.cpp:262-281 | so do those written by release |
| `BoundaryTags.PayloadOutside` | allocator/allocator_boundary_tags/src/allocator_boundary_tags.cpp:256-260 | a payload starts outside the arena exactly when it is an empty one at the arena's end |
| `BoundaryTags.Create` | allocator/allocator_boundary_tags/src/allocator_boundary_tags.cpp:54-75 | building an allocator fails exactly for an arena smaller than one tag |
| `BoundaryTags.BoundaryTagsAllocator.constructor` | allocator/allocator_boundary_tags/src/allocator_boundary_tags.cpp:54-114 | nothing occupied, everything available |
| `BoundaryTags.BoundaryTagsAllocator.Search` | allocator/allocator_boundary_tags/src/allocator_boundary_tags.cpp:130-183 | looking at every gap finds the policy's choice and the block before it, or shows that nothing fits |
| `BoundaryTags.BoundaryTagsAllocator.Allocate` | allocator/allocator_boundary_tags/src/allocator_boundary_tags.cpp:118-237 | fails, changing nothing, exactly when no gap fits; otherwise takes the policy's choice; every gap stays empty or as long as a tag |
| `BoundaryTags.BoundaryTagsAllocator.Deallocate` | allocator/allocator_boundary_tags/src/allocator_boundary_tags.cpp:239-291 | null is ignored; a payload outside the arena or without an owner is refused; a block in use is unlinked and its bytes become available; a payload released before is accepted again and its bytes are counted twice |
| `BoundaryTags.ReleasedTwice` | allocator/allocator_boundary_tags/src/allocator_boundary_tags.cpp:239-291 | a concrete run after which more bytes are available than the arena has |
| `BoundaryTags.BoundaryTagsAllocator.CreateBlocksInfo` | allocator/allocator_boundary_tags/src/allocator_boundary_tags.cpp:313-361 | terminates with exactly the gaps and occupied blocks in address order |
| `BoundaryTags.EmptyPayloadAtEnd` | allocator/allocator_boundary_tags/src/allocator_boundary_tags.cpp:256-260 | a concrete run in which an empty payload at the arena's end cannot be given back |
| `BoundaryTags.TwoRequests` | allocator/allocator_boundary_tags/src/allocator_boundary_tags.cpp:118-237 | a concrete run, in numbers: in an arena of 68 bytes two requests for two bytes get offsets 32 and 66, and then even an empty one fails |
| `BoundaryTags.AllocateAndReturn` | allocator/allocator_boundary_tags/src/allocator_boundary_tags.cpp:118-291 | allocate then deallocate restores the list and the counter, except exactly when the picked gap is the last block and as long as its tag, which takes a request for no bytes |
| `Shards.RouteMonotone` | dbms/manager_server/manager_server.cpp:799-822 | a greater key never routes further left, whatever the separators |
| `Clusters.Cluster.Obtain` | dbms/manager_server/manager_server.cpp:1062-1087 | what is returned is a stored record of the key; under routing a record is returned exactly when some server stores one |
| `Shards.MovedKeeps` | dbms/manager_server/manager_server.cpp:563-576 | adding a record to one server and dropping it from another loses, duplicates and changes no record and gives no key a second home |
| `Shards.RightRouted` | dbms/manager_server/manager_server.cpp:586-638 | moving the greatest record right with its key as separator keeps every route right and the separators ascending |
| `Shards.LeftUnrouted` | dbms/manager_server/manager_server.cpp:540-581 | whatever record moves left with its key as separator, its route leads back right |
| `Shards.AddedRouted` | dbms/manager_server/manager_server.cpp:706-713 | a new empty server keeps routing exactly when the last server's keys are below the sentinel |
| `Shards.FlattenSorted` | dbms/manager_server/manager_server.cpp:799-822 | under routing the servers in order hold all records in key order |
| `Shards.RangeAnswers` | dbms/manager_server/manager_server.cpp:1104-1113 | asking only the servers between the routes of the bounds gives the whole range |
| `Clusters.Cluster.GetIdForKey` | dbms/manager_server/manager_server.cpp:799-822 | the number of leading separators not above the key |
| `Clusters.Cluster.TransferLeft` | dbms/manager_server/manager_server.cpp:516-584 | moves the record after the least, or the only one; fails exactly on an empty server; records are conserved; a routed cluster stays routed exactly when the transfer fails |
| `Clusters.Cluster.TransferRight` | dbms/manager_server/manager_server.cpp:586-638 | moves the greatest record; fails exactly on an empty server; records are conserved and routing and separator order kept |
| `Clusters.Cluster.TransferLeftN` | dbms/manager_server/manager_server.cpp:640-654 | succeeds exactly when the server holds enough and moves all it can: the least record goes last; which records stay, and the separator; a routed cluster stays routed exactly when nothing is asked for or nothing is held |
| `Clusters.Cluster.TransferRightN` | dbms/manager_server/manager_server.cpp:656-670 | succeeds exactly when the server holds enough; the greatest records go and the least of them gives the separator; routing is kept |
| `Clusters.Cluster.Redistribute` | dbms/manager_server/manager_server.cpp:824-922 | records are conserved; it acts exactly when a server is empty or its count and its target are a factor of three apart; the targets are then met with success exactly when the negative prefix sums form at most one run; on every outcome routing survives exactly when no prefix sum is negative, and then the separators ascend |
| `Clusters.Cluster.AddServer` | dbms/manager_server/manager_server.cpp:674-717 | growing by an empty server behind a sentinel conserves records; with fewer records than servers nothing else changes, otherwise the targets over all servers are met with success exactly when the deficits form at most one run; with the sentinel above all keys routing survives exactly when there are fewer records than servers or no border has a deficit, and then the separators ascend |
| `Clusters.UnevenMeans` | dbms/manager_server/manager_server.cpp:876-887 | a redistribution is needed exactly when some server is empty, or one of its count and its target is at least three times the other |
| `Clusters.Cluster.ObtainBetween` | dbms/manager_server/manager_server.cpp:1089-1121 | under routing the concatenated answers are, in key order, exactly the records of any server whose keys are strictly between the bounds or equal to an included one |
| `Plans.NothingLeft` | dbms/manager_server/manager_server.cpp:843-897 | the targets add up to the number of records |
| `Plans.TargetsLevel` | dbms/manager_server/manager_server.cpp:860-876 | no two targets differ by more than one, and greater ones come first |
| `Plans.TargetsAdd` | dbms/manager_server/manager_server.cpp:860-876 | the targets add up to the number of records, which together with that determines them |
| `Plans.OnceInRun` | dbms/manager_server/manager_server.cpp:899-919 | with a single run every deficit border is crossed once, at the run's end |
| `Plans.Meets` | dbms/manager_server/manager_server.cpp:899-919 | with at most one run every server ends at sum/n, plus one for the first sum%n |
| `Plans.Overshoots` | dbms/manager_server/manager_server.cpp:899-919 | with two runs the first server of the first run ends above its target |
| `Plans.TwoRuns` | dbms/manager_server/manager_server.cpp:899-919 | the counts 0, 2, 0, 2: the first server ends with two records instead of one |
| `Plans.EnoughInRun` | dbms/manager_server/manager_server.cpp:905-911 | in a single run no server is asked for more records than it holds |
| `Codecs.KeysOrdered` | dbms/common_types/src/tdata.cpp:7-27 | the key comparer, null keys included, is the strict total order the tree asks for |
| `Codecs.KeysCompare` | dbms/common_types/src/tdata.cpp:7-27 | a missing key comes first; of two texts the one with the smaller byte at the first difference, or the one that ends there |
| `Codecs.UnsignedWord` | dbms/common_types/src/tdata.cpp:146-150 | an unsigned number written as eight bytes is read back, and as a signed one too below 2^63 |
| `Codecs.BytesAt` | dbms/common_types/src/tdata.cpp:136-155 | byte j of a word has the weight 256 to the j |
| `Codecs.RecordLayout` | dbms/common_types/src/tdata.cpp:136-155 | the key's size, the key, the id, the name's size and the name, each at its offset |
| `Codecs.ReadBack` | dbms/common_types/src/tdata.cpp:143-198 | round trip: a record is read back at its offset whatever stands around it, except at offset 1, which the reader refuses |
| `Codecs.ReadMore` | dbms/common_types/src/tdata.cpp:164-198 | appending never changes what can already be read |
| `Collections.FileTdata.Serialize` | dbms/common_types/src/tdata.cpp:122-162 | the record is appended whatever the position; a handle already placed and not updated then reads the new value exactly when it equals the old one |
| `Collections.FileTdata.Deserialize` | dbms/common_types/src/tdata.cpp:164-198 | four reads and two seeks through a stream whose first failed step fails the rest give the value at the handle's position, or the way the stream fails |
| `Collections.Collection.Insert` | dbms/db_storage/src/db_storage.cpp:180-233 | adds the record at its place in key order, or an error for a present key; the file grows either way and no other key changes its value |
| `Collections.Collection.Update` | dbms/db_storage/src/db_storage.cpp:290-341 | replaces the key's value, or an error for an absent key; the file grows either way |
| `Collections.Collection.Obtain` | dbms/db_storage/src/db_storage.cpp:440-473 | the key's value read from the file |
| `Collections.Collection.Dispose` | dbms/db_storage/src/db_storage.cpp:396-438 | returns the value and forgets the key; the file is untouched |
| `Collections.Collection.Consolidate` | dbms/db_storage/src/db_storage.cpp:707-767 | every live key keeps its value and the file becomes exactly the live records, in text order of their keys |

## Left out

- Nodes.Node: the slot arrays have one spare slot each; what the program's memory is like after a merge has left its arrays is not modelled.
- Nodes.BubbleDown: the program interleaves the key swaps and the subtree swaps of one loop; here each array has its own loop.
- BTrees.BTree.FindPath: a stack entry holds the node, where the program holds the address of the pointer to it; the slot is found again through the parent.
- BTrees.BTree.ObtainBetween: requires a non-empty tree, because the program reads the top of its path stack before asking whether it is empty.
- SortedLists.SortedListAllocator.Deallocate: called with null, an address outside the arena, or the payload of a current block, used or free; the bytes the program would take for a header anywhere else are not modelled.
- BoundaryTags.BoundaryTagsAllocator.Deallocate: a payload address inside the arena whose tag would lie before its first byte is left out, and memory no tag was ever written to is taken not to look like a tag with an owner.
- Clusters.Cluster.ObtainBetween: an empty server answers with nothing, although the tree's own range query must not be asked of an empty tree.
- Collections.Collection: keys are never null and the tree is its in-order sequence; handles are objects, as in the program.
- The reverse iterator's steps, which never move the ancestors' positions, so that only its first position is meaningful.
- The buddy-system and red-black-tree allocators, which are unfinished.
- Shrinking the cluster, which never shrinks the separators, and the rollback when a new structure cannot be created everywhere.
- Automatic garbage collection, which hands the compaction a path that already ends in the server's number and so finds no file.
- Mutexes, logging, object construction and destruction, node disposal, allocation failure inside the tree, integer overflow of a request's size.
- Message queues, processes, timeouts, lost requests, directories, the client and the server's dispatch.
- Copies and moves of pools, schemas and collections, and their record counters; a server's count is the number of records it holds.
- A read past the end of the data file that the program would answer with indeterminate sizes counts as a failed stream.
