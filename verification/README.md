# Verified model of temporal_rtree, Bloom and companions

Dafny models, with proofs, of the index code in this repository whose promises
span many functions:

- **temporal_rtree**, a paged R-tree over attribute x time boxes: build, insert
  with page splits and root promotion, bulk delete with root shrink, the
  resumable stack cursor, the cube codec and the box predicates. Blocks are a
  mutable map of pages in class `RTree.Index`; the cursor is class `Cursor.Scan`.
- **contrib/bloom**: signatures and their random generator, in-place page
  compaction, build and scan, and the insert/vacuum protocol over the meta page's
  free list as a state machine at buffer-lock granularity.
- **contrib/btree_gist** truncated variable-length keys (bytea), and
  **contrib/amcheck** widening of 32-bit transaction ids.

`dafny verify dfyconfig.toml` checks everything.

## Layout

| file | content |
|---|---|
| Common, Flatten | shared types; flat-mapping, filtering and distinctness of sequences |
| Boxes, CubeOps | doubles, cube codec, union, strategies; agreement with the cube operators |
| PickSplit, SplitFit, Capacity | how a full page is divided; when both sides fit in bytes; when counting tuples is counting bytes |
| PageTree, Growth, Rightlinks, Sweep | trees of blocks as values: frame, insertion, sibling chains, deletion |
| RTree, Cursor, Pruning | the mutable index, its runs, the scan, the pruned descent |
| BloomRandom, BloomSign, BloomPages, BloomProtocol | the Bloom index, from generator to protocol |
| VarKey, XidWiden | truncated GiST keys; transaction-id widening |

The tree theory takes the cube codec as a pair of functions with three laws
(`PageTree.Lawful`); `Pruning.CubeCodecLawful` shows that the real codec meets them.

## Where the code does less than promised

Each of these is a lemma with a concrete input or an exact condition.

- An open-ended (current) MBR does not survive being stored as a cube: its end
  is written as 2^63 and read with `llround`, whose answer there the platform
  chooses. `Boxes.ExactIff` and `Pruning.GoodCubeIff` give the exact condition;
  `Pruning.PruningLosesCurrentRow` shows what the pruning the TODO asks for would lose.
- The comment at the leaf filter of the scan says the recheck flag stays true; the
  code sets it to false (temporal_rtree_search.c:209-227). Inside the integer ranges
  that is right for whole stored cubes asked with whole queries, coordinates in order,
  and not beyond: `CubeOps.AgreeIff` is exact for the stored cube,
  `CubeOps.QueryAgreesIff` for the query, `CubeOps.FractionalQueryDisagrees` a query
  that returns a wrong row. Outside the ranges attributes wrap, and even whole cubes
  give wrong rows (`CubeOps.WrappedAttributeDisagrees`).
- A one-dimensional cube loses its upper end as an end of time, so overlapping rows are
  missed (`CubeOps.IntervalsAgreeIff`, exact).
- A split ignores the result of adding a tuple to a page. `SplitFit.SplitBytes` models
  this in bytes. `SplitFit.GreedyKeepsAllIff` and `SplitFit.RightKeptIff` are exact over
  all penalties, `SplitFit.NarrowKeepsAllIff` is exact for the code's own penalties where
  attributes hardly differ, and `SplitFit.SplitFullPage` is a page that loses a row.
  Pages of one tuple size lose nothing; `Capacity.BuildRunSized` says when all are,
  `SplitFit.PointLeavesMixSizes` and `SplitFit.RoundedBoxShrinks` when they are not.
- The seed search takes item 0's low attribute end for its high one
  (temporal_rtree_split.c:329-346). `PickSplit.SeedsMissFirstItem` is an input whose
  seeds are not the farthest apart; `PickSplit.AttrSearchIsExactIff` and
  `PickSplit.SeedsAreFarthestIff` are the exact conditions.
- `num_index_tuples` counts kept downlinks along with leaf tuples, and the build's
  count includes rows with null keys (`RTree.Index.BulkDelete`, `RTree.Index.Build`).
- `mySrand` leaves the range its comment states for most seeds from 2^31 on; two of
  them put the generator at 0 for good, and every bit index drawn is then -1
  (`BloomRandom.SeedBounds`, `BloomRandom.DrawsInRangeIff`, `BloomSign.BitsInRangeIff`).
  Scans still find such rows where an undefined shift gives the same word each time
  (`BloomSign.NoFalseNegatives`); scans for any other value do not
  depend on it (`BloomSign.NoFalseNegativesAnyShift`).
- `signValue`'s comment says equal values in different columns map to different bits. The
  seeds differ (`BloomSign.SeedsKeptApart`); the bits are drawn from the same signature.
- The key truncation in `gbt_var_picksplit` can make an inner key turn away a value
  stored below it (`VarKey.StoredKeyIsSafeIff`, `VarKey.InnerSplitLosesAValue`).

## Model

| member | source | states |
|---|---|---|
| `Cursor.BuildRunScan` | diff_changes/files_created_contrib/temporal_rtree/temporal_rtree_search.c:157-261 | After a build, any serial run of inserts and bulk deletes and a scan read to the end, each (cube, TID) pair whose box matches the first usable key comes back exactly as often as a plain bag would hold it, null keys skipped, whatever the inner boxes contain. |
| `Cursor.BuildRunSelect` | diff_changes/files_created_contrib/temporal_rtree/temporal_rtree_search.c:207-228 | After a build and any serial run of whole, ordered, in-range cubes, a full scan whose first usable key is of that kind returns exactly the rows for which the SQL operator of its strategy number holds (1 is overlap, 2 is contains, 3 is contained), as often as a plain bag holds them, although nothing is rechecked. |
| `Cursor.StrategyMeans` | diff_changes/files_created_contrib/temporal_rtree/temporal_rtree_page.c:126-142 | Each strategy number, evaluated on the decoded boxes of such cubes, answers as the SQL operator it is registered for. |
| `RTree.Run` | diff_changes/files_created_contrib/temporal_rtree/temporal_rtree_insert.c:418-485 | Over any serial run the paged tree stays height-balanced with one parent per block, LEAF exactly at level 0, ROOT on exactly the root and no empty page below it; its leaf tuples are the plain bag; its downlink boxes stay tight while every key survives storage; while nothing is deleted, each level stays one complete sibling chain, the leaf chain starting at block 1. |
| `RTree.Apply` | diff_changes/files_created_contrib/temporal_rtree/temporal_rtree_vacuum.c:253-301 | One operation of such a run changes the bag as the plain bag changes, and keeps shape, tight boxes and (for inserts) chains. |
| `RTree.Index.Insert` | diff_changes/files_created_contrib/temporal_rtree/temporal_rtree_insert.c:418-485 | Adds exactly the one tuple to the leaf tuples as a multiset; a null key is accepted and changes nothing; shape, tightness and chains are kept, also when the root is promoted. |
| `RTree.Index.InsertPage` | diff_changes/files_created_contrib/temporal_rtree/temporal_rtree_insert.c:262-371 | Inserting below any page leaves one subtree or two of the same height, both non-empty and within capacity, that hold the old tuples and the new one on the old blocks and the newly allocated ones, touch no block outside, and are reported with their exact MBRs. |
| `RTree.Index.InsertInner` | diff_changes/files_created_contrib/temporal_rtree/temporal_rtree_insert.c:299-368 | The same for an inner page: below it, only the subtree of the downlink that is cheapest for the new tuple's box changes, and the page splits only when it was full. |
| `RTree.Index.InsertLeaf` | diff_changes/files_created_contrib/temporal_rtree/temporal_rtree_insert.c:235-260 | The same for a leaf, which splits exactly when it was full. |
| `RTree.Index.UpdateParent` | diff_changes/files_created_contrib/temporal_rtree/temporal_rtree_insert.c:323-368 | Relinking after the child was handled turns the staged children into a finished page, or two, with nothing lost; it splits exactly when the child did and the page was full, and touches no older block but the page. |
| `RTree.Index.SplitPage` | diff_changes/files_created_contrib/temporal_rtree/temporal_rtree_insert.c:156-233 | The tuples of the two pages are the old page's and the new one as multisets, dealt as tr_picksplit divides their boxes, both sides are non-empty and fit, the new right page takes over the old rightlink and the left page points to it, and the returned boxes are the two sides' MBRs. |
| `RTree.FillPage` | diff_changes/files_created_contrib/temporal_rtree/temporal_rtree_insert.c:206-216 | Adding in sequence keeps every listed tuple in order as long as they are no more than the capacity. |
| `RTree.Index.PromoteRoot` | diff_changes/files_created_contrib/temporal_rtree/temporal_rtree_insert.c:373-415 | The new root holds exactly the two downlinks one level up and the meta page names it; no other block changes. |
| `RTree.Promoted` | diff_changes/files_created_contrib/temporal_rtree/temporal_rtree_insert.c:373-415 | The two halves of a split root under a new page form a balanced tree with one parent per block and the ROOT flag on the new page only. |
| `RTree.PromotedLeaves` | diff_changes/files_created_contrib/temporal_rtree/temporal_rtree_insert.c:373-415 | Promotion keeps the leaf tuples, the left half's first, and the tightness of every downlink. |
| `RTree.PromotedLinks` | diff_changes/files_created_contrib/temporal_rtree/temporal_rtree_insert.c:373-415 | After promotion every level, the new one included, is one complete sibling chain and every allocated page is reachable. |
| `RTree.ChooseSubtree` | diff_changes/files_created_contrib/temporal_rtree/temporal_rtree_insert.c:37-91 | Returns the first downlink of least penalty, NaN never winning; the first downlink when no penalty is below the starting value; nothing only for an empty page. |
| `RTree.FindDownlink` | diff_changes/files_created_contrib/temporal_rtree/temporal_rtree_insert.c:299-315 | Finds the first downlink to the chosen child. |
| `RTree.PageMbr` | diff_changes/files_created_contrib/temporal_rtree/temporal_rtree_page.c:200-238 | The accumulated box is the union of the decoded tuple boxes. |
| `Growth.StageParent` | diff_changes/files_created_contrib/temporal_rtree/temporal_rtree_insert.c:323-348 | If a child subtree was inserted into, the parent's relinked tuples are well-formed children that stand for the old blocks and tuples plus the new ones, and tight where the tree was tight. |
| `Growth.FinishSplit` | diff_changes/files_created_contrib/temporal_rtree/temporal_rtree_insert.c:349-355 | Any division of staged tuples into two non-empty pages within capacity completes the insertion at this level. |
| `Growth.FinishInPlace` | diff_changes/files_created_contrib/temporal_rtree/temporal_rtree_insert.c:357-368 | Writing staged tuples that fit completes the insertion at this level. |
| `Growth.InsertedDistinct` | diff_changes/files_created_contrib/temporal_rtree/temporal_rtree_insert.c:179-204 | No block gets a second parent: old and newly allocated blocks of the subtree are pairwise different. |
| `Rightlinks.SplitChains` | diff_changes/files_created_contrib/temporal_rtree/temporal_rtree_insert.c:179-204 | A split splices the new page into its level's chain: following rightlinks from the page the chain started at still visits every page of each level exactly once and stops. |
| `Rightlinks.PromoteChains` | diff_changes/files_created_contrib/temporal_rtree/temporal_rtree_insert.c:373-415 | A new top page is a chain of its own and leaves the others intact. |
| `PageTree.Frame` | diff_changes/files_created_contrib/temporal_rtree/temporal_rtree_insert.c:262-371 | What a subtree stands for (shape, blocks, leaf tuples, tightness) depends on its own blocks only. |
| `PageTree.FormedIsTight` | diff_changes/files_created_contrib/temporal_rtree/temporal_rtree_page.c:184-198 | A downlink formed from a page's MBR reads back as exactly that MBR. |
| `PageTree.TightContains` | diff_changes/files_created_contrib/temporal_rtree/temporal_rtree_page.c:200-238 | Every tight downlink box contains the box of every leaf tuple below it, at any depth. |
| `PickSplit.Pick` | diff_changes/files_created_contrib/temporal_rtree/temporal_rtree_split.c:260-394 | Each index lands on exactly one side exactly once, and for two or more items neither side is empty, for any penalty values, NaN included, and any overflow; a page with a closed box is divided greedily around the seeds, a current-only page with spread-out starts by a point in time. |
| `PickSplit.SplitGreedy` | diff_changes/files_created_contrib/temporal_rtree/temporal_rtree_split.c:361-394 | The same for the seeded greedy path: the seeds end up on opposite sides, and each other item in turn goes left exactly when adding it to the left side's box so far costs less than to the right side's. |
| `PickSplit.SplitCurrentOnly` | diff_changes/files_created_contrib/temporal_rtree/temporal_rtree_split.c:203-256 | The same for current-only pages: where start times can be added without overflow, the two sides are cut halfway between the earliest and the latest start, or, where that leaves the right side nothing, it gets the last item. |
| `PickSplit.PickSeeds` | diff_changes/files_created_contrib/temporal_rtree/temporal_rtree_split.c:297-359 | The two seeds are valid and different, whatever overflows; without overflow they are the first earliest and first latest item, or, where that range is wider, the first items of lowest and highest attribute, item 0 counting as high only as its low end. |
| `PickSplit.SeedsByRange` | diff_changes/files_created_contrib/temporal_rtree/temporal_rtree_split.c:297-359 | The extremes of the time range are the seeds unless the attribute range is strictly wider, whose extremes then are; an item that is both gets its successor as partner; without any range the first two items are. |
| `PickSplit.SeedsAreFarthest` | diff_changes/files_created_contrib/temporal_rtree/temporal_rtree_split.c:297-359 | As the search measures attributes, with item 0's low end for its high one, no two items are farther apart than the seeds, unless the first seed alone is wider. |
| `PickSplit.SeedsAreFarthestIff` | diff_changes/files_created_contrib/temporal_rtree/temporal_rtree_split.c:297-359 | By the real attribute ends, for a first item in order: no two items are farther apart than the seeds, or than the first seed is wide, if and only if item 0's high end is not above all others, or item 0 is a seed and the first seed has the lowest attribute, or the seeds' start times are farther apart than item 0 reaches. |
| `PickSplit.AttrSearchIsExactIff` | diff_changes/files_created_contrib/temporal_rtree/temporal_rtree_split.c:328-346 | The range the attribute search finds is the widest there is if and only if item 0's high end is not above its low end, or not above all other high ends. |
| `PickSplit.SeedsMissFirstItem` | diff_changes/files_created_contrib/temporal_rtree/temporal_rtree_split.c:328-346 | Three rows for which the search picks seeds 60 apart although two rows are 100 apart. |
| `PickSplit.SplitReorders` | diff_changes/files_created_contrib/temporal_rtree/temporal_rtree_split.c:361-394 | Three items of which the second starts first: it comes first on the left page, so a split of an inner page can move a downlink ahead of the one that led. |
| `PickSplit.ClassifyCurrentOnly` | diff_changes/files_created_contrib/temporal_rtree/temporal_rtree_split.c:179-199 | Current-only is reported exactly when every box is open-ended. |
| `PickSplit.GatherPartition` | diff_changes/files_created_contrib/temporal_rtree/temporal_rtree_insert.c:206-216 | Tuples picked by the two index lists together are the dealt tuples as a multiset. |
| `SplitFit.KeepsAllIff` | diff_changes/files_created_contrib/temporal_rtree/temporal_rtree_insert.c:206-216 | Over all divisions into two non-empty sides, not only those the code makes: each keeps all tuples if and only if all but any one of them fit on a page. |
| `SplitFit.RightKeptIff` | diff_changes/files_created_contrib/temporal_rtree/temporal_rtree_split.c:361-394 | On the greedy path, whatever the penalties, the right page keeps all dealt to it if and only if everything but the first seed fits. |
| `SplitFit.GreedyKeepsAllIff` | diff_changes/files_created_contrib/temporal_rtree/temporal_rtree_split.c:361-394 | Whatever the penalties, both pages keep everything if everything but either seed fits; that everything but the first seed fits is also necessary, and that everything but the second fits is necessary where the second's box does not contain the first's. |
| `SplitFit.EqualBoxesKeepAllIff` | diff_changes/files_created_contrib/temporal_rtree/temporal_rtree_split.c:361-394 | Where all boxes are equal, so that each seed's contains the other's, both pages keep everything if and only if the first seed fits one page and all the others the other. |
| `SplitFit.LeftKept` | diff_changes/files_created_contrib/temporal_rtree/temporal_rtree_split.c:361-394 | For any seeds the left page keeps all dealt to it if everything but the second seed fits. |
| `SplitFit.NarrowKeepsAllIff` | diff_changes/files_created_contrib/temporal_rtree/temporal_rtree_split.c:134-162 | With the code's own penalties, on a page whose attribute values differ by at most one, the first seed is set apart and nothing is lost if and only if all the other tuples fit on one page. |
| `SplitFit.PenaltyIs` | diff_changes/files_created_contrib/temporal_rtree/temporal_rtree_split.c:134-162 | Where the time width grows with the box, a penalty is never negative, is zero for a box already contained, and is positive when the attribute range widens within the scale and the result has a time width. |
| `SplitFit.PenaltyPrefersOwnKind` | diff_changes/files_created_contrib/temporal_rtree/temporal_rtree_split.c:134-162 | Of two children that would grow by the same area, a current row costs less with the current one and a closed row with the closed one. |
| `SplitFit.SplitBytes` | diff_changes/files_created_contrib/temporal_rtree/temporal_rtree_insert.c:156-233 | The split with tuples of any byte size: each page holds, in order, what fits of its side, and the two hold the old tuples and the new one as multisets if and only if the bytes of either side are within a page's room. |
| `SplitFit.FillBytes` | diff_changes/files_created_contrib/temporal_rtree/temporal_rtree_insert.c:206-216 | An add loop that ignores failures keeps, in order, exactly the tuples that fit the room left at their turn. |
| `SplitFit.FittingAmong` | diff_changes/files_created_contrib/temporal_rtree/temporal_rtree_insert.c:206-216 | What gets onto a page was among what was to be added. |
| `SplitFit.FittingIsKept` | diff_changes/files_created_contrib/temporal_rtree/temporal_rtree_insert.c:206-216 | Such a loop keeps everything dealt to the page if and only if the byte condition used in the other rows says so. |
| `SplitFit.CurrentPagesKeepAll` | diff_changes/files_created_contrib/temporal_rtree/temporal_rtree_split.c:203-256 | A page of in-range current rows loses nothing however it is divided: their tuples are all of one size. |
| `SplitFit.BoxesStayBoxes` | diff_changes/files_created_contrib/temporal_rtree/temporal_rtree_page.c:10-39 | The MBR of decoded boxes that are in order and not points is again one, and is stored in 52 bytes. |
| `SplitFit.PointLeavesMixSizes` | diff_changes/files_created_contrib/temporal_rtree/temporal_rtree_page.c:10-39 | Leaves of points, all of 36 bytes, get downlinks of 36 or of 52 bytes. |
| `SplitFit.RoundedBoxShrinks` | diff_changes/files_created_contrib/temporal_rtree/temporal_rtree_page.c:10-93 | A 52-byte tuple whose ends round together gets a 36-byte downlink. |
| `Capacity.BuildRunSized` | diff_changes/files_created_contrib/temporal_rtree/temporal_rtree_insert.c:235-260 | After a build and any serial run whose keys have four coordinates, decode to boxes that are not points and survive storage, every tuple on every page has 52 bytes, no page exceeds its 8152 bytes, and the free-space test passes exactly where a page holds fewer than 156 tuples: counting tuples is exact. |
| `Capacity.TightIsSized` | diff_changes/files_created_contrib/temporal_rtree/temporal_rtree_page.c:184-198 | In a tree with tight boxes, 52-byte leaf tuples of decoded boxes that are not points make every downlink above them 52 bytes. |
| `Capacity.CountIsBytes` | diff_changes/files_created_contrib/temporal_rtree/temporal_rtree_insert.c:243-243 | For such tuples the bytes used, a page's limit and the free-space test, which asks for one line pointer more than the tuple takes, are conditions on the count. |
| `Capacity.FullPageSplits` | diff_changes/files_created_contrib/temporal_rtree/temporal_rtree_insert.c:156-233 | A full page of such tuples and one more: no division loses any. |
| `SplitFit.AddedAllIff` | diff_changes/files_created_contrib/temporal_rtree/temporal_rtree_insert.c:206-216 | Filling a page drops nothing if and only if the tuples fit together. |
| `SplitFit.EqualSizesKeepAll` | diff_changes/files_created_contrib/temporal_rtree/temporal_rtree_insert.c:156-233 | With tuples of one size the condition always holds at a split. |
| `SplitFit.MixedSizesLoseATuple` | diff_changes/files_created_contrib/temporal_rtree/temporal_rtree_insert.c:206-216 | A full page of 3 spans and 222 instants with its boxes: any division the greedy path can make of it and one more span, with the code's penalties, drops a tuple. |
| `SplitFit.SplitFullPage` | diff_changes/files_created_contrib/temporal_rtree/temporal_rtree_insert.c:156-233 | Splitting that page: the tuples on the two pages are not the tuples that were to be kept. |
| `RTree.Index.BulkDelete` | diff_changes/files_created_contrib/temporal_rtree/temporal_rtree_vacuum.c:253-301 | A tuple the callback names is gone, every other one is there as often as before and in the same order, all of them for a null callback; the tree stays well formed; boxes come out tight; the removed count grows by the number removed; the index-tuple count is surviving leaf tuples plus kept downlinks, including the one a shrinking root gives up; deleted pages are counted exactly. |
| `RTree.Index.SweepPage` | diff_changes/files_created_contrib/temporal_rtree/temporal_rtree_vacuum.c:32-161 | The same for any subtree, tuple by tuple, touching no block outside it; it reports empty exactly when no tuple is left below, and otherwise the page's exact MBR. |
| `RTree.Index.SweepKids` | diff_changes/files_created_contrib/temporal_rtree/temporal_rtree_vacuum.c:96-123 | After the child loop the kept downlinks lead to exactly the children that still hold tuples, with refreshed boxes. |
| `RTree.Index.SweepTuples` | diff_changes/files_created_contrib/temporal_rtree/temporal_rtree_vacuum.c:68-95 | A leaf keeps, in order, exactly the tuples the callback does not name, and the two counters split the page exactly. |
| `RTree.Index.ShrinkRoot` | diff_changes/files_created_contrib/temporal_rtree/temporal_rtree_vacuum.c:163-251 | Leaf tuples, tightness and balance survive a root becoming an empty leaf or taking over its only child; it acts exactly when an inner root has at most one downlink. |
| `RTree.AbsorbedChild` | diff_changes/files_created_contrib/temporal_rtree/temporal_rtree_vacuum.c:210-244 | Moving the only child's page into the root block keeps the leaf sequence and block uniqueness, one level lower. |
| `RTree.EmptiedRoot` | diff_changes/files_created_contrib/temporal_rtree/temporal_rtree_vacuum.c:204-209 | An inner root without downlinks becomes a level-0 tree that stands for the same, empty, sequence. |
| `Sweep.SweepInner` | diff_changes/files_created_contrib/temporal_rtree/temporal_rtree_vacuum.c:96-156 | Rewriting a page over its swept children keeps order, balance and uniqueness of blocks. |
| `Sweep.KidHasLeaves` | diff_changes/files_created_contrib/temporal_rtree/temporal_rtree_vacuum.c:112-123 | In a well-formed tree every child page has a leaf tuple below it, so a page is dropped exactly when its tuples are gone. |
| `RTree.Index.Build` | diff_changes/files_created_contrib/temporal_rtree/temporal_rtree_build.c:49-94 | The built tree holds exactly the rows with a non-null key, as a multiset, is well formed, tight and fully chained; the tuple count returned includes rows with null keys. |
| `RTree.Index.BuildEmpty` | diff_changes/files_created_contrib/temporal_rtree/temporal_rtree_build.c:24-47 | The initial state of every run: a meta page and an empty root leaf, well formed. |
| `Cursor.Scan.GetTuple` | diff_changes/files_created_contrib/temporal_rtree/temporal_rtree_search.c:287-305 | Terminates and returns the first tuple still due, leaving the rest due; nothing when none is left, no key is usable or the direction is not forward; the stack is never deeper than the root level plus one. |
| `Cursor.Scan.Next` | diff_changes/files_created_contrib/temporal_rtree/temporal_rtree_search.c:157-261 | The stack loop returns the first matching leaf tuple in left-to-right order from where it stood and leaves exactly the others due. |
| `Cursor.Scan.Initialize` | diff_changes/files_created_contrib/temporal_rtree/temporal_rtree_search.c:125-155 | Starts with every matching leaf tuple of the tree due, in order, or refuses exactly when no key is usable. |
| `Cursor.Scan.Rescan` | diff_changes/files_created_contrib/temporal_rtree/temporal_rtree_search.c:307-346 | Forgets position and query; keeps the old keys when none are given. |
| `Cursor.ReadAll` | diff_changes/files_created_contrib/temporal_rtree/temporal_rtree_search.c:287-305 | Reading a rescan to exhaustion gives the matching leaf tuples in tree order: the cursor equals the recursive traversal. |
| `Cursor.ParseQuery` | diff_changes/files_created_contrib/temporal_rtree/temporal_rtree_search.c:42-73 | Finds the first key that can be used, skipping null keys and unknown strategies. |
| `Cursor.FirstUsableUnique` | diff_changes/files_created_contrib/temporal_rtree/temporal_rtree_search.c:42-73 | There is only one query the keys can mean. |
| `Cursor.PathDepth` | diff_changes/files_created_contrib/temporal_rtree/temporal_rtree_search.c:106-123 | Levels fall by one along the stack, so its depth is bounded by the root level plus one. |
| `Cursor.DescendStep` | diff_changes/files_created_contrib/temporal_rtree/temporal_rtree_search.c:233-250 | Passing a downlink and pushing the child keeps the due tuples and uses up work. |
| `Cursor.PopStep` | diff_changes/files_created_contrib/temporal_rtree/temporal_rtree_search.c:252-261 | Dropping a finished frame keeps the due tuples and uses up work. |
| `Cursor.TakeStep` | diff_changes/files_created_contrib/temporal_rtree/temporal_rtree_search.c:207-228 | Returning a match consumes the first due tuple and no other. |
| `Pruning.PrunedIsExhaustive` | diff_changes/files_created_contrib/temporal_rtree/temporal_rtree_search.c:233-250 | With tight boxes the pruned descent named in the TODO returns the same rows, in the same order, as the exhaustive one, for all three strategies. |
| `Pruning.MayMatchIff` | diff_changes/files_created_contrib/temporal_rtree/temporal_rtree_page.c:101-142 | A downlink is skipped exactly when no ordered box inside its own could match the query: no test on the box alone could skip more. |
| `Cursor.BuildRunPrune` | diff_changes/files_created_contrib/temporal_rtree/temporal_rtree_search.c:233-250 | After a build and any serial run whose keys are in range and closed, or open where llround saturates, stored by the real codec, the pruned descent from the root gives exactly the rows, in order, that the full scan returns. |
| `Pruning.MatchShowsThrough` | diff_changes/files_created_contrib/temporal_rtree/temporal_rtree_page.c:101-142 | A leaf match forces every containing box to overlap the query, and to contain it for CONTAINS. |
| `Pruning.GoodCubeIff` | diff_changes/files_created_contrib/temporal_rtree/temporal_rtree_page.c:10-93 | An in-range cube may take part in tight boxes exactly when its time end is closed or llround saturates. |
| `Pruning.CubeCodecLawful` | diff_changes/files_created_contrib/temporal_rtree/temporal_rtree_page.c:10-93 | The cube codec meets what the tree theory asks: boxes that survive storage are closed under union and read back unchanged. |
| `Pruning.StaleLinkLosesRow` | diff_changes/files_created_contrib/temporal_rtree/temporal_rtree_search.c:233-250 | Without tight boxes pruning is unsound: a downlink that misses the query hides a matching row. |
| `Pruning.PruningLosesCurrentRow` | diff_changes/files_created_contrib/temporal_rtree/temporal_rtree_search.c:233-250 | A current row under its own correctly formed downlink is found by every pruned descent if and only if llround of 2^63 saturates; where it answers a time before the row's start, a query for the row's own box misses it. |
| `Boxes.ExactIff` | diff_changes/files_created_contrib/temporal_rtree/temporal_rtree_page.c:10-93 | A box with double-representable ends reads back from its cube unchanged if and only if its upper end is below the open one or llround saturates; otherwise the end becomes whatever llround answers. |
| `Boxes.MbrExact` | diff_changes/files_created_contrib/temporal_rtree/temporal_rtree_split.c:111-132 | Any union of boxes that read back unchanged reads back unchanged. |
| `Boxes.DecodeOnGrid` | diff_changes/files_created_contrib/temporal_rtree/temporal_rtree_page.c:41-93 | Rounding an in-range cube of doubles gives ends that are themselves doubles. |
| `Boxes.DecodeIsNearest` | diff_changes/files_created_contrib/temporal_rtree/temporal_rtree_page.c:41-93 | Each finite end of an in-range cube becomes the integer nearest to it, ties away from zero; each open time end becomes the end of the 64-bit range, and exactly those are flagged. |
| `Boxes.DecodeOneDimension` | diff_changes/files_created_contrib/temporal_rtree/temporal_rtree_page.c:56-65 | A one-dimensional cube's lower coordinate serves as attribute and as both ends of time; its upper coordinate is only an attribute. |
| `Boxes.RoundIsNearest` | diff_changes/files_created_contrib/temporal_rtree/temporal_rtree_page.c:64-84 | The rounding is to the nearest integer, ties away from zero, and no other integer qualifies. |
| `Boxes.WrapIsCongruent` | diff_changes/files_created_contrib/temporal_rtree/temporal_rtree_page.c:64-65 | An attribute outside 32 bits is kept modulo 2^32. |
| `Boxes.IntToDoubleIsNearest` | diff_changes/files_created_contrib/temporal_rtree/temporal_rtree_page.c:22-29 | An integer becomes the nearest multiple of the spacing of doubles of its size, ties to the even multiple. |
| `Boxes.SpacingIs` | diff_changes/files_created_contrib/temporal_rtree/temporal_rtree_page.c:22-29 | That spacing is the power of two that leaves 53 significant bits. |
| `Boxes.DoubleIntIff` | diff_changes/files_created_contrib/temporal_rtree/temporal_rtree_page.c:22-29 | The integers the conversion leaves alone are exactly the whole numbers with a 53-bit significand. |
| `Boxes.OverlapsIff` | diff_changes/files_created_contrib/temporal_rtree/temporal_rtree_page.c:101-110 | Ordered boxes overlap exactly when they have a point in common. |
| `Boxes.ContainsIff` | diff_changes/files_created_contrib/temporal_rtree/temporal_rtree_page.c:112-118 | A box contains an ordered one exactly when it has all its points. |
| `Boxes.UnionIsLeast` | diff_changes/files_created_contrib/temporal_rtree/temporal_rtree_split.c:111-132 | A union holds the points of both boxes and lies in every box that contains both, empty boxes adding nothing. |
| `Boxes.MbrIsLeast` | diff_changes/files_created_contrib/temporal_rtree/temporal_rtree_page.c:200-238 | The fold of tr_union is the least box containing all tuple boxes. |
| `CubeOps.AgreeIff` | diff_changes/files_created_contrib/temporal_rtree/temporal_rtree_search.c:215-227 | For a stored cube inside the integer ranges, the three box strategies answer as the cube operators do for every whole query, if and only if that cube has whole coordinates in order. |
| `CubeOps.QueryAgreesIff` | diff_changes/files_created_contrib/temporal_rtree/temporal_rtree_search.c:215-227 | For a query inside the integer ranges, the answers agree for every whole stored cube, if and only if the query has whole coordinates in order. |
| `CubeOps.FractionalQueryDisagrees` | diff_changes/files_created_contrib/temporal_rtree/temporal_rtree_search.c:215-227 | A stored point and a query a quarter off: the index reports an overlap that the SQL operator denies. |
| `CubeOps.WrappedAttributeDisagrees` | diff_changes/files_created_contrib/temporal_rtree/temporal_rtree_page.c:64-65 | Whole points outside the 32-bit attribute range: the attribute wraps and the index reports an overlap that the SQL operator denies. |
| `CubeOps.IntervalsAgreeIff` | diff_changes/files_created_contrib/temporal_rtree/temporal_rtree_page.c:56-62 | For one-dimensional cubes, index and overlap operator agree if and only if the intervals start together or do not overlap: every other overlapping row is missed. |
| `CubeOps.CubeContainsIff` | postgresql/contrib/cube/cube.c:1123-1159 | For cubes of any dimensions: every point of the second is a point of the first, missing coordinates read as zero, if and only if the operator says so and the first's excess dimensions, which it does not look at, include zero. |
| `CubeOps.CubeOverlapsIff` | postgresql/contrib/cube/cube.c:1193-1229 | For cubes of any dimensions: the operator answers yes if and only if they have a point in common, missing coordinates read as zero. |
| `CubeOps.WholeCubesAgree` | postgresql/contrib/cube/cube.c:1123-1229 | On whole ordered cubes, open time ends included, box overlap and containment equal cube overlap and containment. |
| `CubeOps.BadCubeDisagrees` | postgresql/contrib/cube/cube.c:1123-1229 | For every other stored cube there is a whole query on which the answers differ. |
| `BloomProtocol.RunIsSafe` | postgresql/contrib/bloom/blinsert.c:206-335 | In every interleaving of inserters, one vacuum, scans and lost extensions at buffer-lock granularity: stored plus removed equals inserted as multisets, a page due for initialisation holds nothing, nStart <= nEnd <= the array size, every listed block is a data page, and no enabled step reaches a block or slot that does not exist. |
| `BloomProtocol.StepKeeps` | postgresql/contrib/bloom/blinsert.c:173-341 | Each single step keeps that invariant. |
| `BloomProtocol.RunAccounts` | postgresql/contrib/bloom/blinsert.c:206-335 | For each tuple: stored, removed and in flight together are what the run started with plus what was begun. |
| `BloomProtocol.RunScans` | postgresql/contrib/bloom/blscan.c:126-168 | A scan interleaved with all of this reports every matching tuple stored when it began except those vacuum removed meanwhile, and only matching tuples that were inserted. |
| `BloomProtocol.VacuumIsThorough` | postgresql/contrib/bloom/blvacuum.c:58-139 | When vacuum has passed its last page no dead tuple is left anywhere, whatever live insertions ran meanwhile. |
| `BloomProtocol.VacuumLists` | postgresql/contrib/bloom/blvacuum.c:112-158 | A vacuum during which nothing is inserted leaves a free list of exactly the pages in use that hold a tuple and have room, in block order, as many as the list holds. |
| `BloomProtocol.VacuumPageEffect` | postgresql/contrib/bloom/blvacuum.c:58-139 | One page of vacuum: new and deleted pages are left alone; from another exactly the dead tuples go, it is marked deleted exactly when its last tuple went, and it is listed exactly if it is in use, has room and the list has a free slot. |
| `BloomProtocol.CandidatesAre` | postgresql/contrib/bloom/blvacuum.c:112-120 | The listed blocks are exactly those whose pages are in use, hold a tuple and have room. |
| `BloomProtocol.RunNoHollow` | postgresql/contrib/bloom/blvacuum.c:122-128 | In every interleaving that starts so, every data page is new, deleted or holds a tuple, so every empty page can be reused. |
| `BloomProtocol.EmptyPageIsReused` | postgresql/contrib/bloom/blutils.c:355-395 | In every such interleaving, an insertion that has run out of listed pages may take any empty page. |
| `BloomProtocol.PageAddedOnlyWhenFull` | postgresql/contrib/bloom/blinsert.c:256-335 | From a list as vacuum leaves it and no insertion under way, until the list is next rewritten and whatever the interleaving, a page is added only when every listed page is full. |
| `BloomProtocol.InsertionProgresses` | postgresql/contrib/bloom/blinsert.c:173-341 | Unless another insertion holds the meta page an insertion can go on, and each of its steps finishes it or brings it nearer to its end: no deadlock, no endless search. |
| `BloomProtocol.InsertionLands` | postgresql/contrib/bloom/blinsert.c:206-335 | A finishing step puts the tuple last on one page in use and changes no other; after a search through the list, the list starts with that page, and the meta page is free. |
| `BloomProtocol.FirstPageSuffices` | postgresql/contrib/bloom/blinsert.c:206-244 | If the first listed page has room the tuple goes there without the meta page ever being taken exclusively or changed. |
| `BloomProtocol.TriedIsSkipped` | postgresql/contrib/bloom/blinsert.c:256-264 | A page found full before the meta page was taken is not tried again at once. |
| `BloomProtocol.VacuumRemovesOnlyDead` | postgresql/contrib/bloom/blvacuum.c:85-107 | Vacuum removes a tuple only if the callback names it. |
| `BloomProtocol.AddKeeps` | postgresql/contrib/bloom/blinsert.c:224-231 | Initialising a new or deleted page before use loses no tuple. |
| `BloomProtocol.BuiltIsInit` | postgresql/contrib/bloom/blinsert.c:120-158 | The result of a build is a possible start of such a run. |
| `BloomPages.Compact` | postgresql/contrib/bloom/blvacuum.c:85-107 | The two-pointer loop leaves, in place and in order, exactly the tuples the callback does not name, counts the rest, and writes nothing past the page's end. |
| `BloomPages.Build` | postgresql/contrib/bloom/blinsert.c:46-158 | Concatenating the built pages gives the tuples in heap order; every page but the last is full. |
| `BloomPages.GetBitmap` | postgresql/contrib/bloom/blscan.c:80-172 | The bitmap gets, page by page in order, exactly the TIDs of tuples on pages in use whose signature has every bit of the query's; a null key yields nothing. |
| `BloomPages.RowIsFound` | postgresql/contrib/bloom/blscan.c:126-168 | A stored row is returned by every scan whose keys it satisfies. |
| `BloomPages.SignValue` | postgresql/contrib/bloom/blutils.c:261-289 | Bit by bit: afterwards a bit is set exactly if it was set before or is one of the value's, which are given in closed form; only the two bad hash values are excepted. |
| `BloomPages.FormTuple` | postgresql/contrib/bloom/blutils.c:294-313 | A bit of the stored signature is set exactly if it is one of the bits of some non-null column's value, bad hash values excepted. |
| `BloomPages.QuerySign` | postgresql/contrib/bloom/blscan.c:90-116 | A bit of the query signature is set exactly if it is one of the bits of some key's value, bad hash values excepted; refused exactly when a key is null. |
| `BloomPages.MatchWords` | postgresql/contrib/bloom/blscan.c:140-158 | The word loop answers yes exactly when every bit of the query is set in the tuple. |
| `BloomSign.NoFalseNegatives` | postgresql/contrib/bloom/blutils.c:261-313 | If each scan key hashes like the row's non-null value in its column, the row's signature covers the scan's, for any columns, bit counts and length, when an undefined shift gives the same word at insertion and in the scan. |
| `BloomSign.HitIff` | postgresql/contrib/bloom/blscan.c:126-168 | Which rows a scan returns, wanted or not: exactly those whose values between them set every bit of the keys' values, bad hash values excepted. |
| `BloomSign.RowSignAt` | postgresql/contrib/bloom/blutils.c:294-313 | A stored signature has exactly the bits of its non-null columns' values, bad hash values excepted. |
| `BloomSign.ScanSignAt` | postgresql/contrib/bloom/blscan.c:96-116 | A query signature has exactly the bits of its keys' values, bad hash values excepted. |
| `BloomSign.ValueBitsAre` | postgresql/contrib/bloom/blutils.c:283-288 | The bits of a value in closed form: the i-th is 16807 to the i+1 times the seed's state modulo 2^31-1, less one, modulo the signature's length in bits. |
| `BloomSign.SetAllAt` | postgresql/contrib/bloom/blutils.c:29-33 | Setting a list of bits sets exactly those and leaves every other bit of the signature alone. |
| `BloomSign.CoversIff` | postgresql/contrib/bloom/blscan.c:140-158 | The word-by-word test holds exactly when every bit of the query is set in the tuple. |
| `BloomSign.SeedsKeptApart` | postgresql/contrib/bloom/blutils.c:268-281 | The same hash value in two columns starts from two different seeds, and so do two hash values in one column. |
| `BloomSign.FoundIff` | postgresql/contrib/bloom/blscan.c:126-168 | For any two words that undefined shifts give at insertion and in the scan, a row is found by a scan it satisfies if and only if no key that draws bits has a bad hash value, or word 0 of the row covers the scan's word. |
| `BloomSign.NoFalseNegativesAnyShift` | postgresql/contrib/bloom/blutils.c:261-313 | The same with undefined shifts that differ between insertion and scan, for keys other than the two bad hash values. |
| `BloomSign.BitsInRangeIff` | postgresql/contrib/bloom/blutils.c:283-288 | All bit indices drawn for a value lie within the signature, except for exactly two seeds; for those every index is -1. |
| `BloomRandom.NextIsModular` | postgresql/contrib/bloom/blutils.c:223-248 | One step is 16807 x mod 2^31-1 with every intermediate within 32 bits, from any state of that magnitude, and only 0 leads to 0. |
| `BloomRandom.StatesBounded` | postgresql/contrib/bloom/blutils.c:223-256 | Every later state is in range; it is 0 exactly if the seed's state is 0. |
| `BloomRandom.StateIsPower` | postgresql/contrib/bloom/blutils.c:223-256 | The state after k draws is 16807 to the k times the seed's state, modulo 2^31-1. |
| `BloomRandom.NextIsInjective` | postgresql/contrib/bloom/blutils.c:223-248 | One step never merges two states. |
| `BloomRandom.SeedBounds` | postgresql/contrib/bloom/blutils.c:250-256 | Seeding gives the seed, read as a signed number, truncated modulo 2^31-2, plus one; it meets its promised range exactly for seeds below 2^31 and 0x80000002, and gives 0 for exactly two seeds. |
| `BloomRandom.DrawsInRangeIff` | postgresql/contrib/bloom/blutils.c:223-256 | All draws are in the documented range if and only if the seed is not one of those two; from them every draw is -1. |
| `BloomRandom.Generator.Rand` | postgresql/contrib/bloom/blutils.c:223-248 | The generator object steps by the modular product and returns the state less one. |
| `BloomRandom.Generator.Seed` | postgresql/contrib/bloom/blutils.c:250-256 | Seeding reads the seed as a signed 32-bit value and sets the state to one more than its truncating remainder by 2^31-2, of magnitude below 2^31-1. |
| `VarKey.SearchIsExact` | postgresql/contrib/btree_gist/btree_utils_var.c:564-623 | In any tree whose inner keys are as short as a union leaves them and stand for all values below, the search guided by gbt_var_consistent returns exactly the values that satisfy the query, for all six strategies. |
| `VarKey.SearchMeans` | postgresql/contrib/btree_gist/btree_utils_var.c:564-623 | A grown tree's search returns a value exactly if it was put in and stands where the strategy asks relative to the query, in dictionary order. |
| `VarKey.ConsistentIff` | postgresql/contrib/btree_gist/btree_utils_var.c:564-623 | An inner key is followed for an ordering or equality exactly if some value within its reach satisfies the query, with < read as <= and > as >=; for inequality exactly if it is not the query's value alone. |
| `VarKey.CmpIsDictionary` | postgresql/contrib/btree_gist/btree_bytea.c:65-74 | The comparison is dictionary order: at the first difference the lower has ended or has the lower byte. |
| `VarKey.GrownSearchIsExact` | postgresql/contrib/btree_gist/btree_utils_var.c:332-368 | Keys made by gbt_var_union level by level and then adjusted by union along any paths for any inserted values: the search finds exactly the satisfying ones among the values put in. |
| `VarKey.UnionedIsKeyed` | postgresql/contrib/btree_gist/btree_utils_var.c:332-368 | Keys computed as unions of the keys below meet that condition. |
| `VarKey.InsertKeeps` | postgresql/contrib/btree_gist/btree_utils_var.c:243-288 | Adjusting every key on a path by union with the new value keeps it. |
| `VarKey.UnionHolds` | postgresql/contrib/btree_gist/btree_utils_var.c:332-368 | A page key stands for every value its entries stand for, keeps their shared prefix length and is at most two bytes longer than it. |
| `VarKey.JoinHolds` | postgresql/contrib/btree_gist/btree_utils_var.c:243-288 | Joining two keys keeps what either stands for. |
| `VarKey.TruncateHolds` | postgresql/contrib/btree_gist/btree_utils_var.c:214-239 | Truncating two or more bytes past the shared prefix loses no value and keeps the prefix length. |
| `VarKey.ReachedIsConsistent` | postgresql/contrib/btree_gist/btree_utils_var.c:564-623 | An inner key never turns away a query that a value within its reach satisfies. |
| `VarKey.LeafIsExact` | postgresql/contrib/btree_gist/btree_utils_var.c:564-623 | On a leaf entry the test is exact in both directions. |
| `VarKey.StoredKeyIsSafeIff` | postgresql/contrib/btree_gist/btree_utils_var.c:564-623 | A stored inner key turns away no value it stands for if and only if its upper bound is all 255 beyond two bytes past the shared prefix (or ends there), or its lower bound is a prefix of the upper. |
| `VarKey.SplitHolds` | postgresql/contrib/btree_gist/btree_utils_var.c:540-555 | A key made by a page split stands for everything on its half, and is safe in the above sense when its own shared prefix is the longer one. |
| `VarKey.LeafSplitReaches` | postgresql/contrib/btree_gist/btree_utils_var.c:540-555 | Split off a leaf page, every value stays within reach. |
| `VarKey.InnerSplitLosesAValue` | postgresql/contrib/btree_gist/btree_utils_var.c:523-555 | Four inner entries in sort order, halved as the code does: the left page's key turns away an equality search for a value stored below it. |
| `VarKey.VarUnion` | postgresql/contrib/btree_gist/btree_utils_var.c:332-368 | The loop computes the truncated join of all entries. |
| `VarKey.NodeCpLen` | postgresql/contrib/btree_gist/btree_utils_var.c:123-173 | The loop finds the length of the longest common prefix of the two bounds. |
| `XidWiden.WidenIsMeantIff` | postgresql/contrib/amcheck/verify_heapam.c:1882-1919 | The result is congruent to the xid and within [next-2^31+1, next+2^31] if and only if the one number with that property is a normal 64-bit id. |
| `XidWiden.WidenNormal` | postgresql/contrib/amcheck/verify_heapam.c:1882-1919 | For a normal xid the result is that number, clamped to the first normal id; clamping happens only in epoch 0, and both exit assertions hold. |
| `XidWiden.WidenSpecial` | postgresql/contrib/amcheck/verify_heapam.c:1893-1894 | The three special ids widen to themselves in epoch 0, whatever the current epoch. |
| `XidWiden.MeantIsUnique` | postgresql/contrib/amcheck/verify_heapam.c:1882-1919 | In the window around next exactly one number abbreviates to a given xid. |
| `XidWiden.WidenInverts` | postgresql/contrib/amcheck/verify_heapam.c:1882-1919 | Widening an abbreviated id near next gives it back. |
| `XidWiden.StaleCacheAgrees` | postgresql/contrib/amcheck/verify_heapam.c:1924-1936 | A stale cached next id widens alike while the id is near both. |
| `XidWiden.WidenOrders` | postgresql/contrib/amcheck/verify_heapam.c:1882-1919 | Among ids that are not clamped, order follows signed 32-bit distance from next. |
| `XidWiden.RangeTestIsExact` | postgresql/contrib/amcheck/verify_heapam.c:1951-1956 | Testing widened ids against the cached range answers what the original 64-bit ids would. |

## Left out

- PickSplit.SplitGreedy: penalties are an arbitrary oracle here; SplitFit.AreaPenalty gives the code's formula over real numbers, with the normalised time width left open.
- PickSplit.PickSeeds: distances are compared as exact integers; where C overflows the seeds are only known to be valid and different.
- SplitFit.GreedyKeepsAllIff: for seeds of which the second's box contains the first's, what the left page needs is not characterised beyond equal boxes (SplitFit.EqualBoxesKeepAllIff), because which penalties can then send a tuple left depends on the order of the items.
- PickSplit.SeedsAreFarthestIff: asks that item 0's attribute ends are in order.
- RTree.Index.SplitPage: page capacity is a number of tuples, at least two; Capacity.BuildRunSized says for which keys that is exact. Leaves of points, or of boxes that round to points, are not covered: their downlinks mix sizes, and on an inner page a split can then drop a downlink; SplitFit.SplitBytes has the split in bytes for a single page.
- RTree.Index.UpdateParent: the error raised when a replaced downlink has grown past the room left on its page is not modelled; among tuples of one size it cannot arise.
- RTree.FillPage: counts tuples; SplitFit.FillBytes counts bytes.
- Rightlinks.SplitChains: a chain starts at its level's first page; that this is also the leftmost page in tree order is not claimed, because splitting an inner page reorders its downlinks (PickSplit.SplitReorders).
- RTree.Run: operations are serial; pins, locks, WAL records and critical sections of the R-tree are not modelled.
- RTree.Index.Insert: levels and block numbers are unbounded, 16- and 32-bit limits are not modelled.
- RTree.Index.SweepPage: tuples with null keys on a page and a page's unreadable boxes do not occur in the model, because insertion never stores them.
- Boxes.DecodeOnGrid: NaN coordinates and zero-dimensional cubes are not modelled; the codec's answers for other cubes are, in Boxes.Decode.
- CubeOps.AgreeIff: both cubes have two dimensions.
- Boxes.ExactIff: the platform's answer of llround outside 64 bits is one fixed value, the same at each use.
- BloomSign.FoundIff: an undefined shift gives one word throughout an insertion and one throughout a scan.
- BloomSign.NoFalseNegatives: an undefined shift is one fixed word, the same at each use; BloomSign.FoundIff has two.
- BloomProtocol.RunIsSafe: one step is one critical section under a buffer lock; the free-space map's choice of a recycled block is arbitrary; WAL and lock timing are not modelled.
- BloomProtocol.VacuumIsThorough: asks that no insertion under way carries a TID that vacuum is out to delete; the heap guarantees this by not reusing a dead TID before the index is vacuumed.
- BloomPages.GetBitmap: bitmap storage, predicate locks and hash functions; a hash is a parameter.
- VarKey.NodeCpLen: single-byte data only; multi-byte text, bit strings and penalties are not modelled.
- VarKey.InnerSplitLosesAValue: the sort itself is not modelled; the entries are given in its order.
- temporal_rtree_vacuumcleanup, magic-number checks, cost estimates, hooks and handler functions: plumbing over server code.
- The rest of verify_heapam.c and verify_nbtree.c: they rest on server routines outside this repository's contrib code.
- All other contrib modules and the Python experiment scripts: thin wrappers, I/O or easy members.
