# Verified models of the web tools

This project models the algorithmic parts of the repository's browser code and proves them correct. Every part
is a set of Dafny modules named after what it models; `dafny verify dfyconfig.toml` checks all of them.

**Crossfilter** (`Int32` to `Session`) is the largest part: an in-memory index over records. Each dimension keeps
the records sorted by a value and owns one bit per record in a shared bitset, set when the record does not pass the
dimension's filter. Each group keeps a reduce value per key and updates it as filters move and records are added.
The classes `Dimension`, `Group`, `GroupAll` and `Crossfilter` carry one invariant, `Crossfilter.Valid`, which says
that the bits are those of the filters, the ranks those of the values, and that every value that is not marked for a
reset is the reduce from scratch. Every operation keeps it. `Meanings` is the reference definition: the state that a
list of operations means, with records, accessors, filters, keys and reduce functions, but neither bits nor ranks nor
earlier values, and the right answer to a query in a state. `Sessions.RunAll` proves that a crossfilter gives the right
answers throughout every run. Below it are the sorts, searches and heaps, in place on arrays.

**Mustache** (`Mustache*`) is a template compiler: scanner, tokens, stripping of standalone lines, squashing, nesting,
rendering. `Writing` writes templates the other way round, `RenderLaws` says what rendering means without the renderer,
and `Pages` puts it all together. **DSV** (`Dsv`) is a parser and printer of delimiter-separated values.
**Transitions** is the lock that keeps a node's transitions apart, as a state machine over creations and timer
callbacks. **DataJoin** is the join of data to nodes. **Quadtree** and **Treemap** (with `Tiling`) are the spatial index
and the squarified layout, over exact reals; **Hierarchy** makes the tree that a treemap lays out. **JsonText** and
**JsonTokenizer** are the JSON grammar (sections 2 to 7 of RFC 8259) and the tolerant tokenizer; **JsonWriter** writes
values the other way round.

Modelling decisions:

- Keys, values and coordinates are exact reals; NaN appears only where the code tests for it (the quadtree).
- The 32-bit arithmetic of the host language is explicit where it matters: the midpoint of a binary search and the
  child index of a heap (`Int32`), bit masks and their signed and unsigned readings (`Bitset`), truncation in typed
  arrays (`TypedArrays`). Records number at most 2^30, which is exactly where the binary search stops working, and
  heaps have fewer nodes.
- Typed and plain arrays that are rebuilt as a whole are sequence-valued fields; slices sorted in place are arrays.
- Long functions of the source are split into methods. The loop over `dataListeners` is two loops, one after the
  other: the preAdds, which come first, and the rest.
- Accessors, keys, reduce functions, orders, rounding, the tables of identifier characters and the views of a
  template are parameters. A group's key must follow its dimension's order, reduce functions must be such that
  removing undoes adding and adding commutes, and a filter must not clash with the one before: the source relies on
  each of these.
- Exceptions are result values, and so is a loop that does not end (`JsonTokenizer.Validation.Endless`). The JSON
  tokenizer's methods take a ghost argument, a description of what the text spells, and hand out a description of what
  has been read: the first is for texts that are read well, the second for the claim that no others are. The template
  parser hands out the tokens it has read as ghost results.
- Regular expressions of the template parser are matched by functions that follow the host language's rules for the
  few shapes in use.

Where code and comments disagree, the code is followed. In the quicksort, the comment on the pass for equal pivots
says that the right part is greater than the pivot; it can hold pivot values. The comment on the last pass says that
the middle part is strictly between the pivots; it can hold values equal to the first. The sort is correct all the same.

What turned out not to hold as promised, with the condition under which it does:

- A group-all goes wrong with 32 dimensions (`AllRecords.LastDimensionFails`; for counts exactly when the filter of the
  32nd puts out a record that nothing else keeps out, `AllRecords.CountRightIff`), and the 33rd dimension is refused
  only after it has been registered.
- An inverted filter range can corrupt the bitset (`Filters.InvertedRangeFails`), exactly when it clashes with the
  filter before or after it (`Crossfilters.Dimension.Move`, `Filters.ClashByRank`).
- The child index of a heap overflows at 2^30 nodes, and not before (`Int32.ChildInRange`), which matters when a group
  has as many bins and the top of all of them is asked for.
- Printed rows do not always parse back (`Dsv.RowsRoundTrip` says exactly when).
- The JSON tokenizer does not return on texts that start with a line feed, and on no others (`JsonTokenizer.Validate`,
  `JsonTokenizer.CountEndsIff`). It does not skip white space around a value (`JsonTokenizer.NoSpaceAround`), does not
  take another member after one called `hasOwnProperty` (`JsonTokenizer.HasOwnPropertyFails`), makes the value of a
  member called `__proto__` the prototype of the object or drops it (`JsonTokenizer.ProtoFails`), and does not decode
  unicode escapes (`JsonText.ValueRightIff`). `JsonTokenizer.Validate` says exactly which texts are read without a
  warning, and which of them as the value they spell.
- A treemap in dice mode lays children out side by side, as in slice mode, where the rectangle is a square
  (`Treemaps.SlicesAndDices`).
- Quadtree insertion need not end outside the bounds (`Quadtrees.BeyondTheCorner`; `Quadtrees.EndsIff` says exactly
  when it does).

## Model

| member | source | states |
|---|---|---|
| Sessions.RunAll | design/legacy/web/crossfilter/crossfilter.v1.js:518-1158 | whatever operations are run in whatever order - adding records, making dimensions, groups and group-alls, filtering, setting reduce functions and orders, and the four queries - every answer is the from-scratch one in the state that the operations before it mean, and in the end the crossfilter is in the state that all of them mean, as long as no filter clashes with the one before it and no heap of 2^30 bins is needed; the run ends early exactly if that state has more than 2^30 records or 32 dimensions (group-alls may answer anything once there are 32 dimensions) |
| Sessions.Session.Perform | design/legacy/web/crossfilter/crossfilter.v1.js:518-1158 | any one operation but a clashing filter takes the crossfilter from the state it is in to the state that the operation means, and its answer is right in the state before |
| Meanings.BinsUnique | design/legacy/web/crossfilter/crossfilter.v1.js:978-981 | the from-scratch bins, which that state is defined by without bits, ranks or listeners, are unique: a group has only one right answer |
| Meanings.SumsOfBins | design/legacy/web/crossfilter/crossfilter.v1.js:1005-1007 | the right answer of a group with reduceSum(f): in each bin, the sum of f over the records of its key that pass the filters of the other dimensions |
| Meanings.CountsOfBins | design/legacy/web/crossfilter/crossfilter.v1.js:1000-1002 | the right answer of a group with reduceCount: in each bin, the number of those records |
| Meanings.SumOfAll | design/legacy/web/crossfilter/crossfilter.v1.js:1136-1138 | the right answer of a group-all with reduceSum(f): the sum of f over the records that pass all filters |
| Meanings.CountOfAll | design/legacy/web/crossfilter/crossfilter.v1.js:1131-1133 | the right answer of a group-all with reduceCount: the number of those records |
| Crossfilters.Crossfilter.constructor | design/legacy/web/crossfilter/crossfilter.v1.js:518-532 | the empty crossfilter satisfies the invariant |
| Crossfilters.Crossfilter.Add | design/legacy/web/crossfilter/crossfilter.v1.js:535-550 | appends the records, keeps the invariant of dimensions, groups, group-alls and listeners, and leaves every filter as it was |
| Crossfilters.Crossfilter.NotifyData | design/legacy/web/crossfilter/crossfilter.v1.js:535-550 | all filter bits of the new records are set before any group looks at them; then every group and group-all has taken them in exactly once |
| Crossfilters.Crossfilter.DataListenerFacts | design/legacy/web/crossfilter/crossfilter.v1.js:579-580 | whatever the order of making dimensions and group-alls, after the preAdds each dimension's postAdd and each group-all's add is registered exactly once |
| Crossfilters.Crossfilter.PreAdds | design/legacy/web/crossfilter/crossfilter.v1.js:579-646 | calling the first m listeners gives every dimension the new records, one bit each, without touching the others' bits |
| Crossfilters.Crossfilter.PostAdd | design/legacy/web/crossfilter/crossfilter.v1.js:649-652 | every group of the dimension takes in the new records exactly once, and its update function stays registered |
| Crossfilters.Crossfilter.AddDimension | design/legacy/web/crossfilter/crossfilter.v1.js:553-586 | keeps the invariant with one more dimension; exactly the 33rd is refused by the widest bitset, with its listeners already registered and the bits as they were |
| Crossfilters.Crossfilter.Incorporate | design/legacy/web/crossfilter/crossfilter.v1.js:582-586 | widening the bitset keeps its bits, and existing records enter the new dimension with its bit clear |
| Crossfilters.Crossfilter.Apply | design/legacy/web/crossfilter/crossfilter.v1.js:656-722 | after filterExact, filterRange or filterAll, inverted ranges included, the invariant holds with the new filter: bits, bounds, every group and every group-all; only filters that clash with the old one are not accepted, after which `Dimension.Move` leaves wrong bits |
| Crossfilters.Crossfilter.NotifyFilter | design/legacy/web/crossfilter/crossfilter.v1.js:692-695 | calling each filter listener once brings every group and group-all up to date, whichever order the listeners are in |
| Crossfilters.Crossfilter.FilterListenerFacts | design/legacy/web/crossfilter/crossfilter.v1.js:861-875 | as a multiset the listeners are the groups' current update functions and those of the group-alls: each current one is registered, none but crossfilter_null twice |
| Crossfilters.Crossfilter.ListenerReplaced | design/legacy/web/crossfilter/crossfilter.v1.js:861-875 | replacing any registered occurrence equal to the old update function keeps that multiset right, though it may be another group's crossfilter_null |
| Crossfilters.Crossfilter.NullPassed | design/legacy/web/crossfilter/crossfilter.v1.js:491-492 | crossfilter_null suits a group without bins: no change of the bits can make its values wrong |
| Crossfilters.Crossfilter.AddGroup | design/legacy/web/crossfilter/crossfilter.v1.js:742-777 | keeps the invariant with the new group, which has taken in all existing records |
| Crossfilters.Crossfilter.AddGroupAll | design/legacy/web/crossfilter/crossfilter.v1.js:1047-1068 | keeps the invariant with the new group-all registered for filters and data |
| Crossfilters.Crossfilter.GroupAdd | design/legacy/web/crossfilter/crossfilter.v1.js:781-876 | the group has taken in the new records, and the function registered for it goes with its new number of bins |
| Crossfilters.Crossfilter.GroupBins | design/legacy/web/crossfilter/crossfilter.v1.js:978-981 | returns ascending bins with exactly the keys of the records, each with the reduce of the records of its key that pass all filters but the group's own |
| Crossfilters.Crossfilter.TotalValue | design/legacy/web/crossfilter/crossfilter.v1.js:1141-1147 | returns the reduce of the records passing all filters, if there are fewer than 32 dimensions |
| Crossfilters.Crossfilter.Reduce | design/legacy/web/crossfilter/crossfilter.v1.js:991-997 | the new functions take effect at the next query; the invariant holds meanwhile |
| Crossfilters.Crossfilter.ReduceAll | design/legacy/web/crossfilter/crossfilter.v1.js:1122-1128 | likewise for a group-all |
| Crossfilters.Crossfilter.Order | design/legacy/web/crossfilter/crossfilter.v1.js:1010-1015 | only the order of top queries changes |
| Crossfilters.Crossfilter.GroupTop | design/legacy/web/crossfilter/crossfilter.v1.js:984-988 | throws for negative k, and for k = 0 unless there are no bins; otherwise returns min(k, number of bins) up-to-date bins in descending order such that no other is larger |
| Crossfilters.Crossfilter.DimensionTop | design/legacy/web/crossfilter/crossfilter.v1.js:726-739 | returns min(k, number of fully selected records) records, all passing every filter, distinct, in non-increasing value order, none larger left out |
| Crossfilters.Crossfilter.BitsAreFilters | design/legacy/web/crossfilter/crossfilter.v1.js:590-695 | in every reachable state a record's bits name exactly the dimensions whose current filter it does not pass |
| Crossfilters.Crossfilter.ReducedFromScratch | design/legacy/web/crossfilter/crossfilter.v1.js:781-981 | bins kept up to date incrementally are those computed from scratch from data and filters alone |
| Crossfilters.Crossfilter.TotalFromScratch | design/legacy/web/crossfilter/crossfilter.v1.js:1071-1118 | likewise for a group-all's value |
| Crossfilters.Crossfilter.TopRanksAreTop | design/legacy/web/crossfilter/crossfilter.v1.js:726-739 | scanning ranks down from hi0 meets the largest selected records first, because only ranks within the bounds can be selected |
| Crossfilters.Dimension.PreAdd | design/legacy/web/crossfilter/crossfilter.v1.js:590-646 | ranks and values are those of all records, the bounds those of the filter, and a new record's bit is set exactly if it does not pass |
| Crossfilters.Dimension.BitsByRank | design/legacy/web/crossfilter/crossfilter.v1.js:656-695 | bit clear exactly for records passing the filter is the same as bit clear exactly for ranks in [lo0, hi0) |
| Crossfilters.Dimension.Move | design/legacy/web/crossfilter/crossfilter.v1.js:656-695 | filterIndex moves bounds and bits to the new filter; the bits are right afterwards if and only if the two filters do not clash on the dimension's values, and then added and removed are exactly the records whose bit changed, each listed once |
| Crossfilters.Group.Regroup | design/legacy/web/crossfilter/crossfilter.v1.js:781-876 | after the merge the bins group all records, with the right values unless a reset is pending |
| Crossfilters.Group.Adjust | design/legacy/web/crossfilter/crossfilter.v1.js:890-938 | updateMany and updateOne turn values right for the old bits into values right for the new bits |
| Crossfilters.Group.Reset | design/legacy/web/crossfilter/crossfilter.v1.js:942-975 | resetMany and resetOne make the values right from scratch, keeping the keys |
| Crossfilters.Group.OwnFilterMoved | design/legacy/web/crossfilter/crossfilter.v1.js:890-893 | a group need not react to its own dimension's filter |
| Crossfilters.GroupAll.Adjust | design/legacy/web/crossfilter/crossfilter.v1.js:1085-1105 | a right total stays right when a filter moves, unless the 32nd dimension puts out a record that nothing else keeps out |
| Crossfilters.GroupAll.Extend | design/legacy/web/crossfilter/crossfilter.v1.js:1071-1082 | a right total stays right when records are added |
| Crossfilters.TopBins | design/legacy/web/crossfilter/crossfilter.v1.js:984-988 | the error cases and the result of a top-k query over bins |
| Quicksort.Sort | design/legacy/web/crossfilter/crossfilter.v1.js:166-170 | a[lo..hi] becomes sorted by f and a permutation of what it was, everything outside untouched |
| Quicksort.QuicksortSlice | design/legacy/web/crossfilter/crossfilter.v1.js:172-434 | likewise for slices of at least the threshold size, with termination |
| Quicksort.Sample | design/legacy/web/crossfilter/crossfilter.v1.js:174-213 | pivots are sampled so that filling the two end cells with them would permute the slice, and a cell holding the second pivot remains inside when the pivots are equal |
| Quicksort.EqualPivotPass | design/legacy/web/crossfilter/crossfilter.v1.js:219-274 | below, equal, and at least the pivot: the comment's stronger claim about the right part does not hold, and is not needed |
| Quicksort.ThreeWayPass | design/legacy/web/crossfilter/crossfilter.v1.js:275-332 | below pivot 1, between the pivots, above pivot 2, as a permutation |
| Quicksort.PlacePivots | design/legacy/web/crossfilter/crossfilter.v1.js:334-340 | puts the pivots into their final cells |
| Quicksort.Trim | design/legacy/web/crossfilter/crossfilter.v1.js:361-417 | splits pivot values off both ends of the middle; values equal to pivot 1 may remain in it |
| Quicksort.PivotRemovalPass | design/legacy/web/crossfilter/crossfilter.v1.js:366-417 | in a part between the pivots: pivot 1 in front, pivot 2 behind, and at least pivot 1 and not pivot 2 in between |
| Quicksort.Assemble | design/legacy/web/crossfilter/crossfilter.v1.js:342-434 | sorted parts with the pivot values between them make a sorted slice |
| Quicksort.SortFive | design/legacy/web/crossfilter/crossfilter.v1.js:190-199 | the nine comparators sort the five samples |
| Insertion.InsertionSort | design/legacy/web/crossfilter/crossfilter.v1.js:144-152 | sorted and a permutation, in place |
| Bisect.BisectLeft | design/legacy/web/crossfilter/crossfilter.v1.js:30-37 | the point with everything smaller to its left and nothing smaller to its right |
| Bisect.BisectRight | design/legacy/web/crossfilter/crossfilter.v1.js:45-52 | the point with everything at most x to its left and everything larger to its right |
| Int32.MidpointInRange | design/legacy/web/crossfilter/crossfilter.v1.js:32-46 | `lo + hi >> 1` probes inside every nonempty subrange exactly for arrays of at most 2^30 elements; beyond, the 32-bit sum overflows |
| Int32.ChildInRange | design/legacy/web/crossfilter/crossfilter.v1.js:86-97 | the child index `i << 1` of every node is right, or past the end, exactly in heaps of fewer than 2^30 nodes; in others the loop test lets a negative one through |
| Heap.Sift | design/legacy/web/crossfilter/crossfilter.v1.js:86-97 | restores the heap below a cell, as a permutation, with the 32-bit child index |
| Heap.Heapify | design/legacy/web/crossfilter/crossfilter.v1.js:67-72 | makes any slice a heap, as a permutation |
| Heap.HeapSort | design/legacy/web/crossfilter/crossfilter.v1.js:76-81 | sorts a heap in descending order |
| Heap.RootIsLeast | design/legacy/web/crossfilter/crossfilter.v1.js:67-97 | the root of a heap is its least element |
| Heap.Heapselect | design/legacy/web/crossfilter/crossfilter.v1.js:113-134 | min(k, n) elements of the range, none left out above one chosen, and the source array unchanged |
| Heap.SelectAndSort | design/legacy/web/crossfilter/crossfilter.v1.js:984-987 | heapselect and heap.sort together give the top k in descending order |
| Ranking.Permute | design/legacy/web/crossfilter/crossfilter.v1.js:8-13 | the elements at the given indices |
| Ranking.Rank | design/legacy/web/crossfilter/crossfilter.v1.js:593-595 | values sorted and index a permutation such that each value is that of the record at its rank |
| Ranking.Merge | design/legacy/web/crossfilter/crossfilter.v1.js:612-642 | merging old and new ranks with the + n0 shift gives values sorted and index a permutation of 0..n-1 again |
| Ranking.PermutationsConcatenate | design/legacy/web/crossfilter/crossfilter.v1.js:612-642 | a permutation of 0..n0-1 and one of the rest, shifted by n0, make one of all |
| Ranking.Range | design/legacy/web/crossfilter/crossfilter.v1.js:1168-1172 | the identity index |
| Bitset.FilterBits.Lengthen | design/legacy/web/crossfilter/crossfilter.v1.js:451-455 | the old records' bits, and no bit for the new ones |
| Bitset.FilterBits.Widen | design/legacy/web/crossfilter/crossfilter.v1.js:457-466 | the same bits in wider elements, for 16 and 32 bits only |
| Bitset.FilterBits.SetBit | design/legacy/web/crossfilter/crossfilter.v1.js:599 | adds exactly one dimension to a record's set |
| Bitset.FilterBits.FlipBit | design/legacy/web/crossfilter/crossfilter.v1.js:668-688 | turns exactly one dimension's bit around |
| Bitset.FilterBits.OthersClear | design/legacy/web/crossfilter/crossfilter.v1.js:900 | `!(filters[k] & zero)` means that no other dimension keeps the record out |
| Bitset.FilterBits.OnlyOther | design/legacy/web/crossfilter/crossfilter.v1.js:908 | `(filters[k] & zero) === filterOne` means that, apart from the own dimension, exactly the filtered one keeps it out |
| Bitset.FilterBits.AllClear | design/legacy/web/crossfilter/crossfilter.v1.js:1094 | `!filters[k]` means that no dimension keeps the record out |
| Bitset.FilterBits.OnlyBlockedBy | design/legacy/web/crossfilter/crossfilter.v1.js:1101 | `filters[k] === filterOne` means that only that dimension keeps the record out, but is never true for the 32nd, whose mask is negative |
| Bitset.UnsignedEqualsSigned | design/legacy/web/crossfilter/crossfilter.v1.js:564-1101 | when an unsigned element equals a signed mask |
| AllRecords.LastDimensionFails | design/legacy/web/crossfilter/crossfilter.v1.js:1085-1105 | a concrete change of the 32nd dimension's filter after which a group-all's count is wrong |
| AllRecords.UpdateAll | design/legacy/web/crossfilter/crossfilter.v1.js:1085-1105 | the exact total that is arrived at, for every dimension: that of the new bits, but still with the records that the 32nd dimension has just put out; right if there are none |
| AllRecords.CountRightIff | design/legacy/web/crossfilter/crossfilter.v1.js:1085-1105 | for counting, the total is right if and only if the filter is not the 32nd dimension's or puts out no record that nothing else keeps out |
| AllRecords.ResetAll | design/legacy/web/crossfilter/crossfilter.v1.js:1108-1118 | the reduce over all selected records |
| AllRecords.AddToAll | design/legacy/web/crossfilter/crossfilter.v1.js:1071-1082 | the reduce extended by the selected new records |
| Reduction.BuiltInReducersLawful | design/legacy/web/crossfilter/crossfilter.v1.js:497-516 | count and sum: removing undoes adding, and the order of adding does not matter; what a sum reduces any records to is their sum |
| Reduction.SumIsSum | design/legacy/web/crossfilter/crossfilter.v1.js:505-515 | reducing any records by crossfilter_reduceAdd gives the sum of f over them |
| Reduction.CountIsSize | design/legacy/web/crossfilter/crossfilter.v1.js:497-503 | reducing by crossfilter_reduceIncrement gives the number of records |
| Reduction.FoldDelete | design/legacy/web/crossfilter/crossfilter.v1.js:497-516 | for such functions, removing a record from the reduce is the reduce without it, wherever in the order it is |
| Reduction.FoldInsert | design/legacy/web/crossfilter/crossfilter.v1.js:497-516 | and adding one is the reduce with it |
| Filters.Refilter | design/legacy/web/crossfilter/crossfilter.v1.js:472-490 | bounds that lie where the filter's values begin and end |
| Filters.BoundsSelect | design/legacy/web/crossfilter/crossfilter.v1.js:472-490 | a rank lies within the bounds exactly if its value passes the filter |
| Filters.DeltaExactness | design/legacy/web/crossfilter/crossfilter.v1.js:656-695 | added and removed are disjoint, free of repetitions and exactly the ranks entering and leaving, if and only if the bounds do not turn the interval inside out |
| Filters.InvertedRangeFails | design/legacy/web/crossfilter/crossfilter.v1.js:674-689 | filtering the values 0 to 9 by the range from 7 to 3 lists ranks twice |
| Filters.ClashByRank | design/legacy/web/crossfilter/crossfilter.v1.js:656-695 | whether an interval of ranks is turned inside out can be told from the two filters and the values before the call |
| Filters.ProperNeverClash | design/legacy/web/crossfilter/crossfilter.v1.js:656-695 | ranges whose lower bound is at most the upper, exact values and no filter never clash |
| Filtering.FlipDelta | design/legacy/web/crossfilter/crossfilter.v1.js:665-689 | flips each bit as often as its rank is in one of the two runs and lists the ranks that entered and left |
| Filtering.FlipExactness | design/legacy/web/crossfilter/crossfilter.v1.js:665-689 | the two loops together turn the old interval into the new one if and only if the bounds do not turn it inside out |
| Filtering.DeltaIsChange | design/legacy/web/crossfilter/crossfilter.v1.js:656-695 | the listed records are exactly those whose bit changed |
| Filtering.MarkFiltered | design/legacy/web/crossfilter/crossfilter.v1.js:598-600 | sets the bit of exactly the new records outside the bounds |
| Filtering.SelectTop | design/legacy/web/crossfilter/crossfilter.v1.js:726-739 | the records of the highest selected ranks, as many as there are up to k |
| Grouping.MergeBins | design/legacy/web/crossfilter/crossfilter.v1.js:781-886 | bins strictly ascending with exactly the keys present, every record sent to the bin of its key when there is more than one, old ones through the remap |
| Grouping.PlaceLesser | design/legacy/web/crossfilter/crossfilter.v1.js:811-840 | the bin of the lesser of the next old and the next new key, with the old value extended or the initial one |
| Grouping.Collect | design/legacy/web/crossfilter/crossfilter.v1.js:832-837 | all new records of a key go to its bin and are added if selected |
| Grouping.Remap | design/legacy/web/crossfilter/crossfilter.v1.js:852-854 | old records are sent on to where their bins have gone |
| Grouping.Increment | design/legacy/web/crossfilter/crossfilter.v1.js:879-885 | the index is widened before an id would no longer fit |
| TypedArrays.IndexFits | design/legacy/web/crossfilter/crossfilter.v1.js:1160-1165 | an id below the count its array was made for is stored without truncation |
| TypedArrays.WidthOfCapacity | design/legacy/web/crossfilter/crossfilter.v1.js:1160-1179 | a new remap or group index, made for as many ids as the old arrays take, is as wide as they are |
| Updates.UpdateMany | design/legacy/web/crossfilter/crossfilter.v1.js:890-913 | values right for the bits before become right for the bits after |
| Updates.UpdateOne | design/legacy/web/crossfilter/crossfilter.v1.js:917-938 | likewise with one bin |
| Updates.ResetMany | design/legacy/web/crossfilter/crossfilter.v1.js:942-958 | values from scratch |
| Updates.ResetOne | design/legacy/web/crossfilter/crossfilter.v1.js:962-975 | value from scratch with one bin |
| Updates.BinGains | design/legacy/web/crossfilter/crossfilter.v1.js:890-913 | a record that becomes selected is added to the bin of its key and to no other |
| Updates.BinLoses | design/legacy/web/crossfilter/crossfilter.v1.js:890-913 | a record that is no longer selected is removed from the bin of its key and from no other |
| Parsing.Parse | js/lib/mustache/mustache.js:371-478 | the tokens read have spans that follow on one another and, with their layouts, spell the template, text only where no opening delimiter is, and every tag as far as its kind says; with nonempty delimiters the template has a tree if and only if some such reading goes to its end, is balanced, and sets delimiters to two words only, and each error is the one that the template has, with its name and place; the tree is the nesting of the squashed tokens that stripping leaves |
| Parsing.ComesToOnce | js/lib/mustache/mustache.js:371-478 | a template comes to one thing only: two readings that end well, or in an error that explains itself - a tag that no tag can be read at, a closing tag that does not match, delimiters that are not two words, or a section open at the end - are the same, and so are their errors, names and places |
| Writing.WrittenReads | js/lib/mustache/mustache.js:402-469 | the other way round: text, tags of every kind in two or three braces, and changes of delimiters, written out with literal sigils, are read as what was written, whatever follows |
| Writing.WrittenParses | js/lib/mustache/mustache.js:371-478 | so a template written from parts with balanced sections parses, to just the tokens of these parts |
| Parsing.ReadingUnique | js/lib/mustache/mustache.js:402-469 | a template has at most one reading to its end |
| Parsing.TagOnce | js/lib/mustache/mustache.js:425-453 | at most one tag can be read anywhere: sigil, value, white space and what follows the value are determined |
| Parsing.Unreadable | js/lib/mustache/mustache.js:402-453 | where an opening delimiter is followed by no tag, no reading goes to the end |
| Parsing.UnparseReads | js/lib/mustache/mustache.js:402-462 | lossless: writing out all tokens with their layouts and the delimiters in force gives the template back |
| Parsing.Parser.ReadAll | js/lib/mustache/mustache.js:402-469 | terminates for every template and delimiters, reads text exactly up to opening delimiters, and reads to the end if the opening delimiter is not empty |
| Parsing.ScanTag | js/lib/mustache/mustache.js:428-453 | reads the one tag that starts with the opening delimiter, its value trimmed and ending where its kind says (before the first closing delimiter, the first equals sign, or the first brace with a closing delimiter); fails only if no tag can be read there, or the closing delimiter is empty |
| Parsing.Parser.CheckSection | js/lib/mustache/mustache.js:457-464 | no error exactly as long as closing tags match the innermost open section |
| Parsing.Parser.SetDelims | js/lib/mustache/mustache.js:465-469 | exactly two nonempty words are new delimiters |
| Parsing.Parser.StripSpace | js/lib/mustache/mustache.js:389-400 | punches holes exactly at the noted spaces if the line had a tag and otherwise only space |
| Parsing.LineEnds | js/lib/mustache/mustache.js:389-421 | after each newline the holes are exactly the white space of the finished lines that have a tag and otherwise only white space |
| Stripping.StrippedIff | js/lib/mustache/mustache.js:389-421 | of a whole line the white space, its line break included, is stripped exactly if the line has a tag on it, and nothing but white space, sections, their ends, partials, comments and new delimiters |
| Parsing.StripBalanced | js/lib/mustache/mustache.js:389-478 | stripping and squashing do not change which sections are open |
| Parsing.NewDelims | js/lib/mustache/mustache.js:465-469 | new delimiters are never empty |
| Scanning.Scanner.Scan | js/lib/mustache/mustache.js:92-102 | moves past a match at the current position, keeping the tail what follows it |
| Scanning.Scanner.ScanUntil | js/lib/mustache/mustache.js:108-127 | moves to the leftmost match or to the end |
| Scanning.BeforeMatch | js/lib/mustache/mustache.js:358-363 | no closing delimiter, nor white space before one, lies before the leftmost match of the closing pattern |
| Scanning.AsciiSpace | js/lib/mustache/mustache.js:28-30 | among printable ASCII characters only the space is white space |
| Scanning.SkippedUpTo | js/lib/mustache/mustache.js:108-127 | what is skipped up to a match is the value before white space and the literal: no literal starts in it, it does not end with white space, and the white space is as long as it can be |
| Scanning.UpToOnce | js/lib/mustache/mustache.js:108-127 | there is only one such value |
| Tokens.SquashTokens | js/lib/mustache/mustache.js:338-356 | the fold that joins each text token to the text token before it |
| Tokens.SquashedApart | js/lib/mustache/mustache.js:338-356 | no two adjacent squashed tokens are text |
| Tokens.SquashKeeps | js/lib/mustache/mustache.js:338-356 | the tags and the text are kept |
| Tokens.NestTokens | js/lib/mustache/mustache.js:306-332 | never pops an empty stack on balanced tokens, and builds their tree |
| Tokens.NeverUnderflows | js/lib/mustache/mustache.js:306-332 | as long as the section checks pass, the stack of the nesting is that of the checks |
| Tokens.FlattenNested | js/lib/mustache/mustache.js:306-332 | flattening the tree of a balanced list gives the list back, but for the ends of closing tags |
| Tokens.NestedFlatten | js/lib/mustache/mustache.js:306-332 | every well-formed tree is the tree of its flattening, which is balanced |
| Rendering.SquashPreservesMeaning | js/lib/mustache/mustache.js:238-356 | for every balanced token list and all views, the tree of the squashed tokens renders to the same string, or fails the same |
| Rendering.ParsedTree | js/lib/mustache/mustache.js:371-478 | a parsed template's tree renders like the tokens that stripping leaves, holds them in order and has no two text tokens side by side |
| Rendering.RenderTokens | js/lib/mustache/mustache.js:238-298 | the loops and the caches of the contexts make no difference: renders what `RenderAll` gives, of which the laws below say what it is |
| RenderLaws.RenderAppend | js/lib/mustache/mustache.js:238-298 | a list of tokens renders to what its parts render to, in order |
| RenderLaws.TextRenders | js/lib/mustache/mustache.js:291-293 | text stands for itself; comments and new delimiters leave nothing, nor do partials when none are loaded |
| RenderLaws.VariableRenders | js/lib/mustache/mustache.js:283-290 | an unescaped tag renders to the text of its value, nothing if that is null or undefined; a tag of the same name renders to inert text that decodes to the same |
| RenderLaws.SectionOrInverted | js/lib/mustache/mustache.js:247-277 | for the same name and tokens inside, where the value is falsy or an empty list the section leaves nothing and the inverted section renders them; else the inverted one leaves nothing, and the section renders them once, inside the value if that is an object, or once for each item of a list in order, with the item as innermost view |
| RenderLaws.SectionThrows | js/lib/mustache/mustache.js:247-277 | where the lookup throws, so does the section |
| RenderLaws.InnermostFound | js/lib/mustache/mustache.js:143-171 | a name has the value of the innermost view that has one; a dotted name is followed property by property, up to the first falsy value |
| RenderLaws.DotsOfParts | js/lib/mustache/mustache.js:154-159 | every name is made of parts without dots, with dots between them |
| RenderLaws.DotIsView | js/lib/mustache/mustache.js:147-148 | a dot alone is the innermost view |
| RenderLaws.InnermostThrows | js/lib/mustache/mustache.js:160-163 | a name without dots throws where a view that is null or undefined comes before |
| RenderLaws.SomeViewDecides | js/lib/mustache/mustache.js:150-167 | for every name and all views, one of these two is the case |
| RenderLaws.RenderedIsInert | js/lib/mustache/mustache.js:238-298 | a tree without unescaped tags, whose text has none of the six characters, renders to inert text whatever the views: none of <>"'/ and every & starts an entity |
| Pages.Render | js/lib/mustache/mustache.js:228-230 | parses and renders: the page is that of the one thing the template comes to, an error or the rendered tree; what was written from parts is rendered from just these |
| Pages.PlainPage | js/lib/mustache/mustache.js:228-298 | so a template without markup and unescaped tags makes only inert pages, whatever the view |
| Rendering.Context.Lookup | js/lib/mustache/mustache.js:143-171 | finds what a search through the views finds: the cache is never wrong |
| Rendering.EscapedIsInert | js/lib/mustache/mustache.js:56-71 | escaped text holds none of <>"'/ and every & in it starts one of the six entities |
| Rendering.DecodedEscape | js/lib/mustache/mustache.js:56-71 | round trip: reading each of the six entities as its character gives the text back |
| Rendering.EscapeInjective | js/lib/mustache/mustache.js:56-71 | no two texts are escaped alike |
| Dsv.RowsRoundTrip | js/lib/d3.v3/d3.v3.js:1719-1788 | parsing printed rows gives them back if and only if every row has a field, no unquoted field has a carriage return and the last field is not empty, or there are no rows |
| Dsv.AnyLineEnds | js/lib/d3.v3/d3.v3.js:1719-1763 | rows that read back do so with any of the three line ends between them |
| Dsv.PlainIff | js/lib/d3.v3/d3.v3.js:1690-1788 | a field is printed as it is exactly if it has no quote, delimiter or line feed in it, and else in quotes |
| Dsv.ParseRows | js/lib/d3.v3/d3.v3.js:1719-1763 | the rows that the grammar of fields and line ends gives, for every text; terminates |
| Dsv.Tokenizer.Token | js/lib/d3.v3/d3.v3.js:1721-1753 | end of text, end of line once before the next field, or the next field |
| Dsv.RowRoundTrip | js/lib/d3.v3/d3.v3.js:1783-1785 | a printed row followed by a line end reads back as it was if and only if its fields are clean and the text does not end in an empty field |
| Dsv.FieldReadsBack | js/lib/d3.v3/d3.v3.js:1724-1752 | a printed field reads back, whatever quotes, delimiters and line ends it holds |
| Dsv.UncleanLost | js/lib/d3.v3/d3.v3.js:1742-1752 | an unquoted field with a carriage return does not |
| Transitions.EveryRunGood | js/lib/d3.v3/d3.v3.js:7355-7404 | in every run the timers are one for each transition that has not stopped, the lock of the node counts exactly those and finds them by id, and older locks are empty |
| Transitions.LockDropped | js/lib/d3.v3/d3.v3.js:7398-7401 | in every run each transition stops at most once, count is the number of live transitions, and the node has a lock exactly as long as there is one |
| Transitions.EveryRunLater | js/lib/d3.v3/d3.v3.js:7374-7397 | between any two points of a run no lock's active id decreases, and a transition that has stopped, or that a started newer one supersedes, never runs its tweens again |
| Transitions.NextKeeps | js/lib/d3.v3/d3.v3.js:7355-7404 | each creation and each timer callback, with what its tweens and listeners create, keeps that invariant, affects no transition but the one whose timer fires, and starts none before its delay |
| Transitions.StartsWhenDue | js/lib/d3.v3/d3.v3.js:7372-7385 | a waiting transition whose timer fires at or after its delay runs its tweens and goes on with a timer, or stops if its time is up; if a newer one has started it stops without running them; fired earlier, it waits on with a timer, and nothing has changed |
| Transitions.TicksWhenActive | js/lib/d3.v3/d3.v3.js:7386-7397 | a later timer runs the tweens if the transition is still the active one, and stops it if it is not or its time is up |
| Transitions.NothingEarly | js/lib/d3.v3/d3.v3.js:7372-7397 | no event makes a transition run its tweens, or become the active one of its lock, before its delay, or more than once |
| Transitions.StartedWhenDue | js/lib/d3.v3/d3.v3.js:7372-7397 | in every run, a transition that has run its tweens was started by an event no earlier than its delay |
| Transitions.CreateKeeps | js/lib/d3.v3/d3.v3.js:7355-7371 | a new transition counts for its node's lock and gets one timer; an existing id makes none |
| Transitions.StopKeeps | js/lib/d3.v3/d3.v3.js:7398-7401 | stopping the last live transition drops the lock, stopping another forgets only that one |
| Transitions.TickRuns | js/lib/d3.v3/d3.v3.js:7386-7397 | a tick runs the tweens exactly if its transition is the active one, and stops it exactly if it is not or its time is up, whatever the tweens create |
| Transitions.StartRuns | js/lib/d3.v3/d3.v3.js:7374-7385 | a start runs the tweens at once, or stops the transition if a newer one has started |
| Transitions.TimeUpStops | js/lib/d3.v3/d3.v3.js:7386-7397 | a tick at or after delay plus duration stops the transition |
| DataJoin.JoinByKey | js/lib/d3.v3/d3.v3.js:823-857 | throws exactly if a node is missing; otherwise update, enter and exit are as the keys say, updated nodes hold their new data and the others keep theirs |
| DataJoin.EachNodeOnce | js/lib/d3.v3/d3.v3.js:829-857 | a node is removed exactly if an earlier one has its key or no datum has it, and otherwise updated by exactly one datum, which has its key |
| DataJoin.EachDatumOnce | js/lib/d3.v3/d3.v3.js:839-851 | exactly the first datum of each key is in update or enter, and never in both |
| DataJoin.JoinByIndex | js/lib/d3.v3/d3.v3.js:858-875 | the join by position |
| Quadtrees.Build | js/lib/d3.v3/d3.v3.js:4511-4590 | the square covers all valid points, every point lies in the box of its node and below it in the quarter that it belongs to, and the points in the tree are the valid ones, each once |
| Quadtrees.QuadNode.Insert | js/lib/d3.v3/d3.v3.js:4540-4559 | for every point, in or outside the box, for which insertion ends: leaves the tree that insertion into trees gives, sharing no nodes |
| Quadtrees.QuadNode.InsertChild | js/lib/d3.v3/d3.v3.js:4560-4567 | likewise below a node |
| Quadtrees.InsertPoints | js/lib/d3.v3/d3.v3.js:4540-4567 | adds the point, once, and nothing else, wherever it lies |
| Quadtrees.InsertParted | js/lib/d3.v3/d3.v3.js:4560-4567 | a point goes to the right and lower quarters from the middle lines on, else to the left and upper, wherever it lies; the quarters are numbered along the rows |
| Quadtrees.KeptIffClose | js/lib/d3.v3/d3.v3.js:4542-4555 | a leaf keeps its point exactly if the new one is less than .01 away, both directions taken together |
| Quadtrees.InsertEnds | js/lib/d3.v3/d3.v3.js:4540-4567 | insertion of a point in the box ends |
| Quadtrees.EndsIff | js/lib/d3.v3/d3.v3.js:4540-4567 | for every box that the bounds can make, also one with negative sides: insertion of any point ends if and only if the leaf on its path is empty, or has a point near it, or a point that can be told apart from it in the leaf's box |
| Quadtrees.BeyondTheCorner | js/lib/d3.v3/d3.v3.js:4567-4574 | insertion of two points beyond the same corner never ends, nor does that of a point beyond the box of a single one |
| Quadtrees.InsertPlaced | js/lib/d3.v3/d3.v3.js:4540-4567 | keeps every point in the box of the node that holds it |
| Quadtrees.InsertHeight | js/lib/d3.v3/d3.v3.js:4540-4567 | the tree gets no deeper than its height plus the halvings of the box until points must be near each other |
| Quadtrees.PushedFits | js/lib/d3.v3/d3.v3.js:4545-4554 | two points at least .01 apart in a square need one halving less below |
| Quadtrees.SeparableIffToldApart | js/lib/d3.v3/d3.v3.js:4560-4567 | splitting ever tells two points apart if and only if they differ when moved into the box, or go to different quarters at once of a box without a positive side |
| Quadtrees.SquareBounds | js/lib/d3.v3/d3.v3.js:4518-4539 | the smallest square that contains all coordinates, with its corner at the least of them, NaN coordinates aside |
| Treemaps.Layout.Squarify | js/lib/d3.v3/d3.v3.js:6164-6193 | terminates, and at every node of the tree the children tile the padded rectangle, in the rows that the mode asks for; without rounding the areas of the children are in proportion to their values, where the node's value is their sum |
| Hierarchies.Treemap | js/lib/d3.v3/d3.v3.js:6249-6260 | for every outline whose sums of zero have no positive parts: the tree has the outline's sums and its children in descending order, and is laid out as above, from the given rectangle down; without rounding and negative values, every padded rectangle is shared out in proportion to the values, and without padding every cell in the tree has just its share of the whole area |
| Treemaps.AreasAsValues | js/lib/d3.v3/d3.v3.js:6157-6193 | without rounding and padding, the area of every cell below another is to its area as their values are |
| Treemaps.SharedByValue | js/lib/d3.v3/d3.v3.js:6157-6193 | without rounding, the padded rectangle of every cell of a tree of sums is shared out among its children as their values say |
| Hierarchies.ShownSummed | js/lib/d3.v3/d3.v3.js:5407-5425 | the tree of an outline without negative values is a tree of sums, whatever the order of the children |
| Hierarchies.ShownValues | js/lib/d3.v3/d3.v3.js:5407-5425 | a leaf has the outline's value, and every other cell the sum of its children's |
| Hierarchies.Recurse | js/lib/d3.v3/d3.v3.js:5407-5425 | values are sums, and children sorted by them, below every node |
| Hierarchies.NonNegativeLayable | js/lib/d3.v3/d3.v3.js:5407-5425 | this is so for all outlines without negative values |
| Treemaps.Cell.constructor | js/lib/d3.v3/d3.v3.js:5407-5425 | a cell above trees that have nothing in common makes a tree |
| Treemaps.Layout.LayOut | js/lib/d3.v3/d3.v3.js:6170-6191 | rows tile the rectangle whatever the rounding; in squarified layouts a cell is in a row exactly as long as it leaves the worst ratio no worse, and the next row lies along the lesser side of what is left, in the others there is one row along the given side; without rounding, if the areas add up to the rectangle, every cell has exactly its area |
| Treemaps.EveryRow | js/lib/d3.v3/d3.v3.js:6167-6187 | of every row: it is taken off what the one before leaves, no cell but the first made its worst ratio worse, and unless it is the last the first cell of the next row would have |
| Treemaps.RowsOnce | js/lib/d3.v3/d3.v3.js:6164-6248 | there is only one way to lay out given areas in rows like that, down to the place and size of each cell |
| Treemaps.SquarifiedAlongLesserSide | js/lib/d3.v3/d3.v3.js:6167-6179 | in squarified layouts every row, the first included, lies along the lesser side of its rectangle |
| Treemaps.SlicesAndDices | js/lib/d3.v3/d3.v3.js:6167 | slices lie side by side as high as the rectangle, dices one below the other as wide, and slice-dice alternates with the depth; in a square, dices lie side by side as well |
| Treemaps.BadnessIsShape | js/lib/d3.v3/d3.v3.js:6208-6218 | what the score of a cell means: how far the ratio of its sides is from the preferred one, either way |
| Treemaps.Layout.Position | js/lib/d3.v3/d3.v3.js:6219-6248 | the cells of a row and the rest of the rectangle tile it; the row is as deep as its rounded area asks and the rectangle lets it, or all of it if flushed, and each cell as long as its rounded area asks, the last one longer; without rounding, a row that has room has its areas, and takes exactly them from the rectangle |
| Treemaps.Layout.Worst | js/lib/d3.v3/d3.v3.js:6208-6218 | the greatest deviation from the preferred ratio of any cell with an area in the row, infinite exactly without area or side |
| Treemaps.Layout.Scale | js/lib/d3.v3/d3.v3.js:6157-6163 | areas in proportion to the values, none for values below zero or of the other sign than the total |
| Treemaps.Padded | js/lib/d3.v3/d3.v3.js:6311-6328 | each side is moved in at both ends by the padding, or shrinks to the middle if the padding leaves less than nothing |
| Tiling.TilesReplaced | js/lib/d3.v3/d3.v3.js:6219-6248 | a tile may be replaced by tiles of it |
| JsonTokenizer.Validate | design/legacy/web/json/default.js:914-1590 | returns on every text but those that start with a line feed; what is written from a value as RFC 8259 says, with any white space and short escapes, it reads as that value without a warning; without a warning it reads exactly the texts that spell a value whose names are all new when they are read, as what is made of them; the value is the one that the text spells exactly if the names of every object are clean - none twice, none after `hasOwnProperty`, none `__proto__`; a stop always comes with warnings |
| JsonWriting.WrittenDoc | design/legacy/web/json/default.js:1497-1570 | a value written from its parts, by the grammar and the table of escapes the other way round, is described by one spelling, which is well-formed and means the value |
| JsonWriting.CharsMeant | design/legacy/web/json/default.js:1170-1195 | round trip: characters with short escapes are read as the characters that they were written from |
| JsonWriting.CharsWritten | design/legacy/web/json/default.js:1170-1195 | the pieces that are read so spell just what is written: quote, backslash, slash, backspace, form feed, line feed, carriage return and tab each as its escape |
| JsonTokenizer.CountEndsIff | design/legacy/web/json/default.js:914-957 | the loop of `warn` that counts lines ends if and only if the text does not start with a line feed |
| JsonTokenizer.Tokenizer.LineOf | design/legacy/web/json/default.js:914-929 | otherwise it counts the lines up to a position |
| JsonTokenizer.Tokenizer.SameDoc | design/legacy/web/json/default.js:1497-1570 | no place in a text spells two values |
| JsonText.MadeRightIff | design/legacy/web/json/default.js:1226-1339 | what the tokenizer makes of a text, by assigning the members one after the other, is warned of nowhere and is the value that the text spells if and only if all names are clean |
| JsonTokenizer.NoSpaceAround | design/legacy/web/json/default.js:1572-1588 | a value with white space around it is spelled by nothing: it is warned of unless there is none on either side |
| JsonTokenizer.HasOwnPropertyFails | design/legacy/web/json/default.js:1276-1278 | concrete objects: `hasOwnProperty` as the last member is read well, after it as the first of two no other is read |
| JsonTokenizer.ProtoFails | design/legacy/web/json/default.js:1276-1305 | concrete objects: after `"__proto__":null` no member is read; as the last member it is read without a warning, but is no member of the object; and the value true for it is lost |
| JsonTokenizer.Tokenizer.Tokenize | design/legacy/web/json/default.js:1497-1570 | returns whenever warnings do; where the text spells a value whose names are all new, what is made of it is returned, the cursor ends behind it and nothing is warned of; and whenever nothing is warned of, what has been read spells such a value |
| JsonTokenizer.Tokenizer.TokenizeString | design/legacy/web/json/default.js:1126-1224 | likewise for strings with any escapes; one written from a text is read as that text |
| JsonTokenizer.Tokenizer.TokenizeNumber | design/legacy/web/json/default.js:1417-1495 | likewise for numbers, kept as they are written |
| JsonTokenizer.Tokenizer.TokenizeArray | design/legacy/web/json/default.js:1341-1415 | likewise for arrays |
| JsonTokenizer.Tokenizer.TokenizeObject | design/legacy/web/json/default.js:1226-1339 | likewise for objects |
| JsonTokenizer.Tokenizer.ObjectMember | design/legacy/web/json/default.js:1247-1336 | a member is assigned under its name, where `__proto__` sets the prototype; with a name that is there already there is a warning, and none is assigned to an object that cannot be asked for `hasOwnProperty` |
| JsonTokenizer.Tokenizer.NewName | design/legacy/web/json/default.js:1247-1278 | a name that the object has is warned of by name; an object with a member called hasOwnProperty, its own or inherited, or with null for a prototype, throws |
| JsonTokenizer.Tokenizer.ConsumeWhitespace | design/legacy/web/json/default.js:999-1009 | stops at the first character that is not white space, or tells that there is none |
| JsonTokenizer.Tokenizer.ConsumeDigits | design/legacy/web/json/default.js:1011-1034 | the longest run of digits |
| JsonTokenizer.Tokenizer.UnicodeEscape | design/legacy/web/json/default.js:1036-1045 | consumes a unicode escape exactly if one comes next, and returns it as it is written |
| JsonText.TextRightIff | design/legacy/web/json/default.js:1126-1224 | a string is read as if unicode escapes were decoded if and only if it has none: they are kept as they are written |
| JsonText.ValueRight | design/legacy/web/json/default.js:1497-1570 | a text without unicode escapes has the same value as if they were decoded |
| JsonText.ValueRightIff | design/legacy/web/json/default.js:1497-1570 | a text with clean names has the same value as if unicode escapes were decoded if and only if it has none |

## Left out

- Sessions.RunAll: runs in which a filter clashes with the one before it, or in which all of 2^30 bins are asked for in order, are left out, because the source can then give a wrong answer or fail.
- Sessions.Session.Perform: the same operations are left out.
- Crossfilters.Crossfilter.Apply: filters that clash with the one before are not accepted, because the bits are wrong afterwards; `Crossfilters.Dimension.Move` says that they are, and exactly then.
- Crossfilters.Crossfilter.AddDimension: says how the 33rd dimension is left half registered, but not what later operations make of that.
- Crossfilters.Crossfilter.TotalValue: promises nothing with 32 dimensions, because the source's answer can then be wrong; `AllRecords.CountRightIff` says which changes make a count wrong.
- Crossfilters.Crossfilter.GroupBins: returns a value; that the source hands out its own array, which a caller could change, is not modelled.
- JsonTokenizer.Tokenizer.TokenizeNumber: the number is kept as it is written; its conversion is the host language's.
- Rendering.RenderTokens: a partial tag renders to nothing, as it does when no partials are loaded.
- Treemaps.Layout.Squarify: a cell without a value must not have a child with one, because the areas would be infinite.
- Transitions.EveryRunGood: callbacks run one at a time; a listener that flushes the timer queue while a callback runs is not modelled.
- Crossfilter: NaN keys, the fallback without typed arrays, `size`, `dimension.groupAll` and groups with the default key.
- Mustache: lambdas, partials, names found on the host language's object prototype, and the compiled-template cache.
- DSV: row functions, rows as objects and `parse` with a header, and delimiters that are special in a character class.
- JsonTokenizer.Validate: says that a text that is not read well is warned of, but neither with which warnings, nor what is made of it in spite of them.
- JSON: columns and lengths of warnings, and the display of results.
- d3 quadtree: `visit`, and functions for coordinates. d3 treemap: sticky layouts, and the flag that they keep of each cell.
- d3 transition: tweens and events other than that they run, easing, and time itself, which is a parameter of each callback.
- d3 geo, shapes, colour, easing, Voronoi and force layouts: floating-point geometry.
- User interface, network and storage code, and the Java servlets: input and output.
