# Physical query operators of a teaching relational engine, in Dafny

This project models three physical operators of a small relational database
engine written in Java, and proves properties of the model:

- **The external sort operator** (`SortOperator`). It has several parts:
  - `sortRun` sorts one run in memory.
  - `mergeSortedRuns` performs a k-way merge through a priority queue of
    (record, run index) pairs ordered by `RecordPairComparator`.
  - `mergePass` merges consecutive groups of `numBuffers - 1` runs.
  - `sort` creates the pass-0 runs page by page, then does a merge pass.
  - `iterator` sorts once and caches the result.
- **The block nested-loop join** (`BNLJOperator.BNLJIterator`), with blocks
  of one page. It walks four backtracking cursors: left pages, right pages,
  the records of the loaded left page and the records of the loaded right
  page. It emits each joined record that `fetchNextRecord` finds.
- **The index nested-loop join** (`INLJOperator.INLJIterator`). For each left
  record in turn it probes an equality index scan on the right join column.
  It joins the left record with the first record the probe returns.

A relation is a sequence of data pages (`Page = seq<Record>`). A record is a
sequence of typed values (`IntValue`, `StringValue`). The comparator is a
function `le(a, b)`, standing for `compare(a, b) <= 0`, assumed to be a total
preorder. A backtracking iterator is the value `Cursor(items, pos, mark)`
with `Advance` (next), `Mark` and `Reset`. Each join iterator is a class
whose fields are the Java iterator's fields. A ghost `Output()` says which
records the iterator still has to return.

Each join has a reference definition of what it must produce:
- `Joins.BnljReference` is the block nested-loop order.
- `Inlj.InljReference` is the index-join order.

Each iterator method is proved against its reference: the constructor
leaves the whole reference still to return, and every `next()` returns its
head. Lemmas then relate each reference to the plain nested-loop join of the
two relations.

Modules:
- `Wrappers`: `Option` and `Result`.
- `Records`: values, records, pages, `Concat` and its lemmas.
- `Ordering`: the comparator, `TotalPreorder` and `Sorted`.
- `Arithmetic`: division facts for the buffer-group counters.
- `Cursors`: the backtracking iterator.
- `Sorting`: the sort operator.
- `Joins`: join records and reference joins.
- `Bnlj`: the block nested-loop join iterator.
- `Inlj`: the index nested-loop join iterator.

### Where the model follows the code rather than the operators' documentation

- `sort()` performs **one** merge pass and returns the first run it produces.
  The documented behaviour is to repeat merge passes until one run remains.
  - `Sorting.Sort` models the code as written.
  - `Sorting.SortAllRuns` models the documented behaviour.
  - The operator object (`Sorting.SortOperator`) caches what `Sort`
    returns, as `iterator()` caches what `sort()` returns.
- Pass 0 gives the first run `numBuffers - 1` pages but every later run
  only `numBuffers - 2`. The page marker of `sort()` also ticks once for
  each flush, and a flush reads no page.
  - The documented behaviour is `numBuffers - 1` pages for every run.
  - `Sorting.Pass0Runs` follows the code.
  - `Sorting.TenPagesFourBuffers` shows ten pages and four buffers making
    five runs, where the documented grouping makes four.
- Data pages without records are allowed. Pass 0 flushes a run at each page
  quota whether or not the run holds a record. Only the final flush checks
  that the run is not empty.
  - `Sorting.Pass0Runs` therefore can hold runs without records.
  - `mergeSortedRuns` calls `next()` on every run of a group it merges. On a
    run without records that call throws. In the model this is
    `Err(EmptyRunMerged)`, as recorded under "## Findings".
- In `INLJOperator`, a failure to build the index scan is raised while
  iterating, by `fetchNextRecord`. It is not raised when the iterator is
  constructed.
  - The wrapping `RuntimeException` is not caught by `hasNext`, so it
    reaches the caller of `hasNext()` or `next()`.
  - In the model, that failure is `Err(ProbeFailed)` from those methods.
  - Each failing call has read one more left record.

## Model

| member | source | states |
|---|---|---|
| Sorting.InsertionSortSorted | proj4/SortOperator.java:51 | sorting the list with the comparator yields a list that is non-decreasing under a total preorder |
| Sorting.SortRun | proj4/SortOperator.java:44-57 | the run written out is sorted and is a permutation (same multiset) of the run read in |
| Sorting.PairOrderIsTotalPreorder | proj4/SortOperator.java:206-211 | pairs are ordered by their records alone: the pair order is total and transitive, and ignores the run index |
| Sorting.PollMin | proj4/SortOperator.java:90-93 | poll returns an entry no greater than any other entry in the queue |
| Sorting.SeedQueue | proj4/SortOperator.java:76-87 | seeding succeeds iff every run holds a record, and then the queue holds the first record of every run paired with that run's index; the rest of each run is unread, so no record is lost or duplicated |
| Sorting.MergeSortedRuns | proj4/SortOperator.java:74-106 | fails (the seeding next() throws) iff some run holds no record; otherwise the merged run is a permutation of all records of the runs, sorted when every run is sorted, and the queue, whose largest size is tracked, never holds more than runs.size() entries |
| Sorting.DrainQueue | proj4/SortOperator.java:89-104 | once seeded, the main loop ends with a run holding every record of the runs, sorted when the runs are, and the queue never grows beyond runs.size() entries |
| Sorting.MergeFullGroups | proj4/SortOperator.java:122-131 | the loop merges exactly the complete groups of numBuffers - 1 runs before the last group, each to a permutation of that group, in order; it stops with a failure only at a complete group, ending before the last run, that holds a run without records, with the groups before it merged |
| Sorting.MergeLastGroup | proj4/SortOperator.java:132-137 | fails iff the remaining runs are not a single run and one of them holds no record; otherwise the final group is a permutation of the remaining runs, sorted if they are, and a single remaining run is passed through unchanged |
| Sorting.MergePass | proj4/SortOperator.java:116-140 | fails iff a run without records lies in a group that is merged (anywhere but as a lone last run); otherwise returns ceil(n / (numBuffers - 1)) runs (one run when there are no runs), run j is a permutation of group j, the runs together hold all input records, sortedness is kept and a lone last run is passed through |
| Sorting.GroupHoldsEmptyRun | proj4/SortOperator.java:122-131 | a run without records in a complete group, which ends before the last run, makes the merge pass fail |
| Sorting.MergedEmptyRun | proj4/SortOperator.java:132-137 | past the complete groups, a run without records makes the pass fail exactly when the remaining runs are not a single run |
| Sorting.PassDoneCount | proj4/SortOperator.java:124-137 | the number of runs mergePass returns, and that a last group of one run comes back unchanged |
| Sorting.FlushCondition | proj4/SortOperator.java:165-169 | the page-marker test `marker % (numBuffers - 1) == 0 && marker != 0` fires exactly when the run being filled has its quota of pages |
| Sorting.AddPageRecords | proj4/SortOperator.java:179-182 | every record of the page is appended to the run being collected, in page order |
| Sorting.Pass0GroupsShape | proj4/SortOperator.java:165-190 | pass 0 covers every page once and in order: the first run takes up to numBuffers - 1 pages and each later run takes 1 to numBuffers - 2 pages |
| Sorting.Pass0RunsCover | proj4/SortOperator.java:165-190 | the pass-0 runs hold, between them, exactly the records of the table in page order; only a last group without records is left out |
| Sorting.Pass0SingleRun | proj4/SortOperator.java:165-190 | a table of at most numBuffers - 1 pages gives a single run holding all its records, or no run when it holds none |
| Sorting.CreateRuns | proj4/SortOperator.java:161-190 | for a table holding a record, the runs created are the pass-0 runs: same count, each sorted and a permutation of its group's records, with a final run only when the last group holds a record |
| Sorting.FinalSkip | proj4/SortOperator.java:186-190 | when no record is left collected at the end of pass 0, nothing more is flushed and the runs already made are the pass-0 runs |
| Sorting.SameEmptyRuns | proj4/SortOperator.java:169-172 | sorting each run keeps which runs are empty, so the sorted runs make the merge pass fail exactly when the pass-0 runs would |
| Sorting.Sort | proj4/SortOperator.java:153-197 | fails with EmptyRelation exactly when the table has no records, and with EmptyRunMerged exactly when the merge pass merges a pass-0 run without records; otherwise returns a sorted run holding the records of the first numBuffers - 1 pass-0 runs, which is all the records when pass 0 made at most numBuffers - 1 runs |
| Sorting.FirstGroupHolds | proj4/SortOperator.java:165-196 | sorting each pass-0 run keeps the records of the first merge group; when there are at most numBuffers - 1 runs that group holds the whole table |
| Sorting.FirstRunOutcome | proj4/SortOperator.java:194-196 | the first run of the merge pass is what sort() returns: sorted and holding the first group's records |
| Sorting.FourPagesThreeBuffers | proj4/SortOperator.java:165-190 | with three buffers, four one-record pages give three runs of 2, 1 and 1 pages |
| Sorting.TenPagesFourBuffers | proj4/SortOperator.java:165-190 | with four buffers, ten pages are grouped 3, 2, 2, 2 and 1 pages (the exact slices), giving five runs, or four when the tenth page holds no record |
| Sorting.FourPagesFirstGroup | proj4/SortOperator.java:192-196 | with three buffers, the first merge group of those four pages holds records 1, 2 and 3 only |
| Sorting.EmptyPageRunIsMerged | proj4/SortOperator.java:165-190 | with three buffers, the pages [1], [], [], [2] give the runs [1], [] and [2], and the merge pass merges the run without records |
| Sorting.OnePassDropsRecords | proj4/SortOperator.java:192-196 | any result meeting sort()'s contract on those four pages lacks record 4, although the table holds it |
| Sorting.MergePassShrinks | proj4/SortOperator.java:116-140 | a merge pass over two or more runs leaves at least one run and fewer runs than it was given |
| Sorting.PassRunsNonEmpty | proj4/SortOperator.java:124-137 | every run a merge pass returns over runs holding records holds a record, so it can be merged again |
| Sorting.MergePassKeeps | proj4/SortOperator.java:116-140 | a merge pass over runs holding records keeps them holding records and sorted, keeps the records they hold, and reduces their number |
| Sorting.CreatedRunsCover | proj4/SortOperator.java:161-190 | the sorted pass-0 runs that hold a record are sorted, and together they are a permutation of the table |
| Sorting.NonEmptyRunsKeep | proj4/SortOperator.java:186-190 | leaving out the runs without records keeps every record in order and keeps each run sorted |
| Sorting.MergeUntilOneRun | proj4/SortOperator.java:192-195 | repeated merge passes end with one run, sorted and holding every record of the runs |
| Sorting.SortAllRuns | proj4/SortOperator.java:153-197 | fails exactly when the table is empty; otherwise returns every record of the table, sorted; pass-0 runs without records are left out of the merge |
| Sorting.SortOperator.constructor | proj4/SortOperator.java:19-26 | the operator holds the given table, comparator and buffer count, with no sorted table cached |
| Sorting.SortOperator.Iterator | proj4/SortOperator.java:199-204 | sorts with sort() as written only while no sorted table is cached, and caches its result; once one is cached it returns it without sorting again; fails exactly as sort() fails; a cached table is the outcome of sort(), which is every record of the table sorted when pass 0 made at most numBuffers - 1 runs |
| Joins.MatchesMembership | proj4/BNLJOperator.java:153-160 | a record is among one left record's matches iff it joins that left record with a right record whose join value is equal |
| Joins.NestedLoopJoinMembership | proj4/BNLJOperator.java:153-165 | a record is in the nested-loop join iff it joins a left and a right record with equal join values |
| Joins.LeftPageJoinIsJoin | proj4/BNLJOperator.java:153-171 | one left page against all right pages yields, up to order, its join with the whole right relation |
| Joins.BnljReferenceIsJoin | proj4/BNLJOperator.java:146-182 | the block nested-loop order holds exactly the records of the nested-loop join of the two whole relations |
| Joins.BnljReferenceMembership | proj4/BNLJOperator.java:146-182 | a record is in the block nested-loop output iff it joins a left and a right record with equal join values |
| Joins.EmptyLeftJoinsNothing | proj4/BNLJOperator.java:146-150 | left pages without records join to nothing |
| Joins.MatchesAreKeyFilter | proj4/INLJOperator.java:78-83 | the matches of a left record are its joins with the right records an equality probe on its join value returns |
| Joins.ThreeByThreeJoin | proj4/BNLJOperator.java:153-160 | left keys 1, 2, 3 against right keys 2, 3, 4 give exactly the joins on keys 2 and 3, in that order |
| Joins.ThreeByThreeBnlj | proj4/BNLJOperator.java:146-182 | for any paging of those relations the block nested-loop join outputs exactly those two joined records, in some order |
| Bnlj.BlockOrderScan | proj4/BNLJOperator.java:153-160 | comparing the left record with the next right record emits their join exactly when the join values are equal, and the rest follows |
| Bnlj.BlockOrderNextLeftRecord | proj4/BNLJOperator.java:161-165 | when the right page is exhausted, the next left record against the same right page from its start owes the same records |
| Bnlj.BlockOrderNextRightPage | proj4/BNLJOperator.java:166-171 | when the left page is exhausted against a right page, the left page from its start against the next right page owes the same records |
| Bnlj.BlockOrderNextLeftPage | proj4/BNLJOperator.java:172-177 | when all right pages are done for a left page, the next left page against the first right page owes the same records |
| Bnlj.BlockOrderFreshLeftPage | proj4/BNLJOperator.java:95-109 | a freshly loaded left page, with the right side at its first page, owes the block order of the remaining left pages |
| Bnlj.BlockOrderDone | proj4/BNLJOperator.java:178-180 | with every cursor exhausted nothing is owed |
| Bnlj.BlockOrderStart | proj4/BNLJOperator.java:60-79 | the position after construction owes the whole block nested-loop order |
| Bnlj.StartTracks | proj4/BNLJOperator.java:60-79 | the cursors after construction satisfy the loop invariant with the whole block nested-loop order pending |
| Bnlj.ScanStep | proj4/BNLJOperator.java:153-160 | advancing the right record keeps the invariant and consumes exactly the emitted join record, if any |
| Bnlj.NextLeftRecordStep | proj4/BNLJOperator.java:161-165 | the next-left-record transition keeps the invariant with the same records pending |
| Bnlj.NextRightPageStep | proj4/BNLJOperator.java:166-171 | the next-right-page transition keeps the invariant with the same records pending |
| Bnlj.NextLeftPageStep | proj4/BNLJOperator.java:172-177 | the next-left-page transition keeps the invariant with the same records pending |
| Bnlj.DoneStep | proj4/BNLJOperator.java:178-180 | when every cursor is exhausted, nothing is pending |
| Bnlj.BnljIterator.constructor | proj4/BNLJOperator.java:60-79 | with a left page, the cursors are at the start position: the first left page loaded with its first record as the left record and marked there, the right source past its first page and marked at it, that page loaded and marked at its first record; without one, no left record is taken; either way the whole block nested-loop order is still to be returned |
| Bnlj.BnljIterator.FetchNextLeftPage | proj4/BNLJOperator.java:95-109 | if a left page remains, it is loaded, its first record becomes the left record and its cursor is marked there; otherwise nothing changes |
| Bnlj.BnljIterator.StartRightSource | proj4/BNLJOperator.java:68-76 | the right page cursor is marked at the first page and that page is loaded |
| Bnlj.BnljIterator.FetchNextRightPage | proj4/BNLJOperator.java:128-140 | if a right page remains, it is loaded with its cursor marked and rewound to its first record; otherwise nothing changes |
| Bnlj.BnljIterator.NextRightRecord | proj4/BNLJOperator.java:153-160 | takes the next right record; the records owed lose exactly the join record when the join values are equal |
| Bnlj.BnljIterator.NextLeftRecord | proj4/BNLJOperator.java:161-165 | the left record becomes the next record of the left page, and the right page cursor is reset to its mark; the same records are owed and the cursors progress |
| Bnlj.BnljIterator.NextRightPage | proj4/BNLJOperator.java:166-171 | the next right page is loaded, marked at its first record; the left page cursor is reset to its mark and its first record becomes the left record again; the same records are owed and the cursors progress |
| Bnlj.BnljIterator.NextLeftPage | proj4/BNLJOperator.java:172-177 | the next left page is loaded with its first record as the left record; the right pages restart at the first page, loaded and marked at its first record; the same records are owed and the cursors progress |
| Bnlj.BnljIterator.Turn | proj4/BNLJOperator.java:152-181 | one iteration of the loop either yields the next owed record, or stops with nothing owed, or progresses with the same records owed |
| Bnlj.BnljIterator.FetchNextRecord | proj4/BNLJOperator.java:146-182 | returns the first owed record and removes it, or null exactly when nothing is owed (at once when no left page was loaded) |
| Bnlj.BnljIterator.HasNext | proj4/BNLJOperator.java:188-196 | fetches only when nothing is cached; true iff a record remains; the records still to return are unchanged |
| Bnlj.BnljIterator.Next | proj4/BNLJOperator.java:202-208 | returns the first record still to return and removes it; NoSuchElement exactly when none remains |
| Inlj.FirstMatch | proj4/INLJOperator.java:78-91 | a left record contributes at most one record, and one exactly when its probe returns something |
| Inlj.SkipLeft | proj4/INLJOperator.java:92-95 | a left record whose probe returns nothing contributes nothing |
| Inlj.HitLeft | proj4/INLJOperator.java:89-91 | a left record whose probe returns something contributes its join with the first record returned |
| Inlj.InljReferenceMembership | proj4/INLJOperator.java:69-101 | a record is in the index join iff it joins some left record with the first record that left record's probe returns |
| Inlj.InljIsNestedLoopJoin | proj4/INLJOperator.java:89-91 | when the probe is an equality scan and no right join value occurs twice, the index join equals the nested-loop join, in the same order |
| Inlj.DuplicateKeyKeepsFirstMatch | proj4/INLJOperator.java:89-91 | with two right records sharing the key, the nested-loop join gives two records but the index join keeps only the first |
| Inlj.InljIterator.constructor | proj4/INLJOperator.java:56-60 | the iterator starts before the first left record, with the whole index join still to return |
| Inlj.InljIterator.FetchNextRecord | proj4/INLJOperator.java:69-101 | returns the next owed join record and removes it, or null exactly when none is owed; a probe that cannot be built fails after reading one left record |
| Inlj.InljIterator.ProbeLoop | proj4/INLJOperator.java:78-100 | probes left records in turn from the one just read: joins with the first match, skips records whose probe returns nothing, stops at the end of the left relation |
| Inlj.InljIterator.HasNext | proj4/INLJOperator.java:104-113 | fetches only when nothing is cached; true iff a record remains; a failed probe propagates as an error |
| Inlj.InljIterator.Next | proj4/INLJOperator.java:116-123 | returns the first record still to return and removes it; NoSuchElement when none remains; a failed probe propagates as an error |
| Cursors.NextMarkResetReplays | proj4/BNLJOperator.java:71-75 | next(); mark(); reset() leaves the iterator where it was, now marked there, so the next next() returns the same item |
| Cursors.ResetReturnsToMark | proj4/BNLJOperator.java:164-165 | after next(); mark(), reset() undoes any number of further next() calls |

## Findings

| source | as written | input that shows it | evidently intended | confidence | as-written member | corrected member |
|---|---|---|---|---|---|---|
| proj4/SortOperator.java:192-196 | sort() runs a single mergePass and returns the first run it produces | four pages of one record each (1, 2, 3, 4) with numBuffers = 3: pass 0 makes three runs, the merge pass merges only the first two, and record 4 is not in the result | merge passes repeat until a single run holding every record remains | high; not executed | Sorting.OnePassDropsRecords | Sorting.SortAllRuns |
| proj4/SortOperator.java:83-87 | mergeSortedRuns seeds the queue by calling next() on every run; pass 0 flushes a page group without records as a run without records | pages [1], [], [], [2] with numBuffers = 3: pass 0 makes the runs [1], [] and [2], mergePass merges [1] with the empty run, and next() throws | runs without records are never flushed or merged, so every table holding a record sorts | high; not executed | Sorting.EmptyPageRunIsMerged | Sorting.SortAllRuns |

## Left out

- Storage and I/O are not modelled: the transaction, page iterators, temporary tables backing runs, `createRun`, `Run`, and every `DatabaseException`. Every read succeeds, so the `catch (DatabaseException)` returning false in the `hasNext` of both join iterators (BNLJ and INLJ) is not modelled.
- The header page is not modelled. The block nested-loop join skips it with an extra `next()` on each of its page iterators (left and right), while the model's page sequences hold data pages only.
- `sort()`'s emptiness test (`recordIt.hasNext()` on a block iterator over the page iterator) is modelled as "the table has no records". `sort()` gives its page iterator no extra `next()` for the header page. The model assumes the emptiness test consumes the header page and no data page, so pass 0 starts at the first data page and its first run holds numBuffers - 1 data pages.
- `Sorting.Sort`, `Sorting.CreateRuns`, `Sorting.SortAllRuns` and `Sorting.SortOperator` require numBuffers >= 3. With two buffers, `marker % 1` is always 0. After the first page every turn of the pass-0 loop therefore flushes (the later flushes flush empty runs) and none reads a page, so with two or more data pages the loop does not terminate. With one buffer, `marker % 0` in `sort()` and `i % 0` in `mergePass` throw `ArithmeticException`; that error path is not modelled either.
- `Sorting.MergeSortedRuns` states its bound of at most `runs.size()` queue entries on a ghost out-parameter `peak`, the largest queue size it reached.
- `Sorting.PollMin` picks the first least entry, whereas `java.util.PriorityQueue`'s heap may return any least entry. The order among equal records from different runs is therefore not modelled, and the contracts only state sortedness and permutation.
- `Sorting.SortRun` models `List.sort` (TimSort) as a stable insertion sort. Its contract states sorted and permutation, and does not state stability.
- `Sorting.SortOperator.Iterator` returns the sorted records rather than a record iterator over the sorted table (`getRecordIterator`). An exception thrown by sort() is its `Err` result, and leaves nothing cached.
- Several `SortOperator` members are not modelled: `computeSchema`, the schema field and the transaction's memory query. `numBuffers` is a constructor parameter.
- `estimateStats` and `estimateIOCost` of both join operators are not modelled.
- The join key is compared with `DataBox.equals`, modelled as equality of `Value`s. `generateJoinRecord` is modelled as concatenating the two records' values. `JoinOperator.java`, where it lives, is not part of this model.
- `Bnlj.BnljIterator.constructor` requires every page to hold a record and a non-empty right relation whenever the left one is non-empty. Otherwise the Java code calls `next()` on an empty block, or leaves the right record iterator null and fails with a null dereference in `fetchNextRecord`.
- `IndexScanOperator` is not part of this model. An equality index scan is the function `probe` from a join value to the right records it returns. Whether the scan can be built is the constant `probeOk`, because the failure does not depend on the value.
- The backtracking page and record iterators keep their contents only as sequences. Their buffering and the single-page block limit are not modelled.
