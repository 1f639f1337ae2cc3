# Tableverse engine: a verified model

Tableverse answers view expressions over large tables. It does so by fast paths: an optimiser
rewrites operation lists, indexes rule out row groups, sorts spill to disk and merge, statistics are
computed in parallel and merged, views are built once and cached, and tiles arrive at the browser as a
stream of frames. Each fast path is meant to agree with one simple meaning: run the operations on the
whole table. This project states that meaning and proves, in Dafny, that the fast paths keep it. Where
one does not keep it for every input, the project states when it does; the conditions that are
sufficient only are named under "Left out".

A table is a list of column names and batches of rows of cells (`Executor`). What the engine takes from
Arrow and from its environment (the sort kernel, casts, regular expressions, arithmetic, the sampler)
is the parameter `Runtime`, so a theorem about the executor holds for every such kernel. Files are lists
of row groups; floats are `real`; keys of the sort components are an abstract total preorder. Code that
changes state step by step is written as methods, classes and loops and proved against functions on
values; predicates and passes that are expressions are functions.

| part | files |
|---|---|
| view language and naive executor | `Exprs`, `Executor`, `ExecutorLoops`, `Aggregates`, `TextOrder`, `Meaning` |
| optimiser | `Optimizer`, `OptimizerSoundness`, `OptimizerEffects`, `OptimizerLimits`, `FoldingLimits`, `FoldingTables`, `DeduplicationLimits`, `Relevance`, `ColumnPruning` |
| hash aggregation | `PartialAggs`, `StreamingAgg`, `StreamingAggSoundness` |
| pruning and tile readers | `Pruning`, `PruningLimits`, `BloomFilter`, `Bits`, `RoaringIndex`, `BitmapIndex`, `FilteredTiles`, `PlainTiles`, `SliceBatches` |
| tiles of stateless views | `RowWise`, `FilteredPipeline`, `TileColumns`, `TileQuery`, `TileQueryLimits` |
| external sort and top-k | `Orders`, `Merge`, `KWayMerge`, `ExternalSort`, `TopK` |
| sorted tiles | `SortIndex`, `SparseSortIndex` |
| views: protocol and caches | `ViewKinds`, `SingleFlight`, `ViewCache`, `TileCache`, `SpillPipeline` |
| mergeable statistics | `Sums`, `Moments`, `Covariance`, `Sketches`, `TDigest` |
| frames | `Bytes`, `FrameDecoder` |

Where to start reading: `OptimizerSoundness.OptimizeKeepsMeaning`, `TileQuery.TileIsRectangleIff`,
`StreamingAggSoundness.Execute`, `KWayMerge.MergeCursors`, `SingleFlight.SingleBuilder` and `RunBalanced`,
`Moments.Accumulate`.

## Where the code does less than it says

These are results, each with its concrete input or exact condition in the project:

- Pass 3 fuses the first sort with the first limit. A sort without keys becomes a top-k without keys, which
  returns nothing, and of two sorts the wrong one is fused (`PairFusionIsExact`, `TwoSortFusionIsExact`).
- Pass 4 takes `column = true` for a constant. What can be checked beforehand: where no dropped column is read
  elsewhere it is sound if and only if it drops nothing (`FoldingOfUnreadIsExact`, `FilterFoldingOfUnreadIsExact`);
  otherwise, where every dropped column is still compared with a bool, equal truth tables are enough, and for predicates
  over flags they are needed (`SameTableIsSound`, `FlagFoldingIsExact`). `FoldingIsExact` and `FilterFoldingIsExact` say what soundness amounts to in general.
- Pass 2 changes what a whole-row deduplication sees (`PruningAheadOfDedupIsExact`,
  `PruningBeforeWholeRowDeduplication`).
- The bitmap lookup of an In ignores literals that are not text, and the bloom filter hashes a number
  differently when building and when asking (`BitmapInIsExact`, `BloomEqIsExact`, `BloomIsExact`).
- A tile of a filtered view for which no column selection is passed reads the columns of the predicate only: it shows
  fewer or other columns than the pipeline, or fails on a column it has not read (`TileIsRectangleIff`,
  `FilterTileIsRectangleIff`, `PredicateColumnsOnly`, `DeriveBeyondTheRead`, `SelectedColumnUnread`). With a selection it
  fails only where the pipeline does, but columns derived under a new name are not shown and dropped ones are still looked
  for (`TileFailsBesidePipelineIff`, `DerivedTileIsRectangleIff`, `DropShiftsTheDisplay`).
- Such a tile is delivered where the executor fails, when a filter reads a dropped column, and when the indexes leave
  nothing to read or to show (`TileOutlivesPipelineIff`, `DroppedFilterColumn`).
- The row-group counts of a filtered view are cached for a source, the indexes for a file that several sources may share:
  counts made under other indexes may point at the wrong row group (`CountsFitExactly`, `PrunedGroupComesBack`).
- A derived rank counts as stateless, so a tile ranks its own rows (`RanksLookAround`).
- The bitmap index counts a value again in each further row group that has it, so a column may be refused
  although its values are within the cap (`RoaringIndex.Build`, `KnownValuesCountAgain`).
- The executor's distinct count counts null, the streaming one does not (`CountDistinctCountsNull`), and the
  streaming path reads a text that is no number as a number (`SameFloatsIffNumeric`).
- A row set loses its canonical form when a row is inserted beside a run that ends at the largest `u32`, and
  the set of all rows counts zero (`RoaringLike.Insert`, `RoaringLike.Count`).
- Merging t-digests counts the other digest's values twice (`TDigest.Merge`).
- Reading an expired tile leaves its bytes in the cache's counter (`OptionalCache.Get`).
- A cascade with a fanout of one never ends (`PassShrinksIffFanoutTwo`).

## Model

| member | source | states |
|---|---|---|
| `Exprs.NormalizeIsStablePhaseSort` | crates/tv-core/src/expr.rs:272-313 | Normalising keeps the operations of each phase in written order, puts the phases in ascending order, and does nothing the second time |
| `Exprs.NormalizeOps` | crates/tv-core/src/expr.rs:272-313 | The ten buckets filled by one pass give exactly that stable phase sort |
| `Optimizer.Pass1PredicatePushdown` | crates/tv-core/src/optimizer.rs:54-98 | The loop over pending filters computes the push-down whose properties the next rows state |
| `Optimizer.PushdownRearrangesFilters` | crates/tv-core/src/optimizer.rs:54-98 | Every other operation keeps its order and phase; the filters are the same filters with the same multiplicity |
| `OptimizerEffects.PushdownPlacesFilters` | crates/tv-core/src/optimizer.rs:64-91 | No filter is moved directly ahead of a Rename or Derive that writes a column it reads |
| `OptimizerSoundness.PushdownKeepsMeaning` | crates/tv-core/src/optimizer.rs:54-98 | For every list, table and kernel the pushed-down list computes what the written list computes, errors included |
| `Relevance.PredReadsItsColumns` | crates/tv-core/src/optimizer.rs:246-272 | A predicate has the same three-valued result on two rows that agree on its collected columns, through any nesting |
| `Relevance.ScalarReadsItsColumns` | crates/tv-core/src/optimizer.rs:274-324 | A scalar expression gives the same column on two tables that agree on its collected columns, through Case, Rank and nested predicates |
| `ColumnPruning.OpKeepsAgreement` | crates/tv-core/src/optimizer.rs:211-244 | Every operation ahead of a group-by takes tables that agree on the referenced columns to tables that agree, or fails on both |
| `ColumnPruning.GroupByErasesTheRest` | crates/tv-core/src/optimizer.rs:211-244 | A group-by over referenced columns maps agreeing tables to equal tables |
| `OptimizerSoundness.PruningKeepsMeaning` | crates/tv-core/src/optimizer.rs:100-126 | Selecting the referenced columns first changes nothing when no deduplication looks at whole rows |
| `DeduplicationLimits.PruningAheadOfDedupIsExact` | crates/tv-core/src/optimizer.rs:100-126 | For a whole-row deduplication followed by a group-by, the pruned and the written list compute the same on every table and with every kernel if and only if the pass does not fire: no keys, and only counts |
| `DeduplicationLimits.PruningBeforeWholeRowDeduplication` | crates/tv-core/src/optimizer.rs:100-126 | On two plain rows that differ in an unreferenced column, pruning turns a count of two into one |
| `OptimizerSoundness.FusedPairRemoved` | crates/tv-core/src/optimizer.rs:128-154 | Under the bucket condition the fused list is the list without that sort and limit, followed by the top-k of their key and count |
| `OptimizerSoundness.FusionKeepsMeaning` | crates/tv-core/src/optimizer.rs:128-154 | Fusing keeps the meaning when the fused sort is the last of the sort phase and has a key or nothing is wanted |
| `OptimizerLimits.PairFusionIsExact` | crates/tv-core/src/optimizer.rs:128-154 | For a sort followed by a limit, fusion is sound on every table and kernel if and only if there is a key, or the limit is zero, or it is too large to fuse |
| `OptimizerLimits.FusesFirstOfTwo` | crates/tv-core/src/optimizer.rs:128-154 | Given two sorts and a limit, whatever the keys, the pass fuses the first sort |
| `OptimizerLimits.TwoSortFusionIsExact` | crates/tv-core/src/optimizer.rs:128-154 | For two sorts and a limit, fusion is sound on every table and kernel if and only if the limit is zero or too large to fuse, or the first sort has a key and the second repeats it or has none |
| `OptimizerLimits.TwoSortFusionFails` | crates/tv-core/src/optimizer.rs:128-154 | Otherwise some kernel tells the lists apart on a table whose rows are all tied, where any order is a sort by either list of keys |
| `Optimizer.FoldKeepsTruth` | crates/tv-core/src/optimizer.rs:332-387 | Folding that drops no bool equality keeps the three-valued truth and the errors of a predicate on every row |
| `OptimizerEffects.FoldingNormalises` | crates/tv-core/src/optimizer.rs:332-367 | A folded predicate has no constant member and no And or Or of one member, and such a predicate folds to itself |
| `OptimizerEffects.FoldingIsIdempotent` | crates/tv-core/src/optimizer.rs:332-367 | Folding twice is folding once |
| `OptimizerSoundness.FoldingKeepsMeaning` | crates/tv-core/src/optimizer.rs:156-175 | Pass 4 keeps the meaning when the filters fold without dropping a bool equality |
| `FoldingLimits.FoldingIsExact` | crates/tv-core/src/optimizer.rs:332-387 | On tables that have the columns of the predicate, folding keeps the three-valued truth if and only if every column it drops an equality on is still compared with a bool literal, and rows on which the predicate is not null keep their truth |
| `FoldingLimits.FoldingOfUnreadIsExact` | crates/tv-core/src/optimizer.rs:332-387 | When no dropped column is read elsewhere, that is if and only if folding drops nothing |
| `FoldingLimits.ReadElsewhereDecidesNothing` | crates/tv-core/src/optimizer.rs:332-387 | Reading the dropped column elsewhere does not decide by itself: one such predicate folds soundly and another does not |
| `FoldingLimits.TruthIsAcceptanceAndNull` | crates/tv-core/src/optimizer.rs:332-387 | Keeping the truth is keeping the accepted rows and turning no null into false |
| `FoldingLimits.AcceptanceOfUnreadIsExact` | crates/tv-core/src/optimizer.rs:332-387 | When no dropped column is read elsewhere, folding keeps the accepted rows if and only if it drops nothing or neither form accepts any row |
| `FoldingLimits.FilterFoldingIsExact` | crates/tv-core/src/optimizer.rs:156-175 | Pass 4 keeps what a filter computes, errors included, if and only if the folded predicate still reads every dropped column and accepts the same rows |
| `FoldingLimits.FilterFoldingOfUnreadIsExact` | crates/tv-core/src/optimizer.rs:156-175 | When no dropped column is read elsewhere, that is if and only if folding drops nothing |
| `FoldingTables.SameTableIsSound` | crates/tv-core/src/optimizer.rs:332-387 | Folding keeps the three-valued truth if every dropped column is still compared with a bool literal and the truth tables over the atoms of the predicate are the same, a finite check |
| `FoldingTables.FlagFoldingIsExact` | crates/tv-core/src/optimizer.rs:332-387 | For a predicate whose atoms are equalities with true, that is if and only if |
| `FoldingLimits.FoldingKeepsAFalseRow` | crates/tv-core/src/optimizer.rs:369-387 | Folding `a = true AND b > 0` to `b > 0` accepts a row whose `a` is false |
| `Optimizer.ReorderingKeepsTruth` | crates/tv-core/src/optimizer.rs:177-209 | Null-strict conjunction does not depend on the order of the conjuncts |
| `OptimizerEffects.ReorderingSorts` | crates/tv-core/src/optimizer.rs:177-209 | Conjuncts end in ascending order of estimated selectivity, and equal ones in written order |
| `OptimizerSoundness.ReorderingKeepsMeaning` | crates/tv-core/src/optimizer.rs:177-209 | Pass 5 keeps the meaning for every selectivity estimate |
| `OptimizerSoundness.OptimizeKeepsMeaning` | crates/tv-core/src/optimizer.rs:12-22 | The five passes together, for a list that is `Optimizable` (every deduplication names its columns, filters fold without dropping a bool equality, and a sort that may be fused is the last of its phase and has a key or nothing is wanted): on every table and with every kernel the optimised list computes what the written list computes, before and after normalisation |
| `OptimizerSoundness.OptimizeWithQuantiles` | crates/tv-core/src/optimizer.rs:12-22 | Running the passes yields such a list, for every table at once |
| `Meaning.RunFilters` | crates/tv-engine/src/executor.rs:370-381 | A list of filters keeps, batch by batch, the rows all of them accept, and fails if and only if one of them does |
| `Meaning.SameFiltersSameMeaning` | crates/tv-engine/src/executor.rs:29-45 | Pipelines that differ only in filters accepting the same rows compute the same |
| `ExecutorLoops.ExecutePipeline` | crates/tv-engine/src/executor.rs:29-45 | The loop over the normalised operations computes the meaning every theorem here is about |
| `ExecutorLoops.ApplyDeduplicate` | crates/tv-engine/src/executor.rs:882-926 | The mask keeps exactly the rows whose key no earlier row has, in order |
| `ExecutorLoops.DeduplicateOnce` | crates/tv-engine/src/executor.rs:882-926 | The kept rows have distinct keys, all the keys there were, and deduplicating again changes nothing |
| `ExecutorLoops.SampleIndices` | crates/tv-engine/src/executor.rs:935-965 | The in-place swaps of the index vector follow one drawn position per place, each no earlier than its place |
| `ExecutorLoops.DrawsAreInjective` | crates/tv-engine/src/executor.rs:935-965 | Different draws give different samples |
| `ExecutorLoops.EverySampleIsDrawn` | crates/tv-engine/src/executor.rs:935-965 | Every list of different indices is the sample of some draw |
| `ExecutorLoops.RankColumn` | crates/tv-engine/src/executor.rs:803-828 | The rank array written in sorted order holds, for each row, its last place in that order |
| `ExecutorLoops.RankInvertsSort` | crates/tv-engine/src/executor.rs:803-828 | On a permutation the ranks are its inverse, counted from one |
| `ExecutorLoops.TileIsShare` | crates/tv-engine/src/executor.rs:829-841 | Row `i` of `n` is in tile `t` if and only if it lies in the `t`-th equal share; the clip to the last tile never acts |
| `ExecutorLoops.GroupBoundaries` | crates/tv-engine/src/executor.rs:1043-1062 | The scan for changed keys finds the maximal runs of equal keys |
| `Aggregates.AggregatesIgnoreOrder` | crates/tv-engine/src/executor.rs:1129-1190 | Sum, minimum, maximum, mean, median, standard deviation and percentile depend only on which values a group has |
| `PartialAggs.StdDevStep` | crates/tv-engine/src/streaming_agg.rs:107-115 | One incremental step of `m2` is exactly the change of the two-pass sum of squared deviations |
| `PartialAggs.FinalNumberIsAggValue` | crates/tv-engine/src/streaming_agg.rs:76-181 | A one-pass accumulator finalises to the aggregate of the whole group, for every aggregate function |
| `PartialAggs.FinalCountIsDistinct` | crates/tv-engine/src/streaming_agg.rs:79-86 | The list of distinct texts ends with each text once |
| `StreamingAgg.Aggregator.Accumulate` | crates/tv-engine/src/streaming_agg.rs:209-283 | After the stream the table has one entry per key, fed exactly that key's rows in order, whatever the batches |
| `StreamingAgg.Aggregator.FinalizeGroups` | crates/tv-engine/src/streaming_agg.rs:290-376 | The finished groups, each once, in any order the table gives them, sorted by the key columns if there are any |
| `StreamingAggSoundness.RunRowsAreGroups` | crates/tv-engine/src/executor.rs:1031-1093 | In a sorted table the runs of equal formatted keys are the groups of their keys, whole and in order |
| `StreamingAggSoundness.SortedTableGroups` | crates/tv-engine/src/executor.rs:1002-1093 | The sort-based groups list every key once, ascending |
| `StreamingAggSoundness.Execute` | crates/tv-engine/src/streaming_agg.rs:196-376 | Hash aggregation errs if and only if a key column is unknown; otherwise, if the table is `Comparable` (keys survive the trip through text, aggregated cells are numbers in float range), for every split into batches and every hash order, it returns the table of the executor's group-by, row for row |
| `StreamingAggSoundness.SameFloatsIffNumeric` | crates/tv-engine/src/streaming_agg.rs:27-39 | The stream reads the numbers the executor reads if and only if every non-null cell is a number |
| `StreamingAggSoundness.CountDistinctCountsNull` | crates/tv-engine/src/executor.rs:1109-1127 | The executor's distinct count exceeds the streamed one by exactly one when the group has a null |
| `RowWise.ScalarAlone` | crates/tv-engine/src/executor.rs:484-843 | A rank-free expression gives each row of a batch what it gives the row alone |
| `RowWise.RunRowWise` | crates/tv-engine/src/filter_util.rs:12-28 | Operations that need no materialisation map every row of every batch through one function, and fail by the schema alone |
| `FilteredPipeline.CombinedAccepts` | crates/tv-engine/src/filter_util.rs:30-49 | The combined filter is true exactly on the rows that every filter accepts |
| `FilteredPipeline.ExecIsFilterThenMap` | crates/tv-engine/src/executor.rs:29-45 | A stateless pipeline computes its kept rows, mapped one by one, even though columns are taken away before the filters run |
| `FilteredPipeline.ExecuteSkippingFilters` | crates/tv-engine/src/executor.rs:47-66 | The loop runs the normalised list without its filters |
| `TileColumns.SelectColumns` | crates/tv-engine/src/tile_ops.rs:320-341 | The loop that adds the displayed columns to the needed ones, sorts and deduplicates yields the selection the next rows are about |
| `TileColumns.NoSelectionIff` | crates/tv-core/src/optimizer.rs:24-52 | No selection is passed if and only if the view selects or groups, nothing is referenced, or every column is the first of a referenced name or displayed |
| `TileColumns.ThroughSeen` | crates/tv-engine/src/executor.rs:396-430 | Stateless operations that apply to some columns of a table apply to all of them, and then compute part of the same columns, cell for cell, as long as no name is repeated |
| `TileQuery.QueryFilteredTile` | crates/tv-engine/src/tile_ops.rs:283-440 | Whatever the indexes prune: the tile fails exactly if a row group is read and the row filter meets an unknown column or bad pattern, or it has a row and a remaining operation does not apply to the columns read; otherwise it shows the window of the matching rows, cut to the columns read, mapped, and cut to the columns shown. With cached counts of any valid indexes the window is the one those counts give, and the plain window where they fit |
| `TileQuery.TileIsRectangleIff` | crates/tv-engine/src/tile_ops.rs:318-440 | Where the naive executor computes the whole file and no column name is repeated: a tile without a row shows nothing, as the pipeline does; a tile with a row is the rectangle of what the pipeline computes if and only if the remaining operations apply to the columns read and the names shown are those of the rectangle |
| `TileQuery.SelectionReadsEnough` | crates/tv-core/src/optimizer.rs:24-52 | When a selection is passed, the remaining operations apply to the columns read if and only if they apply to all |
| `TileQuery.TileFailsBesidePipelineIff` | crates/tv-engine/src/tile_ops.rs:318-440 | A tile fails although the pipeline succeeds if and only if it has a row and a remaining operation misses a column that was not read, which takes a view without a selection |
| `TileQuery.TileOutlivesPipelineIff` | crates/tv-engine/src/tile_ops.rs:283-440 | A tile is delivered although the whole pipeline fails if and only if the pipeline fails while, for the tile, the filters find their columns in the file or no row group is read, and the remaining operations apply to the columns read or there is no row |
| `TileQuery.ShownTileOutlivesPipelineIff` | crates/tv-engine/src/tile_ops.rs:283-440 | For a tile with a row to show: if and only if the remaining operations apply to the columns read, and a filter that is fine on the columns of the file is not fine on those left after the operations ahead of it |
| `TileQueryLimits.FilterTileIsRectangleIff` | crates/tv-engine/src/tile_ops.rs:318-440 | A tile of filters alone, with a row to show, is the rectangle of the pipeline if and only if a selection is passed or the predicate reads every column up to the last displayed one |
| `TileQueryLimits.DerivedTileIsRectangleIff` | crates/tv-engine/src/tile_ops.rs:318-440 | A tile of filters and derived columns with a selection and a row to show is the rectangle of the pipeline if and only if the window takes in no derived column |
| `TileQueryLimits.PredicateColumnsOnly` | crates/tv-engine/src/reader.rs:345-356 | A filter on the first of two columns, both displayed: the tile shows that column, the pipeline both |
| `TileQueryLimits.DeriveBeyondTheRead` | crates/tv-engine/src/reader.rs:345-356 | A filter on one of two columns and a column derived from the other: the pipeline applies it, a tile with a row fails, whatever it displays |
| `TileQueryLimits.SelectedColumnUnread` | crates/tv-core/src/optimizer.rs:24-33 | Selecting two of three columns and filtering on the first: the tile shows the first, the pipeline both |
| `TileQueryLimits.DroppedFilterColumn` | crates/tv-engine/src/tile_ops.rs:320-440 | Dropping the first of three columns and filtering on it, with the second displayed, is an error in the executor and a tile of the second column from the reader |
| `TileQueryLimits.DropShiftsTheDisplay` | crates/tv-engine/src/tile_ops.rs:424-440 | Dropping the first column and filtering on the second, with one column displayed: the pipeline shows the second, the tile no column |
| `TileQueryLimits.RepeatedNameMisleads` | crates/tv-engine/src/tile_ops.rs:318-440 | A column renamed to the name of an unread one: tile and pipeline show one column of that name, with different cells |
| `FilteredPipeline.RanksLookAround` | crates/tv-engine/src/executor.rs:803-828 | Over one row a rank is one, so only the first row keeps its rank when evaluated alone |
| `SliceBatches.Cut` | crates/tv-engine/src/dispatch.rs:16-42 | The skip-and-take loop delivers exactly the rows `[offset, offset + limit)` of the batches |
| `PlainTiles.ReadParquetTile` | crates/tv-engine/src/reader.rs:110-182 | Row groups and selectors chosen by position deliver the window of the file, and no subtraction goes below zero |
| `PlainTiles.ReadMultiFileTile` | crates/tv-engine/src/dispatch.rs:85-116 | Across files the tile is the window of their rows taken one file after the other |
| `Pruning.PruneIsSound` | crates/tv-engine/src/reader.rs:959-1106 | No row of a row group pruned by statistics makes the predicate true, through any nesting of And and Or |
| `Pruning.BloomPruneIsSound` | crates/tv-engine/src/bloom_index.rs:215-239 | The same with a bloom filter, for textual literals |
| `Pruning.MarkIsSound` | crates/tv-engine/src/filter_util.rs:75-130 | No row of a row group the mark lookups leave out makes the predicate true |
| `FilteredTiles.BitmapKeepsMatches` | crates/tv-engine/src/roaring_index.rs:214-239 | The bitmap lookup keeps every row group with a matching row, for textual literals |
| `PruningLimits.BitmapInIsExact` | crates/tv-engine/src/roaring_index.rs:214-239 | With a valid bitmap index every row group with a row matching an In is read, for every kernel and file, if and only if none of its values is a text, so that nothing is looked up, or all are texts or null |
| `PruningLimits.BloomEqIsExact` | crates/tv-engine/src/bloom_index.rs:215-249 | Pruning by an equality is sound, for every valid bloom index, hash function, kernel and row group, if and only if the value is a text or null |
| `PruningLimits.BloomInIsExact` | crates/tv-engine/src/bloom_index.rs:225-230 | Pruning by an In is sound in the same sense if and only if all its values are texts or null |
| `PruningLimits.BloomIsExact` | crates/tv-engine/src/reader.rs:959-1106 | Through any nesting of And and Or every answer of the recursion is sound if and only if every equality and every In it reaches is with texts and null |
| `FilteredTiles.QualifyingRgs` | crates/tv-engine/src/reader.rs:271-325 | The branches choose exactly the row groups the indexes and statistics leave standing |
| `FilteredTiles.QualifyingMissesNothing` | crates/tv-engine/src/reader.rs:271-325 | The chosen row groups hold all matching rows of the file, in file order |
| `FilteredTiles.RowFilterReadsItsColumns` | crates/tv-engine/src/reader.rs:343-371 | The row filter, which sees the columns of the predicate only, accepts the rows the predicate accepts and fails where it does |
| `FilteredTiles.ReadFilteredTile` | crates/tv-engine/src/reader.rs:229-394 | A tile is the window of the matching rows of the whole file on the selected columns, or without a selection on the columns of the predicate; it fails if and only if a chosen row group holds a row and the predicate has an unknown column or a bad pattern |
| `FilteredTiles.BuildFilterRgIndex` | crates/tv-engine/src/reader.rs:417-519 | The cached index holds the running match counts of the chosen row groups; there is none if the row filter fails on one of them |
| `FilteredTiles.ReadFilteredTileIndexed` | crates/tv-engine/src/reader.rs:522-678 | With counts made at any time the tile is the window the counts give over the row groups chosen now, on the columns kept; it fails if and only if one of those read holds a row and the row filter fails |
| `FilteredTiles.CountsFitExactly` | crates/tv-engine/src/tile_ops.rs:312-317 | Counts made under other valid indexes give every window of the matching rows if and only if, at the end and at every row group with a match, as many matches lie ahead in the list they were made for as in the list of now |
| `FilteredTiles.PrunedGroupComesBack` | crates/tv-engine/src/source_ops.rs:315-329 | A row group without a match, ruled out when the counts were made and read now, makes the second page repeat the first |
| `FilteredTiles.CountFiltered` | crates/tv-engine/src/reader.rs:680-805 | The count is the number of matching rows of the file; it fails like the tile |
| `FilteredTiles.MarkListIsValid` | crates/tv-engine/src/filter_util.rs:75-130 | The list the mark lookup returns rules out no matching row |
| `Bits.DecrementSubtractsOne` | crates/tv-engine/src/roaring_index.rs:43-59 | Decrementing bit by bit is subtraction of one |
| `Bits.ClearLowest` | crates/tv-engine/src/roaring_index.rs:49-55 | `w & (w - 1)` removes exactly the lowest set bit, the one `trailing_zeros` names |
| `Bits.WordsPositions` | crates/tv-engine/src/roaring_index.rs:43-59 | The set bits of a word list, enumerated this way, come out ascending and complete |
| `RoaringIndex.RoaringIndex.Insert` | crates/tv-engine/src/roaring_index.rs:33-41 | Inserting records the row group for the value and changes no other record |
| `RoaringIndex.RoaringIndex.RowGroupsForEq` | crates/tv-engine/src/roaring_index.rs:43-59 | Lists exactly the recorded row groups below the bound, ascending without repeats; none for an unknown value |
| `RoaringIndex.RoaringIndex.RowGroupsForIn` | crates/tv-engine/src/roaring_index.rs:61-87 | Lists exactly the row groups below the bound recorded for any of the values, ascending without repeats |
| `RoaringIndex.BitsOfWord` | crates/tv-engine/src/roaring_index.rs:47-56 | The bit-clearing loop terminates and lists the positions of one word below the bound |
| `RoaringIndex.Build` | crates/tv-engine/src/roaring_index.rs:90-148 | There is no index if and only if at some row group its values and those of the row groups ahead, counted separately, pass the cap; otherwise the index records, for each value, exactly the row groups that contain it |
| `RoaringIndex.KnownValuesCountAgain` | crates/tv-engine/src/roaring_index.rs:118-144 | Two row groups of the same values are refused as soon as twice their number passes the cap |
| `BloomFilter.AnswersForInserted` | crates/tv-engine/src/bloom_index.rs:49-66 | The filter says maybe if and only if inserted hashes cover both probes, hence never no for an inserted hash |
| `BloomFilter.BloomFilter.SetBit` | crates/tv-engine/src/bloom_index.rs:39-42 | Sets the addressed bit and no other |
| `BloomFilter.BloomFilter.InsertHash` | crates/tv-engine/src/bloom_index.rs:49-55 | Adds the two probes of one hash and nothing else |
| `BloomFilter.BloomFilter.MightContainHash` | crates/tv-engine/src/bloom_index.rs:57-66 | The early-exit loop answers the membership question |
| `BloomFilter.BuildFilter` | crates/tv-engine/src/bloom_index.rs:118-146 | A column's filter holds the hashes of its values and of null |
| `BitmapIndex.RoaringLike.Insert` | crates/tv-engine/src/bitmap_index.rs:35-49 | The row is added and the runs stay sorted, disjoint and non-adjacent if and only if no addition wraps |
| `BitmapIndex.RoaringLike.Count` | crates/tv-engine/src/bitmap_index.rs:51-53 | Counts the rows of the set, except that the run of all u32 values counts zero |
| `BitmapIndex.RowsAreTheSet` | crates/tv-engine/src/bitmap_index.rs:55-57 | Iteration yields the rows of the set |
| `BitmapIndex.RowsAscend` | crates/tv-engine/src/bitmap_index.rs:55-57 | And yields them strictly ascending |
| `BitmapIndex.DeserializeUndoesSerialize` | crates/tv-engine/src/bitmap_index.rs:59-81 | Reading back what was written gives the same runs and leaves the bytes behind them |
| `Merge.DeliversEachRunInOrder` | crates/tv-engine/src/external_sort.rs:223-356 | The merge delivers each run's rows in the run's order, all of them, however the heap breaks ties |
| `Merge.MergeOfSortedRuns` | crates/tv-engine/src/external_sort.rs:223-356 | The merge of sorted runs is a sorted rearrangement of all their rows |
| `KWayMerge.MergeCursors` | crates/tv-engine/src/external_sort.rs:240-356 | For runs in arbitrary non-empty batches the merge with an offset and a limit is that window of the full merge |
| `KWayMerge.Collect` | crates/tv-engine/src/external_sort.rs:276-290 | A popped row is skipped, made pending or ignored so that output and pending rows stay the window |
| `KWayMerge.Advance` | crates/tv-engine/src/external_sort.rs:292-340 | Pending rows always index their run's current batch: they are flushed before it is replaced |
| `KWayMerge.Flush` | crates/tv-engine/src/external_sort.rs:394-418 | Gathering the pending rows appends exactly them, in order |
| `ExternalSort.SortToInitialRuns` | crates/tv-engine/src/external_sort.rs:84-118 | The initial runs are the sorted chunks of the stream; nothing is lost and the rows are counted |
| `ExternalSort.PassShrinksIffFanoutTwo` | crates/tv-engine/src/external_sort.rs:158-176 | With more runs than the fanout, a pass makes progress if and only if the fanout is at least two |
| `ExternalSort.CascadePass` | crates/tv-engine/src/external_sort.rs:158-176 | One pass conserves the rows and leaves one run for each group of the fanout's size |
| `ExternalSort.CascadeMergeIfNeeded` | crates/tv-engine/src/external_sort.rs:158-176 | The cascade ends with at most the fanout's number of sorted runs and the same rows |
| `ExternalSort.SortToRuns` | crates/tv-engine/src/external_sort.rs:128-156 | Sorted runs of the whole input, at most the fanout many, with running totals that end at the row count |
| `ExternalSort.DoMerge` | crates/tv-engine/src/external_sort.rs:223-356 | No run, one run and many runs all give the window of the full merge |
| `ExternalSort.MergeTile` | crates/tv-engine/src/external_sort.rs:187-195 | A tile is the window of the merge of all runs |
| `ExternalSort.TilesOfTheSortedInput` | crates/tv-engine/src/external_sort.rs:128-195 | All tiles are windows of one sorted arrangement of the input, of its size |
| `ExternalSort.DedupSortedBatches` | crates/tv-engine/src/external_sort.rs:441-494 | Comparing each row with its predecessor across batch borders is adjacent deduplication of the whole |
| `ExternalSort.DedupOfSorted` | crates/tv-engine/src/external_sort.rs:441-494 | Of sorted rows it leaves one row for each key, strictly ascending |
| `ExternalSort.MergeDedupTile` | crates/tv-engine/src/external_sort.rs:201-212 | A deduplicated tile is the window of a strictly ascending list with one row for each key of the runs |
| `TopK.TopOfTops` | crates/tv-engine/src/top_k.rs:377-446 | Cutting two parts to their k least rows first does not change the k least rows of the whole |
| `TopK.FlushChunk` | crates/tv-engine/src/top_k.rs:392-408 | After a flush the survivors are the k least of everything flushed |
| `TopK.TopKFromBatches` | crates/tv-engine/src/top_k.rs:377-446 | The result is min(k, n) rows of the stream, sorted, with no left-out row below a kept one; nothing without keys |
| `TopK.TopIsTakeOfSort` | crates/tv-engine/src/top_k.rs:377-446 | Key by key that is the first k rows of the full sort |
| `TopK.SliceTopK` | crates/tv-engine/src/top_k.rs:448-465 | Cuts the batches to their first k rows |
| `SortIndex.BuildSortIndex` | crates/tv-engine/src/sort_index.rs:21-99 | The stored ids list the rows in sorted order, ties by row id |
| `SortIndex.StableOrderIsUnique` | crates/tv-engine/src/sort_index.rs:21-99 | There is only one such list |
| `SortIndex.TileLookup` | crates/tv-engine/src/sort_index.rs:101-138 | The lookup is the clipped window of the stored ids |
| `SortIndex.ReadRowsByIds` | crates/tv-engine/src/sort_index.rs:151-214 | For distinct ids, position `i` of the result is the file's row `ids[i]` |
| `SortIndex.ReadSortedTile` | crates/tv-engine/src/sort_index.rs:101-214 | Lookup followed by the read is the window of the stably sorted table |
| `SparseSortIndex.BuildSparse` | crates/tv-engine/src/sparse_sort_index.rs:36-75 | One entry for each row group, with its row range |
| `SparseSortIndex.SparseTileLookup` | crates/tv-engine/src/sparse_sort_index.rs:119-143 | The pieces cover the rows `[offset, min(offset + limit, total))` once, in order |
| `SparseSortIndex.ReadSparseTile` | crates/tv-engine/src/sparse_sort_index.rs:145-201 | Reading the pieces delivers them one after the other |
| `SingleFlight.RunKeepsInv` | crates/tv-engine/src/materializer.rs:193-281 | The structural invariant holds after every run, whatever the interleaving |
| `SingleFlight.SingleBuilder` | crates/tv-engine/src/materializer.rs:193-281 | A key is pending if and only if a task is building it, and then exactly one is |
| `SingleFlight.WaitersAreServed` | crates/tv-engine/src/materializer.rs:205-278 | From the moment a call waits, the task that made its channel takes fewer steps than it has left, at most six, before the channel carries a value; until then it has a step to take, and then the waiter can receive |
| `SingleFlight.OneViewPerKey` | crates/tv-engine/src/materializer.rs:193-281 | Of a key nothing has evicted, invalidated or replaced, all successful calls return the same view, the cached one |
| `SingleFlight.FullViewsStay` | crates/tv-engine/src/tile_ops.rs:605-681 | Over every run: once a key holds a full view it holds only full views until its entry is evicted or invalidated |
| `SingleFlight.ProvisionalViewsAreSorts` | crates/tv-engine/src/tile_ops.rs:605-681 | Over every run: a provisional view, cached or returned, goes back to a call for its key whose pipeline is a sort on its own |
| `SingleFlight.RunBalanced` | crates/tv-engine/src/materializer.rs:253-390 | After every run the counters, with what tasks still owe, equal the weight of the entries modulo 2^64 |
| `ViewKinds.BuildFullIsNeverProvisional` | crates/tv-engine/src/spill_pipeline.rs:320-390 | What the background build puts is never provisional |
| `ViewKinds.ProvisionalExactly` | crates/tv-engine/src/spill_pipeline.rs:217-318 | A build is provisional if and only if it is a large sort on its own that came in several runs |
| `ViewCache.Cache.Get` | crates/tv-engine/src/materializer.rs:186-191 | A hit returns the view and makes it the most recently used; a miss changes nothing |
| `ViewCache.Cache.EvictIfNeeded` | crates/tv-engine/src/materializer.rs:309-362 | With room nothing goes; without, the least recently used of the kind go first, and no more than needed |
| `ViewCache.Cache.Insert` | crates/tv-engine/src/materializer.rs:364-390 | The view is stored, survivors are as they were, the disk entries respect their maximum and the bytes the budget before the insert, and the accounting is exact |
| `ViewCache.Cache.InvalidateSource` | crates/tv-engine/src/materializer.rs:283-307 | Exactly the entries of the source go, with their share of the counters |
| `TileCache.OptionalCache.Get` | crates/tv-server/src/cache.rs:36-47 | A live entry is returned and counted as used; an expired one is removed while its bytes stay counted |
| `TileCache.OptionalCache.EvictIfNeeded` | crates/tv-server/src/cache.rs:119-140 | The least frequently used entries go, only while the counter leaves no room |
| `TileCache.OptionalCache.Put` | crates/tv-server/src/cache.rs:49-73 | The entry is stored; the stored bytes respect the budget unless it is alone; the counter exceeds them by what expired reads left behind |
| `TileCache.OptionalCache.InvalidatePrefix` | crates/tv-server/src/cache.rs:83-96 | Exactly the entries under the prefix go |
| `TileCache.OptionalCache.CleanUp` | crates/tv-server/src/cache.rs:98-117 | Exactly the expired entries go, and their bytes with them |
| `SpillPipeline.StatelessPerBatch` | crates/tv-engine/src/spill_pipeline.rs:414-447 | Stateless operations on many batches are the operations on each batch |
| `SpillPipeline.StreamIsPipeline` | crates/tv-engine/src/spill_pipeline.rs:414-447 | The stream delivers the rows the executor computes on the whole table |
| `SpillPipeline.CollectLimit` | crates/tv-engine/src/spill_pipeline.rs:493-529 | The collector stops with exactly the first n rows |
| `SpillPipeline.LimitThroughSpill` | crates/tv-engine/src/spill_pipeline.rs:493-529 | They are the rows of the whole pipeline with the limit |
| `Moments.MergeIsExact` | crates/tv-engine/src/stats.rs:353-385 | Merging two accumulators gives the exact mean and second to fourth deviation sums of the concatenation |
| `Moments.UpdateIsExact` | crates/tv-engine/src/stats.rs:322-335 | The one-pass update does the same for one more value |
| `Moments.BatchAcc.UpdateMoments` | crates/tv-engine/src/stats.rs:322-335 | After the assignments an accumulator that held the exact moments of a list holds those of the list and one more value |
| `Moments.BatchAcc.Merge` | crates/tv-engine/src/stats.rs:353-385 | After the assignments an accumulator that held the exact moments of one list holds those of both; empty parts change nothing |
| `Moments.Accumulate` | crates/tv-engine/src/stats.rs:322-385 | Any tree of updates and merges over any split ends in the moments of the whole column |
| `Covariance.PairUpdateIsExact` | crates/tv-engine/src/stats.rs:124-134 | One Welford step on exact centred sums gives the exact centred sums of the longer list |
| `Covariance.CauchySchwarz` | crates/tv-engine/src/stats.rs:136-142 | The squared co-moment is at most the product of the two second moments |
| `Covariance.Correlate` | crates/tv-engine/src/stats.rs:113-142 | After any list of pairs the sums are exact, so the clamp of the correlation never acts |
| `Sketches.RegistersDependOnTheSet` | crates/tv-engine/src/stats.rs:44-75 | HyperLogLog registers depend only on which hashes there are |
| `Sketches.Sketch` | crates/tv-engine/src/stats.rs:33-75 | Any tree of additions and merges ends with the registers of all the hashes |
| `Sketches.HyperLogLog.Merge` | crates/tv-engine/src/stats.rs:69-75 | Merging registers gives the registers of the concatenation |
| `Sketches.TopValuesTracker.Add` | crates/tv-engine/src/stats.rs:235-244 | Counts stay exact while the distinct values fit, and the table overflows exactly when they do not |
| `Sketches.TopValuesTracker.Merge` | crates/tv-engine/src/stats.rs:246-261 | The same after a merge, whatever order the other table gives its entries in |
| `Sketches.TopValuesTracker.TopK` | crates/tv-engine/src/stats.rs:263-284 | The most frequent values with their counts, descending, none left out that occurs more often; nothing after an overflow |
| `Sketches.Track` | crates/tv-engine/src/stats.rs:222-261 | Any tree of additions and merges ends with the exact table or an overflow, as the distinct count decides |
| `TDigest.TDigest.Add` | crates/tv-engine/src/quantile_sketch.rs:39-65 | The value joins the first nearest centroid if it has room or opens one, an overlong list is compressed; one unit of weight and the value's share of the moment are added, and no mean leaves the data's range |
| `TDigest.TDigest.Compress` | crates/tv-engine/src/quantile_sketch.rs:67-92 | Neighbours merge while they fit; weight, moment and range are conserved and means end ascending |
| `TDigest.TDigest.Merge` | crates/tv-engine/src/quantile_sketch.rs:94-101 | Weight and moment add up, while the count takes the other digest's values twice |
| `TDigest.Quantile` | crates/tv-engine/src/quantile_sketch.rs:103-123 | The mean at which the running weight first reaches the target; nothing for an empty digest |
| `TDigest.Cdf` | crates/tv-engine/src/quantile_sketch.rs:125-144 | The share of the weight at or below the point; one half for an empty digest |
| `TDigest.QuantileCdfAdjoint` | crates/tv-engine/src/quantile_sketch.rs:103-144 | For a probability above zero the quantile is at most `x` if and only if the probability is at most the cdf at `x` |
| `TDigest.QuantileAndCdfLaws` | crates/tv-engine/src/quantile_sketch.rs:103-144 | Both are monotone, the cdf is a probability, and the cdf of a quantile is at least its probability |
| `Bytes.DecodeEncode` | crates/tv-engine/src/bitmap_index.rs:59-81 | Little-endian decoding undoes encoding |
| `Bytes.EncodeDecode` | crates/tv-engine/src/bitmap_index.rs:59-81 | And encoding undoes decoding |
| `FrameDecoder.MoreBytes` | web/src/api/http.ts:115-146 | Bytes that arrive later do not change the frames already whole |
| `FrameDecoder.DecodeStream` | web/src/api/http.ts:115-146 | For every split of the stream into chunks the tiles are those of the whole stream at once |
| `FrameDecoder.RestIsUnfinished` | web/src/api/http.ts:123-131 | No complete frame is left pending |
| `FrameDecoder.DecodingUndoesEncoding` | web/src/api/http.ts:115-146 | Decoding a list of encoded frames reports exactly those with a payload within the size cap, and leaves nothing |

## Left out

- `FoldingLimits.FoldingIsExact`: when a dropped column is read elsewhere, whether the other members imply the dropped equality is a question of propositional logic; the condition says so for the rows that are not null. The finite check of the truth tables (`SameTableIsSound`) is exact for predicates over flags; other atoms may depend on each other.
- `OptimizerSoundness.PruningKeepsMeaning`: sufficient for whole lists; exact for a whole-row deduplication and a group-by (`PruningAheadOfDedupIsExact`), where the kernels and tables that tell the lists apart include texts that contain the separator of the joined keys, and for a standard deviation a kernel that reads such a text as a number.
- `OptimizerSoundness.FusionKeepsMeaning`: the bucket condition is sufficient for whole lists and exact for one and for two sorts with a limit (`PairFusionIsExact`, `TwoSortFusionIsExact`).
- `TileQuery.QueryFilteredTile`: derived columns are free of ranks and tiles; files in several parts (`read_filtered_tile_multifile`), dictionary encoding and serialisation are not modelled. The Parquet library is taken to run the row filter over every chosen row group that holds a row, and to hand out no empty batch.
- `TileQuery.TileIsRectangleIff`: column names are not repeated, in the file or after any operation; with a repeated name the names shown do not decide (`RepeatedNameMisleads`). A display without columns counts as nothing shown.
- `PruningLimits.BloomIsExact`: exact for the answers of the recursion; a predicate as a whole may be pruned soundly although one of its clauses is not, when another clause is never true.
- `StreamingAggSoundness.Execute`: agreement asks that key values survive the trip through text and back and that none is the null marker, as the code formats and casts them back; it also asks that aggregated cells are numbers within the float range.
- `ViewKinds.ProvisionalExactly`: the kind of view a build yields; a build with two or more materialising operations serves one of them only and is not compared with the executor.
- `SingleFlight.OneViewPerKey`: no task is cancelled while it builds.
- `Merge.MergeOfSortedRuns`: the binary heap is modelled as popping some least entry, with ties broken arbitrarily as a function of the state; the heap's array layout is not modelled.
- `TDigest.TDigest.Add`: exact arithmetic; serialisation of digests and the quantile index files are left out.
- `Bits.ClearLowest`: words are lists of bits, least significant first, of the width their user fixes.
- TopK inside the executor has the meaning of `top_k_from_batches` (sort, then take), though `apply_op` passes it through unchanged.
- `stream_top_k`: its max-heap pops the best row, so it is not a top-k and nothing is claimed of it.
- Selectivity estimates are an arbitrary score; their quality is not modelled.
- NaN, signed zero, overflow and rounding of floats; unsigned and decimal physical statistics; nested schemas.
- Type errors inside Arrow casts, and batches with no columns, which Arrow may refuse.
- Deduplication keys joined with the character of code one may collide for texts that contain it; the model joins them the same way.
- The reservoir sampler, histograms, cardinality classes, row-group sampling and the HyperLogLog estimate's error.
- Saving and loading of the bloom, roaring, mark, sort and sparse index files, and the mark index's construction.
- Flight, HTTP routes, ADBC, object stores, CSV, JSON and IPC sources, job registry, catalogs, SDK and user interface: little or no logic to prove.
- `pre_sorted_by` as a claim about the order of a whole file: it is checked per row group only.
- The heap of tiles, deltas and the small queue of the web client: sound but easy.
