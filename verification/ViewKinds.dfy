/** The kinds of materialised views (crates/tv-engine/src/materializer.rs) and which kind a build of
    crates/tv-engine/src/spill_pipeline.rs yields: a provisional one only for a large sort on its own. */
module ViewKinds {
  import opened Seqs
  import opened Exprs

  datatype ViewKind =
    | Batches
    | RowCount
    | SortedRuns
    | AggregateResult
    | SortIndexBacked
    | SparseSortIndexBacked
    | ProvisionalAgg
    | ProvisionalSort
    | BitmapGroupBy

  predicate IsProvisional(kind: ViewKind) {
    kind.ProvisionalAgg? || kind.ProvisionalSort?
  }

  predicate IsDiskBacked(kind: ViewKind) {
    kind.SortedRuns? || kind.AggregateResult? || kind.SparseSortIndexBacked? || kind.SortIndexBacked? || kind.ProvisionalSort?
  }

  predicate IsMaterializing(op: ViewOp) {
    op.Sort? || op.GroupBy? || op.Deduplicate? || op.Sample? || op.Limit? || op.TopK?
  }

  /** What a build observes while it runs. */
  datatype Observed = Observed(totalRows: nat, initialRuns: nat, inMemoryThreshold: nat, progressiveThreshold: nat,
                               sparseThreshold: nat, sparseBuilt: bool)

  /** `build`: top-k, sample and limit before group-by, dedup and sort. */
  function BuildKind(ops: seq<ViewOp>, o: Observed): ViewKind {
    if forall op :: op in ops ==> !IsMaterializing(op) then Batches
    else if exists op :: op in ops && op.TopK? then Batches
    else if exists op :: op in ops && op.Sample? then Batches
    else if exists op :: op in ops && op.Limit? then Batches
    else if exists op :: op in ops && op.GroupBy? then (if exists op :: op in ops && op.Sort? then SortedRuns else AggregateResult)
    else if exists op :: op in ops && op.Deduplicate? then SortedRuns
    else if exists op :: op in ops && op.Sort? then
      if o.initialRuns == 0 || (o.totalRows < o.inMemoryThreshold && o.initialRuns == 1) then SortedRuns
      else if o.totalRows > o.progressiveThreshold && o.initialRuns > 1 then ProvisionalSort
      else if o.totalRows > o.sparseThreshold && o.sparseBuilt then SparseSortIndexBacked
      else SortedRuns
    else Batches
  }

  /** `build_full`: a sort is built to the end; anything else is built as usual. */
  function BuildFullKind(ops: seq<ViewOp>, o: Observed): ViewKind {
    if exists op :: op in ops && op.Sort? then
      if o.totalRows > o.sparseThreshold && o.sparseBuilt then SparseSortIndexBacked else SortedRuns
    else BuildKind(ops, o)
  }

  /** A sort and no other operation that has to see the whole table. */
  predicate SortAlone(ops: seq<ViewOp>) {
    (exists op :: op in ops && op.Sort?) && (forall op :: op in ops && IsMaterializing(op) ==> op.Sort?)
  }

  /** The sort of a pipeline that has no other materialising operation came in several runs, above the threshold. */
  predicate LargeSort(ops: seq<ViewOp>, o: Observed) {
    SortAlone(ops) && o.totalRows > o.progressiveThreshold && o.initialRuns > 1
  }

  /** A build is provisional exactly for a large sort on its own that came in several runs. */
  lemma ProvisionalExactly(ops: seq<ViewOp>, o: Observed)
    ensures IsProvisional(BuildKind(ops, o)) <==> LargeSort(ops, o)
  {
    if exists op :: op in ops && op.Sort? {
      var sort :| sort in ops && sort.Sort?;
      assert IsMaterializing(sort);
    }
  }

  /** What replaces a view from the background is never provisional. */
  lemma BuildFullIsNeverProvisional(ops: seq<ViewOp>, o: Observed)
    ensures !IsProvisional(BuildFullKind(ops, o))
  {
    ProvisionalExactly(ops, o);
  }

  /** What a caller hands the cache to build a view with: the spill pipeline's `build`, or a closure that
      keeps the computed batches in memory. */
  datatype Builder = Spill(ops: seq<ViewOp>) | InMemory

  function BuilderKind(builder: Builder, o: Observed): ViewKind {
    match builder
    case Spill(ops) => BuildKind(ops, o)
    case InMemory => Batches
  }
}
