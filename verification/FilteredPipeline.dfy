/** Filtered, stateless pipelines (crates/tv-engine/src/executor.rs, filter_util.rs): they keep the rows the
    combined filter accepts and map them one by one, so that a reader may apply the filter, and the
    remaining operations may run on a window of its rows alone. */
module FilteredPipeline {
  import opened Seqs
  import opened Exprs
  import opened Executor
  import opened Meaning
  import opened Relevance
  import opened RowWise
  import opened ColumnPruning
  import opened Pruning
  import FilteredTiles
  import SliceBatches
  import R = RoaringIndex

  // ---- the combined filter

  function FilterPreds(ops: seq<ViewOp>): seq<Predicate> {
    if ops == [] then []
    else (if ops[0].Filter? then [ops[0].pred] else []) + FilterPreds(ops[1..])
  }

  /** `extract_combined_filter`. */
  function CombinedFilter(ops: seq<ViewOp>): Option<Predicate> {
    var preds := FilterPreds(ops);
    if preds == [] then None else if |preds| == 1 then Some(preds[0]) else Some(And(preds))
  }

  lemma {:induction false} PredsAccept(rt: Runtime, names: seq<string>, row: Row, ops: seq<ViewOp>)
    ensures EvalAll(rt, names, row, FilterPreds(ops)) == Some(true) <==> KeepsAll(rt, names, row, ops)
  {
    if ops != [] {
      PredsAccept(rt, names, row, ops[1..]);
      assert ops == [ops[0]] + ops[1..];
      assert KeepsAll(rt, names, row, ops) <==>
             (ops[0].Filter? ==> EvalPred(rt, names, row, ops[0].pred) == Some(true)) && KeepsAll(rt, names, row, ops[1..]);
      if ops[0].Filter? {
        assert FilterPreds(ops)[1..] == FilterPreds(ops[1..]);
      } else {
        assert FilterPreds(ops) == FilterPreds(ops[1..]);
      }
    }
  }

  /** The combined filter accepts the rows that every filter accepts. */
  lemma CombinedAccepts(rt: Runtime, names: seq<string>, row: Row, ops: seq<ViewOp>)
    requires CombinedFilter(ops).Some?
    ensures EvalPred(rt, names, row, CombinedFilter(ops).value) == Some(true) <==> KeepsAll(rt, names, row, ops)
  {
    PredsAccept(rt, names, row, ops);
    var preds := FilterPreds(ops);
    if |preds| == 1 {
      assert preds[1..] == [];
    }
  }

  lemma {:induction false} CombinedKeeps(rt: Runtime, names: seq<string>, rows: seq<Row>, ops: seq<ViewOp>)
    requires CombinedFilter(ops).Some?
    ensures FilterRows(rt, names, rows, CombinedFilter(ops).value) == KeptRows(rt, names, rows, ops)
  {
    if rows != [] {
      CombinedAccepts(rt, names, rows[0], ops);
      CombinedKeeps(rt, names, rows[1..], ops);
    }
  }

  // ---- the whole pipeline

  function NotFilters(ops: seq<ViewOp>): seq<ViewOp> {
    BeforeFilters(ops) + PhasesFrom(ops, 4)
  }

  /** `classify_pipeline` finds no operation that needs the whole table, and no expression ranks rows. */
  ghost predicate Stateless(ops: seq<ViewOp>) {
    forall op :: op in ops ==> op.Filter? || IsRowWise(op)
  }

  lemma {:induction false} PhasesFromMembers(ops: seq<ViewOp>, from: nat, op: ViewOp)
    requires from <= PHASES && op in PhasesFrom(ops, from)
    ensures op in ops && from <= PhaseOf(op)
    decreases PHASES - from
  {
    if from < PHASES {
      InPhasePure(ops, from, from);
      if op !in InPhase(ops, from) {
        PhasesFromMembers(ops, from + 1, op);
      }
    }
  }

  lemma EarlyPhasesTakeAway(ops: seq<ViewOp>, phase: nat)
    requires phase < FILTER_PHASE
    ensures forall op :: op in InPhase(ops, phase) ==> OnlyTakesAway(op)
  {
    InPhasePure(ops, phase, phase);
  }

  lemma AheadTakesAway(ops: seq<ViewOp>)
    ensures forall i :: 0 <= i < |BeforeFilters(ops)| ==> OnlyTakesAway(BeforeFilters(ops)[i])
    ensures AllRowWise(BeforeFilters(ops))
  {
    forall phase: nat | phase < FILTER_PHASE {
      EarlyPhasesTakeAway(ops, phase);
    }
  }

  lemma BehindIsRowWise(ops: seq<ViewOp>)
    requires Stateless(ops)
    ensures AllRowWise(PhasesFrom(ops, 4))
  {
    forall i | 0 <= i < |PhasesFrom(ops, 4)|
      ensures IsRowWise(PhasesFrom(ops, 4)[i])
    {
      PhasesFromMembers(ops, 4, PhasesFrom(ops, 4)[i]);
    }
  }

  /** The filter bucket holds the list's filters and nothing else. */
  lemma {:induction false} BucketKeepsAll(rt: Runtime, names: seq<string>, row: Row, ops: seq<ViewOp>)
    ensures KeepsAll(rt, names, row, InPhase(ops, FILTER_PHASE)) <==> KeepsAll(rt, names, row, ops)
    ensures AllOk(rt, names, InPhase(ops, FILTER_PHASE)) <==> AllOk(rt, names, ops)
  {
    forall op: ViewOp | op.Filter?
      ensures op in InPhase(ops, FILTER_PHASE) <==> op in ops
    {
      FilterInBucket(ops, op);
    }
  }

  lemma {:induction false} FilterInBucket(ops: seq<ViewOp>, op: ViewOp)
    requires op.Filter?
    ensures op in InPhase(ops, FILTER_PHASE) <==> op in ops
  {
    if ops != [] {
      FilterInBucket(ops[1..], op);
    }
  }

  /** Filtering after columns are taken away, when no filter misses one, keeps the rows that filtering first keeps. */
  lemma KeepsAllThrough(rt: Runtime, names: seq<string>, row: Row, ahead: seq<ViewOp>, ops: seq<ViewOp>)
    requires |row| == |names| && (forall i :: 0 <= i < |ahead| ==> OnlyTakesAway(ahead[i]))
    requires AllOk(rt, ThroughNames(names, ahead), ops)
    ensures KeepsAll(rt, ThroughNames(names, ahead), Through(rt, names, ahead, row), ops) <==> KeepsAll(rt, names, row, ops)
  {
    var names', row' := ThroughNames(names, ahead), Through(rt, names, ahead, row);
    forall op | op in ops && op.Filter?
      ensures EvalPred(rt, names', row', op.pred) == EvalPred(rt, names, row, op.pred)
    {
      OkReadsColumns(rt, names', op.pred);
      forall c | c in PredColumns(op.pred)
        ensures CellOf(names', row', c) == CellOf(names, row, c)
      {
        ThroughKeepsCell(rt, names, ahead, row, c);
      }
      PredReadsItsColumns(rt, PredColumns(op.pred), names', row', names, row, op.pred);
    }
  }

  lemma {:induction false} KeptThrough(rt: Runtime, names: seq<string>, rows: seq<Row>, ahead: seq<ViewOp>, ops: seq<ViewOp>)
    requires RowsFit(names, rows) && (forall i :: 0 <= i < |ahead| ==> OnlyTakesAway(ahead[i]))
    requires AllOk(rt, ThroughNames(names, ahead), ops)
    ensures KeptRows(rt, ThroughNames(names, ahead), AllThrough(rt, names, ahead, rows), ops)
         == AllThrough(rt, names, ahead, KeptRows(rt, names, rows, ops))
  {
    if rows != [] {
      KeptThrough(rt, names, rows[1..], ahead, ops);
      KeepsAllThrough(rt, names, rows[0], ahead, ops);
      ThroughCons(rt, names, ahead, rows[0], rows[1..]);
      assert [rows[0]] + rows[1..] == rows;
      ThroughCons(rt, names, ahead, rows[0], KeptRows(rt, names, rows[1..], ops));
    }
  }

  lemma ThroughCons(rt: Runtime, names: seq<string>, ahead: seq<ViewOp>, row: Row, rest: seq<Row>)
    ensures var all := AllThrough(rt, names, ahead, [row] + rest);
            all[0] == Through(rt, names, ahead, row) && all[1..] == AllThrough(rt, names, ahead, rest)
  {
  }

  lemma {:induction false} KeptAppend(rt: Runtime, names: seq<string>, a: seq<Row>, b: seq<Row>, ops: seq<ViewOp>)
    ensures KeptRows(rt, names, a + b, ops) == KeptRows(rt, names, a, ops) + KeptRows(rt, names, b, ops)
  {
    if a == [] {
      assert a + b == b;
    } else {
      assert (a + b)[0] == a[0] && (a + b)[1..] == a[1..] + b;
      KeptAppend(rt, names, a[1..], b, ops);
    }
  }

  lemma {:induction false} KeptFlattens(rt: Runtime, names: seq<string>, a: seq<seq<Row>>, b: seq<seq<Row>>, ops: seq<ViewOp>)
    requires |a| == |b| && forall i :: 0 <= i < |a| ==> b[i] == KeptRows(rt, names, a[i], ops)
    ensures Flatten(b) == KeptRows(rt, names, Flatten(a), ops)
  {
    if a != [] {
      KeptFlattens(rt, names, a[1..], b[1..], ops);
      KeptAppend(rt, names, a[0], Flatten(a[1..]), ops);
    }
  }

  lemma {:induction false} FlattenFits(names: seq<string>, batches: seq<seq<Row>>)
    requires forall b :: 0 <= b < |batches| ==> RowsFit(names, batches[b])
    ensures RowsFit(names, Flatten(batches))
  {
    if batches != [] {
      FlattenFits(names, batches[1..]);
    }
  }

  lemma KeptSame(rt: Runtime, names: seq<string>, a: seq<ViewOp>, b: seq<ViewOp>, rows: seq<Row>)
    requires forall row :: KeepsAll(rt, names, row, a) <==> KeepsAll(rt, names, row, b)
    ensures KeptRows(rt, names, rows, a) == KeptRows(rt, names, rows, b)
  {
    if rows != [] {
      KeptSame(rt, names, a, b, rows[1..]);
      assert KeepsAll(rt, names, rows[0], a) <==> KeepsAll(rt, names, rows[0], b);
    }
  }

  /** The phases ahead of the filters, and the filters: rows filtered first, then mapped. */
  lemma RunToFilters(rt: Runtime, f: Frame, ops: seq<ViewOp>)
    requires WellFormed(f) && f.batches != []
    ensures var ahead := BeforeFilters(ops);
            var mid := Run(rt, f, ahead + InPhase(ops, FILTER_PHASE));
            && ThroughOk(rt, f.names, ahead)
            && (mid.Ok? <==> AllOk(rt, ThroughNames(f.names, ahead), ops))
            && (mid.Ok? ==>
                  (mid.frame.names == ThroughNames(f.names, ahead) && mid.frame.batches != []
                  && Flatten(mid.frame.batches) == AllThrough(rt, f.names, ahead, KeptRows(rt, f.names, Flatten(f.batches), ops))))
  {
    var ahead, filters := BeforeFilters(ops), InPhase(ops, FILTER_PHASE);
    AheadTakesAway(ops);
    NeverFails(rt, f.names, ahead);
    RunRowWise(rt, f, ahead);
    RunAppend(rt, f, ahead, filters);
    var g := Run(rt, f, ahead).frame;
    FilterBucket(ops);
    RunFilters(rt, g, filters);
    BucketKeepsAll(rt, g.names, [], ops);
    if AllOk(rt, g.names, ops) {
      forall b | 0 <= b < |f.batches|
        ensures RowsFit(f.names, f.batches[b])
      {
      }
      FlattenFits(f.names, f.batches);
      ThroughBatches(rt, f.names, ahead, f.batches, g.batches);
      KeptFlattens(rt, g.names, g.batches, KeptFrame(rt, g, filters).batches, filters);
      forall row: Row
        ensures KeepsAll(rt, g.names, row, filters) <==> KeepsAll(rt, g.names, row, ops)
      {
        BucketKeepsAll(rt, g.names, row, ops);
      }
      KeptSame(rt, g.names, filters, ops, Flatten(g.batches));
      KeptThrough(rt, f.names, Flatten(f.batches), ahead, ops);
    }
  }

  lemma {:induction false} NeverFails(rt: Runtime, names: seq<string>, ahead: seq<ViewOp>)
    requires forall i :: 0 <= i < |ahead| ==> OnlyTakesAway(ahead[i])
    ensures ThroughOk(rt, names, ahead)
    decreases |ahead|
  {
    if ahead != [] {
      NeverFails(rt, StepNames(names, ahead[0]), ahead[1..]);
    }
  }

  /** A stateless pipeline filters the table and maps the rows it keeps. */
  lemma ExecIsFilterThenMap(rt: Runtime, f: Frame, ops: seq<ViewOp>)
    requires WellFormed(f) && f.batches != [] && Stateless(ops) && Exec(rt, f, ops).Ok?
    ensures ThroughOk(rt, f.names, NotFilters(ops)) && Exec(rt, f, ops).frame.names == ThroughNames(f.names, NotFilters(ops))
    ensures Flatten(Exec(rt, f, ops).frame.batches) == AllThrough(rt, f.names, NotFilters(ops), KeptRows(rt, f.names, Flatten(f.batches), ops))
  {
    var ahead, filters, behind := BeforeFilters(ops), InPhase(ops, FILTER_PHASE), PhasesFrom(ops, 4);
    NormalizeAroundFilters(ops);
    Reassociate(ahead, filters, behind);
    RunAppend(rt, f, ahead + filters, behind);
    RunToFilters(rt, f, ops);
    var mid := Run(rt, f, ahead + filters).frame;
    BehindIsRowWise(ops);
    RunRowWise(rt, mid, behind);
    ThroughBatches(rt, mid.names, behind, mid.batches, Run(rt, mid, behind).frame.batches);
    var kept := KeptRows(rt, f.names, Flatten(f.batches), ops);
    ThroughAppend(rt, f.names, ahead, behind, []);
    forall i | 0 <= i < |kept|
      ensures AllThrough(rt, mid.names, behind, AllThrough(rt, f.names, ahead, kept))[i] == AllThrough(rt, f.names, NotFilters(ops), kept)[i]
    {
      ThroughAppend(rt, f.names, ahead, behind, kept[i]);
    }
  }

  /** The whole pipeline succeeds when its operations do and no filter misses a column taken away ahead of it. */
  lemma ExecSucceedsIff(rt: Runtime, f: Frame, ops: seq<ViewOp>)
    requires WellFormed(f) && f.batches != [] && Stateless(ops)
    ensures Exec(rt, f, ops).Ok? <==>
            ThroughOk(rt, f.names, NotFilters(ops)) && AllOk(rt, ThroughNames(f.names, BeforeFilters(ops)), ops)
  {
    var ahead, filters, behind := BeforeFilters(ops), InPhase(ops, FILTER_PHASE), PhasesFrom(ops, 4);
    NormalizeAroundFilters(ops);
    Reassociate(ahead, filters, behind);
    RunAppend(rt, f, ahead + filters, behind);
    RunToFilters(rt, f, ops);
    ThroughAppend(rt, f.names, ahead, behind, []);
    var mid := Run(rt, f, ahead + filters);
    if mid.Ok? {
      BehindIsRowWise(ops);
      RunRowWise(rt, mid.frame, behind);
    }
  }

  // ---- the remaining operations on a tile

  /** The loop of `execute_pipeline_skip_filter`. */
  function RunSkippingFilters(rt: Runtime, f: Frame, ops: seq<ViewOp>): Outcome
    decreases |ops|
  {
    if ops == [] || f.batches == [] then Ok(f)
    else if ops[0].Filter? then RunSkippingFilters(rt, f, ops[1..])
    else
      var next := ApplyOp(rt, f, ops[0]);
      if next.Err? then Err else RunSkippingFilters(rt, next.frame, ops[1..])
  }

  lemma {:induction false} SkipIsRunWithout(rt: Runtime, f: Frame, a: seq<ViewOp>, filters: seq<ViewOp>, b: seq<ViewOp>)
    requires AllFilters(filters) && (forall op :: op in a + b ==> !op.Filter?)
    ensures RunSkippingFilters(rt, f, a + (filters + b)) == Run(rt, f, a + b)
    decreases |a| + |filters| + |b|
  {
    var whole := a + (filters + b);
    if f.batches != [] && whole != [] {
      if a != [] {
        assert a[0] in a + b;
        assert whole[0] == a[0] && whole[1..] == a[1..] + (filters + b) && (a + b)[0] == a[0] && (a + b)[1..] == a[1..] + b;
        var next := ApplyOp(rt, f, a[0]);
        assert forall op :: op in a[1..] + b ==> op in a + b;
        if next.Ok? {
          SkipIsRunWithout(rt, next.frame, a[1..], filters, b);
        }
      } else if filters != [] {
        assert whole[0] == filters[0] && whole[1..] == a + (filters[1..] + b);
        SkipIsRunWithout(rt, f, a, filters[1..], b);
      } else {
        assert b[0] in a + b;
        assert whole == b && a + b == b && a + (filters + b[1..]) == b[1..] && a + b[1..] == b[1..];
        assert forall op :: op in a + b[1..] ==> op in a + b;
        var next := ApplyOp(rt, f, b[0]);
        if next.Ok? {
          SkipIsRunWithout(rt, next.frame, a, filters, b[1..]);
        }
      }
    }
  }

  lemma NoFiltersLeft(ops: seq<ViewOp>)
    ensures forall op :: op in NotFilters(ops) ==> !op.Filter?
  {
    AheadTakesAway(ops);
    forall op | op in NotFilters(ops)
      ensures !op.Filter?
    {
      if op !in BeforeFilters(ops) {
        PhasesFromMembers(ops, 4, op);
      } else {
        var i :| 0 <= i < |BeforeFilters(ops)| && BeforeFilters(ops)[i] == op;
        assert OnlyTakesAway(BeforeFilters(ops)[i]);
      }
    }
  }

  /** Running the remaining operations on a tile maps its rows. */
  lemma TileIsMapped(rt: Runtime, names: seq<string>, tile: seq<seq<Row>>, ops: seq<ViewOp>)
    requires Stateless(ops) && ThroughOk(rt, names, NotFilters(ops)) && tile != []
    ensures var out := RunSkippingFilters(rt, Frame(names, tile), Normalize(ops));
            && out.Ok? && out.frame.names == ThroughNames(names, NotFilters(ops))
            && Flatten(out.frame.batches) == AllThrough(rt, names, NotFilters(ops), Flatten(tile))
  {
    NormalizeAroundFilters(ops);
    FilterBucket(ops);
    NoFiltersLeft(ops);
    SkipIsRunWithout(rt, Frame(names, tile), BeforeFilters(ops), InPhase(ops, FILTER_PHASE), PhasesFrom(ops, 4));
    AheadTakesAway(ops);
    BehindIsRowWise(ops);
    RunRowWise(rt, Frame(names, tile), NotFilters(ops));
    ThroughBatches(rt, names, NotFilters(ops), tile, Run(rt, Frame(names, tile), NotFilters(ops)).frame.batches);
  }

  /** `execute_pipeline_skip_filter`. */
  method ExecuteSkippingFilters(rt: Runtime, f: Frame, ops: seq<ViewOp>) returns (out: Outcome)
    ensures out == RunSkippingFilters(rt, f, Normalize(ops))
  {
    if f.batches == [] {
      return Ok(f);
    }
    var normalized := Normalize(ops);
    var current := f;
    var i := 0;
    while i < |normalized| && current.batches != []
      invariant 0 <= i <= |normalized|
      invariant RunSkippingFilters(rt, f, normalized) == RunSkippingFilters(rt, current, normalized[i..])
    {
      var op := normalized[i];
      assert normalized[i..][0] == op && normalized[i..][1..] == normalized[i + 1..];
      if !op.Filter? {
        var next := ApplyOp(rt, current, op);
        if next.Err? {
          return Err;
        }
        current := next.frame;
      }
      i := i + 1;
    }
    out := Ok(current);
  }

  // ---- a tile of the pipeline over a file

  function TableOf(names: seq<string>, file: seq<RowGroup>): Frame {
    Frame(names, seq(|file|, g requires 0 <= g < |file| => file[g].rows))
  }

  lemma {:induction false} MatchesOfPrefix(rt: Runtime, names: seq<string>, file: seq<RowGroup>, ops: seq<ViewOp>, n: nat)
    requires CombinedFilter(ops).Some? && n <= |file|
    ensures FilteredTiles.MatchesIn(rt, names, file, CombinedFilter(ops).value, FilteredTiles.UpTo(n))
         == KeptRows(rt, names, Flatten(TableOf(names, file).batches[..n]), ops)
  {
    var pred, batches := CombinedFilter(ops).value, TableOf(names, file).batches;
    if n == 0 {
      assert batches[..n] == [] && FilteredTiles.UpTo(n) == [];
    } else {
      MatchesOfPrefix(rt, names, file, ops, n - 1);
      assert FilteredTiles.UpTo(n) == FilteredTiles.UpTo(n - 1) + [n - 1];
      FilteredTiles.MatchesInAppend(rt, names, file, pred, FilteredTiles.UpTo(n - 1), [n - 1]);
      FilteredTiles.MatchesInOne(rt, names, file, pred, n - 1);
      CombinedKeeps(rt, names, file[n - 1].rows, ops);
      FlattenNext(batches, n - 1);
      KeptAppend(rt, names, Flatten(batches[..n - 1]), batches[n - 1], ops);
    }
  }

  /** The reader's matching rows are the rows of the table that every filter accepts. */
  lemma MatchesAreKept(rt: Runtime, names: seq<string>, file: seq<RowGroup>, ops: seq<ViewOp>)
    requires CombinedFilter(ops).Some?
    ensures FilteredTiles.AllMatches(rt, names, file, CombinedFilter(ops).value)
         == KeptRows(rt, names, Flatten(TableOf(names, file).batches), ops)
  {
    MatchesOfPrefix(rt, names, file, ops, |file|);
    assert TableOf(names, file).batches[..|file|] == TableOf(names, file).batches;
  }

  /** The rows the whole pipeline computes on the file. */
  ghost function PipelineRows(rt: Runtime, names: seq<string>, file: seq<RowGroup>, ops: seq<ViewOp>): seq<Row>
    requires Exec(rt, TableOf(names, file), ops).Ok?
  {
    Flatten(Exec(rt, TableOf(names, file), ops).frame.batches)
  }

  /** One kept row for each row the pipeline computes. */
  lemma PipelineRowsAreMapped(rt: Runtime, names: seq<string>, file: seq<RowGroup>, ops: seq<ViewOp>)
    requires CombinedFilter(ops).Some? && Stateless(ops) && WellFormed(TableOf(names, file))
    requires Exec(rt, TableOf(names, file), ops).Ok?
    ensures file != [] ==> ThroughOk(rt, names, NotFilters(ops))
    ensures PipelineRows(rt, names, file, ops)
         == AllThrough(rt, names, NotFilters(ops), FilteredTiles.AllMatches(rt, names, file, CombinedFilter(ops).value))
  {
    MatchesAreKept(rt, names, file, ops);
    if file != [] {
      ExecIsFilterThenMap(rt, TableOf(names, file), ops);
    }
  }

  // ---- when a tile fails

  lemma {:induction false} PredsOkTogether(rt: Runtime, names: seq<string>, ops: seq<ViewOp>)
    ensures PredsOk(rt, names, FilterPreds(ops)) <==> AllOk(rt, names, ops)
  {
    if ops != [] {
      PredsOkTogether(rt, names, ops[1..]);
      assert ops == [ops[0]] + ops[1..];
      assert AllOk(rt, names, ops) <==> (ops[0].Filter? ==> PredOk(rt, names, ops[0].pred)) && AllOk(rt, names, ops[1..]);
      if ops[0].Filter? {
        assert FilterPreds(ops)[1..] == FilterPreds(ops[1..]);
      } else {
        assert FilterPreds(ops) == FilterPreds(ops[1..]);
      }
    }
  }

  /** The combined filter raises an error exactly where one of the filters does. */
  lemma CombinedOk(rt: Runtime, names: seq<string>, ops: seq<ViewOp>)
    requires CombinedFilter(ops).Some?
    ensures PredOk(rt, names, CombinedFilter(ops).value) <==> AllOk(rt, names, ops)
  {
    PredsOkTogether(rt, names, ops);
    var preds := FilterPreds(ops);
    if |preds| == 1 {
      assert preds[1..] == [];
    }
  }

  /** Filters that find their columns after some were taken away find them among all. */
  lemma OkOnMoreColumns(rt: Runtime, names: seq<string>, ahead: seq<ViewOp>, ops: seq<ViewOp>)
    requires forall i :: 0 <= i < |ahead| ==> OnlyTakesAway(ahead[i])
    ensures AllOk(rt, ThroughNames(names, ahead), ops) ==> AllOk(rt, names, ops)
  {
    var names' := ThroughNames(names, ahead);
    if AllOk(rt, names', ops) {
      forall op | op in ops && op.Filter?
        ensures PredOk(rt, names, op.pred)
      {
        OkReadsColumns(rt, names', op.pred);
        forall c | c in PredColumns(op.pred)
          ensures c in names
        {
          ThroughKeepsCell(rt, names, ahead, seq(|names|, i => Null), c);
        }
        PredOkOnItsColumns(rt, PredColumns(op.pred), names', names, op.pred);
      }
    }
  }

  /** The remaining operations on a tile without empty batches: they map its rows, or fail by the schema. */
  lemma TileIsMappedOrFails(rt: Runtime, names: seq<string>, tile: seq<seq<Row>>, ops: seq<ViewOp>)
    requires Stateless(ops) && [] !in tile
    ensures var out, rows := RunSkippingFilters(rt, Frame(names, tile), Normalize(ops)), Flatten(tile);
            && (out.Err? <==> rows != [] && !ThroughOk(rt, names, NotFilters(ops)))
            && (out.Ok? ==> Flatten(out.frame.batches) == AllThrough(rt, names, NotFilters(ops), rows))
            && (out.Ok? && rows != [] ==> out.frame.names == ThroughNames(names, NotFilters(ops)))
  {
    SliceBatches.NoEmptyBatch(tile);
    if tile != [] {
      if ThroughOk(rt, names, NotFilters(ops)) {
        TileIsMapped(rt, names, tile, ops);
      } else {
        TileErrs(rt, names, tile, ops);
      }
    }
  }

  lemma TileErrs(rt: Runtime, names: seq<string>, tile: seq<seq<Row>>, ops: seq<ViewOp>)
    requires Stateless(ops) && tile != []
    ensures RunSkippingFilters(rt, Frame(names, tile), Normalize(ops)).Ok? <==> ThroughOk(rt, names, NotFilters(ops))
  {
    NormalizeAroundFilters(ops);
    FilterBucket(ops);
    NoFiltersLeft(ops);
    SkipIsRunWithout(rt, Frame(names, tile), BeforeFilters(ops), InPhase(ops, FILTER_PHASE), PhasesFrom(ops, 4));
    AheadTakesAway(ops);
    BehindIsRowWise(ops);
    RunRowWise(rt, Frame(names, tile), NotFilters(ops));
  }

  /** A rank of a row alone is one, whatever its place in the table: ranks need the whole table. */
  lemma RanksLookAround(rt: Runtime, names: seq<string>, rows: seq<Row>, i: nat)
    requires i < |rows|
    ensures EvalScalar(rt, names, rows, Rank([]))[i] == EvalScalar(rt, names, [rows[i]], Rank([]))[0] <==> i == 0
  {
  }
}
