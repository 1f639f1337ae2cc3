/** Operations that treat every row on its own: the pipelines `classify_pipeline`
    (crates/tv-engine/src/filter_util.rs) lets the engine run tile by tile. */
module RowWise {
  import opened Seqs
  import opened Exprs
  import opened Executor
  import opened ColumnPruning

  // ---- scalar expressions without ranks

  /** No `Rank` and no `NTile` anywhere: those look at the other rows of the batch. */
  predicate RankFree(e: ScalarExpr)
    decreases e
  {
    match e
    case Column(_) => true
    case Lit(_) => true
    case BinOp(_, left, right) => RankFree(left) && RankFree(right)
    case Unary(_, arg) => RankFree(arg)
    case Concat(parts) => AllRankFree(parts)
    case Coalesce(exprs) => AllRankFree(exprs)
    case Case(whens, elseExpr) =>
      WhensRankFree(whens) && match elseExpr { case None => true case Some(other) => RankFree(other) }
    case Rank(_) => false
    case NTile(_) => false
  }

  predicate AllRankFree(es: seq<ScalarExpr>)
    decreases es
  {
    es == [] || (RankFree(es[0]) && AllRankFree(es[1..]))
  }

  predicate WhensRankFree(whens: seq<When>)
    decreases whens
  {
    whens == [] || (ArmRankFree(whens[0]) && WhensRankFree(whens[1..]))
  }

  predicate ArmRankFree(w: When)
    decreases w
  {
    RankFree(w.value)
  }

  lemma {:induction false} ConcatAlone(rt: Runtime, cols: seq<seq<Cell>>, ones: seq<seq<Cell>>, i: nat)
    requires SameAt(cols, ones, i)
    ensures ConcatCells(rt, cols, i) == ConcatCells(rt, ones, 0)
    ensures CoalesceCells(rt, cols, i) == CoalesceCells(rt, ones, 0)
  {
    if cols != [] {
      ConcatAlone(rt, cols[1..], ones[1..], i);
    }
  }

  /** The columns at row `i` are the one-row columns. */
  ghost predicate SameAt(cols: seq<seq<Cell>>, ones: seq<seq<Cell>>, i: nat) {
    && |cols| == |ones|
    && forall k :: 0 <= k < |cols| ==> i < |cols[k]| && |ones[k]| == 1 && cols[k][i] == ones[k][0]
  }

  /** Evaluated over a batch, a rank-free expression gives each row what it gives the row alone. */
  lemma {:induction false} ScalarAlone(rt: Runtime, names: seq<string>, rows: seq<Row>, e: ScalarExpr, i: nat)
    requires RankFree(e) && i < |rows|
    ensures EvalScalar(rt, names, rows, e)[i] == EvalScalar(rt, names, [rows[i]], e)[0]
    decreases e
  {
    match e
    case Column(_) =>
    case Lit(_) =>
    case BinOp(_, left, right) =>
      ScalarAlone(rt, names, rows, left, i);
      ScalarAlone(rt, names, rows, right, i);
    case Unary(_, arg) => ScalarAlone(rt, names, rows, arg, i);
    case Concat(parts) =>
      ScalarsAlone(rt, names, rows, parts, i);
      ConcatAlone(rt, EvalScalars(rt, names, rows, parts), EvalScalars(rt, names, [rows[i]], parts), i);
    case Coalesce(exprs) =>
      ScalarsAlone(rt, names, rows, exprs, i);
      ConcatAlone(rt, EvalScalars(rt, names, rows, exprs), EvalScalars(rt, names, [rows[i]], exprs), i);
    case Case(whens, elseExpr) =>
      match elseExpr {
        case None =>
          WhensAlone(rt, names, rows, whens, seq(|rows|, k => Null), seq(1, k => Null), i);
        case Some(other) =>
          ScalarAlone(rt, names, rows, other, i);
          WhensAlone(rt, names, rows, whens, EvalScalar(rt, names, rows, other), EvalScalar(rt, names, [rows[i]], other), i);
      }
  }

  lemma {:induction false} ScalarsAlone(rt: Runtime, names: seq<string>, rows: seq<Row>, es: seq<ScalarExpr>, i: nat)
    requires AllRankFree(es) && i < |rows|
    ensures SameAt(EvalScalars(rt, names, rows, es), EvalScalars(rt, names, [rows[i]], es), i)
    decreases es
  {
    if es != [] {
      ScalarAlone(rt, names, rows, es[0], i);
      ScalarsAlone(rt, names, rows, es[1..], i);
    }
  }

  lemma {:induction false} WhensAlone(rt: Runtime, names: seq<string>, rows: seq<Row>, whens: seq<When>, otherwise: seq<Cell>, one: seq<Cell>, i: nat)
    requires WhensRankFree(whens) && i < |rows| == |otherwise| && |one| == 1 && one[0] == otherwise[i]
    ensures EvalWhens(rt, names, rows, whens, otherwise)[i] == EvalWhens(rt, names, [rows[i]], whens, one)[0]
    decreases whens
  {
    if whens != [] {
      ArmAlone(rt, names, rows, whens[0], i);
      WhensAlone(rt, names, rows, whens[1..], otherwise, one, i);
    }
  }

  lemma ArmAlone(rt: Runtime, names: seq<string>, rows: seq<Row>, w: When, i: nat)
    requires ArmRankFree(w) && i < |rows|
    ensures EvalArm(rt, names, rows, w)[i] == EvalArm(rt, names, [rows[i]], w)[0]
    decreases w
  {
    ScalarAlone(rt, names, rows, w.value, i);
  }

  // ---- operations

  /** A stateless operation other than a filter, applied to rows one at a time. */
  predicate IsRowWise(op: ViewOp) {
    op.Select? || op.Drop? || op.Rename? || op.Approximate? || (op.Derive? && RankFree(op.expr))
  }

  ghost predicate AllRowWise(ops: seq<ViewOp>) {
    forall i :: 0 <= i < |ops| ==> IsRowWise(ops[i])
  }

  function StepNames(names: seq<string>, op: ViewOp): seq<string> {
    match op
    case Select(columns) => Present(names, columns)
    case Drop(columns) => Gather(names, KeepIndices(names, columns))
    case Derive(name, _) => names + [name]
    case Rename(mappings) => RenameAll(names, mappings)
    case _ => names
  }

  function Step(rt: Runtime, names: seq<string>, op: ViewOp, row: Row): Row {
    match op
    case Select(columns) => Pick(names, row, Present(names, columns))
    case Drop(columns) => Gather(row, KeepIndices(names, columns))
    case Derive(_, e) => row + [EvalScalar(rt, names, [row], e)[0]]
    case _ => row
  }

  predicate StepOk(rt: Runtime, names: seq<string>, op: ViewOp) {
    op.Derive? ==> ScalarOk(rt, names, op.expr)
  }

  function Through(rt: Runtime, names: seq<string>, ops: seq<ViewOp>, row: Row): Row
    decreases |ops|
  {
    if ops == [] then row else Through(rt, StepNames(names, ops[0]), ops[1..], Step(rt, names, ops[0], row))
  }

  function ThroughNames(names: seq<string>, ops: seq<ViewOp>): seq<string>
    decreases |ops|
  {
    if ops == [] then names else ThroughNames(StepNames(names, ops[0]), ops[1..])
  }

  predicate ThroughOk(rt: Runtime, names: seq<string>, ops: seq<ViewOp>)
    decreases |ops|
  {
    ops == [] || (StepOk(rt, names, ops[0]) && ThroughOk(rt, StepNames(names, ops[0]), ops[1..]))
  }

  function AllThrough(rt: Runtime, names: seq<string>, ops: seq<ViewOp>, rows: seq<Row>): seq<Row> {
    seq(|rows|, i requires 0 <= i < |rows| => Through(rt, names, ops, rows[i]))
  }

  function StepRows(rt: Runtime, names: seq<string>, op: ViewOp, rows: seq<Row>): seq<Row> {
    seq(|rows|, i requires 0 <= i < |rows| => Step(rt, names, op, rows[i]))
  }

  lemma StepIsApplyOp(rt: Runtime, f: Frame, op: ViewOp)
    requires IsRowWise(op)
    ensures ApplyOp(rt, f, op).Ok? <==> StepOk(rt, f.names, op)
    ensures ApplyOp(rt, f, op).Ok? ==>
            var g := ApplyOp(rt, f, op).frame;
            && g.names == StepNames(f.names, op) && |g.batches| == |f.batches|
            && forall b :: 0 <= b < |f.batches| ==> g.batches[b] == StepRows(rt, f.names, op, f.batches[b])
  {
    var next := ApplyOp(rt, f, op);
    if next.Ok? {
      forall b | 0 <= b < |f.batches|
        ensures next.frame.batches[b] == StepRows(rt, f.names, op, f.batches[b])
      {
        if op.Derive? {
          var rows := f.batches[b];
          forall i | 0 <= i < |rows|
            ensures DeriveRows(rt, f.names, rows, op.expr)[i] == Step(rt, f.names, op, rows[i])
          {
            ScalarAlone(rt, f.names, rows, op.expr, i);
          }
        }
      }
    }
  }

  /** Row-wise operations map every row of every batch through the same function, and fail by the schema alone. */
  lemma {:induction false} RunRowWise(rt: Runtime, f: Frame, ops: seq<ViewOp>)
    requires AllRowWise(ops) && f.batches != []
    ensures Run(rt, f, ops).Ok? <==> ThroughOk(rt, f.names, ops)
    ensures Run(rt, f, ops).Ok? ==>
            var g := Run(rt, f, ops).frame;
            && g.names == ThroughNames(f.names, ops) && |g.batches| == |f.batches|
            && forall b :: 0 <= b < |f.batches| ==> g.batches[b] == AllThrough(rt, f.names, ops, f.batches[b])
    decreases |ops|
  {
    if ops == [] {
      forall b | 0 <= b < |f.batches|
        ensures f.batches[b] == AllThrough(rt, f.names, ops, f.batches[b])
      {
      }
    } else {
      StepIsApplyOp(rt, f, ops[0]);
      var next := ApplyOp(rt, f, ops[0]);
      if next.Ok? {
        RunRowWise(rt, next.frame, ops[1..]);
        forall b | 0 <= b < |f.batches|
          ensures AllThrough(rt, next.frame.names, ops[1..], next.frame.batches[b]) == AllThrough(rt, f.names, ops, f.batches[b])
        {
        }
      }
    }
  }

  lemma {:induction false} ThroughBatches(rt: Runtime, names: seq<string>, ops: seq<ViewOp>, a: seq<seq<Row>>, b: seq<seq<Row>>)
    requires |a| == |b| && forall i :: 0 <= i < |a| ==> b[i] == AllThrough(rt, names, ops, a[i])
    ensures Flatten(b) == AllThrough(rt, names, ops, Flatten(a))
  {
    if a != [] {
      ThroughBatches(rt, names, ops, a[1..], b[1..]);
    }
  }

  /** A window of the mapped rows is the mapped window. */
  lemma ThroughSlice(rt: Runtime, names: seq<string>, ops: seq<ViewOp>, rows: seq<Row>, offset: nat, limit: nat)
    ensures AllThrough(rt, names, ops, Slice(rows, offset, limit)) == Slice(AllThrough(rt, names, ops, rows), offset, limit)
  {
  }

  lemma {:induction false} ThroughAppend(rt: Runtime, names: seq<string>, a: seq<ViewOp>, b: seq<ViewOp>, row: Row)
    ensures Through(rt, names, a + b, row) == Through(rt, ThroughNames(names, a), b, Through(rt, names, a, row))
    ensures ThroughNames(names, a + b) == ThroughNames(ThroughNames(names, a), b)
    ensures ThroughOk(rt, names, a + b) == (ThroughOk(rt, names, a) && ThroughOk(rt, ThroughNames(names, a), b))
    decreases |a|
  {
    if a == [] {
      assert a + b == b;
    } else {
      assert (a + b)[0] == a[0] && (a + b)[1..] == a[1..] + b;
      ThroughAppend(rt, StepNames(names, a[0]), a[1..], b, Step(rt, names, a[0], row));
    }
  }

  // ---- the operations ahead of the filters only take columns away

  predicate OnlyTakesAway(op: ViewOp) {
    op.Select? || op.Drop? || op.Approximate?
  }

  lemma StepKeepsCell(rt: Runtime, names: seq<string>, op: ViewOp, row: Row, c: string)
    requires OnlyTakesAway(op) && |row| == |names|
    ensures |Step(rt, names, op, row)| == |StepNames(names, op)|
    ensures c in StepNames(names, op) ==> c in names && CellOf(StepNames(names, op), Step(rt, names, op, row), c) == CellOf(names, row, c)
  {
    match op
    case Select(columns) => PresentElements(names, columns);
    case Drop(columns) => CellAfterDrop(names, row, columns, c);
    case Approximate(_, _) =>
  }

  /** A column that survives keeps its value. */
  lemma {:induction false} ThroughKeepsCell(rt: Runtime, names: seq<string>, ops: seq<ViewOp>, row: Row, c: string)
    requires |row| == |names| && forall i :: 0 <= i < |ops| ==> OnlyTakesAway(ops[i])
    ensures |Through(rt, names, ops, row)| == |ThroughNames(names, ops)|
    ensures c in ThroughNames(names, ops) ==>
            c in names && CellOf(ThroughNames(names, ops), Through(rt, names, ops, row), c) == CellOf(names, row, c)
    decreases |ops|
  {
    if ops != [] {
      StepKeepsCell(rt, names, ops[0], row, c);
      ThroughKeepsCell(rt, StepNames(names, ops[0]), ops[1..], Step(rt, names, ops[0], row), c);
    }
  }
}
