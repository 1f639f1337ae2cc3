/** Which columns an operation reads. Two tables that agree on the columns an
    operation references go through it alike; a group-by erases every other
    difference, which is what makes pruning unreferenced columns sound. */
module Relevance {
  import opened Seqs
  import opened Exprs
  import opened Aggregates
  import opened Executor

  // ---- the collectors of crates/tv-core/src/optimizer.rs

  function PredColumns(p: Predicate): set<string>
    decreases p
  {
    match p
    case Compare(_, column, _) => {column}
    case Between(column, _, _) => {column}
    case In(column, _) => {column}
    case NotIn(column, _) => {column}
    case Match(_, column, _) => {column}
    case IsNull(column) => {column}
    case IsNotNull(column) => {column}
    case And(exprs) => PredsColumns(exprs)
    case Or(exprs) => PredsColumns(exprs)
    case Not(expr) => PredColumns(expr)
  }

  function PredsColumns(ps: seq<Predicate>): set<string>
    decreases ps
  {
    if ps == [] then {} else PredColumns(ps[0]) + PredsColumns(ps[1..])
  }

  function KeyColumns(keys: seq<SortKey>): set<string> {
    set k | k in keys :: k.column
  }

  function ScalarColumns(e: ScalarExpr): set<string>
    decreases e
  {
    match e
    case Column(name) => {name}
    case Lit(_) => {}
    case BinOp(_, left, right) => ScalarColumns(left) + ScalarColumns(right)
    case Unary(_, arg) => ScalarColumns(arg)
    case Concat(parts) => ScalarsColumns(parts)
    case Coalesce(exprs) => ScalarsColumns(exprs)
    case Case(whens, elseExpr) =>
      WhensColumns(whens) + match elseExpr { case None => {} case Some(other) => ScalarColumns(other) }
    case Rank(order) => KeyColumns(order)
    case NTile(_) => {}
  }

  function ScalarsColumns(es: seq<ScalarExpr>): set<string>
    decreases es
  {
    if es == [] then {} else ScalarColumns(es[0]) + ScalarsColumns(es[1..])
  }

  function WhensColumns(whens: seq<When>): set<string>
    decreases whens
  {
    if whens == [] then {} else ArmColumns(whens[0]) + WhensColumns(whens[1..])
  }

  function ArmColumns(w: When): set<string>
    decreases w
  {
    PredColumns(w.guard) + ScalarColumns(w.value)
  }

  function Elements(columns: seq<string>): set<string> {
    set c | c in columns
  }

  /** What one operation adds to `compute_referenced_columns`. */
  function OpColumns(op: ViewOp): set<string> {
    match op
    case Filter(p) => PredColumns(p)
    case Sort(keys) => KeyColumns(keys)
    case TopK(_, keys) => KeyColumns(keys)
    case Derive(name, e) => {name} + ScalarColumns(e)
    case GroupBy(keys, aggs) => Elements(keys) + set a | a in aggs && a.Agg? :: a.column
    case Deduplicate(columns) => (match columns case None => {} case Some(cs) => Elements(cs))
    case Rename(mappings) => set m | m in mappings :: m.0
    case Select(columns) => Elements(columns)
    case Drop(_) => {}
    case Sample(_, _) => {}
    case Limit(_) => {}
    case Approximate(_, _) => {}
  }

  function Referenced(ops: seq<ViewOp>): set<string> {
    if ops == [] then {} else OpColumns(ops[0]) + Referenced(ops[1..])
  }

  lemma {:induction false} ReferencedCovers(ops: seq<ViewOp>, op: ViewOp)
    requires op in ops
    ensures OpColumns(op) <= Referenced(ops)
  {
    if op != ops[0] {
      ReferencedCovers(ops[1..], op);
    }
  }

  // ---- agreement on a set of columns

  ghost predicate AgreeNames(cols: set<string>, n1: seq<string>, n2: seq<string>) {
    forall c :: c in cols ==> (c in n1 <==> c in n2)
  }

  ghost predicate AgreeRow(cols: set<string>, n1: seq<string>, r1: Row, n2: seq<string>, r2: Row) {
    forall c :: c in cols ==> CellOf(n1, r1, c) == CellOf(n2, r2, c)
  }

  ghost predicate AgreeRows(cols: set<string>, n1: seq<string>, rows1: seq<Row>, n2: seq<string>, rows2: seq<Row>) {
    && |rows1| == |rows2|
    && forall i :: 0 <= i < |rows1| ==> AgreeRow(cols, n1, rows1[i], n2, rows2[i])
  }

  ghost predicate RowsFit(names: seq<string>, rows: seq<Row>) {
    forall i :: 0 <= i < |rows| ==> |rows[i]| == |names|
  }

  ghost predicate Agree(cols: set<string>, f: Frame, g: Frame) {
    && AgreeNames(cols, f.names, g.names)
    && |f.batches| == |g.batches|
    && forall b :: 0 <= b < |f.batches| ==>
         AgreeRows(cols, f.names, f.batches[b], g.names, g.batches[b]) && RowsFit(f.names, f.batches[b]) && RowsFit(g.names, g.batches[b])
  }

  // ---- predicates and scalar expressions read only what they reference

  lemma {:induction false} PredReadsItsColumns(rt: Runtime, cols: set<string>, n1: seq<string>, r1: Row, n2: seq<string>, r2: Row, p: Predicate)
    requires PredColumns(p) <= cols && AgreeRow(cols, n1, r1, n2, r2)
    ensures EvalPred(rt, n1, r1, p) == EvalPred(rt, n2, r2, p)
    decreases p
  {
    match p
    case And(exprs) => PredsReadTheirColumns(rt, cols, n1, r1, n2, r2, exprs);
    case Or(exprs) => PredsReadTheirColumns(rt, cols, n1, r1, n2, r2, exprs);
    case Not(expr) => PredReadsItsColumns(rt, cols, n1, r1, n2, r2, expr);
    case _ =>
  }

  lemma {:induction false} PredsReadTheirColumns(rt: Runtime, cols: set<string>, n1: seq<string>, r1: Row, n2: seq<string>, r2: Row, ps: seq<Predicate>)
    requires PredsColumns(ps) <= cols && AgreeRow(cols, n1, r1, n2, r2)
    ensures EvalAll(rt, n1, r1, ps) == EvalAll(rt, n2, r2, ps) && EvalAny(rt, n1, r1, ps) == EvalAny(rt, n2, r2, ps)
    decreases ps
  {
    if ps != [] {
      PredReadsItsColumns(rt, cols, n1, r1, n2, r2, ps[0]);
      PredsReadTheirColumns(rt, cols, n1, r1, n2, r2, ps[1..]);
    }
  }

  /** A predicate that raises no error finds all its columns. */
  lemma {:induction false} OkReadsColumns(rt: Runtime, names: seq<string>, p: Predicate)
    requires PredOk(rt, names, p)
    ensures PredColumns(p) <= Elements(names)
    decreases p
  {
    match p
    case And(exprs) => AllOkReadColumns(rt, names, exprs);
    case Or(exprs) => AllOkReadColumns(rt, names, exprs);
    case Not(expr) => OkReadsColumns(rt, names, expr);
    case _ =>
  }

  lemma {:induction false} AllOkReadColumns(rt: Runtime, names: seq<string>, ps: seq<Predicate>)
    requires PredsOk(rt, names, ps)
    ensures PredsColumns(ps) <= Elements(names)
    decreases ps
  {
    if ps != [] {
      OkReadsColumns(rt, names, ps[0]);
      AllOkReadColumns(rt, names, ps[1..]);
    }
  }

  lemma {:induction false} PredOkOnItsColumns(rt: Runtime, cols: set<string>, n1: seq<string>, n2: seq<string>, p: Predicate)
    requires PredColumns(p) <= cols && AgreeNames(cols, n1, n2)
    ensures PredOk(rt, n1, p) == PredOk(rt, n2, p)
    decreases p
  {
    match p
    case And(exprs) => PredsOkOnTheirColumns(rt, cols, n1, n2, exprs);
    case Or(exprs) => PredsOkOnTheirColumns(rt, cols, n1, n2, exprs);
    case Not(expr) => PredOkOnItsColumns(rt, cols, n1, n2, expr);
    case _ =>
  }

  lemma {:induction false} PredsOkOnTheirColumns(rt: Runtime, cols: set<string>, n1: seq<string>, n2: seq<string>, ps: seq<Predicate>)
    requires PredsColumns(ps) <= cols && AgreeNames(cols, n1, n2)
    ensures PredsOk(rt, n1, ps) == PredsOk(rt, n2, ps)
    decreases ps
  {
    if ps != [] {
      PredOkOnItsColumns(rt, cols, n1, n2, ps[0]);
      PredsOkOnTheirColumns(rt, cols, n1, n2, ps[1..]);
    }
  }

  lemma {:induction false} PresentKeysAgree(cols: set<string>, n1: seq<string>, n2: seq<string>, keys: seq<SortKey>)
    requires KeyColumns(keys) <= cols && AgreeNames(cols, n1, n2)
    ensures PresentKeys(n1, keys) == PresentKeys(n2, keys)
    ensures KeyColumns(PresentKeys(n1, keys)) <= cols
  {
    if keys != [] {
      assert keys[0].column in KeyColumns(keys);
      assert KeyColumns(keys[1..]) <= KeyColumns(keys);
      PresentKeysAgree(cols, n1, n2, keys[1..]);
      var rest := PresentKeys(n1, keys[1..]);
      assert forall k :: k in [keys[0]] + rest ==> k == keys[0] || k in rest;
      forall c | c in KeyColumns(PresentKeys(n1, keys))
        ensures c in cols
      {
        var k :| k in PresentKeys(n1, keys) && k.column == c;
        if k != keys[0] {
          assert k in rest && k.column in KeyColumns(rest);
        }
      }
    }
  }

  lemma KeyRowsAgree(cols: set<string>, n1: seq<string>, rows1: seq<Row>, n2: seq<string>, rows2: seq<Row>, keys: seq<SortKey>)
    requires KeyColumns(keys) <= cols && AgreeRows(cols, n1, rows1, n2, rows2)
    ensures KeyRows(n1, rows1, keys) == KeyRows(n2, rows2, keys)
  {
    forall i | 0 <= i < |rows1|
      ensures KeyCells(n1, rows1[i], keys) == KeyCells(n2, rows2[i], keys)
    {
      assert AgreeRow(cols, n1, rows1[i], n2, rows2[i]);
      assert forall j :: 0 <= j < |keys| ==> keys[j].column in KeyColumns(keys);
    }
  }

  lemma {:induction false} ScalarReadsItsColumns(rt: Runtime, cols: set<string>, n1: seq<string>, rows1: seq<Row>,
                                                 n2: seq<string>, rows2: seq<Row>, e: ScalarExpr)
    requires ScalarColumns(e) <= cols && AgreeNames(cols, n1, n2) && AgreeRows(cols, n1, rows1, n2, rows2)
    ensures EvalScalar(rt, n1, rows1, e) == EvalScalar(rt, n2, rows2, e)
    decreases e
  {
    match e
    case Column(name) =>
      forall i | 0 <= i < |rows1|
        ensures CellOf(n1, rows1[i], name) == CellOf(n2, rows2[i], name)
      {
        assert AgreeRow(cols, n1, rows1[i], n2, rows2[i]);
      }
    case BinOp(_, left, right) =>
      ScalarReadsItsColumns(rt, cols, n1, rows1, n2, rows2, left);
      ScalarReadsItsColumns(rt, cols, n1, rows1, n2, rows2, right);
    case Unary(_, arg) => ScalarReadsItsColumns(rt, cols, n1, rows1, n2, rows2, arg);
    case Concat(parts) => ScalarsReadTheirColumns(rt, cols, n1, rows1, n2, rows2, parts);
    case Coalesce(exprs) => ScalarsReadTheirColumns(rt, cols, n1, rows1, n2, rows2, exprs);
    case Case(whens, elseExpr) =>
      var otherwise := seq(|rows1|, i => Null);
      if elseExpr.Some? {
        ScalarReadsItsColumns(rt, cols, n1, rows1, n2, rows2, elseExpr.value);
        otherwise := EvalScalar(rt, n1, rows1, elseExpr.value);
      }
      WhensReadTheirColumns(rt, cols, n1, rows1, n2, rows2, whens, otherwise);
    case Rank(order) =>
      PresentKeysAgree(cols, n1, n2, order);
      KeyRowsAgree(cols, n1, rows1, n2, rows2, PresentKeys(n1, order));
    case _ =>
  }

  lemma {:induction false} ScalarsReadTheirColumns(rt: Runtime, cols: set<string>, n1: seq<string>, rows1: seq<Row>,
                                                   n2: seq<string>, rows2: seq<Row>, es: seq<ScalarExpr>)
    requires ScalarsColumns(es) <= cols && AgreeNames(cols, n1, n2) && AgreeRows(cols, n1, rows1, n2, rows2)
    ensures EvalScalars(rt, n1, rows1, es) == EvalScalars(rt, n2, rows2, es)
    decreases es
  {
    if es != [] {
      ScalarReadsItsColumns(rt, cols, n1, rows1, n2, rows2, es[0]);
      ScalarsReadTheirColumns(rt, cols, n1, rows1, n2, rows2, es[1..]);
    }
  }

  lemma {:induction false} WhensReadTheirColumns(rt: Runtime, cols: set<string>, n1: seq<string>, rows1: seq<Row>,
                                                 n2: seq<string>, rows2: seq<Row>, whens: seq<When>, otherwise: seq<Cell>)
    requires WhensColumns(whens) <= cols && AgreeNames(cols, n1, n2) && AgreeRows(cols, n1, rows1, n2, rows2)
    requires |otherwise| == |rows1|
    ensures EvalWhens(rt, n1, rows1, whens, otherwise) == EvalWhens(rt, n2, rows2, whens, otherwise)
    decreases whens
  {
    if whens != [] {
      ArmReadsItsColumns(rt, cols, n1, rows1, n2, rows2, whens[0]);
      WhensReadTheirColumns(rt, cols, n1, rows1, n2, rows2, whens[1..], otherwise);
      forall i | 0 <= i < |rows1|
        ensures EvalPred(rt, n1, rows1[i], whens[0].guard) == EvalPred(rt, n2, rows2[i], whens[0].guard)
      {
        PredReadsItsColumns(rt, cols, n1, rows1[i], n2, rows2[i], whens[0].guard);
      }
    }
  }

  lemma {:induction false} ArmReadsItsColumns(rt: Runtime, cols: set<string>, n1: seq<string>, rows1: seq<Row>,
                                              n2: seq<string>, rows2: seq<Row>, w: When)
    requires ArmColumns(w) <= cols && AgreeNames(cols, n1, n2) && AgreeRows(cols, n1, rows1, n2, rows2)
    ensures EvalArm(rt, n1, rows1, w) == EvalArm(rt, n2, rows2, w)
    decreases w
  {
    ScalarReadsItsColumns(rt, cols, n1, rows1, n2, rows2, w.value);
  }

  lemma {:induction false} ScalarOkOnItsColumns(rt: Runtime, cols: set<string>, n1: seq<string>, n2: seq<string>, e: ScalarExpr)
    requires ScalarColumns(e) <= cols && AgreeNames(cols, n1, n2)
    ensures ScalarOk(rt, n1, e) == ScalarOk(rt, n2, e)
    decreases e
  {
    match e
    case BinOp(_, left, right) =>
      ScalarOkOnItsColumns(rt, cols, n1, n2, left);
      ScalarOkOnItsColumns(rt, cols, n1, n2, right);
    case Unary(_, arg) => ScalarOkOnItsColumns(rt, cols, n1, n2, arg);
    case Concat(parts) => ScalarsOkOnTheirColumns(rt, cols, n1, n2, parts);
    case Coalesce(exprs) => ScalarsOkOnTheirColumns(rt, cols, n1, n2, exprs);
    case Case(whens, elseExpr) =>
      WhensOkOnTheirColumns(rt, cols, n1, n2, whens);
      if elseExpr.Some? {
        ScalarOkOnItsColumns(rt, cols, n1, n2, elseExpr.value);
      }
    case _ =>
  }

  lemma {:induction false} ScalarsOkOnTheirColumns(rt: Runtime, cols: set<string>, n1: seq<string>, n2: seq<string>, es: seq<ScalarExpr>)
    requires ScalarsColumns(es) <= cols && AgreeNames(cols, n1, n2)
    ensures ScalarsOk(rt, n1, es) == ScalarsOk(rt, n2, es)
    decreases es
  {
    if es != [] {
      ScalarOkOnItsColumns(rt, cols, n1, n2, es[0]);
      ScalarsOkOnTheirColumns(rt, cols, n1, n2, es[1..]);
    }
  }

  lemma {:induction false} WhensOkOnTheirColumns(rt: Runtime, cols: set<string>, n1: seq<string>, n2: seq<string>, whens: seq<When>)
    requires WhensColumns(whens) <= cols && AgreeNames(cols, n1, n2)
    ensures WhensOk(rt, n1, whens) == WhensOk(rt, n2, whens)
    decreases whens
  {
    if whens != [] {
      ArmOkOnItsColumns(rt, cols, n1, n2, whens[0]);
      WhensOkOnTheirColumns(rt, cols, n1, n2, whens[1..]);
    }
  }

  lemma {:induction false} ArmOkOnItsColumns(rt: Runtime, cols: set<string>, n1: seq<string>, n2: seq<string>, w: When)
    requires ArmColumns(w) <= cols && AgreeNames(cols, n1, n2)
    ensures ArmOk(rt, n1, w) == ArmOk(rt, n2, w)
    decreases w
  {
    PredOkOnItsColumns(rt, cols, n1, n2, w.guard);
    ScalarOkOnItsColumns(rt, cols, n1, n2, w.value);
  }
}
