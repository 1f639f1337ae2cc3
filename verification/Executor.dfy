/** The naive executor of crates/tv-engine/src/executor.rs: what a list of view
    operations means. Everything the engine takes from Arrow or from its
    environment (the sort kernel, casts, regexes, scalar functions, the sampler)
    is a field of `Runtime`, so each theorem holds for every such kernel. */
module Executor {
  import opened Seqs
  import opened TextOrder
  import opened Exprs
  import opened Aggregates

  datatype Cell = Null | Num(x: real) | Str(s: string) | Flag(b: bool)

  type Row = seq<Cell>

  /** A list of record batches over one schema. */
  datatype Frame = Frame(names: seq<string>, batches: seq<seq<Row>>)

  datatype Outcome = Ok(frame: Frame) | Err

  datatype Runtime = Runtime(
    sortPermutation: (seq<seq<Cell>>, seq<SortKey>) -> seq<nat>,
    sampleIndices: (nat, nat, Option<nat>) -> seq<nat>,
    parseNumber: string -> Option<real>,
    parseBool: string -> Option<bool>,
    showNumber: real -> string,
    stringMatches: (MatchKind, string, string) -> bool,
    validPattern: (MatchKind, string) -> bool,
    unary: (UnaryFn, Cell) -> Cell,
    arithmetic: (ArithOp, real, real) -> Cell,
    sqrt: real -> real,
    maxFloat: real
  )

  ghost predicate WellFormed(f: Frame) {
    forall b, r :: 0 <= b < |f.batches| && 0 <= r < |f.batches[b]| ==> |f.batches[b][r]| == |f.names|
  }

  // ---- columns and casts

  /** `schema.index_of`: the first column of that name. */
  function IndexOf(names: seq<string>, column: string): (idx: Option<nat>)
    ensures idx.Some? <==> column in names
    ensures idx.Some? ==> idx.value < |names| && names[idx.value] == column && column !in names[..idx.value]
  {
    if names == [] then None
    else if names[0] == column then Some(0)
    else
      var rest := IndexOf(names[1..], column);
      if rest.None? then None else
      assert forall j :: 0 <= j < rest.value + 1 ==> names[j] != column by {
        forall j | 0 <= j < rest.value + 1 ensures names[j] != column {
          if j > 0 { assert names[j] == names[1..][..rest.value][j - 1]; }
        }
      }
      Some(rest.value + 1)
  }

  function CellOf(names: seq<string>, row: Row, column: string): Cell {
    var idx := IndexOf(names, column);
    if idx.Some? && idx.value < |row| then row[idx.value] else Null
  }

  function ToFloat(rt: Runtime, c: Cell): Option<real> {
    match c
    case Null => None
    case Num(x) => Some(x)
    case Str(s) => rt.parseNumber(s)
    case Flag(b) => Some(if b then 1.0 else 0.0)
  }

  function ToText(rt: Runtime, c: Cell): Option<string> {
    match c
    case Null => None
    case Num(x) => Some(rt.showNumber(x))
    case Str(s) => Some(s)
    case Flag(b) => Some(if b then "true" else "false")
  }

  function ToBool(rt: Runtime, c: Cell): Option<bool> {
    match c
    case Null => None
    case Num(x) => Some(x != 0.0)
    case Str(s) => rt.parseBool(s)
    case Flag(b) => Some(b)
  }

  function TextCell(t: Option<string>): Cell {
    match t case None => Null case Some(s) => Str(s)
  }

  // ---- predicates

  predicate Holds(op: CmpOp, less: bool, equal: bool) {
    match op
    case Eq => equal
    case Ne => !equal
    case Gt => !less && !equal
    case Gte => !less
    case Lt => less
    case Lte => less || equal
  }

  /** `compare_lit`: the truth of one comparison; a null cell gives null, a null literal gives false. */
  function EvalCompare(rt: Runtime, cell: Cell, value: Literal, op: CmpOp): Option<bool> {
    match value
    case NullLit => Some(false)
    case BoolLit(b) =>
      var v := ToBool(rt, cell);
      if v.None? then None else Some(Holds(op, !v.value && b, v.value == b))
    case IntLit(i) => EvalFloat(rt, cell, i as real, op)
    case FloatLit(f) => EvalFloat(rt, cell, f, op)
    case TextLit(s) =>
      var v := ToText(rt, cell);
      if v.None? then None else Some(Holds(op, TextLess(v.value, s), v.value == s))
  }

  function EvalFloat(rt: Runtime, cell: Cell, f: real, op: CmpOp): Option<bool> {
    var v := ToFloat(rt, cell);
    if v.None? then None else Some(Holds(op, v.value < f, v.value == f))
  }

  /** Arrow's `and`, `or` and `not`: null if either side is null. */
  function NullAnd(a: Option<bool>, b: Option<bool>): Option<bool> {
    if a.None? || b.None? then None else Some(a.value && b.value)
  }

  function NullOr(a: Option<bool>, b: Option<bool>): Option<bool> {
    if a.None? || b.None? then None else Some(a.value || b.value)
  }

  function NullNot(a: Option<bool>): Option<bool> {
    if a.None? then None else Some(!a.value)
  }

  function EvalIn(rt: Runtime, cell: Cell, values: seq<Literal>): Option<bool> {
    if values == [] then Some(false)
    else NullOr(EvalCompare(rt, cell, values[0], Eq), EvalIn(rt, cell, values[1..]))
  }

  /** `predicate_to_bool_array` on one row. */
  function EvalPred(rt: Runtime, names: seq<string>, row: Row, p: Predicate): Option<bool>
    decreases p
  {
    match p
    case Compare(op, column, value) => EvalCompare(rt, CellOf(names, row, column), value, op)
    case Between(column, lo, hi) =>
      NullAnd(EvalCompare(rt, CellOf(names, row, column), lo, Gte), EvalCompare(rt, CellOf(names, row, column), hi, Lte))
    case In(column, values) => EvalIn(rt, CellOf(names, row, column), values)
    case NotIn(column, values) => NullNot(EvalIn(rt, CellOf(names, row, column), values))
    case Match(kind, column, pattern) =>
      var text := ToText(rt, CellOf(names, row, column));
      Some(text.Some? && rt.stringMatches(kind, pattern, text.value))
    case IsNull(column) => Some(CellOf(names, row, column).Null?)
    case IsNotNull(column) => Some(!CellOf(names, row, column).Null?)
    case And(exprs) => EvalAll(rt, names, row, exprs)
    case Or(exprs) => EvalAny(rt, names, row, exprs)
    case Not(expr) => NullNot(EvalPred(rt, names, row, expr))
  }

  function EvalAll(rt: Runtime, names: seq<string>, row: Row, ps: seq<Predicate>): Option<bool>
    decreases ps
  {
    if ps == [] then Some(true)
    else NullAnd(EvalPred(rt, names, row, ps[0]), EvalAll(rt, names, row, ps[1..]))
  }

  function EvalAny(rt: Runtime, names: seq<string>, row: Row, ps: seq<Predicate>): Option<bool>
    decreases ps
  {
    if ps == [] then Some(false)
    else NullOr(EvalPred(rt, names, row, ps[0]), EvalAny(rt, names, row, ps[1..]))
  }

  /** Whether evaluating `p` raises no error: every column exists and every pattern compiles. */
  predicate PredOk(rt: Runtime, names: seq<string>, p: Predicate)
    decreases p
  {
    match p
    case Compare(_, column, _) => column in names
    case Between(column, _, _) => column in names
    case In(column, _) => column in names
    case NotIn(column, _) => column in names
    case Match(kind, column, pattern) => rt.validPattern(kind, pattern) && column in names
    case IsNull(column) => column in names
    case IsNotNull(column) => column in names
    case And(exprs) => PredsOk(rt, names, exprs)
    case Or(exprs) => PredsOk(rt, names, exprs)
    case Not(expr) => PredOk(rt, names, expr)
  }

  predicate PredsOk(rt: Runtime, names: seq<string>, ps: seq<Predicate>)
    decreases ps
  {
    ps == [] || (PredOk(rt, names, ps[0]) && PredsOk(rt, names, ps[1..]))
  }

  /** `filter_record_batch`: null and false rows are both dropped. */
  function FilterRows(rt: Runtime, names: seq<string>, rows: seq<Row>, p: Predicate): seq<Row> {
    if rows == [] then []
    else if EvalPred(rt, names, rows[0], p) == Some(true) then [rows[0]] + FilterRows(rt, names, rows[1..], p)
    else FilterRows(rt, names, rows[1..], p)
  }

  // ---- scalar expressions, evaluated a batch at a time

  function LiteralCell(v: Literal): Cell {
    match v
    case NullLit => Null
    case BoolLit(b) => Flag(b)
    case IntLit(i) => Num(i as real)
    case FloatLit(f) => Num(f)
    case TextLit(s) => Str(s)
  }

  function ArithCell(rt: Runtime, op: ArithOp, l: Cell, r: Cell): Cell {
    var lf, rf := ToFloat(rt, l), ToFloat(rt, r);
    if lf.None? || rf.None? then Null else rt.arithmetic(op, lf.value, rf.value)
  }

  /** The sort keys whose column exists; the executor silently drops the others. */
  function PresentKeys(names: seq<string>, keys: seq<SortKey>): seq<SortKey> {
    if keys == [] then []
    else if keys[0].column in names then [keys[0]] + PresentKeys(names, keys[1..])
    else PresentKeys(names, keys[1..])
  }

  function KeyCells(names: seq<string>, row: Row, keys: seq<SortKey>): seq<Cell> {
    seq(|keys|, i requires 0 <= i < |keys| => CellOf(names, row, keys[i].column))
  }

  function KeyRows(names: seq<string>, rows: seq<Row>, keys: seq<SortKey>): seq<seq<Cell>> {
    seq(|rows|, i requires 0 <= i < |rows| => KeyCells(names, rows[i], keys))
  }

  function LastPosition(perm: seq<nat>, i: nat): nat {
    if perm == [] then 0
    else if perm[|perm| - 1] == i then |perm|
    else LastPosition(perm[..|perm| - 1], i)
  }

  function ConcatCells(rt: Runtime, cols: seq<seq<Cell>>, i: nat): Option<string> {
    if cols == [] then Some("")
    else
      var head := if i < |cols[0]| then ToText(rt, cols[0][i]) else None;
      var tail := ConcatCells(rt, cols[1..], i);
      if head.None? || tail.None? then None else Some(head.value + tail.value)
  }

  function CoalesceCells(rt: Runtime, cols: seq<seq<Cell>>, i: nat): Option<string> {
    if cols == [] then None
    else if i < |cols[0]| && !cols[0][i].Null? then ToText(rt, cols[0][i])
    else CoalesceCells(rt, cols[1..], i)
  }

  /** `eval_scalar`: one column for the whole batch; `Rank` and `NTile` look at all its rows. */
  function EvalScalar(rt: Runtime, names: seq<string>, rows: seq<Row>, e: ScalarExpr): (col: seq<Cell>)
    ensures |col| == |rows|
    decreases e
  {
    match e
    case Column(name) => seq(|rows|, i requires 0 <= i < |rows| => CellOf(names, rows[i], name))
    case Lit(value) => seq(|rows|, i => LiteralCell(value))
    case BinOp(op, left, right) =>
      var l, r := EvalScalar(rt, names, rows, left), EvalScalar(rt, names, rows, right);
      seq(|rows|, i requires 0 <= i < |rows| => ArithCell(rt, op, l[i], r[i]))
    case Unary(fn, arg) =>
      var a := EvalScalar(rt, names, rows, arg);
      seq(|rows|, i requires 0 <= i < |rows| => rt.unary(fn, a[i]))
    case Concat(parts) =>
      var cols := EvalScalars(rt, names, rows, parts);
      seq(|rows|, i requires 0 <= i < |rows| => TextCell(ConcatCells(rt, cols, i)))
    case Coalesce(exprs) =>
      var cols := EvalScalars(rt, names, rows, exprs);
      seq(|rows|, i requires 0 <= i < |rows| => TextCell(CoalesceCells(rt, cols, i)))
    case Case(whens, elseExpr) =>
      var otherwise := match elseExpr
        case None => seq(|rows|, i => Null)
        case Some(other) => EvalScalar(rt, names, rows, other);
      EvalWhens(rt, names, rows, whens, otherwise)
    case Rank(order) =>
      var keys := PresentKeys(names, order);
      if keys == [] then seq(|rows|, i => Num((i + 1) as real))
      else
        var perm := rt.sortPermutation(KeyRows(names, rows, keys), keys);
        seq(|rows|, i requires 0 <= i < |rows| => Num(LastPosition(perm, i) as real))
    case NTile(n) => seq(|rows|, i requires 0 <= i < |rows| => Num(TileOf(i, n, |rows|) as real))
  }

  function TileOf(i: nat, tiles: nat, n: nat): nat
    requires i < n
  {
    if tiles == 0 then 1 else Min(i * tiles / n + 1, tiles)
  }

  function EvalScalars(rt: Runtime, names: seq<string>, rows: seq<Row>, es: seq<ScalarExpr>): (cols: seq<seq<Cell>>)
    decreases es
  {
    if es == [] then [] else [EvalScalar(rt, names, rows, es[0])] + EvalScalars(rt, names, rows, es[1..])
  }

  /** The first arm whose predicate is true decides; the result is text, as the source casts it. */
  function EvalWhens(rt: Runtime, names: seq<string>, rows: seq<Row>, whens: seq<When>, otherwise: seq<Cell>): (col: seq<Cell>)
    requires |otherwise| == |rows|
    ensures |col| == |rows|
    decreases whens
  {
    if whens == [] then seq(|rows|, i requires 0 <= i < |rows| => TextCell(ToText(rt, otherwise[i])))
    else
      var rest := EvalWhens(rt, names, rows, whens[1..], otherwise);
      var arm := EvalArm(rt, names, rows, whens[0]);
      seq(|rows|, i requires 0 <= i < |rows| =>
        if EvalPred(rt, names, rows[i], whens[0].guard) == Some(true) then TextCell(ToText(rt, arm[i])) else rest[i])
  }

  function EvalArm(rt: Runtime, names: seq<string>, rows: seq<Row>, w: When): (col: seq<Cell>)
    ensures |col| == |rows|
    decreases w
  {
    EvalScalar(rt, names, rows, w.value)
  }

  /** Whether evaluating `e` raises no error; unknown `Rank` columns are ignored, not errors. */
  predicate ScalarOk(rt: Runtime, names: seq<string>, e: ScalarExpr)
    decreases e
  {
    match e
    case Column(name) => name in names
    case Lit(_) => true
    case BinOp(_, left, right) => ScalarOk(rt, names, left) && ScalarOk(rt, names, right)
    case Unary(_, arg) => ScalarOk(rt, names, arg)
    case Concat(parts) => ScalarsOk(rt, names, parts)
    case Coalesce(exprs) => ScalarsOk(rt, names, exprs)
    case Case(whens, elseExpr) =>
      && WhensOk(rt, names, whens)
      && match elseExpr { case None => true case Some(other) => ScalarOk(rt, names, other) }
    case Rank(_) => true
    case NTile(_) => true
  }

  predicate ScalarsOk(rt: Runtime, names: seq<string>, es: seq<ScalarExpr>)
    decreases es
  {
    es == [] || (ScalarOk(rt, names, es[0]) && ScalarsOk(rt, names, es[1..]))
  }

  predicate WhensOk(rt: Runtime, names: seq<string>, whens: seq<When>)
    decreases whens
  {
    whens == [] || (ArmOk(rt, names, whens[0]) && WhensOk(rt, names, whens[1..]))
  }

  predicate ArmOk(rt: Runtime, names: seq<string>, w: When)
    decreases w
  {
    PredOk(rt, names, w.guard) && ScalarOk(rt, names, w.value)
  }

  // ---- operations

  function MapBatches(f: Frame, names: seq<string>, g: seq<Row> -> seq<Row>): Frame {
    Frame(names, seq(|f.batches|, b requires 0 <= b < |f.batches| => g(f.batches[b])))
  }

  function Combined(f: Frame, rows: seq<Row>): Frame {
    Frame(f.names, [rows])
  }

  /** The columns `project` keeps, and their cells. */
  function Present(names: seq<string>, columns: seq<string>): seq<string> {
    if columns == [] then []
    else if columns[0] in names then [columns[0]] + Present(names, columns[1..])
    else Present(names, columns[1..])
  }

  function Pick(names: seq<string>, row: Row, columns: seq<string>): Row {
    seq(|columns|, i requires 0 <= i < |columns| => CellOf(names, row, columns[i]))
  }

  function PickRows(names: seq<string>, rows: seq<Row>, columns: seq<string>): seq<Row> {
    seq(|rows|, i requires 0 <= i < |rows| => Pick(names, rows[i], columns))
  }

  function KeepIndices(names: seq<string>, dropped: seq<string>): seq<nat> {
    if names == [] then []
    else if names[|names| - 1] in dropped then KeepIndices(names[..|names| - 1], dropped)
    else KeepIndices(names[..|names| - 1], dropped) + [|names| - 1]
  }

  function DropRows(rows: seq<Row>, kept: seq<nat>): seq<Row> {
    seq(|rows|, i requires 0 <= i < |rows| => Gather(rows[i], kept))
  }

  function DeriveRows(rt: Runtime, names: seq<string>, rows: seq<Row>, e: ScalarExpr): seq<Row> {
    var col := EvalScalar(rt, names, rows, e);
    seq(|rows|, i requires 0 <= i < |rows| => rows[i] + [col[i]])
  }

  function SortRows(rt: Runtime, names: seq<string>, rows: seq<Row>, keys: seq<SortKey>): seq<Row> {
    var present := PresentKeys(names, keys);
    if rows == [] || present == [] then rows
    else Gather(rows, rt.sortPermutation(KeyRows(names, rows, present), present))
  }

  /** `format_array_value`: null has a marker of its own. */
  function FormatCell(rt: Runtime, c: Cell): string {
    var t := ToText(rt, c);
    if t.None? then "\0NULL" else t.value
  }

  /** The formatted cells joined with the character of code one. */
  function JoinKey(rt: Runtime, cells: seq<Cell>): string {
    if cells == [] then ""
    else if |cells| == 1 then FormatCell(rt, cells[0])
    else FormatCell(rt, cells[0]) + "\U{1}" + JoinKey(rt, cells[1..])
  }

  /** The rows whose key has not been seen, in order. */
  function FirstOfEachKey(rt: Runtime, names: seq<string>, rows: seq<Row>, columns: Option<seq<string>>, seen: set<string>): seq<Row> {
    if rows == [] then []
    else
      var key := JoinKey(rt, match columns case None => rows[0] case Some(cs) => Pick(names, rows[0], cs));
      if key in seen then FirstOfEachKey(rt, names, rows[1..], columns, seen)
      else [rows[0]] + FirstOfEachKey(rt, names, rows[1..], columns, seen + {key})
  }

  function SampleRows(rt: Runtime, rows: seq<Row>, n: nat, seed: Option<nat>): seq<Row> {
    if n >= |rows| then rows else Gather(rows, rt.sampleIndices(|rows|, n, seed))
  }

  function RenameAll(names: seq<string>, mappings: seq<(string, string)>): seq<string> {
    seq(|names|, i requires 0 <= i < |names| => Renamed(names[i], mappings))
  }

  function Renamed(name: string, mappings: seq<(string, string)>): string {
    if mappings == [] then name
    else if mappings[0].0 == name then mappings[0].1
    else Renamed(name, mappings[1..])
  }

  // ---- group by

  function AscendingKeys(columns: seq<string>): seq<SortKey> {
    seq(|columns|, i requires 0 <= i < |columns| => SortKey(columns[i], false, true))
  }

  function FormatKey(rt: Runtime, cells: seq<Cell>): seq<string> {
    seq(|cells|, i requires 0 <= i < |cells| => FormatCell(rt, cells[i]))
  }

  function FormatKeys(rt: Runtime, names: seq<string>, rows: seq<Row>, columns: seq<string>): seq<seq<string>> {
    seq(|rows|, i requires 0 <= i < |rows| => FormatKey(rt, Pick(names, rows[i], columns)))
  }

  /** The end of the run of equal keys that starts at `start`. */
  function RunEnd(keys: seq<seq<string>>, start: nat): (end: nat)
    requires start < |keys|
    ensures start < end <= |keys|
    decreases |keys| - start
  {
    if start + 1 == |keys| || keys[start + 1] != keys[start] then start + 1 else RunEnd(keys, start + 1)
  }

  /** `group_by_sorted`'s boundaries: maximal runs of rows with equal formatted keys. */
  function Boundaries(keys: seq<seq<string>>, start: nat): (groups: seq<(nat, nat)>)
    requires start <= |keys|
    ensures forall g :: g in groups ==> start <= g.0 < g.1 <= |keys|
    decreases |keys| - start
  {
    if start == |keys| then [] else [(start, RunEnd(keys, start))] + Boundaries(keys, RunEnd(keys, start))
  }

  function ColumnCells(names: seq<string>, rows: seq<Row>, column: string): seq<Cell> {
    seq(|rows|, i requires 0 <= i < |rows| => CellOf(names, rows[i], column))
  }

  function NonNullFloats(rt: Runtime, cells: seq<Cell>): seq<real> {
    if cells == [] then []
    else
      var f := ToFloat(rt, cells[0]);
      (if f.Some? then [f.value] else []) + NonNullFloats(rt, cells[1..])
  }

  function AggCell(rt: Runtime, names: seq<string>, rows: seq<Row>, agg: AggExpr): Cell {
    match agg
    case Count(_) => Num(|rows| as real)
    case Agg(fn, column, _) =>
      var cells := ColumnCells(names, rows, column);
      if fn.CountDistinctFn? then Num(|set i | 0 <= i < |cells| :: FormatCell(rt, cells[i])| as real)
      else
        var v := AggValue(fn, NonNullFloats(rt, cells), rt.sqrt, rt.maxFloat);
        if v.None? then Null else Num(v.value)
  }

  predicate AggsOk(names: seq<string>, aggs: seq<AggExpr>) {
    forall a :: a in aggs && a.Agg? ==> a.column in names
  }

  function AliasNames(aggs: seq<AggExpr>): seq<string> {
    seq(|aggs|, i requires 0 <= i < |aggs| => aggs[i].alias)
  }

  function GroupRow(rt: Runtime, names: seq<string>, rows: seq<Row>, present: seq<string>, aggs: seq<AggExpr>): Row
    requires rows != []
  {
    Pick(names, rows[0], present) + seq(|aggs|, i requires 0 <= i < |aggs| => AggCell(rt, names, rows, aggs[i]))
  }

  function GroupRows(rt: Runtime, names: seq<string>, rows: seq<Row>, present: seq<string>, aggs: seq<AggExpr>): seq<Row> {
    var groups := if present == [] then (if rows == [] then [] else [(0, |rows|)])
                  else Boundaries(FormatKeys(rt, names, rows, present), 0);
    seq(|groups|, g requires 0 <= g < |groups| =>
      assert groups[g] in groups;
      GroupRow(rt, names, rows[groups[g].0..groups[g].1], present, aggs))
  }

  /** Without keys the rows are one group. */
  lemma WholeGroup(rt: Runtime, names: seq<string>, rows: seq<Row>, aggs: seq<AggExpr>)
    requires rows != []
    ensures GroupRows(rt, names, rows, [], aggs) == [GroupRow(rt, names, rows, [], aggs)]
  {
    assert rows[0..|rows|] == rows;
  }

  // ---- the pipeline

  function ApplyOp(rt: Runtime, f: Frame, op: ViewOp): (r: Outcome)
    ensures r.Ok? && f.batches != [] ==> r.frame.batches != []
  {
    match op
    case Filter(p) =>
      if PredOk(rt, f.names, p) then Ok(MapBatches(f, f.names, rows => FilterRows(rt, f.names, rows, p))) else Err
    case Select(columns) =>
      var present := Present(f.names, columns);
      Ok(MapBatches(f, present, rows => PickRows(f.names, rows, present)))
    case Drop(columns) =>
      var kept := KeepIndices(f.names, columns);
      Ok(MapBatches(f, Gather(f.names, kept), rows => DropRows(rows, kept)))
    case Sort(keys) => Ok(Combined(f, SortRows(rt, f.names, Flatten(f.batches), keys)))
    case Derive(name, e) =>
      if ScalarOk(rt, f.names, e) then Ok(MapBatches(f, f.names + [name], rows => DeriveRows(rt, f.names, rows, e))) else Err
    case Deduplicate(columns) =>
      var keyColumns := match columns case None => None case Some(cs) => Some(Present(f.names, cs));
      Ok(Combined(f, FirstOfEachKey(rt, f.names, Flatten(f.batches), keyColumns, {})))
    case Sample(n, seed) => Ok(Combined(f, SampleRows(rt, Flatten(f.batches), n, seed)))
    case GroupBy(keys, aggs) =>
      var present := Present(f.names, keys);
      var rows := Flatten(f.batches);
      var sorted := if keys == [] then rows else SortRows(rt, f.names, rows, AscendingKeys(keys));
      if AggsOk(f.names, aggs) then Ok(Frame(present + AliasNames(aggs), [GroupRows(rt, f.names, sorted, present, aggs)])) else Err
    case Rename(mappings) => Ok(Frame(RenameAll(f.names, mappings), f.batches))
    case Limit(n) => Ok(Combined(f, Slice(Flatten(f.batches), 0, n)))
    case TopK(k, keys) =>
      Ok(Combined(f, if keys == [] then [] else Slice(SortRows(rt, f.names, Flatten(f.batches), keys), 0, k)))
    case Approximate(_, _) => Ok(f)
  }

  /** The operations applied left to right; the loop stops at an error or when no batch is left. */
  function Run(rt: Runtime, f: Frame, ops: seq<ViewOp>): Outcome
    decreases |ops|
  {
    if ops == [] || f.batches == [] then Ok(f)
    else
      var next := ApplyOp(rt, f, ops[0]);
      if next.Err? then Err else Run(rt, next.frame, ops[1..])
  }

  /** `execute_pipeline`: the meaning of a list of operations. */
  function Exec(rt: Runtime, f: Frame, ops: seq<ViewOp>): Outcome {
    Run(rt, f, Normalize(ops))
  }
}
