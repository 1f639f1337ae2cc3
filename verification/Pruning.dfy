/** Which row groups a filter may skip: the statistics, bloom, mark and bitmap tests of
    crates/tv-engine/src/reader.rs, bloom_index.rs, filter_util.rs and mark_index.rs, and the
    proof that no skipped row group holds a row the filter accepts. */
module Pruning {
  import opened Seqs
  import opened TextOrder
  import opened Exprs
  import opened Executor
  import Bits
  import RoaringIndex
  import BloomFilter

  // ---- row groups and what is known about them

  datatype KeyBound = FloatBound(x: real) | TextBound(s: string)

  /** A column chunk's statistics; the bounds are absent when the chunk has no usable ones. */
  datatype ColumnStats = ColumnStats(bounds: Option<(KeyBound, KeyBound)>, nullCount: Option<nat>)

  datatype RowGroup = RowGroup(rows: seq<Row>, stats: seq<Option<ColumnStats>>)

  predicate AtMost(a: string, b: string) {
    a == b || TextLess(a, b)
  }

  /** A non-null cell lies between the bounds, and has their kind. */
  ghost predicate Within(cell: Cell, lo: KeyBound, hi: KeyBound) {
    match (lo, hi)
    case (FloatBound(a), FloatBound(b)) => cell.Num? && a <= cell.x <= b
    case (TextBound(a), TextBound(b)) => cell.Str? && AtMost(a, cell.s) && AtMost(cell.s, b)
    case _ => false
  }

  function CellAt(row: Row, col: nat): Cell {
    if col < |row| then row[col] else Null
  }

  function NullsIn(rows: seq<Row>, col: nat): nat {
    if rows == [] then 0 else (if CellAt(rows[0], col).Null? then 1 else 0) + NullsIn(rows[1..], col)
  }

  /** The statistics tell the truth about the rows. */
  ghost predicate ValidStats(rg: RowGroup) {
    forall col :: 0 <= col < |rg.stats| && rg.stats[col].Some? ==>
      && (rg.stats[col].value.nullCount.Some? ==> rg.stats[col].value.nullCount.value == NullsIn(rg.rows, col))
      && (rg.stats[col].value.bounds.Some? ==>
            BoundColumn(rg.rows, col, rg.stats[col].value.bounds.value.0, rg.stats[col].value.bounds.value.1))
  }

  ghost predicate BoundColumn(rows: seq<Row>, col: nat, lo: KeyBound, hi: KeyBound) {
    forall i :: 0 <= i < |rows| ==> (CellAt(rows[i], col).Null? || Within(CellAt(rows[i], col), lo, hi))
  }

  function StatsOf(names: seq<string>, rg: RowGroup, column: string): Option<ColumnStats> {
    var idx := IndexOf(names, column);
    if idx.Some? && idx.value < |rg.stats| then rg.stats[idx.value] else None
  }

  function BoundsOf(names: seq<string>, rg: RowGroup, column: string): Option<(KeyBound, KeyBound)> {
    var stats := StatsOf(names, rg, column);
    if stats.Some? then stats.value.bounds else None
  }

  /** A numeric literal as a float; text against text bounds. */
  function LiteralBound(value: Literal): Option<KeyBound> {
    match value
    case IntLit(i) => Some(FloatBound(i as real))
    case FloatLit(f) => Some(FloatBound(f))
    case TextLit(s) => Some(TextBound(s))
    case _ => None
  }

  predicate BoundLess(a: KeyBound, b: KeyBound) {
    match (a, b)
    case (FloatBound(x), FloatBound(y)) => x < y
    case (TextBound(x), TextBound(y)) => TextLess(x, y)
    case _ => false
  }

  predicate SameKind(a: KeyBound, b: KeyBound) {
    a.FloatBound? <==> b.FloatBound?
  }

  // ---- bloom filters

  datatype BloomIndex = BloomIndex(filters: map<(nat, nat), BloomFilter.FilterBits>, literalHash: Literal -> nat)

  /** The texts a bloom filter is built over: the column cast to text. */
  function TextsOf(rt: Runtime, rows: seq<Row>, col: nat): seq<Option<string>> {
    seq(|rows|, i requires 0 <= i < |rows| => ToText(rt, CellAt(rows[i], col)))
  }

  /** Every filter holds its column's text hashes, and a text literal hashes like a text cell. */
  ghost predicate ValidBloom(rt: Runtime, bloom: BloomIndex, g: nat, rg: RowGroup) {
    forall col: nat :: (g, col) in bloom.filters ==>
      BloomFilter.Holds(bloom.filters[(g, col)],
                        BloomFilter.HashesOf(s => bloom.literalHash(TextLit(s)), bloom.literalHash(NullLit), TextsOf(rt, rg.rows, col)))
  }

  predicate MightSkip(bloom: BloomIndex, g: nat, col: nat, value: Literal)
    requires forall k :: k in bloom.filters ==> bloom.filters[k].nBits > 0
  {
    (g, col) in bloom.filters && !BloomFilter.MightContain(bloom.filters[(g, col)], bloom.literalHash(value))
  }

  predicate MightSkipForAny(bloom: BloomIndex, g: nat, col: nat, values: seq<Literal>)
    requires forall k :: k in bloom.filters ==> bloom.filters[k].nBits > 0
  {
    (g, col) in bloom.filters && forall i :: 0 <= i < |values| ==> MightSkip(bloom, g, col, values[i])
  }

  ghost predicate SizedBloom(bloom: Option<BloomIndex>) {
    bloom.Some? ==> forall k :: k in bloom.value.filters ==> bloom.value.filters[k].nBits > 0
  }

  predicate BloomPrunes(bloom: Option<BloomIndex>, g: nat, names: seq<string>, pred: Predicate)
    requires SizedBloom(bloom)
  {
    if bloom.None? then false
    else match pred
      case Compare(Eq, column, value) =>
        var idx := IndexOf(names, column);
        idx.Some? && MightSkip(bloom.value, g, idx.value, value)
      case In(column, values) =>
        var idx := IndexOf(names, column);
        idx.Some? && MightSkipForAny(bloom.value, g, idx.value, values)
      case _ => false
  }

  // ---- can_prune_row_group

  /** The statistics rule out every value `op value` accepts. */
  predicate BoundsPrune(lo: KeyBound, hi: KeyBound, op: CmpOp, value: KeyBound) {
    match op
    case Gt => SameKind(hi, value) && !BoundLess(value, hi)
    case Gte => BoundLess(hi, value)
    case Lt => SameKind(lo, value) && !BoundLess(lo, value)
    case Lte => BoundLess(value, lo)
    case Eq => BoundLess(value, lo) || BoundLess(hi, value)
    case Ne => false
  }

  /** Both limits of a Between have to be of the same literal kind for the statistics to be used. */
  predicate BetweenPrunes(lo: KeyBound, hi: KeyBound, from: Literal, upto: Literal) {
    && ((from.IntLit? && upto.IntLit?) || (from.FloatLit? && upto.FloatLit?) || (from.TextLit? && upto.TextLit?))
    && (BoundLess(hi, LiteralBound(from).value) || BoundLess(LiteralBound(upto).value, lo))
  }

  predicate CanPrune(pred: Predicate, rg: RowGroup, g: nat, names: seq<string>, bloom: Option<BloomIndex>)
    requires SizedBloom(bloom)
    decreases pred
  {
    match pred
    case Compare(op, column, value) =>
      var bounds, lit := BoundsOf(names, rg, column), LiteralBound(value);
      || (bounds.Some? && lit.Some? && BoundsPrune(bounds.value.0, bounds.value.1, op, lit.value))
      || (op == Eq && BloomPrunes(bloom, g, names, pred))
    case Between(column, from, upto) =>
      var bounds := BoundsOf(names, rg, column);
      bounds.Some? && BetweenPrunes(bounds.value.0, bounds.value.1, from, upto)
    case In(_, _) => BloomPrunes(bloom, g, names, pred)
    case IsNull(column) =>
      var stats := StatsOf(names, rg, column);
      stats.Some? && stats.value.nullCount == Some(0)
    case IsNotNull(column) =>
      var stats := StatsOf(names, rg, column);
      stats.Some? && stats.value.nullCount == Some(|rg.rows|)
    case And(exprs) => PrunesSome(exprs, rg, g, names, bloom)
    case Or(exprs) => PrunesAll(exprs, rg, g, names, bloom)
    case _ => false
  }

  predicate PrunesSome(ps: seq<Predicate>, rg: RowGroup, g: nat, names: seq<string>, bloom: Option<BloomIndex>)
    requires SizedBloom(bloom)
    decreases ps
  {
    ps != [] && (CanPrune(ps[0], rg, g, names, bloom) || PrunesSome(ps[1..], rg, g, names, bloom))
  }

  predicate PrunesAll(ps: seq<Predicate>, rg: RowGroup, g: nat, names: seq<string>, bloom: Option<BloomIndex>)
    requires SizedBloom(bloom)
    decreases ps
  {
    ps == [] || (CanPrune(ps[0], rg, g, names, bloom) && PrunesAll(ps[1..], rg, g, names, bloom))
  }

  /** The literals a text hash answers for. A null literal accepts no row at all. */
  predicate Textual(value: Literal) {
    value.TextLit? || value.NullLit?
  }

  /** The guard the bloom clauses leave out: their equality literals are text. */
  predicate BloomSafe(pred: Predicate)
    decreases pred
  {
    match pred
    case Compare(Eq, _, value) => Textual(value)
    case In(_, values) => forall i :: 0 <= i < |values| ==> Textual(values[i])
    case And(exprs) => AllBloomSafe(exprs)
    case Or(exprs) => AllBloomSafe(exprs)
    case _ => true
  }

  predicate AllBloomSafe(ps: seq<Predicate>)
    decreases ps
  {
    ps == [] || (BloomSafe(ps[0]) && AllBloomSafe(ps[1..]))
  }

  // ---- soundness of pruning

  lemma CellsOfColumn(names: seq<string>, rg: RowGroup, i: nat, column: string)
    requires ValidStats(rg) && i < |rg.rows| && BoundsOf(names, rg, column).Some?
    ensures var cell, bounds := CellOf(names, rg.rows[i], column), BoundsOf(names, rg, column).value;
            cell.Null? || Within(cell, bounds.0, bounds.1)
  {
    var idx := IndexOf(names, column).value;
    assert CellAt(rg.rows[i], idx) == CellOf(names, rg.rows[i], column);
  }

  lemma BoundsPruneIsSound(rt: Runtime, cell: Cell, lo: KeyBound, hi: KeyBound, op: CmpOp, value: Literal)
    requires cell.Null? || Within(cell, lo, hi)
    requires LiteralBound(value).Some? && BoundsPrune(lo, hi, op, LiteralBound(value).value)
    ensures EvalCompare(rt, cell, value, op) != Some(true)
  {
    if cell.Str? && value.TextLit? {
      TextCompare(cell.s, value.s);
      TextCompare(lo.s, cell.s);
      TextCompare(cell.s, hi.s);
      TextBetween(lo.s, cell.s, value.s);
      TextBetween(value.s, cell.s, hi.s);
      TextBetween(cell.s, hi.s, value.s);
      TextBetween(value.s, lo.s, cell.s);
    }
  }

  lemma TextCompare(a: string, b: string)
    ensures TextLess(a, b) || a == b || TextLess(b, a)
    ensures !(TextLess(a, b) && TextLess(b, a)) && (TextLess(a, b) ==> a != b)
  {
    TextTrichotomy(a, b);
  }

  lemma TextBetween(a: string, b: string, c: string)
    ensures TextLess(a, b) && TextLess(b, c) ==> TextLess(a, c)
  {
    if TextLess(a, b) && TextLess(b, c) {
      TextTransitive(a, b, c);
    }
  }

  lemma BetweenPruneIsSound(rt: Runtime, cell: Cell, lo: KeyBound, hi: KeyBound, from: Literal, upto: Literal)
    requires cell.Null? || Within(cell, lo, hi)
    requires BetweenPrunes(lo, hi, from, upto)
    ensures NullAnd(EvalCompare(rt, cell, from, Gte), EvalCompare(rt, cell, upto, Lte)) != Some(true)
  {
    if BoundLess(hi, LiteralBound(from).value) {
      BoundsPruneIsSound(rt, cell, lo, hi, Gte, from);
    } else {
      BoundsPruneIsSound(rt, cell, lo, hi, Lte, upto);
    }
  }

  lemma {:induction false} NullCount(rows: seq<Row>, col: nat, i: nat)
    requires i < |rows|
    ensures NullsIn(rows, col) <= |rows|
    ensures CellAt(rows[i], col).Null? ==> NullsIn(rows, col) > 0
    ensures !CellAt(rows[i], col).Null? ==> NullsIn(rows, col) < |rows|
  {
    if i > 0 {
      NullCount(rows[1..], col, i - 1);
    } else if |rows| > 1 {
      NullCount(rows[1..], col, 0);
    }
  }

  /** A filter that denies a textual literal has no row equal to it. */
  lemma DeniedHasNoRow(rt: Runtime, bloom: BloomIndex, g: nat, rg: RowGroup, col: nat, i: nat, value: Literal)
    requires ValidBloom(rt, bloom, g, rg) && SizedBloom(Some(bloom)) && Textual(value)
    requires MightSkip(bloom, g, col, value) && i < |rg.rows|
    ensures EvalCompare(rt, CellAt(rg.rows[i], col), value, Eq) != Some(true)
  {
    if value.TextLit? && ToText(rt, CellAt(rg.rows[i], col)) == Some(value.s) {
      var texts := TextsOf(rt, rg.rows, col);
      var textHash := s => bloom.literalHash(TextLit(s));
      var hashes := BloomFilter.HashesOf(textHash, bloom.literalHash(NullLit), texts);
      assert hashes[i] == BloomFilter.HashOf(textHash, bloom.literalHash(NullLit), texts[i]) == bloom.literalHash(value);
      BloomFilter.AnswersForInserted(bloom.filters[(g, col)], hashes, bloom.literalHash(value));
    }
  }

  lemma {:induction false} InNeedsOne(rt: Runtime, cell: Cell, values: seq<Literal>) returns (k: nat)
    requires EvalIn(rt, cell, values) == Some(true)
    ensures k < |values| && EvalCompare(rt, cell, values[k], Eq) == Some(true)
  {
    if EvalCompare(rt, cell, values[0], Eq) == Some(true) {
      k := 0;
    } else {
      var j := InNeedsOne(rt, cell, values[1..]);
      k := j + 1;
    }
  }

  ghost predicate ValidRowGroup(rt: Runtime, bloom: Option<BloomIndex>, g: nat, rg: RowGroup) {
    ValidStats(rg) && SizedBloom(bloom) && (bloom.Some? ==> ValidBloom(rt, bloom.value, g, rg))
  }

  lemma BloomPruneIsSound(rt: Runtime, names: seq<string>, rg: RowGroup, g: nat, i: nat, pred: Predicate, bloom: Option<BloomIndex>)
    requires ValidRowGroup(rt, bloom, g, rg) && i < |rg.rows| && BloomSafe(pred) && BloomPrunes(bloom, g, names, pred)
    ensures EvalPred(rt, names, rg.rows[i], pred) != Some(true)
  {
    var idx := IndexOf(names, pred.column).value;
    var cell := CellOf(names, rg.rows[i], pred.column);
    assert cell == CellAt(rg.rows[i], idx);
    if pred.Compare? {
      DeniedHasNoRow(rt, bloom.value, g, rg, idx, i, pred.value);
    } else if EvalIn(rt, cell, pred.values) == Some(true) {
      var k := InNeedsOne(rt, cell, pred.values);
      DeniedHasNoRow(rt, bloom.value, g, rg, idx, i, pred.values[k]);
      assert false;
    }
  }

  /** No row of a pruned row group makes the predicate true, however deeply And and Or are nested. */
  lemma {:induction false} PruneIsSound(rt: Runtime, names: seq<string>, rg: RowGroup, g: nat, i: nat, pred: Predicate, bloom: Option<BloomIndex>)
    requires ValidRowGroup(rt, bloom, g, rg) && i < |rg.rows| && (bloom.Some? ==> BloomSafe(pred))
    requires CanPrune(pred, rg, g, names, bloom)
    ensures EvalPred(rt, names, rg.rows[i], pred) != Some(true)
    decreases pred
  {
    match pred
    case Compare(op, column, value) =>
      if op == Eq && BloomPrunes(bloom, g, names, pred) {
        BloomPruneIsSound(rt, names, rg, g, i, pred, bloom);
      } else {
        CellsOfColumn(names, rg, i, column);
        var bounds := BoundsOf(names, rg, column).value;
        BoundsPruneIsSound(rt, CellOf(names, rg.rows[i], column), bounds.0, bounds.1, op, value);
      }
    case Between(column, from, upto) =>
      CellsOfColumn(names, rg, i, column);
      var bounds := BoundsOf(names, rg, column).value;
      BetweenPruneIsSound(rt, CellOf(names, rg.rows[i], column), bounds.0, bounds.1, from, upto);
    case In(_, _) => BloomPruneIsSound(rt, names, rg, g, i, pred, bloom);
    case IsNull(column) => CountedNulls(names, rg, i, column);
    case IsNotNull(column) => CountedNulls(names, rg, i, column);
    case And(exprs) => PruneSomeIsSound(rt, names, rg, g, i, exprs, bloom);
    case Or(exprs) => PruneAllIsSound(rt, names, rg, g, i, exprs, bloom);
  }

  lemma CountedNulls(names: seq<string>, rg: RowGroup, i: nat, column: string)
    requires ValidStats(rg) && i < |rg.rows| && StatsOf(names, rg, column).Some? && StatsOf(names, rg, column).value.nullCount.Some?
    ensures StatsOf(names, rg, column).value.nullCount.value == 0 ==> !CellOf(names, rg.rows[i], column).Null?
    ensures StatsOf(names, rg, column).value.nullCount.value == |rg.rows| ==> CellOf(names, rg.rows[i], column).Null?
  {
    var idx := IndexOf(names, column).value;
    assert CellAt(rg.rows[i], idx) == CellOf(names, rg.rows[i], column);
    NullCount(rg.rows, idx, i);
  }

  lemma {:induction false} PruneSomeIsSound(rt: Runtime, names: seq<string>, rg: RowGroup, g: nat, i: nat, ps: seq<Predicate>, bloom: Option<BloomIndex>)
    requires ValidRowGroup(rt, bloom, g, rg) && i < |rg.rows| && (bloom.Some? ==> AllBloomSafe(ps))
    requires PrunesSome(ps, rg, g, names, bloom)
    ensures EvalAll(rt, names, rg.rows[i], ps) != Some(true)
    decreases ps
  {
    if CanPrune(ps[0], rg, g, names, bloom) {
      PruneIsSound(rt, names, rg, g, i, ps[0], bloom);
    } else {
      PruneSomeIsSound(rt, names, rg, g, i, ps[1..], bloom);
    }
  }

  lemma {:induction false} PruneAllIsSound(rt: Runtime, names: seq<string>, rg: RowGroup, g: nat, i: nat, ps: seq<Predicate>, bloom: Option<BloomIndex>)
    requires ValidRowGroup(rt, bloom, g, rg) && i < |rg.rows| && (bloom.Some? ==> AllBloomSafe(ps))
    requires PrunesAll(ps, rg, g, names, bloom)
    ensures EvalAny(rt, names, rg.rows[i], ps) != Some(true)
    decreases ps
  {
    if ps != [] {
      PruneIsSound(rt, names, rg, g, i, ps[0], bloom);
      PruneAllIsSound(rt, names, rg, g, i, ps[1..], bloom);
    }
  }

  // ---- the mark index

  /** Per row group, bounds of one numeric column; an absent bound is infinite. */
  datatype MarkEntry = MarkEntry(minKey: Option<real>, maxKey: Option<real>)

  type MarkIndex = seq<MarkEntry>

  ghost predicate ValidMark(rg: RowGroup, col: nat, e: MarkEntry) {
    forall i :: 0 <= i < |rg.rows| && !CellAt(rg.rows[i], col).Null? ==>
      && (e.minKey.Some? ==> CellAt(rg.rows[i], col).Num? && e.minKey.value <= CellAt(rg.rows[i], col).x)
      && (e.maxKey.Some? ==> CellAt(rg.rows[i], col).Num? && CellAt(rg.rows[i], col).x <= e.maxKey.value)
  }

  /** Whether a lookup with `op value` keeps the row group. */
  predicate MarkKeeps(e: MarkEntry, op: CmpOp, value: real) {
    match op
    case Eq => (e.minKey.Some? ==> e.minKey.value <= value) && (e.maxKey.Some? ==> value <= e.maxKey.value)
    case Gt => e.maxKey.Some? ==> e.maxKey.value > value
    case Gte => e.maxKey.Some? ==> e.maxKey.value >= value
    case Lt => e.minKey.Some? ==> e.minKey.value < value
    case Lte => e.minKey.Some? ==> e.minKey.value <= value
    case Ne => true
  }

  predicate MarkKeepsBetween(e: MarkEntry, lo: real, hi: real) {
    (e.maxKey.Some? ==> e.maxKey.value >= lo) && (e.minKey.Some? ==> e.minKey.value <= hi)
  }

  function LiteralToFloat(value: Literal): Option<real> {
    match value
    case IntLit(i) => Some(i as real)
    case FloatLit(f) => Some(f)
    case _ => None
  }

  /** `mark_qualifying_rgs`, one row group at a time: no answer, or whether the row group is listed. */
  function MarkListed(pred: Predicate, names: seq<string>, marks: map<nat, MarkIndex>, g: nat): (listed: Option<bool>)
    decreases pred
  {
    match pred
    case Compare(op, column, value) =>
      var idx, v := IndexOf(names, column), LiteralToFloat(value);
      if op == Ne || idx.None? || v.None? || idx.value !in marks then None
      else Some(g < |marks[idx.value]| && MarkKeeps(marks[idx.value][g], op, v.value))
    case Between(column, lo, hi) =>
      var idx, l, h := IndexOf(names, column), LiteralToFloat(lo), LiteralToFloat(hi);
      if idx.None? || l.None? || h.None? || idx.value !in marks then None
      else Some(g < |marks[idx.value]| && MarkKeepsBetween(marks[idx.value][g], l.value, h.value))
    case And(exprs) => FirstMark(exprs, names, marks, g)
    case _ => None
  }

  /** The first conjunct that has an answer decides. */
  function FirstMark(ps: seq<Predicate>, names: seq<string>, marks: map<nat, MarkIndex>, g: nat): (listed: Option<bool>)
    decreases ps
  {
    if ps == [] then None
    else
      var first := MarkListed(ps[0], names, marks, g);
      if first.Some? then first else FirstMark(ps[1..], names, marks, g)
  }

  ghost predicate ValidMarks(marks: map<nat, MarkIndex>, file: seq<RowGroup>) {
    forall col :: col in marks ==>
      |marks[col]| == |file| && forall g :: 0 <= g < |file| ==> ValidMark(file[g], col, marks[col][g])
  }

  /** No row of an unlisted row group makes the predicate true. */
  lemma {:induction false} MarkIsSound(rt: Runtime, names: seq<string>, marks: map<nat, MarkIndex>, file: seq<RowGroup>, g: nat, i: nat, pred: Predicate)
    requires ValidMarks(marks, file) && g < |file| && i < |file[g].rows|
    requires MarkListed(pred, names, marks, g) == Some(false)
    ensures EvalPred(rt, names, file[g].rows[i], pred) != Some(true)
    decreases pred
  {
    match pred
    case Compare(op, column, value) =>
      var idx := IndexOf(names, column).value;
      assert ValidMark(file[g], idx, marks[idx][g]);
      assert CellAt(file[g].rows[i], idx) == CellOf(names, file[g].rows[i], column);
    case Between(column, lo, hi) =>
      var idx := IndexOf(names, column).value;
      assert ValidMark(file[g], idx, marks[idx][g]);
      assert CellAt(file[g].rows[i], idx) == CellOf(names, file[g].rows[i], column);
    case And(exprs) => FirstMarkIsSound(rt, names, marks, file, g, i, exprs);
  }

  lemma {:induction false} FirstMarkIsSound(rt: Runtime, names: seq<string>, marks: map<nat, MarkIndex>, file: seq<RowGroup>, g: nat, i: nat, ps: seq<Predicate>)
    requires ValidMarks(marks, file) && g < |file| && i < |file[g].rows|
    requires FirstMark(ps, names, marks, g) == Some(false)
    ensures EvalAll(rt, names, file[g].rows[i], ps) != Some(true)
    decreases ps
  {
    if MarkListed(ps[0], names, marks, g).Some? {
      MarkIsSound(rt, names, marks, file, g, i, ps[0]);
    } else {
      FirstMarkIsSound(rt, names, marks, file, g, i, ps[1..]);
    }
  }
}
