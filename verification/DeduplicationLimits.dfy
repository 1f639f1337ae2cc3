/** Where pruning columns ahead of a whole-row deduplication changes the meaning of a pipeline. */
module DeduplicationLimits {
  import opened Seqs
  import opened TextOrder
  import opened Exprs
  import opened Aggregates
  import opened Executor
  import opened Relevance
  import opened Meaning
  import opened Optimizer
  import opened OptimizerLimits

  const AB: seq<string> := ["a", "b"]

  // ---- the pass on a whole-row deduplication and a group-by

  /** The pruned list computes what the written list computes, on every table and with every kernel. */
  ghost predicate PruningSound(ops: seq<ViewOp>) {
    forall rt, f :: WellFormed(f) ==> Exec(rt, f, Pass2ColumnPruning(ops)) == Exec(rt, f, ops)
  }

  /** The pass fires exactly when the group-by refers to a column. */
  lemma PrunedAheadOfDedup(dedup: ViewOp, group: ViewOp)
    requires dedup == Deduplicate(None) && group.GroupBy?
    ensures var ops, cols := [dedup] + [group], OpColumns(group);
            Pass2ColumnPruning(ops) == if cols == {} then ops else [Select(SortedNames(cols))] + ops
    ensures OpColumns(group) == {} <==> group.groupKeys == [] && forall a :: a in group.aggs ==> a.Count?
  {
    var ops := [dedup] + [group];
    assert ops[1] == group && group in ops && ops[1..] == [group] && ops[1..][1..] == [];
    assert OpColumns(dedup) == {} && Referenced([]) == {};
    assert Referenced([group]) == OpColumns(group);
    assert Referenced(ops) == OpColumns(group);
    if group.groupKeys != [] {
      assert group.groupKeys[0] in OpColumns(group);
    }
    forall a | a in group.aggs && a.Agg?
      ensures a.column in OpColumns(group)
    {
    }
  }

  // ---- one step of each list

  lemma SelectThen(rt: Runtime, f: Frame, columns: seq<string>, rest: seq<ViewOp>)
    requires f.batches != [] && Present(f.names, columns) == columns
    ensures Run(rt, f, [Select(columns)] + rest) == Run(rt, Picked(f, columns), rest)
  {
    StepTo(rt, f, Select(columns), Picked(f, columns), rest);
  }

  function Picked(f: Frame, columns: seq<string>): Frame {
    MapBatches(f, columns, rows => PickRows(f.names, rows, columns))
  }

  lemma {:induction false} AllColumnsPresent(names: seq<string>, columns: seq<string>)
    requires forall c :: c in columns ==> c in names
    ensures Present(names, columns) == columns
  {
    if columns != [] {
      assert columns[0] in columns;
      assert forall c :: c in columns[1..] ==> c in columns;
      AllColumnsPresent(names, columns[1..]);
      assert columns == [columns[0]] + columns[1..];
    }
  }

  /** The groups a kernel that orders nothing finds in one batch. */
  function GroupsOf(rt: Runtime, names: seq<string>, rows: seq<Row>, keys: seq<string>, aggs: seq<AggExpr>): Frame {
    Frame(Present(names, keys) + AliasNames(aggs), [GroupRows(rt, names, rows, Present(names, keys), aggs)])
  }

  lemma GroupAlone(rt: Runtime, f: Frame, rows: seq<Row>, keys: seq<string>, aggs: seq<AggExpr>)
    requires f.batches == [rows] && AggsOk(f.names, aggs) && (keys == [] || rt.sortPermutation == IdleRuntime().sortPermutation)
    ensures Run(rt, f, [GroupBy(keys, aggs)]) == Ok(GroupsOf(rt, f.names, rows, keys, aggs))
  {
    FlattenOne([], rows);
    if keys != [] {
      IdleSorts(rt, f.names, rows, AscendingKeys(keys));
    }
    var group := GroupBy(keys, aggs);
    assert ApplyOp(rt, f, group) == Ok(GroupsOf(rt, f.names, rows, keys, aggs));
    assert [group][1..] == [];
  }

  /** Two rows deduplicated by their whole-row keys, then grouped. */
  lemma DedupThenGroup(rt: Runtime, f: Frame, r: Row, s: Row, keys: seq<string>, aggs: seq<AggExpr>)
    requires f.batches == [[r, s]] && AggsOk(f.names, aggs) && (keys == [] || rt.sortPermutation == IdleRuntime().sortPermutation)
    ensures Run(rt, f, [Deduplicate(None)] + [GroupBy(keys, aggs)]) ==
            Ok(GroupsOf(rt, f.names, if JoinKey(rt, r) == JoinKey(rt, s) then [r] else [r, s], keys, aggs))
  {
    var kept := if JoinKey(rt, r) == JoinKey(rt, s) then [r] else [r, s];
    DedupTwo(rt, f, r, s);
    StepTo(rt, f, Deduplicate(None), Combined(f, kept), [GroupBy(keys, aggs)]);
    GroupAlone(rt, Combined(f, kept), kept, keys, aggs);
  }

  // ---- two rows whose joined keys are equal although a referenced cell differs

  const LONG: string := "1\U{1}1"
  const SHORT: string := "1"

  function Nulls(n: nat): Row {
    seq(n, i => Null)
  }

  lemma Regroup(a: string, b: string, c: string, d: string)
    ensures a + b + (c + d) == a + b + c + d && a + (b + c) == a + b + c
  {
  }

  /** What is behind a cell in a joined key. */
  function KeyTail(rt: Runtime, rest: Row): string {
    if rest == [] then "" else "\U{1}" + JoinKey(rt, rest)
  }

  lemma KeyOfOne(rt: Runtime, y: Cell, rest: Row)
    ensures JoinKey(rt, [y] + rest) == FormatCell(rt, y) + KeyTail(rt, rest)
  {
    assert ([y] + rest)[1..] == rest;
    Regroup(FormatCell(rt, y), "\U{1}", JoinKey(rt, rest), "");
  }

  /** Two cells ahead of others: their texts, and what follows them. */
  lemma KeyOfTwo(rt: Runtime, x: Cell, y: Cell, rest: Row)
    ensures JoinKey(rt, [x, y] + rest) == FormatCell(rt, x) + "\U{1}" + FormatCell(rt, y) + KeyTail(rt, rest)
  {
    var row := [x, y] + rest;
    assert row[1..] == [y] + rest;
    KeyOfOne(rt, y, rest);
    Regroup(FormatCell(rt, x), "\U{1}", FormatCell(rt, y), KeyTail(rt, rest));
  }

  /** The texts of the two first cells, joined, are the same; the separator is part of one of them. */
  lemma SameWholeKey(rt: Runtime, n: nat)
    ensures JoinKey(rt, [Str(LONG), Str(SHORT)] + Nulls(n)) == JoinKey(rt, [Str(SHORT), Str(LONG)] + Nulls(n))
  {
    KeyOfTwo(rt, Str(LONG), Str(SHORT), Nulls(n));
    KeyOfTwo(rt, Str(SHORT), Str(LONG), Nulls(n));
    assert LONG + "\U{1}" + SHORT == SHORT + "\U{1}" + LONG;
  }

  /** Longer texts make a longer key. */
  lemma {:induction false} LongerKey(rt: Runtime, a: seq<Cell>, b: seq<Cell>, k: nat)
    requires |a| == |b| && k < |a| && |FormatCell(rt, a[k])| > |FormatCell(rt, b[k])|
    requires forall j :: 0 <= j < |a| ==> |FormatCell(rt, a[j])| >= |FormatCell(rt, b[j])|
    ensures |JoinKey(rt, a)| > |JoinKey(rt, b)|
  {
    if |a| > 1 {
      if k > 0 {
        LongerKey(rt, a[1..], b[1..], k - 1);
      } else {
        NotShorterKey(rt, a[1..], b[1..]);
      }
    }
  }

  lemma {:induction false} NotShorterKey(rt: Runtime, a: seq<Cell>, b: seq<Cell>)
    requires |a| == |b| && forall j :: 0 <= j < |a| ==> |FormatCell(rt, a[j])| >= |FormatCell(rt, b[j])|
    ensures |JoinKey(rt, a)| >= |JoinKey(rt, b)|
  {
    if |a| > 1 {
      NotShorterKey(rt, a[1..], b[1..]);
    }
  }

  /** A table of column `c`, a column nothing refers to, and the `others`: the two rows differ in the first two cells. */
  function Colliding(c: string, z: string, others: seq<string>): Frame {
    Frame([c, z] + others, [[[Str(LONG), Str(SHORT)] + Nulls(|others|), [Str(SHORT), Str(LONG)] + Nulls(|others|)]])
  }

  lemma CollidingCells(c: string, z: string, others: seq<string>, column: string)
    requires column != z
    ensures var f := Colliding(c, z, others);
            if column == c then CellOf(f.names, f.batches[0][0], column) == Str(LONG) && CellOf(f.names, f.batches[0][1], column) == Str(SHORT)
            else CellOf(f.names, f.batches[0][0], column) == Null == CellOf(f.names, f.batches[0][1], column)
  {
    var names := [c, z] + others;
    var idx := IndexOf(names, column);
    if idx.Some? && column != c {
      assert names[1] == z;
      assert idx.value >= 2;
    }
  }

  lemma PickedCell(names: seq<string>, row: Row, columns: seq<string>, column: string)
    requires column in columns
    ensures CellOf(columns, Pick(names, row, columns), column) == CellOf(names, row, column)
  {
  }

  /** Picking the referenced columns tells the two rows apart. */
  lemma PickedKeysDiffer(rt: Runtime, c: string, z: string, others: seq<string>, columns: seq<string>)
    requires c in columns && z !in columns
    ensures var f := Colliding(c, z, others);
            JoinKey(rt, Pick(f.names, f.batches[0][0], columns)) != JoinKey(rt, Pick(f.names, f.batches[0][1], columns))
  {
    var f := Colliding(c, z, others);
    var a, b := Pick(f.names, f.batches[0][0], columns), Pick(f.names, f.batches[0][1], columns);
    forall j | 0 <= j < |columns|
      ensures |FormatCell(rt, a[j])| >= |FormatCell(rt, b[j])|
    {
      assert columns[j] in columns;
      CollidingCells(c, z, others, columns[j]);
    }
    var k :| 0 <= k < |columns| && columns[k] == c;
    CollidingCells(c, z, others, c);
    LongerKey(rt, a, b, k);
  }

  // ---- the groups of one row and of two

  /** A kernel that reads the short text as the number it is, and the long one as none; only for a standard deviation, which
      needs two numbers, it reads both. */
  function CollidingRuntime(deviation: bool): Runtime {
    IdleRuntime().(parseNumber := (s: string) => if s == SHORT || (deviation && s == LONG) then Some(1.0) else None)
  }

  /** The aggregate of the column's two cells is not that of the first one alone. */
  lemma AggregateTellsApart(names: seq<string>, r: Row, s: Row, names': seq<string>, r': Row, s': Row, agg: AggExpr)
    requires agg.Agg? && CellOf(names, r, agg.column) == CellOf(names', r', agg.column) == Str(LONG)
    requires CellOf(names', s', agg.column) == Str(SHORT)
    ensures var rt := CollidingRuntime(agg.fn.StdDevFn?);
            AggCell(rt, names, [r], agg) != AggCell(rt, names', [r', s'], agg)
  {
    var rt := CollidingRuntime(agg.fn.StdDevFn?);
    var one, two := ColumnCells(names, [r], agg.column), ColumnCells(names', [r', s'], agg.column);
    assert one == [Str(LONG)] && two == [Str(LONG), Str(SHORT)];
    if agg.fn.CountDistinctFn? {
      DistinctTexts(rt, one, two);
    } else {
      FloatsOfTexts(rt, one, two, agg.fn.StdDevFn?);
      NumbersTellApart(rt, agg.fn);
    }
  }

  /** One number more makes the difference. */
  lemma NumbersTellApart(rt: Runtime, fn: AggFn)
    requires !fn.CountDistinctFn?
    ensures if fn.StdDevFn? then AggValue(fn, [1.0], rt.sqrt, rt.maxFloat) != AggValue(fn, [1.0, 1.0], rt.sqrt, rt.maxFloat)
            else AggValue(fn, [], rt.sqrt, rt.maxFloat) != AggValue(fn, [1.0], rt.sqrt, rt.maxFloat)
  {
  }

  lemma FloatsOfTexts(rt: Runtime, one: seq<Cell>, two: seq<Cell>, deviation: bool)
    requires rt == CollidingRuntime(deviation) && one == [Str(LONG)] && two == [Str(LONG), Str(SHORT)]
    ensures NonNullFloats(rt, one) == if deviation then [1.0] else []
    ensures NonNullFloats(rt, two) == if deviation then [1.0, 1.0] else [1.0]
  {
    assert one[1..] == [] && two[1..] == [Str(SHORT)] && two[1..][1..] == [];
    assert NonNullFloats(rt, two[1..]) == [1.0];
  }

  lemma DistinctTexts(rt: Runtime, one: seq<Cell>, two: seq<Cell>)
    requires one == [Str(LONG)] && two == [Str(LONG), Str(SHORT)]
    ensures |set i | 0 <= i < |one| :: FormatCell(rt, one[i])| == 1
    ensures |set i | 0 <= i < |two| :: FormatCell(rt, two[i])| == 2
  {
    assert FormatCell(rt, one[0]) == LONG && FormatCell(rt, two[0]) == LONG && FormatCell(rt, two[1]) == SHORT;
    assert (set i | 0 <= i < |one| :: FormatCell(rt, one[i])) == {LONG};
    assert (set i | 0 <= i < |two| :: FormatCell(rt, two[i])) == {LONG, SHORT};
    assert LONG != SHORT;
  }

  /** One row makes one group; two rows with different first key cells make two. */
  lemma GroupsOfOneAndTwo(rt: Runtime, names: seq<string>, r: Row, names': seq<string>, r': Row, s': Row, keys: seq<string>, aggs: seq<AggExpr>)
    requires keys != [] && keys[0] in names && keys[0] in names'
    requires FormatCell(rt, CellOf(names', r', keys[0])) != FormatCell(rt, CellOf(names', s', keys[0]))
    ensures |GroupRows(rt, names, [r], Present(names, keys), aggs)| == 1
    ensures |GroupRows(rt, names', [r', s'], Present(names', keys), aggs)| == 2
  {
    var one := FormatKeys(rt, names, [r], Present(names, keys));
    assert Boundaries(one, 0) == [(0, 1)] + Boundaries(one, 1) && Boundaries(one, 1) == [];
    var present := Present(names', keys);
    var two := FormatKeys(rt, names', [r', s'], present);
    assert present[0] == keys[0];
    assert two[0][0] == FormatCell(rt, CellOf(names', r', keys[0])) && two[1][0] == FormatCell(rt, CellOf(names', s', keys[0]));
    assert Boundaries(two, 2) == [];
    assert Boundaries(two, 1) == [(1, 2)] + Boundaries(two, 2);
    assert Boundaries(two, 0) == [(0, 1)] + Boundaries(two, 1);
  }

  lemma GroupsDiffer(rt: Runtime, names: seq<string>, r: Row, s: Row, names': seq<string>, r': Row, s': Row,
                     keys: seq<string>, aggs: seq<AggExpr>, agg: AggExpr)
    requires keys == [] && agg in aggs && AggCell(rt, names, [r], agg) != AggCell(rt, names', [r', s'], agg)
    ensures GroupsOf(rt, names, [r], keys, aggs) != GroupsOf(rt, names', [r', s'], keys, aggs)
  {
    WholeGroup(rt, names, [r], aggs);
    WholeGroup(rt, names', [r', s'], aggs);
    var a, b := GroupRow(rt, names, [r], [], aggs), GroupRow(rt, names', [r', s'], [], aggs);
    var k :| 0 <= k < |aggs| && aggs[k] == agg;
    assert a[k] == AggCell(rt, names, [r], agg) && b[k] == AggCell(rt, names', [r', s'], agg);
  }

  // ---- the exact condition

  /** The written list, on two rows with one whole-row key. */
  lemma WrittenList(rt: Runtime, f: Frame, r: Row, s: Row, dedup: ViewOp, group: ViewOp)
    requires dedup.Deduplicate? && dedup.keyColumns.None? && group.GroupBy? && rt.sortPermutation == IdleRuntime().sortPermutation
    requires f.batches == [[r, s]] && JoinKey(rt, r) == JoinKey(rt, s) && AggsOk(f.names, group.aggs)
    ensures Exec(rt, f, [dedup] + [group]) == Ok(GroupsOf(rt, f.names, [r], group.groupKeys, group.aggs))
  {
    ExecTwo(rt, f, dedup, group);
    DedupThenGroup(rt, f, r, s, group.groupKeys, group.aggs);
  }

  lemma PickedTwo(f: Frame, r: Row, s: Row, columns: seq<string>)
    requires f.batches == [[r, s]]
    ensures Picked(f, columns) == Frame(columns, [[Pick(f.names, r, columns), Pick(f.names, s, columns)]])
  {
    assert Picked(f, columns).batches == [PickRows(f.names, [r, s], columns)];
    assert PickRows(f.names, [r, s], columns) == [Pick(f.names, r, columns), Pick(f.names, s, columns)];
  }

  /** The pruned list, on two rows that the selected columns tell apart. */
  lemma PrunedList(rt: Runtime, f: Frame, r: Row, s: Row, select: ViewOp, dedup: ViewOp, group: ViewOp, picked: seq<Row>)
    requires select.Select? && dedup.Deduplicate? && dedup.keyColumns.None? && group.GroupBy? && rt.sortPermutation == IdleRuntime().sortPermutation
    requires f.batches == [[r, s]] && Present(f.names, select.columns) == select.columns && AggsOk(select.columns, group.aggs)
    requires picked == [Pick(f.names, r, select.columns), Pick(f.names, s, select.columns)] && JoinKey(rt, picked[0]) != JoinKey(rt, picked[1])
    ensures Exec(rt, f, [select] + ([dedup] + [group])) == Ok(GroupsOf(rt, select.columns, picked, group.groupKeys, group.aggs))
  {
    SelectedExec(rt, f, r, s, select, dedup, group);
    PickedGroups(rt, f, r, s, select.columns, dedup, group, picked);
  }

  lemma SelectedExec(rt: Runtime, f: Frame, r: Row, s: Row, select: ViewOp, dedup: ViewOp, group: ViewOp)
    requires select.Select? && dedup.Deduplicate? && group.GroupBy?
    requires f.batches == [[r, s]] && Present(f.names, select.columns) == select.columns
    ensures Exec(rt, f, [select] + ([dedup] + [group])) == Run(rt, Picked(f, select.columns), [dedup] + [group])
  {
    ExecThree(rt, f, select, dedup, group);
    SelectThen(rt, f, select.columns, [dedup] + [group]);
  }

  lemma PickedGroups(rt: Runtime, f: Frame, r: Row, s: Row, columns: seq<string>, dedup: ViewOp, group: ViewOp, picked: seq<Row>)
    requires dedup.Deduplicate? && dedup.keyColumns.None? && group.GroupBy? && rt.sortPermutation == IdleRuntime().sortPermutation
    requires f.batches == [[r, s]] && AggsOk(columns, group.aggs)
    requires picked == [Pick(f.names, r, columns), Pick(f.names, s, columns)] && JoinKey(rt, picked[0]) != JoinKey(rt, picked[1])
    ensures Run(rt, Picked(f, columns), [dedup] + [group]) == Ok(GroupsOf(rt, columns, picked, group.groupKeys, group.aggs))
  {
    PickedTwo(f, r, s, columns);
    DedupThenGroup(rt, Picked(f, columns), picked[0], picked[1], group.groupKeys, group.aggs);
  }

  /** What the two lists compute of the colliding rows: one row grouped, and two. */
  lemma BothLists(rt: Runtime, f: Frame, c: string, z: string, others: seq<string>, select: ViewOp, dedup: ViewOp, group: ViewOp)
    requires select.Select? && dedup == Deduplicate(None) && group.GroupBy? && rt.sortPermutation == IdleRuntime().sortPermutation
    requires f == Colliding(c, z, others) && c in select.columns && z !in select.columns
    requires forall d :: d in select.columns ==> d == c || d in others
    requires forall a :: a in group.aggs && a.Agg? ==> a.column in select.columns
    ensures var r, s := f.batches[0][0], f.batches[0][1];
            && Exec(rt, f, [dedup] + [group]) == Ok(GroupsOf(rt, f.names, [r], group.groupKeys, group.aggs))
            && Exec(rt, f, [select] + ([dedup] + [group])) ==
               Ok(GroupsOf(rt, select.columns, [Pick(f.names, r, select.columns), Pick(f.names, s, select.columns)], group.groupKeys, group.aggs))
  {
    var r, s := f.batches[0][0], f.batches[0][1];
    SameWholeKey(rt, |others|);
    WrittenList(rt, f, r, s, dedup, group);
    AllColumnsPresent(f.names, select.columns);
    PickedKeysDiffer(rt, c, z, others, select.columns);
    PrunedList(rt, f, r, s, select, dedup, group, [Pick(f.names, r, select.columns), Pick(f.names, s, select.columns)]);
  }

  lemma FirstKeyTellsApart(rt: Runtime, f: Frame, c: string, z: string, others: seq<string>, columns: seq<string>,
                           keys: seq<string>, aggs: seq<AggExpr>)
    requires f == Colliding(c, z, others) && c in columns && c != z && keys != [] && keys[0] == c
    ensures var r, s := f.batches[0][0], f.batches[0][1];
            GroupsOf(rt, f.names, [r], keys, aggs) !=
            GroupsOf(rt, columns, [Pick(f.names, r, columns), Pick(f.names, s, columns)], keys, aggs)
  {
    PickedFirstCell(f, c, z, others, columns);
    var r, s := f.batches[0][0], f.batches[0][1];
    GroupsOfOneAndTwo(rt, f.names, r, columns, Pick(f.names, r, columns), Pick(f.names, s, columns), keys, aggs);
  }

  lemma FirstAggTellsApart(f: Frame, agg: AggExpr, z: string, others: seq<string>, columns: seq<string>, keys: seq<string>, aggs: seq<AggExpr>)
    requires agg in aggs && agg.Agg? && f == Colliding(agg.column, z, others) && agg.column in columns && agg.column != z && keys == []
    ensures var rt, r, s := CollidingRuntime(agg.fn.StdDevFn?), f.batches[0][0], f.batches[0][1];
            GroupsOf(rt, f.names, [r], keys, aggs) !=
            GroupsOf(rt, columns, [Pick(f.names, r, columns), Pick(f.names, s, columns)], keys, aggs)
  {
    PickedFirstCell(f, agg.column, z, others, columns);
    var rt, r, s := CollidingRuntime(agg.fn.StdDevFn?), f.batches[0][0], f.batches[0][1];
    AggregateTellsApart(f.names, r, s, columns, Pick(f.names, r, columns), Pick(f.names, s, columns), agg);
    GroupsDiffer(rt, f.names, r, s, columns, Pick(f.names, r, columns), Pick(f.names, s, columns), keys, aggs, agg);
  }

  /** The columns pass 2 selects are those of the group-by. */
  ghost predicate SelectsFor(select: ViewOp, group: ViewOp) {
    select.Select? && group.GroupBy? && select.columns == SortedNames(OpColumns(group))
  }

  lemma SelectedColumns(select: ViewOp, group: ViewOp, c: string)
    requires SelectsFor(select, group)
    ensures forall d :: d in select.columns ==> d == c || d in SortedNames(OpColumns(group) - {c})
    ensures forall k :: k in group.groupKeys ==> k in select.columns
    ensures forall a :: a in group.aggs && a.Agg? ==> a.column in select.columns
  {
    forall k | k in group.groupKeys
      ensures k in OpColumns(group)
    {
    }
    forall a | a in group.aggs && a.Agg?
      ensures a.column in OpColumns(group)
    {
    }
  }

  function CollidingFor(group: ViewOp, c: string, z: string): Frame
    requires group.GroupBy?
  {
    Colliding(c, z, SortedNames(OpColumns(group) - {c}))
  }

  lemma CollidingFits(c: string, z: string, others: seq<string>)
    ensures WellFormed(Colliding(c, z, others))
  {
  }

  lemma PruningFailsByKey(rt: Runtime, f: Frame, c: string, z: string, select: ViewOp, dedup: ViewOp, group: ViewOp)
    requires SelectsFor(select, group) && dedup == Deduplicate(None) && rt.sortPermutation == IdleRuntime().sortPermutation
    requires group.groupKeys != [] && c == group.groupKeys[0] && z !in select.columns && f == CollidingFor(group, c, z)
    ensures Exec(rt, f, [select] + ([dedup] + [group])) != Exec(rt, f, [dedup] + [group])
  {
    var others := SortedNames(OpColumns(group) - {c});
    SelectedColumns(select, group, c);
    BothLists(rt, f, c, z, others, select, dedup, group);
    FirstKeyTellsApart(rt, f, c, z, others, select.columns, group.groupKeys, group.aggs);
  }

  lemma PruningFailsByAgg(rt: Runtime, f: Frame, agg: AggExpr, z: string, select: ViewOp, dedup: ViewOp, group: ViewOp)
    requires SelectsFor(select, group) && dedup == Deduplicate(None) && agg in group.aggs && agg.Agg?
    requires rt == CollidingRuntime(agg.fn.StdDevFn?)
    requires group.groupKeys == [] && z !in select.columns && f == CollidingFor(group, agg.column, z)
    ensures Exec(rt, f, [select] + ([dedup] + [group])) != Exec(rt, f, [dedup] + [group])
  {
    var others := SortedNames(OpColumns(group) - {agg.column});
    SelectedColumns(select, group, agg.column);
    BothLists(rt, f, agg.column, z, others, select, dedup, group);
    FirstAggTellsApart(f, agg, z, others, select.columns, group.groupKeys, group.aggs);
  }

  /** Some table and kernel tell the lists apart whenever the group-by refers to a column. */
  lemma PruningFails(select: ViewOp, dedup: ViewOp, group: ViewOp) returns (rt: Runtime, f: Frame)
    requires SelectsFor(select, group) && dedup == Deduplicate(None)
    requires group.groupKeys != [] || exists a :: a in group.aggs && a.Agg?
    ensures WellFormed(f) && Exec(rt, f, [select] + ([dedup] + [group])) != Exec(rt, f, [dedup] + [group])
  {
    var z := Longer(select.columns);
    if z in select.columns {
      LongerIsFresh(select.columns, z);
    }
    if group.groupKeys != [] {
      rt, f := IdleRuntime(), CollidingFor(group, group.groupKeys[0], z);
      CollidingFits(group.groupKeys[0], z, SortedNames(OpColumns(group) - {group.groupKeys[0]}));
      PruningFailsByKey(rt, f, group.groupKeys[0], z, select, dedup, group);
    } else {
      var agg :| agg in group.aggs && agg.Agg?;
      rt, f := CollidingRuntime(agg.fn.StdDevFn?), CollidingFor(group, agg.column, z);
      CollidingFits(agg.column, z, SortedNames(OpColumns(group) - {agg.column}));
      PruningFailsByAgg(rt, f, agg, z, select, dedup, group);
    }
  }

  lemma PickedFirstCell(f: Frame, c: string, z: string, others: seq<string>, columns: seq<string>)
    requires f == Colliding(c, z, others) && c in columns && c != z
    ensures var r, s := f.batches[0][0], f.batches[0][1];
            && CellOf(f.names, r, c) == Str(LONG) == CellOf(columns, Pick(f.names, r, columns), c)
            && CellOf(columns, Pick(f.names, s, columns), c) == Str(SHORT)
  {
    CollidingCells(c, z, others, c);
    PickedCell(f.names, f.batches[0][0], columns, c);
    PickedCell(f.names, f.batches[0][1], columns, c);
  }

  /** Ahead of a whole-row deduplication, pruning is sound exactly when it does not fire: no keys, and only counts. */
  lemma PruningAheadOfDedupIsExact(dedup: ViewOp, group: ViewOp)
    requires dedup == Deduplicate(None) && group.GroupBy?
    ensures PruningSound([dedup] + [group]) <==> group.groupKeys == [] && forall a :: a in group.aggs ==> a.Count?
  {
    PrunedAheadOfDedup(dedup, group);
    if OpColumns(group) != {} {
      var rt, f := PruningFails(Select(SortedNames(OpColumns(group))), dedup, group);
    }
  }

  // ---- the same on plain rows

  const COUNTS: seq<AggExpr> := [Agg(CountDistinctFn, "a", "n"), Count("rows")]

  function Counted(n: real): Frame {
    Frame(["n", "rows"], [[[Num(1.0), Num(n)]]])
  }

  /** Selecting the referenced columns before a whole-row deduplication merges rows that differ elsewhere. */
  lemma PruningBeforeWholeRowDeduplication(rt: Runtime, f: Frame, r: Row, s: Row, dedup: ViewOp, group: ViewOp)
    requires r == [Str("x"), Str("1")] && s == [Str("x"), Str("2")] && f == Frame(AB, [[r, s]])
    requires dedup == Deduplicate(None) && group == GroupBy([], COUNTS)
    ensures var ops := [dedup] + [group];
            Exec(rt, f, ops) == Ok(Counted(2.0)) && Exec(rt, f, Pass2ColumnPruning(ops)) == Ok(Counted(1.0))
  {
    var select := Select(["a"]);
    WrittenPlainRows(rt, f, r, s, dedup, group);
    PrunedPlainRows(rt, f, r, s, select, dedup, group);
    PrunesToOneColumn(select, dedup, group);
  }

  lemma WrittenPlainRows(rt: Runtime, f: Frame, r: Row, s: Row, dedup: ViewOp, group: ViewOp)
    requires r == [Str("x"), Str("1")] && s == [Str("x"), Str("2")] && f.names == AB && f.batches == [[r, s]]
    requires dedup == Deduplicate(None) && group.GroupBy? && group.groupKeys == [] && group.aggs == COUNTS
    ensures Exec(rt, f, [dedup] + [group]) == Ok(Counted(2.0))
  {
    ExecTwo(rt, f, dedup, group);
    KeysDiffer(rt, r, s);
    DedupThenGroup(rt, f, r, s, group.groupKeys, group.aggs);
    CountedGroups(rt, f.names, [r, s]);
  }

  lemma PrunedPlainRows(rt: Runtime, f: Frame, r: Row, s: Row, select: ViewOp, dedup: ViewOp, group: ViewOp)
    requires r == [Str("x"), Str("1")] && s == [Str("x"), Str("2")] && f.names == AB && f.batches == [[r, s]]
    requires select.Select? && select.columns == ["a"] && dedup == Deduplicate(None)
    requires group.GroupBy? && group.groupKeys == [] && group.aggs == COUNTS
    ensures Exec(rt, f, [select] + ([dedup] + [group])) == Ok(Counted(1.0))
  {
    AllColumnsPresent(AB, select.columns);
    SelectedExec(rt, f, r, s, select, dedup, group);
    PickedPlainRows(rt, f, r, s, select.columns, dedup, group);
  }

  lemma PickedPlainRows(rt: Runtime, f: Frame, r: Row, s: Row, columns: seq<string>, dedup: ViewOp, group: ViewOp)
    requires r == [Str("x"), Str("1")] && s == [Str("x"), Str("2")] && f.names == AB && f.batches == [[r, s]] && columns == ["a"]
    requires dedup == Deduplicate(None) && group.GroupBy? && group.groupKeys == [] && group.aggs == COUNTS
    ensures Run(rt, Picked(f, columns), [dedup] + [group]) == Ok(Counted(1.0))
  {
    var x := Pick(AB, r, columns);
    PickedTwo(f, r, s, columns);
    assert x == [Str("x")] == Pick(AB, s, columns);
    DedupThenGroup(rt, Picked(f, columns), x, x, group.groupKeys, group.aggs);
    CountedGroups(rt, columns, [x]);
  }

  lemma KeysDiffer(rt: Runtime, r: Row, s: Row)
    requires r == [Str("x"), Str("1")] && s == [Str("x"), Str("2")]
    ensures JoinKey(rt, r) != JoinKey(rt, s)
  {
    var k1, k2 := "x" + "\U{1}" + "1", "x" + "\U{1}" + "2";
    assert k1[2] != k2[2];
    assert r[1..] == [Str("1")] && s[1..] == [Str("2")];
  }

  lemma PrunesToOneColumn(select: ViewOp, dedup: ViewOp, group: ViewOp)
    requires select == Select(["a"]) && dedup == Deduplicate(None) && group == GroupBy([], COUNTS)
    ensures Pass2ColumnPruning([dedup] + [group]) == [select] + ([dedup] + [group])
  {
    PrunedAheadOfDedup(dedup, group);
    assert COUNTS[0] in COUNTS && OpColumns(group) == {"a"};
    assert SortedNames({"a"} - {"a"}) == [];
    assert SortedNames({"a"}) == ["a"];
  }

  lemma CountedGroups(rt: Runtime, names: seq<string>, rows: seq<Row>)
    requires rows != [] && names != [] && names[0] == "a"
    requires forall i :: 0 <= i < |rows| ==> rows[i] != [] && rows[i][0] == Str("x")
    ensures GroupsOf(rt, names, rows, [], COUNTS) == Counted(|rows| as real)
  {
    OneGroup(rt, names, rows);
    assert AliasNames(COUNTS) == ["n", "rows"];
    assert [] + AliasNames(COUNTS) == AliasNames(COUNTS);
  }

  lemma DedupTwo(rt: Runtime, f: Frame, r: Row, s: Row)
    requires f.batches == [[r, s]]
    ensures ApplyOp(rt, f, Deduplicate(None)) == Ok(Combined(f, if JoinKey(rt, r) == JoinKey(rt, s) then [r] else [r, s]))
  {
    var dedup := Deduplicate(None);
    assert Flatten(f.batches) == [r, s] by {
      FlattenOne([], [r, s]);
    }
    assert ApplyOp(rt, f, dedup) == Ok(Combined(f, FirstOfEachKey(rt, f.names, [r, s], None, {})));
    FirstOfTwo(rt, f.names, r, s);
  }

  lemma FirstOfTwo(rt: Runtime, names: seq<string>, r: Row, s: Row)
    ensures FirstOfEachKey(rt, names, [r, s], None, {}) == if JoinKey(rt, r) == JoinKey(rt, s) then [r] else [r, s]
  {
    var key := JoinKey(rt, r);
    assert [r, s][1..] == [s] && [s][1..] == [];
    assert FirstOfEachKey(rt, names, [s], None, {} + {key}) == if JoinKey(rt, s) == key then [] else [s];
  }

  lemma OneGroup(rt: Runtime, names: seq<string>, rows: seq<Row>)
    requires rows != [] && names != [] && names[0] == "a"
    requires forall i :: 0 <= i < |rows| ==> rows[i] != [] && rows[i][0] == Str("x")
    ensures GroupRows(rt, names, rows, [], COUNTS) == [[Num(1.0), Num(|rows| as real)]]
  {
    assert AggCell(rt, names, rows, COUNTS[0]) == Num(1.0) by {
      OneDistinct(rt, names, rows);
    }
    assert GroupRow(rt, names, rows, [], COUNTS) == [Num(1.0), Num(|rows| as real)];
    assert rows[0..|rows|] == rows;
  }

  lemma OneDistinct(rt: Runtime, names: seq<string>, rows: seq<Row>)
    requires rows != [] && names != [] && names[0] == "a"
    requires forall i :: 0 <= i < |rows| ==> rows[i] != [] && rows[i][0] == Str("x")
    ensures var cells := ColumnCells(names, rows, "a"); |set i | 0 <= i < |cells| :: FormatCell(rt, cells[i])| == 1
  {
    var cells := ColumnCells(names, rows, "a");
    assert FormatCell(rt, cells[0]) == "x";
    assert (set i | 0 <= i < |cells| :: FormatCell(rt, cells[i])) == {"x"};
  }
}
