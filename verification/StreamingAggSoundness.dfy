/** Hash aggregation and the executor's sort-based aggregation give the same table:
    the same groups, in key order, with the same aggregates, for every split of the
    rows into batches and every order in which the hash table gives its entries up. */
module StreamingAggSoundness {
  import opened Seqs
  import opened Exprs
  import opened Aggregates
  import opened Executor
  import opened Orders
  import opened PartialAggs
  import opened StreamingAgg

  // ---- what the two paths read from a cell

  ghost predicate Numeric(rt: Runtime, c: Cell) {
    c.Null? || ToFloat(rt, c).Some?
  }

  function FloatsOf(g: Aggregator, cells: seq<Cell>): seq<real> {
    if cells == [] then []
    else
      var f := g.CellAsFloat(cells[0]);
      (if f.Some? then [f.value] else []) + FloatsOf(g, cells[1..])
  }

  lemma {:induction false} FloatsAtLeast(g: Aggregator, cells: seq<Cell>)
    ensures |NonNullFloats(g.rt, cells)| <= |FloatsOf(g, cells)|
  {
    if cells != [] {
      FloatsAtLeast(g, cells[1..]);
    }
  }

  /** The stream reads the same numbers as the executor exactly when every non-null cell is a number:
      a text that is not one enters the stream as the content of an invalid slot. */
  lemma {:induction false} SameFloatsIffNumeric(g: Aggregator, cells: seq<Cell>)
    ensures FloatsOf(g, cells) == NonNullFloats(g.rt, cells) <==> forall i :: 0 <= i < |cells| ==> Numeric(g.rt, cells[i])
  {
    if cells != [] {
      SameFloatsIffNumeric(g, cells[1..]);
      FloatsAtLeast(g, cells[1..]);
      var same := forall i :: 0 <= i < |cells[1..]| ==> Numeric(g.rt, cells[1..][i]);
      assert (forall i :: 0 <= i < |cells| ==> Numeric(g.rt, cells[i])) <==> Numeric(g.rt, cells[0]) && same by {
        assert forall i :: 1 <= i < |cells| ==> cells[i] == cells[1..][i - 1];
      }
      if Numeric(g.rt, cells[0]) {
        var first := if ToFloat(g.rt, cells[0]).Some? then [ToFloat(g.rt, cells[0]).value] else [];
        assert FloatsOf(g, cells) == first + FloatsOf(g, cells[1..]);
        assert NonNullFloats(g.rt, cells) == first + NonNullFloats(g.rt, cells[1..]);
        assert FloatsOf(g, cells)[|first|..] == FloatsOf(g, cells[1..]);
        assert NonNullFloats(g.rt, cells)[|first|..] == NonNullFloats(g.rt, cells[1..]);
      }
    }
  }

  const NULL_MARKER: string := "\0NULL"

  function Formats(rt: Runtime, cells: seq<Cell>): set<string> {
    set i | 0 <= i < |cells| :: FormatCell(rt, cells[i])
  }

  function TextsOf(rt: Runtime, cells: seq<Cell>): set<string> {
    set i | 0 <= i < |cells| && !cells[i].Null? :: FormatCell(rt, cells[i])
  }

  /** The executor counts null as one more distinct value; the stream does not count it. */
  lemma CountDistinctCountsNull(rt: Runtime, cells: seq<Cell>)
    requires NULL_MARKER !in TextsOf(rt, cells)
    ensures |Formats(rt, cells)| == |TextsOf(rt, cells)| + if Null in cells then 1 else 0
  {
    if Null in cells {
      var n :| 0 <= n < |cells| && cells[n] == Null;
      assert FormatCell(rt, cells[n]) == NULL_MARKER;
      assert Formats(rt, cells) == TextsOf(rt, cells) + {NULL_MARKER};
    } else {
      assert Formats(rt, cells) == TextsOf(rt, cells);
    }
  }

  // ---- one group

  /** The aggregate's column exists and suits it: no null under a distinct count, otherwise
      numbers no larger than the largest finite float. */
  ghost predicate Suits(g: Aggregator, agg: AggExpr, row: Row) {
    match agg
    case Count(_) => true
    case Agg(fn, column, _) =>
      && column in g.names
      && var c := CellOf(g.names, row, column);
      if fn.CountDistinctFn? then !c.Null?
      else Numeric(g.rt, c) && (!c.Null? ==> -g.rt.maxFloat <= ToFloat(g.rt, c).value <= g.rt.maxFloat)
  }

  lemma {:induction false} NumbersOfRows(g: Aggregator, agg: AggExpr, rows: seq<Row>)
    requires agg.Agg? && !agg.fn.CountDistinctFn? && forall r :: r in rows ==> Suits(g, agg, r)
    ensures Numbers(g.InputsOf(rows, agg)) == NonNullFloats(g.rt, ColumnCells(g.names, rows, agg.column))
    ensures Finite(Numbers(g.InputsOf(rows, agg)), g.rt.maxFloat)
  {
    if rows != [] {
      var n := |rows| - 1;
      var before, row := rows[..n], rows[n];
      NumbersOfRows(g, agg, before);
      assert g.InputsOf(rows, agg)[..n] == g.InputsOf(before, agg);
      var cells, cell := ColumnCells(g.names, before, agg.column), CellOf(g.names, row, agg.column);
      assert ColumnCells(g.names, rows, agg.column) == cells + [cell];
      FloatsAppend(g.rt, cells, [cell]);
      assert [cell][1..] == [];
      assert row in rows && Suits(g, agg, row);
      assert NonNullFloats(g.rt, [cell]) == if cell.Null? then [] else [ToFloat(g.rt, cell).value];
    }
  }

  lemma {:induction false} FloatsAppend(rt: Runtime, a: seq<Cell>, b: seq<Cell>)
    ensures NonNullFloats(rt, a + b) == NonNullFloats(rt, a) + NonNullFloats(rt, b)
  {
    if a == [] {
      assert a + b == b;
    } else {
      assert (a + b)[1..] == a[1..] + b;
      FloatsAppend(rt, a[1..], b);
    }
  }

  lemma TextsOfRows(g: Aggregator, agg: AggExpr, rows: seq<Row>)
    requires agg.Agg? && agg.fn.CountDistinctFn? && forall r :: r in rows ==> Suits(g, agg, r)
    ensures Texts(g.InputsOf(rows, agg)) == Formats(g.rt, ColumnCells(g.names, rows, agg.column))
  {
    var inputs, cells := g.InputsOf(rows, agg), ColumnCells(g.names, rows, agg.column);
    forall i | 0 <= i < |rows|
      ensures inputs[i].text == Some(FormatCell(g.rt, cells[i]))
    {
      assert rows[i] in rows && Suits(g, agg, rows[i]);
    }
    assert forall t :: t in Texts(inputs) ==> exists i :: 0 <= i < |inputs| && inputs[i].text == Some(t);
    assert forall i :: 0 <= i < |cells| ==> inputs[i].text.value in Texts(inputs);
  }

  /** The finished accumulator is the aggregate of the group's rows. */
  lemma FinalCellIsAggCell(g: Aggregator, agg: AggExpr, rows: seq<Row>)
    requires forall r :: r in rows ==> Suits(g, agg, r)
    ensures g.FinalCell(agg, Feed(agg, g.InputsOf(rows, agg))) == AggCell(g.rt, g.names, rows, agg)
  {
    var inputs := g.InputsOf(rows, agg);
    match agg
    case Count(alias) => FeedCounts(alias, inputs);
    case Agg(fn, column, alias) =>
      if fn.CountDistinctFn? {
        FinalCountIsDistinct(column, alias, inputs);
        TextsOfRows(g, agg, rows);
      } else {
        NumbersOfRows(g, agg, rows);
        FinalNumberIsAggValue(fn, column, alias, inputs, g.rt.sqrt, g.rt.maxFloat);
      }
  }

  // ---- the rows of a group, whatever the order of the table

  /** Taking one row out takes its number out. */
  lemma FloatsWithout(rt: Runtime, names: seq<string>, column: string, b: seq<Row>, j: nat)
    requires j < |b|
    ensures multiset(NonNullFloats(rt, ColumnCells(names, b, column)))
         == multiset(NonNullFloats(rt, [CellOf(names, b[j], column)]))
            + multiset(NonNullFloats(rt, ColumnCells(names, b[..j] + b[j + 1..], column)))
  {
    var cell := CellOf(names, b[j], column);
    var p, q := ColumnCells(names, b[..j], column), ColumnCells(names, b[j + 1..], column);
    assert ColumnCells(names, b, column) == p + ([cell] + q);
    assert ColumnCells(names, b[..j] + b[j + 1..], column) == p + q;
    FloatsAppend(rt, p, [cell] + q);
    FloatsAppend(rt, [cell], q);
    FloatsAppend(rt, p, q);
  }

  lemma FloatsFirst(rt: Runtime, names: seq<string>, column: string, a: seq<Row>)
    requires a != []
    ensures multiset(NonNullFloats(rt, ColumnCells(names, a, column)))
         == multiset(NonNullFloats(rt, [CellOf(names, a[0], column)])) + multiset(NonNullFloats(rt, ColumnCells(names, a[1..], column)))
  {
    FloatsWithout(rt, names, column, a, 0);
    assert a[..0] + a[0 + 1..] == a[1..];
  }

  lemma {:induction false} FloatsDependOnContents(rt: Runtime, names: seq<string>, column: string, a: seq<Row>, b: seq<Row>)
    requires multiset(a) == multiset(b)
    ensures multiset(NonNullFloats(rt, ColumnCells(names, a, column))) == multiset(NonNullFloats(rt, ColumnCells(names, b, column)))
    decreases |a|
  {
    assert |multiset(a)| == |multiset(b)|;
    if a == [] {
      assert b == [];
    } else {
      assert a[0] in multiset(b);
      var j :| 0 <= j < |b| && b[j] == a[0];
      SameWithout(a, b, j);
      FloatsDependOnContents(rt, names, column, a[1..], b[..j] + b[j + 1..]);
      FloatsFirst(rt, names, column, a);
      FloatsWithout(rt, names, column, b, j);
    }
  }

  lemma FormatsDependOnContents(rt: Runtime, names: seq<string>, column: string, a: seq<Row>, b: seq<Row>)
    requires multiset(a) == multiset(b)
    ensures Formats(rt, ColumnCells(names, a, column)) <= Formats(rt, ColumnCells(names, b, column))
  {
    var ca, cb := ColumnCells(names, a, column), ColumnCells(names, b, column);
    forall i | 0 <= i < |a|
      ensures FormatCell(rt, ca[i]) in Formats(rt, cb)
    {
      assert a[i] in multiset(b);
      var j :| 0 <= j < |b| && b[j] == a[i];
      assert cb[j] == ca[i];
    }
  }

  lemma AggCellIgnoresOrder(rt: Runtime, names: seq<string>, agg: AggExpr, a: seq<Row>, b: seq<Row>)
    requires multiset(a) == multiset(b)
    ensures AggCell(rt, names, a, agg) == AggCell(rt, names, b, agg)
  {
    assert |multiset(a)| == |a| && |multiset(b)| == |b|;
    match agg
    case Count(_) =>
    case Agg(fn, column, _) =>
      if fn.CountDistinctFn? {
        FormatsDependOnContents(rt, names, column, a, b);
        FormatsDependOnContents(rt, names, column, b, a);
        assert Formats(rt, ColumnCells(names, a, column)) == Formats(rt, ColumnCells(names, b, column));
      } else {
        FloatsDependOnContents(rt, names, column, a, b);
        AggregatesIgnoreOrder(fn, NonNullFloats(rt, ColumnCells(names, a, column)),
                              NonNullFloats(rt, ColumnCells(names, b, column)), rt.sqrt, rt.maxFloat);
      }
  }

  lemma {:induction false} MembersCount(g: Aggregator, rows: seq<Row>, key: Key, r: Row)
    ensures multiset(g.RowsWithKey(rows, key))[r] == if g.KeyOf(r) == key then multiset(rows)[r] else 0
  {
    if rows != [] {
      var n := |rows| - 1;
      MembersCount(g, rows[..n], key, r);
      CountLast(rows[..n], rows[n], r);
      CountLast(g.RowsWithKey(rows[..n], key), rows[n], r);
      assert rows == rows[..n] + [rows[n]];
    }
  }

  lemma CountLast(rows: seq<Row>, last: Row, r: Row)
    ensures multiset(rows + [last])[r] == multiset(rows)[r] + if r == last then 1 else 0
  {
  }

  lemma MembersDependOnContents(g: Aggregator, a: seq<Row>, b: seq<Row>, key: Key)
    requires multiset(a) == multiset(b)
    ensures multiset(g.RowsWithKey(a, key)) == multiset(g.RowsWithKey(b, key))
  {
    forall r: Row
      ensures multiset(g.RowsWithKey(a, key))[r] == multiset(g.RowsWithKey(b, key))[r]
    {
      MembersCount(g, a, key, r);
      MembersCount(g, b, key, r);
    }
  }

  lemma {:induction false} MembersHaveKey(g: Aggregator, rows: seq<Row>, key: Key)
    ensures forall r :: r in g.RowsWithKey(rows, key) ==> g.KeyOf(r) == key && r in rows
    ensures g.RowsWithKey(rows, key) != [] <==> key in g.KeySet(rows)
  {
    if rows != [] {
      var n := |rows| - 1;
      MembersHaveKey(g, rows[..n], key);
      assert rows == rows[..n] + [rows[n]];
      g.KeySetNext(rows[..n], rows[n]);
    }
  }

  function AggCells(g: Aggregator, members: seq<Row>): seq<Cell> {
    seq(|g.aggs|, a requires 0 <= a < |g.aggs| => AggCell(g.rt, g.names, members, g.aggs[a]))
  }

  lemma AggCellsIgnoreOrder(g: Aggregator, a: seq<Row>, b: seq<Row>)
    requires multiset(a) == multiset(b)
    ensures AggCells(g, a) == AggCells(g, b)
  {
    forall i | 0 <= i < |g.aggs|
      ensures AggCells(g, a)[i] == AggCells(g, b)[i]
    {
      AggCellIgnoresOrder(g.rt, g.names, g.aggs[i], a, b);
    }
  }

  /** The output row of one group of the table `rows`. */
  function RowFor(g: Aggregator, rows: seq<Row>, key: Key): Row {
    key + AggCells(g, g.RowsWithKey(rows, key))
  }

  lemma RowForIgnoresOrder(g: Aggregator, a: seq<Row>, b: seq<Row>, key: Key)
    requires multiset(a) == multiset(b)
    ensures RowFor(g, a, key) == RowFor(g, b, key)
  {
    MembersDependOnContents(g, a, b, key);
    AggCellsIgnoreOrder(g, g.RowsWithKey(a, key), g.RowsWithKey(b, key));
  }

  // ---- keys as text

  /** The cell survives the trip through text, and its text is not the null marker. */
  ghost predicate Survives(g: Aggregator, column: string, c: Cell) {
    c.Null? || (ToText(g.rt, c) != Some(NULL_MARKER) && g.castBack(column, ToText(g.rt, c).value) == c)
  }

  ghost predicate KeySurvives(g: Aggregator, key: Key) {
    |key| == |g.keys| && forall j :: 0 <= j < |g.keys| ==> Survives(g, g.keys[j], key[j])
  }

  /** Keys that survive are equal exactly when their formatted texts are. */
  lemma FormatKeyInjective(g: Aggregator, a: Key, b: Key)
    requires KeySurvives(g, a) && KeySurvives(g, b)
    ensures FormatKey(g.rt, a) == FormatKey(g.rt, b) <==> a == b
  {
    if FormatKey(g.rt, a) == FormatKey(g.rt, b) {
      forall j | 0 <= j < |a|
        ensures a[j] == b[j]
      {
        assert FormatKey(g.rt, a)[j] == FormatKey(g.rt, b)[j];
        assert Survives(g, g.keys[j], a[j]) && Survives(g, g.keys[j], b[j]);
      }
    }
  }

  /** The entry of a group finishes as the group's output row. */
  lemma FinalRowIsRowFor(g: Aggregator, rows: seq<Row>, key: Key)
    requires KeySurvives(g, key)
    requires forall r, a :: r in rows && 0 <= a < |g.aggs| ==> Suits(g, g.aggs[a], r)
    ensures g.FinalRow(g.EntryOf(key, g.RowsWithKey(rows, key))) == RowFor(g, rows, key)
  {
    var members := g.RowsWithKey(rows, key);
    var entry := g.EntryOf(key, members);
    MembersHaveKey(g, rows, key);
    forall a | 0 <= a < |g.aggs|
      ensures g.FinalCell(g.aggs[a], entry.accs[a]) == AggCells(g, members)[a]
    {
      FinalCellIsAggCell(g, g.aggs[a], members);
    }
    forall j | 0 <= j < |g.keys|
      ensures g.KeyCell(g.keys[j], entry.keyTexts[j]) == key[j]
    {
      assert Survives(g, g.keys[j], key[j]);
    }
    assert g.FinalRow(entry)[..|g.keys|] == key;
    assert g.FinalRow(entry)[|g.keys|..] == AggCells(g, members);
  }

  // ---- the sorted table, run by run

  function KeysOf(g: Aggregator, rows: seq<Row>): seq<Key> {
    seq(|rows|, i requires 0 <= i < |rows| => g.KeyOf(rows[i]))
  }

  /** The key of each run of equal keys. */
  function RunKeys(keys: seq<Key>, formats: seq<seq<string>>, start: nat): seq<Key>
    requires |keys| == |formats| && start <= |keys|
    decreases |keys| - start
  {
    if start == |keys| then [] else [keys[start]] + RunKeys(keys, formats, RunEnd(formats, start))
  }

  ghost predicate Reflects(keys: seq<Key>, formats: seq<seq<string>>) {
    |keys| == |formats| && forall i, j :: 0 <= i < |keys| && 0 <= j < |keys| ==> (formats[i] == formats[j] <==> keys[i] == keys[j])
  }

  lemma {:induction false} RunHasOneKey(keys: seq<Key>, formats: seq<seq<string>>, start: nat)
    requires Reflects(keys, formats) && start < |keys|
    ensures var end := RunEnd(formats, start);
            && (forall i :: start <= i < end ==> keys[i] == keys[start])
            && (end < |keys| ==> keys[end] != keys[start])
    decreases |keys| - start
  {
    if start + 1 < |keys| && formats[start + 1] == formats[start] {
      RunHasOneKey(keys, formats, start + 1);
      assert keys[start + 1] == keys[start];
    }
  }

  ghost predicate Antisymmetric(leq: (Key, Key) -> bool) {
    forall a, b :: leq(a, b) && leq(b, a) ==> a == b
  }

  /** No key of the first `start` occurs again. */
  ghost predicate Finished<T>(keys: seq<T>, start: nat) {
    forall i, j :: 0 <= i < start <= j < |keys| ==> keys[i] != keys[j]
  }

  lemma NextRunFinished(leq: (Key, Key) -> bool, keys: seq<Key>, formats: seq<seq<string>>, start: nat)
    requires TotalPreorder(leq) && Antisymmetric(leq) && Sorted(leq, keys)
    requires Reflects(keys, formats) && start < |keys| && Finished(keys, start)
    ensures Finished(keys, RunEnd(formats, start))
    ensures forall j :: RunEnd(formats, start) <= j < |keys| ==> keys[j] != keys[start]
  {
    var end := RunEnd(formats, start);
    RunHasOneKey(keys, formats, start);
    forall j | end <= j < |keys|
      ensures keys[j] != keys[start]
    {
      assert leq(keys[start], keys[end]);
      assert j == end || leq(keys[end], keys[j]);
    }
    forall i, j | 0 <= i < end <= j < |keys|
      ensures keys[i] != keys[j]
    {
      if start <= i {
        assert keys[i] == keys[start];
      }
    }
  }

  /** Rows before and after that have other keys do not belong to the group. */
  lemma RunIsGroup(g: Aggregator, before: seq<Row>, run: seq<Row>, after: seq<Row>, key: Key)
    requires forall i :: 0 <= i < |before| ==> g.KeyOf(before[i]) != key
    requires forall i :: 0 <= i < |run| ==> g.KeyOf(run[i]) == key
    requires forall i :: 0 <= i < |after| ==> g.KeyOf(after[i]) != key
    ensures g.RowsWithKey(before + run + after, key) == run
  {
    MembersAppend(g, before + run, after, key);
    MembersAppend(g, before, run, key);
    NoMembers(g, before, key);
    NoMembers(g, after, key);
    AllMembers(g, run, key);
  }

  lemma GroupOfRows(g: Aggregator, rows: seq<Row>, start: nat, end: nat, key: Key)
    requires start <= end <= |rows|
    requires forall i :: 0 <= i < start ==> g.KeyOf(rows[i]) != key
    requires forall i :: start <= i < end ==> g.KeyOf(rows[i]) == key
    requires forall i :: end <= i < |rows| ==> g.KeyOf(rows[i]) != key
    ensures g.RowsWithKey(rows, key) == rows[start..end]
  {
    RunIsGroup(g, rows[..start], rows[start..end], rows[end..], key);
    assert rows[..start] + rows[start..end] + rows[end..] == rows;
  }

  /** The run that starts at `start` is the whole group of its key. */
  lemma RunOfSortedRows(g: Aggregator, leq: (Key, Key) -> bool, rows: seq<Row>, formats: seq<seq<string>>, start: nat, end: nat)
    requires TotalPreorder(leq) && Antisymmetric(leq) && Sorted(leq, KeysOf(g, rows))
    requires Reflects(KeysOf(g, rows), formats) && start < |rows| && Finished(KeysOf(g, rows), start)
    requires end == RunEnd(formats, start)
    ensures g.RowsWithKey(rows, g.KeyOf(rows[start])) == rows[start..end]
  {
    var keys := KeysOf(g, rows);
    RunHasOneKey(keys, formats, start);
    NextRunFinished(leq, keys, formats, start);
    forall i | 0 <= i < |rows|
      ensures g.KeyOf(rows[i]) == keys[start] <==> start <= i < end
    {
      assert g.KeyOf(rows[i]) == keys[i];
    }
    GroupOfRows(g, rows, start, end, keys[start]);
  }

  lemma {:induction false} MembersAppend(g: Aggregator, a: seq<Row>, b: seq<Row>, key: Key)
    ensures g.RowsWithKey(a + b, key) == g.RowsWithKey(a, key) + g.RowsWithKey(b, key)
  {
    if b == [] {
      assert a + b == a;
    } else {
      var n := |b| - 1;
      assert (a + b)[..|a| + n] == a + b[..n];
      MembersAppend(g, a, b[..n], key);
    }
  }

  lemma {:induction false} NoMembers(g: Aggregator, rows: seq<Row>, key: Key)
    requires forall i :: 0 <= i < |rows| ==> g.KeyOf(rows[i]) != key
    ensures g.RowsWithKey(rows, key) == []
  {
    if rows != [] {
      NoMembers(g, rows[..|rows| - 1], key);
    }
  }

  lemma {:induction false} AllMembers(g: Aggregator, rows: seq<Row>, key: Key)
    requires forall i :: 0 <= i < |rows| ==> g.KeyOf(rows[i]) == key
    ensures g.RowsWithKey(rows, key) == rows
  {
    if rows != [] {
      var before, last := rows[..|rows| - 1], rows[|rows| - 1];
      AllMembers(g, before, key);
      assert g.RowsWithKey(rows, key) == before + [last];
    }
  }

  /** `rows[i]`'s group row for each key of the list. */
  function RowsFor(g: Aggregator, rows: seq<Row>, keys: seq<Key>): seq<Row> {
    seq(|keys|, i requires 0 <= i < |keys| => RowFor(g, rows, keys[i]))
  }

  /** The rows `group_by_sorted` emits for the runs from `start` on. */
  function RunRows(g: Aggregator, rows: seq<Row>, groups: seq<(nat, nat)>): seq<Row>
    requires forall b :: b in groups ==> b.0 < b.1 <= |rows|
  {
    seq(|groups|, b requires 0 <= b < |groups| =>
      assert groups[b] in groups;
      GroupRow(g.rt, g.names, rows[groups[b].0..groups[b].1], g.keys, g.aggs))
  }

  lemma {:induction false} RunRowsAreGroups(g: Aggregator, leq: (Key, Key) -> bool, rows: seq<Row>, formats: seq<seq<string>>, start: nat)
    requires TotalPreorder(leq) && Antisymmetric(leq) && Sorted(leq, KeysOf(g, rows))
    requires Reflects(KeysOf(g, rows), formats) && start <= |rows| && Finished(KeysOf(g, rows), start)
    ensures RunRows(g, rows, Boundaries(formats, start)) == RowsFor(g, rows, RunKeys(KeysOf(g, rows), formats, start))
    decreases |rows| - start
  {
    var keys := KeysOf(g, rows);
    if start < |rows| {
      var end := RunEnd(formats, start);
      NextRunFinished(leq, keys, formats, start);
      RunRowsAreGroups(g, leq, rows, formats, end);
      RunOfSortedRows(g, leq, rows, formats, start, end);
      assert Boundaries(formats, start) == [(start, end)] + Boundaries(formats, end);
      assert rows[start..end][0] == rows[start];
      assert GroupRow(g.rt, g.names, rows[start..end], g.keys, g.aggs) == RowFor(g, rows, keys[start]);
      RunRowsCons(g, rows, (start, end), Boundaries(formats, end));
      RowsForCons(g, rows, keys[start], RunKeys(keys, formats, end));
    }
  }

  lemma RunRowsCons(g: Aggregator, rows: seq<Row>, first: (nat, nat), rest: seq<(nat, nat)>)
    requires first.0 < first.1 <= |rows| && forall b :: b in rest ==> b.0 < b.1 <= |rows|
    ensures RunRows(g, rows, [first] + rest) == [GroupRow(g.rt, g.names, rows[first.0..first.1], g.keys, g.aggs)] + RunRows(g, rows, rest)
  {
  }

  lemma RowsForCons(g: Aggregator, rows: seq<Row>, first: Key, rest: seq<Key>)
    ensures RowsFor(g, rows, [first] + rest) == [RowFor(g, rows, first)] + RowsFor(g, rows, rest)
  {
  }

  /** The run keys are in order and list every key once. */
  lemma {:induction false} RunKeysEnumerate(leq: (Key, Key) -> bool, keys: seq<Key>, formats: seq<seq<string>>, start: nat)
    requires TotalPreorder(leq) && Antisymmetric(leq) && Sorted(leq, keys)
    requires Reflects(keys, formats) && start <= |keys| && Finished(keys, start)
    ensures Sorted(leq, RunKeys(keys, formats, start))
    ensures Aggregator.Enumerates(RunKeys(keys, formats, start), set i | start <= i < |keys| :: keys[i])
    decreases |keys| - start
  {
    if start < |keys| {
      var end := RunEnd(formats, start);
      RunHasOneKey(keys, formats, start);
      NextRunFinished(leq, keys, formats, start);
      RunKeysEnumerate(leq, keys, formats, end);
      var rest := RunKeys(keys, formats, end);
      forall i | 0 <= i < |rest|
        ensures leq(keys[start], rest[i]) && rest[i] != keys[start]
      {
        var j :| end <= j < |keys| && keys[j] == rest[i];
      }
      SortedCons(leq, keys[start], rest);
      assert (set i | start <= i < |keys| :: keys[i]) == {keys[start]} + (set i | end <= i < |keys| :: keys[i]);
    }
  }

  // ---- one order for the groups

  lemma {:induction false} OccursOnce(order: seq<Key>, all: set<Key>, k: Key)
    requires Aggregator.Enumerates(order, all)
    ensures multiset(order)[k] == if k in all then 1 else 0
  {
    if order != [] {
      var n := |order| - 1;
      assert order == order[..n] + [order[n]];
      assert Aggregator.Enumerates(order[..n], all - {order[n]});
      OccursOnce(order[..n], all - {order[n]}, k);
    }
  }

  /** A set of keys has one ascending enumeration. */
  lemma SortedEnumerationIsUnique(leq: (Key, Key) -> bool, all: set<Key>, a: seq<Key>, order: seq<Key>, b: seq<Key>)
    requires TotalPreorder(leq) && Antisymmetric(leq)
    requires Aggregator.Enumerates(a, all) && Sorted(leq, a)
    requires Aggregator.Enumerates(order, all) && multiset(b) == multiset(order) && Sorted(leq, b)
    ensures a == b
  {
    assert multiset(a) == multiset(b) by {
      forall k: Key
        ensures multiset(a)[k] == multiset(order)[k]
      {
        OccursOnce(a, all, k);
        OccursOnce(order, all, k);
      }
    }
    assert |multiset(a)| == |a| && |multiset(b)| == |b|;
    forall i | 0 <= i < |a|
      ensures a[i] == b[i]
    {
      SortedArrangementsAgree(leq, a, b, i);
    }
  }

  // ---- the sort kernel on either side

  /** Arrow's sort by ascending key columns: a permutation that puts the keys in order. */
  ghost predicate SortsKeys(rt: Runtime, leq: (Key, Key) -> bool, keys: seq<SortKey>) {
    forall cells: seq<Key> :: IsSortOf(leq, cells, rt.sortPermutation(cells, keys))
  }

  ghost predicate IsSortOf(leq: (Key, Key) -> bool, cells: seq<Key>, perm: seq<nat>) {
    multiset(perm) == multiset(Identity(|cells|)) && Sorted(leq, Gather(cells, perm))
  }

  function Identity(n: nat): seq<nat> {
    if n == 0 then [] else Identity(n - 1) + [n - 1]
  }

  lemma {:induction false} IdentityMembers(n: nat)
    ensures |Identity(n)| == n && forall i :: i in Identity(n) ==> i < n
  {
    if n > 0 {
      IdentityMembers(n - 1);
    }
  }

  lemma {:induction false} GatherAppend<T>(rows: seq<T>, a: seq<nat>, b: seq<nat>)
    ensures Gather(rows, a + b) == Gather(rows, a) + Gather(rows, b)
  {
    if a == [] {
      assert a + b == b;
    } else {
      assert (a + b)[1..] == a[1..] + b;
      GatherAppend(rows, a[1..], b);
    }
  }

  lemma {:induction false} GatherIdentity<T>(rows: seq<T>, n: nat)
    requires n <= |rows|
    ensures Gather(rows, Identity(n)) == rows[..n]
  {
    if n > 0 {
      GatherIdentity(rows, n - 1);
      GatherAppend(rows, Identity(n - 1), [n - 1]);
      assert [n - 1][1..] == [];
    }
  }

  lemma GatherWithout<T>(rows: seq<T>, b: seq<nat>, j: nat)
    requires j < |b|
    ensures multiset(Gather(rows, b)) == multiset(Gather(rows, [b[j]])) + multiset(Gather(rows, b[..j] + b[j + 1..]))
  {
    assert b == b[..j] + ([b[j]] + b[j + 1..]);
    GatherAppend(rows, b[..j], [b[j]] + b[j + 1..]);
    GatherAppend(rows, [b[j]], b[j + 1..]);
    GatherAppend(rows, b[..j], b[j + 1..]);
  }

  /** The rows a gather picks depend only on which indices it is given. */
  lemma {:induction false} GatherDependsOnContents<T>(rows: seq<T>, a: seq<nat>, b: seq<nat>)
    requires multiset(a) == multiset(b)
    ensures multiset(Gather(rows, a)) == multiset(Gather(rows, b))
    decreases |a|
  {
    assert |multiset(a)| == |multiset(b)|;
    if a == [] {
      assert b == [];
    } else {
      assert a[0] in multiset(b);
      var j :| 0 <= j < |b| && b[j] == a[0];
      SameWithout(a, b, j);
      GatherDependsOnContents(rows, a[1..], b[..j] + b[j + 1..]);
      GatherWithout(rows, a, 0);
      assert a[..0] + a[0 + 1..] == a[1..];
      GatherWithout(rows, b, j);
    }
  }

  lemma PermutationInRange(perm: seq<nat>, n: nat)
    requires multiset(perm) == multiset(Identity(n))
    ensures |perm| == n && forall i :: 0 <= i < |perm| ==> perm[i] < n
  {
    IdentityMembers(n);
    assert |multiset(perm)| == |perm|;
    forall i | 0 <= i < |perm|
      ensures perm[i] < n
    {
      assert perm[i] in multiset(perm);
      assert perm[i] in multiset(Identity(n));
      assert perm[i] in Identity(n);
    }
  }

  lemma PermutationGathers<T>(rows: seq<T>, perm: seq<nat>)
    requires multiset(perm) == multiset(Identity(|rows|))
    ensures multiset(Gather(rows, perm)) == multiset(rows)
  {
    GatherDependsOnContents(rows, perm, Identity(|rows|));
    GatherIdentity(rows, |rows|);
    assert rows[..|rows|] == rows;
  }

  lemma {:induction false} AllKeysPresent(names: seq<string>, keys: seq<SortKey>)
    requires forall i :: 0 <= i < |keys| ==> keys[i].column in names
    ensures PresentKeys(names, keys) == keys
  {
    if keys != [] {
      AllKeysPresent(names, keys[1..]);
    }
  }

  lemma {:induction false} AllColumnsPresent(names: seq<string>, columns: seq<string>)
    requires forall i :: 0 <= i < |columns| ==> columns[i] in names
    ensures Present(names, columns) == columns
  {
    if columns != [] {
      AllColumnsPresent(names, columns[1..]);
    }
  }

  lemma KeysOfGather(g: Aggregator, rows: seq<Row>, perm: seq<nat>)
    requires forall i :: 0 <= i < |perm| ==> perm[i] < |rows|
    ensures KeysOf(g, Gather(rows, perm)) == Gather(KeysOf(g, rows), perm)
  {
    GatherAt(rows, perm);
    GatherAt(KeysOf(g, rows), perm);
  }

  lemma RowsForGather(g: Aggregator, rows: seq<Row>, order: seq<Key>, perm: seq<nat>)
    requires forall i :: 0 <= i < |perm| ==> perm[i] < |order|
    ensures Gather(RowsFor(g, rows, order), perm) == RowsFor(g, rows, Gather(order, perm))
  {
    GatherAt(RowsFor(g, rows, order), perm);
    GatherAt(order, perm);
  }

  /** The key cells of the executor's input rows. */
  lemma InputKeyRows(g: Aggregator, rows: seq<Row>)
    ensures KeyRows(g.names, rows, AscendingKeys(g.keys)) == KeysOf(g, rows)
  {
    var cells := KeyRows(g.names, rows, AscendingKeys(g.keys));
    forall i | 0 <= i < |rows|
      ensures cells[i] == g.KeyOf(rows[i])
    {
      assert forall j :: 0 <= j < |g.keys| ==> AscendingKeys(g.keys)[j].column == g.keys[j];
    }
  }

  lemma {:induction false} FirstIndexInPrefix(a: seq<string>, b: seq<string>, column: string)
    requires column in a
    ensures IndexOf(a + b, column) == IndexOf(a, column)
  {
    assert (a + b)[0] == a[0];
    if a[0] != column {
      assert (a + b)[1..] == a[1..] + b;
      FirstIndexInPrefix(a[1..], b, column);
    }
  }

  /** The output's key columns come first, so sorting looks at the group key and never at an aggregate. */
  lemma OutputKeyCell(g: Aggregator, row: Row, cells: seq<Cell>, j: nat)
    requires j < |g.keys|
    ensures CellOf(g.OutputNames(), g.KeyOf(row) + cells, g.keys[j]) == g.KeyOf(row)[j]
  {
    FirstIndexInPrefix(g.keys, AliasNames(g.aggs), g.keys[j]);
    var i := IndexOf(g.keys, g.keys[j]).value;
    assert g.keys[i] == g.keys[j];
  }

  lemma OutputKeyRows(g: Aggregator, rows: seq<Row>, order: seq<Key>)
    requires forall i :: 0 <= i < |order| ==> order[i] in g.KeySet(rows)
    ensures KeyRows(g.OutputNames(), RowsFor(g, rows, order), AscendingKeys(g.keys)) == order
  {
    var cells := KeyRows(g.OutputNames(), RowsFor(g, rows, order), AscendingKeys(g.keys));
    forall i | 0 <= i < |order|
      ensures cells[i] == order[i]
    {
      var r :| 0 <= r < |rows| && order[i] == g.KeyOf(rows[r]);
      forall j | 0 <= j < |g.keys|
        ensures cells[i][j] == order[i][j]
      {
        OutputKeyCell(g, rows[r], AggCells(g, g.RowsWithKey(rows, order[i])), j);
      }
    }
  }

  // ---- agreement

  /** What the two paths need in common: the key columns exist and their values survive as text,
      the aggregates suit their columns, and the sort kernel orders keys totally. */
  ghost predicate Comparable(g: Aggregator, leq: (Key, Key) -> bool, rows: seq<Row>) {
    && TotalPreorder(leq) && Antisymmetric(leq) && SortsKeys(g.rt, leq, AscendingKeys(g.keys))
    && (forall j :: 0 <= j < |g.keys| ==> g.keys[j] in g.names)
    && (forall r :: r in rows ==> KeySurvives(g, g.KeyOf(r)))
    && (forall r, a :: r in rows && 0 <= a < |g.aggs| ==> Suits(g, g.aggs[a], r))
  }

  /** Formatted keys tell surviving keys apart. */
  lemma FormatsReflect(g: Aggregator, rows: seq<Row>)
    requires forall r :: r in rows ==> KeySurvives(g, g.KeyOf(r))
    ensures Reflects(KeysOf(g, rows), FormatKeys(g.rt, g.names, rows, g.keys))
  {
    forall i, j | 0 <= i < |rows| && 0 <= j < |rows|
      ensures FormatKeys(g.rt, g.names, rows, g.keys)[i] == FormatKeys(g.rt, g.names, rows, g.keys)[j] <==>
              KeysOf(g, rows)[i] == KeysOf(g, rows)[j]
    {
      FormatKeyInjective(g, g.KeyOf(rows[i]), g.KeyOf(rows[j]));
    }
  }

  lemma KeySetDependsOnContents(g: Aggregator, a: seq<Row>, b: seq<Row>)
    requires multiset(a) == multiset(b)
    ensures g.KeySet(a) <= g.KeySet(b)
  {
    forall i | 0 <= i < |a|
      ensures g.KeyOf(a[i]) in g.KeySet(b)
    {
      assert a[i] in multiset(b);
      var j :| 0 <= j < |b| && b[j] == a[i];
    }
  }

  lemma KeySetOfArrangement(g: Aggregator, rows: seq<Row>, sorted: seq<Row>)
    requires multiset(sorted) == multiset(rows)
    ensures g.KeySet(rows) == set i | 0 <= i < |KeysOf(g, sorted)| :: KeysOf(g, sorted)[i]
  {
    KeySetDependsOnContents(g, rows, sorted);
    KeySetDependsOnContents(g, sorted, rows);
    var keys := KeysOf(g, sorted);
    assert forall i :: 0 <= i < |sorted| ==> keys[i] == g.KeyOf(sorted[i]) && keys[i] in g.KeySet(sorted);
    forall k | k in g.KeySet(sorted)
      ensures k in set i | 0 <= i < |keys| :: keys[i]
    {
      var i :| 0 <= i < |sorted| && g.KeyOf(sorted[i]) == k;
      assert keys[i] == k;
    }
  }

  lemma RowsForIgnoreOrder(g: Aggregator, a: seq<Row>, b: seq<Row>, order: seq<Key>)
    requires multiset(a) == multiset(b)
    ensures RowsFor(g, a, order) == RowsFor(g, b, order)
  {
    forall i | 0 <= i < |order|
      ensures RowFor(g, a, order[i]) == RowFor(g, b, order[i])
    {
      RowForIgnoresOrder(g, a, b, order[i]);
    }
  }

  lemma ArrangementSurvives(g: Aggregator, rows: seq<Row>, sorted: seq<Row>)
    requires multiset(sorted) == multiset(rows) && forall r :: r in rows ==> KeySurvives(g, g.KeyOf(r))
    ensures forall r :: r in sorted ==> KeySurvives(g, g.KeyOf(r))
  {
    assert forall r :: r in sorted ==> r in multiset(rows);
  }

  /** The executor's sorted table, and the groups it finds there: one ascending enumeration of the keys. */
  lemma SortedTableGroups(g: Aggregator, leq: (Key, Key) -> bool, rows: seq<Row>, sorted: seq<Row>) returns (order: seq<Key>)
    requires TotalPreorder(leq) && Antisymmetric(leq) && forall r :: r in rows ==> KeySurvives(g, g.KeyOf(r))
    requires multiset(sorted) == multiset(rows) && Sorted(leq, KeysOf(g, sorted)) && g.keys != []
    ensures Aggregator.Enumerates(order, g.KeySet(rows)) && Sorted(leq, order)
    ensures GroupRows(g.rt, g.names, sorted, g.keys, g.aggs) == RowsFor(g, rows, order)
  {
    var formats := FormatKeys(g.rt, g.names, sorted, g.keys);
    ArrangementSurvives(g, rows, sorted);
    FormatsReflect(g, sorted);
    order := RunKeys(KeysOf(g, sorted), formats, 0);
    RunKeysEnumerate(leq, KeysOf(g, sorted), formats, 0);
    KeySetOfArrangement(g, rows, sorted);
    RunRowsAreGroups(g, leq, sorted, formats, 0);
    RowsForIgnoreOrder(g, sorted, rows, order);
  }

  lemma FirstTwo(order: seq<Key>, all: set<Key>)
    requires Aggregator.Enumerates(order, all) && |order| > 1
    ensures order[0] in all && order[1] in all && order[0] != order[1]
  {
  }

  /** A set with no key but the empty one has one enumeration. */
  lemma EnumerationOfOne(order: seq<Key>, all: set<Key>)
    requires Aggregator.Enumerates(order, all) && forall k :: k in all ==> k == []
    ensures order == if [] in all then [[]] else []
  {
    if |order| > 1 {
      FirstTwo(order, all);
      assert false;
    } else if |order| == 1 {
      assert order[0] in all;
      assert order == [[]];
    } else {
      assert [] in all ==> [] in order;
    }
  }

  /** Without key columns there is one group, or none. */
  lemma WholeTableGroup(g: Aggregator, leq: (Key, Key) -> bool, rows: seq<Row>, order: seq<Key>)
    requires g.keys == [] && Aggregator.Enumerates(order, g.KeySet(rows))
    ensures GroupRows(g.rt, g.names, rows, g.keys, g.aggs) == RowsFor(g, rows, order)
  {
    EnumerationOfOne(order, g.KeySet(rows));
    if rows != [] {
      assert g.KeyOf(rows[0]) in g.KeySet(rows);
      AllMembers(g, rows, []);
      OneGroupRow(g, rows);
    }
  }

  lemma OneGroupRow(g: Aggregator, rows: seq<Row>)
    requires g.keys == [] && rows != [] && g.RowsWithKey(rows, []) == rows
    ensures GroupRows(g.rt, g.names, rows, g.keys, g.aggs) == [RowFor(g, rows, [])]
  {
    WholeGroup(g.rt, g.names, rows, g.aggs);
    OneRowOfGroup(g, rows);
  }

  lemma OneRowOfGroup(g: Aggregator, rows: seq<Row>)
    requires rows != [] && g.RowsWithKey(rows, []) == rows
    ensures GroupRow(g.rt, g.names, rows, [], g.aggs) == RowFor(g, rows, [])
  {
    assert Pick(g.names, rows[0], []) == [];
  }

  /** Sorting the finished groups puts the keys in ascending order. */
  lemma SortedGroupRows(g: Aggregator, leq: (Key, Key) -> bool, rows: seq<Row>, order: seq<Key>) returns (ascending: seq<Key>)
    requires Comparable(g, leq, rows) && Aggregator.Enumerates(order, g.KeySet(rows)) && g.keys != [] && order != []
    ensures multiset(ascending) == multiset(order) && Sorted(leq, ascending)
    ensures SortRows(g.rt, g.OutputNames(), RowsFor(g, rows, order), AscendingKeys(g.keys)) == RowsFor(g, rows, ascending)
  {
    var keys := AscendingKeys(g.keys);
    AllKeysPresent(g.OutputNames(), keys);
    OutputKeyRows(g, rows, order);
    var perm := g.rt.sortPermutation(order, keys);
    assert IsSortOf(leq, order, perm);
    PermutationInRange(perm, |order|);
    PermutationGathers(order, perm);
    RowsForGather(g, rows, order, perm);
    ascending := Gather(order, perm);
  }

  /** Sorting the input by the key columns puts the keys in ascending order. */
  lemma SortedInputRows(g: Aggregator, leq: (Key, Key) -> bool, rows: seq<Row>)
    requires Comparable(g, leq, rows) && g.keys != [] && rows != []
    ensures multiset(SortRows(g.rt, g.names, rows, AscendingKeys(g.keys))) == multiset(rows)
    ensures Sorted(leq, KeysOf(g, SortRows(g.rt, g.names, rows, AscendingKeys(g.keys))))
  {
    var keys := AscendingKeys(g.keys);
    AllKeysPresent(g.names, keys);
    InputKeyRows(g, rows);
    var perm := g.rt.sortPermutation(KeysOf(g, rows), keys);
    assert IsSortOf(leq, KeysOf(g, rows), perm);
    PermutationInRange(perm, |rows|);
    PermutationGathers(rows, perm);
    KeysOfGather(g, rows, perm);
  }

  /** The finished, sorted groups are the executor's groups, row for row. */
  lemma FinishedGroupsAgree(g: Aggregator, leq: (Key, Key) -> bool, rows: seq<Row>, order: seq<Key>)
    requires Comparable(g, leq, rows) && Aggregator.Enumerates(order, g.KeySet(rows)) && g.keys != []
    ensures SortRows(g.rt, g.OutputNames(), RowsFor(g, rows, order), AscendingKeys(g.keys))
         == GroupRows(g.rt, g.names, SortRows(g.rt, g.names, rows, AscendingKeys(g.keys)), g.keys, g.aggs)
  {
    assert order != [] ==> order[0] in g.KeySet(rows);
    if rows == [] {
      assert order == [];
    } else {
      assert g.KeyOf(rows[0]) in g.KeySet(rows);
      SortedInputRows(g, leq, rows);
      var fromRuns := SortedTableGroups(g, leq, rows, SortRows(g.rt, g.names, rows, AscendingKeys(g.keys)));
      var fromTable := SortedGroupRows(g, leq, rows, order);
      SortedEnumerationIsUnique(leq, g.KeySet(rows), fromRuns, order, fromTable);
    }
  }

  /** `StreamingAggregator::new` and `execute`: an error for an unknown key column; otherwise, for every split
      of the rows into batches, the table the executor's `GroupBy` computes. */
  method Execute(g: Aggregator, batches: seq<seq<Row>>, ghost leq: (Key, Key) -> bool) returns (out: Outcome)
    ensures out.Err? <==> exists j :: 0 <= j < |g.keys| && g.keys[j] !in g.names
    ensures Comparable(g, leq, Flatten(batches)) && AggsOk(g.names, g.aggs) ==>
            out == ApplyOp(g.rt, Frame(g.names, batches), GroupBy(g.keys, g.aggs))
  {
    for j := 0 to |g.keys|
      invariant forall i :: 0 <= i < j ==> g.keys[i] in g.names
    {
      if g.keys[j] !in g.names {
        return Err;
      }
    }
    var groups := g.Accumulate(batches);
    ghost var rows := Flatten(batches);
    GroupedIsComplete(g, groups, rows);
    var batch := g.FinalizeGroups(groups);
    ghost var order :| Aggregator.Enumerates(order, groups.Keys) && batch == g.SortedBatch(g.FinishedRows(groups, order));
    out := Ok(Frame(g.OutputNames(), [batch]));
    if Comparable(g, leq, rows) && AggsOk(g.names, g.aggs) {
      TableAgrees(g, leq, rows, groups, order);
      AllColumnsPresent(g.names, g.keys);
      if g.keys == [] {
        WholeTableGroup(g, leq, rows, order);
      } else {
        FinishedGroupsAgree(g, leq, rows, order);
      }
    }
  }

  lemma GroupedIsComplete(g: Aggregator, groups: map<Key, GroupEntry>, rows: seq<Row>)
    requires g.Grouped(groups, rows)
    ensures g.Complete(groups)
  {
    forall k | k in groups
      ensures |groups[k].keyTexts| == |g.keys| && |groups[k].accs| == |g.aggs|
    {
      var i :| 0 <= i < |rows| && g.KeyOf(rows[i]) == k;
    }
  }

  /** The finished rows are the groups' output rows. */
  lemma TableAgrees(g: Aggregator, leq: (Key, Key) -> bool, rows: seq<Row>, groups: map<Key, GroupEntry>, order: seq<Key>)
    requires Comparable(g, leq, rows) && g.Grouped(groups, rows) && g.Complete(groups) && Aggregator.Enumerates(order, groups.Keys)
    ensures g.FinishedRows(groups, order) == RowsFor(g, rows, order)
  {
    forall i | 0 <= i < |order|
      ensures g.FinalRow(groups[order[i]]) == RowFor(g, rows, order[i])
    {
      var r :| 0 <= r < |rows| && g.KeyOf(rows[r]) == order[i];
      assert rows[r] in rows;
      FinalRowIsRowFor(g, rows, order[i]);
    }
  }
}
