/** Column pruning (pass 2 of the optimiser): every operation ahead of a group-by
    carries agreement on the referenced columns along, and the group-by turns
    agreement into equality. */
module ColumnPruning {
  import opened Seqs
  import opened Exprs
  import opened Aggregates
  import opened Executor
  import opened Relevance

  // ---- rows

  /** Rows that agree on `cols` and fit their schemas. */
  ghost predicate Alike(cols: set<string>, n1: seq<string>, rows1: seq<Row>, n2: seq<string>, rows2: seq<Row>) {
    AgreeRows(cols, n1, rows1, n2, rows2) && RowsFit(n1, rows1) && RowsFit(n2, rows2)
  }

  lemma AlikeSplit(cols: set<string>, n1: seq<string>, rows1: seq<Row>, n2: seq<string>, rows2: seq<Row>)
    requires Alike(cols, n1, rows1, n2, rows2) && rows1 != []
    ensures AgreeRow(cols, n1, rows1[0], n2, rows2[0]) && |rows1[0]| == |n1| && |rows2[0]| == |n2|
    ensures Alike(cols, n1, rows1[1..], n2, rows2[1..])
  {
    forall i | 0 <= i < |rows1[1..]|
      ensures AgreeRow(cols, n1, rows1[1..][i], n2, rows2[1..][i])
    {
      assert AgreeRow(cols, n1, rows1[i + 1], n2, rows2[i + 1]);
    }
  }

  lemma AlikeCons(cols: set<string>, n1: seq<string>, r1: Row, rows1: seq<Row>, n2: seq<string>, r2: Row, rows2: seq<Row>)
    requires AgreeRow(cols, n1, r1, n2, r2) && |r1| == |n1| && |r2| == |n2|
    requires Alike(cols, n1, rows1, n2, rows2)
    ensures Alike(cols, n1, [r1] + rows1, n2, [r2] + rows2)
  {
  }

  lemma {:induction false} FilterAgrees(rt: Runtime, cols: set<string>, n1: seq<string>, rows1: seq<Row>,
                                        n2: seq<string>, rows2: seq<Row>, p: Predicate)
    requires PredColumns(p) <= cols && Alike(cols, n1, rows1, n2, rows2)
    ensures Alike(cols, n1, FilterRows(rt, n1, rows1, p), n2, FilterRows(rt, n2, rows2, p))
  {
    if rows1 != [] {
      AlikeSplit(cols, n1, rows1, n2, rows2);
      FilterAgrees(rt, cols, n1, rows1[1..], n2, rows2[1..], p);
      PredReadsItsColumns(rt, cols, n1, rows1[0], n2, rows2[0], p);
      if EvalPred(rt, n1, rows1[0], p) == Some(true) {
        AlikeCons(cols, n1, rows1[0], FilterRows(rt, n1, rows1[1..], p), n2, rows2[0], FilterRows(rt, n2, rows2[1..], p));
      }
    }
  }

  /** A column of a table after `Drop`: gone if named, otherwise untouched. */
  lemma {:induction false} CellAfterDrop(names: seq<string>, row: Row, dropped: seq<string>, c: string)
    requires |row| == |names|
    ensures var kept := KeepIndices(names, dropped);
            && |Gather(row, kept)| == |Gather(names, kept)|
            && (c in Gather(names, kept) <==> c in names && c !in dropped)
            && CellOf(Gather(names, kept), Gather(row, kept), c) == if c in dropped then Null else CellOf(names, row, c)
  {
    if names != [] {
      var n := |names| - 1;
      CellAfterDrop(names[..n], row[..n], dropped, c);
      KeptInRange(names[..n], dropped);
      var kept := KeepIndices(names[..n], dropped);
      GatherPrefix(names, n, kept);
      GatherPrefix(row, n, kept);
      assert names == names[..n] + [names[n]] && row == row[..n] + [row[n]];
      CellOfAppend(names[..n], row[..n], names[n], row[n], c);
      if names[n] !in dropped {
        GatherSnoc(names, kept, n);
        GatherSnoc(row, kept, n);
        CellOfAppend(Gather(names, kept), Gather(row, kept), names[n], row[n], c);
      }
    }
  }

  lemma {:induction false} KeptInRange(names: seq<string>, dropped: seq<string>)
    ensures forall j :: 0 <= j < |KeepIndices(names, dropped)| ==> KeepIndices(names, dropped)[j] < |names|
  {
    if names != [] {
      KeptInRange(names[..|names| - 1], dropped);
    }
  }

  lemma {:induction false} GatherPrefix<T>(s: seq<T>, n: nat, idx: seq<nat>)
    requires n <= |s| && forall j :: 0 <= j < |idx| ==> idx[j] < n
    ensures Gather(s, idx) == Gather(s[..n], idx)
  {
    if idx != [] {
      GatherPrefix(s, n, idx[1..]);
    }
  }

  lemma {:induction false} GatherSnoc<T>(s: seq<T>, idx: seq<nat>, i: nat)
    requires i < |s|
    ensures Gather(s, idx + [i]) == Gather(s, idx) + [s[i]]
  {
    if idx == [] {
      assert (idx + [i])[1..] == [];
    } else {
      assert (idx + [i])[1..] == idx[1..] + [i];
      GatherSnoc(s, idx[1..], i);
    }
  }

  lemma {:induction false} IndexOfAppend(names: seq<string>, name: string, c: string)
    ensures IndexOf(names + [name], c) == if c in names then IndexOf(names, c) else if c == name then Some(|names|) else None
  {
    if names == [] {
      assert (names + [name])[1..] == [];
    } else {
      assert (names + [name])[1..] == names[1..] + [name];
      IndexOfAppend(names[1..], name, c);
    }
  }

  /** Appending a column: an existing column of the same name still wins. */
  lemma CellOfAppend(names: seq<string>, row: Row, name: string, cell: Cell, c: string)
    requires |row| == |names|
    ensures CellOf(names + [name], row + [cell], c) == if c in names then CellOf(names, row, c) else if c == name then cell else Null
  {
    IndexOfAppend(names, name, c);
  }

  lemma DropAgrees(cols: set<string>, n1: seq<string>, rows1: seq<Row>, n2: seq<string>, rows2: seq<Row>, dropped: seq<string>)
    requires AgreeRows(cols, n1, rows1, n2, rows2) && RowsFit(n1, rows1) && RowsFit(n2, rows2)
    ensures var k1, k2 := KeepIndices(n1, dropped), KeepIndices(n2, dropped);
            && AgreeRows(cols, Gather(n1, k1), DropRows(rows1, k1), Gather(n2, k2), DropRows(rows2, k2))
            && RowsFit(Gather(n1, k1), DropRows(rows1, k1)) && RowsFit(Gather(n2, k2), DropRows(rows2, k2))
  {
    var k1, k2 := KeepIndices(n1, dropped), KeepIndices(n2, dropped);
    forall i | 0 <= i < |rows1|
      ensures AgreeRow(cols, Gather(n1, k1), Gather(rows1[i], k1), Gather(n2, k2), Gather(rows2[i], k2))
      ensures |Gather(rows1[i], k1)| == |Gather(n1, k1)| && |Gather(rows2[i], k2)| == |Gather(n2, k2)|
    {
      assert AgreeRow(cols, n1, rows1[i], n2, rows2[i]);
      CellAfterDrop(n1, rows1[i], dropped, "");
      CellAfterDrop(n2, rows2[i], dropped, "");
      forall c | c in cols
        ensures CellOf(Gather(n1, k1), Gather(rows1[i], k1), c) == CellOf(Gather(n2, k2), Gather(rows2[i], k2), c)
      {
        CellAfterDrop(n1, rows1[i], dropped, c);
        CellAfterDrop(n2, rows2[i], dropped, c);
      }
    }
  }

  lemma DropNamesAgree(cols: set<string>, n1: seq<string>, n2: seq<string>, dropped: seq<string>)
    requires AgreeNames(cols, n1, n2)
    ensures AgreeNames(cols, Gather(n1, KeepIndices(n1, dropped)), Gather(n2, KeepIndices(n2, dropped)))
  {
    forall c | c in cols
      ensures c in Gather(n1, KeepIndices(n1, dropped)) <==> c in Gather(n2, KeepIndices(n2, dropped))
    {
      CellAfterDrop(n1, seq(|n1|, i => Null), dropped, c);
      CellAfterDrop(n2, seq(|n2|, i => Null), dropped, c);
    }
  }

  lemma DeriveAgrees(rt: Runtime, cols: set<string>, n1: seq<string>, rows1: seq<Row>,
                     n2: seq<string>, rows2: seq<Row>, name: string, e: ScalarExpr)
    requires ScalarColumns(e) <= cols && AgreeNames(cols, n1, n2) && AgreeRows(cols, n1, rows1, n2, rows2)
    requires RowsFit(n1, rows1) && RowsFit(n2, rows2)
    ensures var d1, d2 := DeriveRows(rt, n1, rows1, e), DeriveRows(rt, n2, rows2, e);
            && AgreeRows(cols, n1 + [name], d1, n2 + [name], d2)
            && RowsFit(n1 + [name], d1) && RowsFit(n2 + [name], d2)
  {
    ScalarReadsItsColumns(rt, cols, n1, rows1, n2, rows2, e);
    var col := EvalScalar(rt, n1, rows1, e);
    forall i | 0 <= i < |rows1|
      ensures AgreeRow(cols, n1 + [name], rows1[i] + [col[i]], n2 + [name], rows2[i] + [col[i]])
    {
      assert AgreeRow(cols, n1, rows1[i], n2, rows2[i]);
      forall c | c in cols
        ensures CellOf(n1 + [name], rows1[i] + [col[i]], c) == CellOf(n2 + [name], rows2[i] + [col[i]], c)
      {
        CellOfAppend(n1, rows1[i], name, col[i], c);
        CellOfAppend(n2, rows2[i], name, col[i], c);
      }
    }
  }

  lemma {:induction false} PresentAgrees(cols: set<string>, n1: seq<string>, n2: seq<string>, columns: seq<string>)
    requires Elements(columns) <= cols && AgreeNames(cols, n1, n2)
    ensures Present(n1, columns) == Present(n2, columns)
    ensures Elements(Present(n1, columns)) <= cols
  {
    if columns != [] {
      assert columns[0] in Elements(columns) && Elements(columns[1..]) <= Elements(columns);
      PresentAgrees(cols, n1, n2, columns[1..]);
      var rest := Present(n1, columns[1..]);
      forall c | c in Present(n1, columns)
        ensures c in cols
      {
        assert c == columns[0] || c in Elements(rest);
      }
    }
  }

  lemma PickAgrees(cols: set<string>, n1: seq<string>, r1: Row, n2: seq<string>, r2: Row, columns: seq<string>)
    requires Elements(columns) <= cols && AgreeRow(cols, n1, r1, n2, r2)
    ensures Pick(n1, r1, columns) == Pick(n2, r2, columns)
  {
    forall i | 0 <= i < |columns|
      ensures CellOf(n1, r1, columns[i]) == CellOf(n2, r2, columns[i])
    {
      assert columns[i] in Elements(columns);
    }
  }

  lemma {:induction false} DedupAgrees(rt: Runtime, cols: set<string>, n1: seq<string>, rows1: seq<Row>,
                                       n2: seq<string>, rows2: seq<Row>, columns: seq<string>, seen: set<string>)
    requires Elements(columns) <= cols && Alike(cols, n1, rows1, n2, rows2)
    ensures Alike(cols, n1, FirstOfEachKey(rt, n1, rows1, Some(columns), seen), n2, FirstOfEachKey(rt, n2, rows2, Some(columns), seen))
  {
    if rows1 != [] {
      AlikeSplit(cols, n1, rows1, n2, rows2);
      PickAgrees(cols, n1, rows1[0], n2, rows2[0], columns);
      var key := JoinKey(rt, Pick(n1, rows1[0], columns));
      if key in seen {
        DedupAgrees(rt, cols, n1, rows1[1..], n2, rows2[1..], columns, seen);
      } else {
        var rest := seen + {key};
        DedupAgrees(rt, cols, n1, rows1[1..], n2, rows2[1..], columns, rest);
        AlikeCons(cols, n1, rows1[0], FirstOfEachKey(rt, n1, rows1[1..], Some(columns), rest),
                  n2, rows2[0], FirstOfEachKey(rt, n2, rows2[1..], Some(columns), rest));
      }
    }
  }

  lemma {:induction false} GatherAgrees(cols: set<string>, n1: seq<string>, rows1: seq<Row>, n2: seq<string>, rows2: seq<Row>, idx: seq<nat>)
    requires Alike(cols, n1, rows1, n2, rows2)
    ensures Alike(cols, n1, Gather(rows1, idx), n2, Gather(rows2, idx))
  {
    if idx != [] {
      GatherAgrees(cols, n1, rows1, n2, rows2, idx[1..]);
      if idx[0] < |rows1| {
        assert AgreeRow(cols, n1, rows1[idx[0]], n2, rows2[idx[0]]);
        AlikeCons(cols, n1, rows1[idx[0]], Gather(rows1, idx[1..]), n2, rows2[idx[0]], Gather(rows2, idx[1..]));
      }
    }
  }

  lemma {:induction false} FlattenAgrees(cols: set<string>, n1: seq<string>, b1: seq<seq<Row>>, n2: seq<string>, b2: seq<seq<Row>>)
    requires |b1| == |b2|
    requires forall b :: 0 <= b < |b1| ==> Alike(cols, n1, b1[b], n2, b2[b])
    ensures Alike(cols, n1, Flatten(b1), n2, Flatten(b2))
  {
    if b1 != [] {
      FlattenAgrees(cols, n1, b1[1..], n2, b2[1..]);
      AlikeAppend(cols, n1, b1[0], Flatten(b1[1..]), n2, b2[0], Flatten(b2[1..]));
    }
  }

  lemma AlikeAppend(cols: set<string>, n1: seq<string>, a1: seq<Row>, b1: seq<Row>, n2: seq<string>, a2: seq<Row>, b2: seq<Row>)
    requires Alike(cols, n1, a1, n2, a2) && Alike(cols, n1, b1, n2, b2)
    ensures Alike(cols, n1, a1 + b1, n2, a2 + b2)
  {
    forall i | 0 <= i < |a1 + b1|
      ensures AgreeRow(cols, n1, (a1 + b1)[i], n2, (a2 + b2)[i])
    {
      if i < |a1| {
        assert AgreeRow(cols, n1, a1[i], n2, a2[i]);
      } else {
        assert AgreeRow(cols, n1, b1[i - |a1|], n2, b2[i - |a1|]);
      }
    }
  }

  lemma SortAgrees(rt: Runtime, cols: set<string>, n1: seq<string>, rows1: seq<Row>, n2: seq<string>, rows2: seq<Row>, keys: seq<SortKey>)
    requires KeyColumns(keys) <= cols && AgreeNames(cols, n1, n2) && AgreeRows(cols, n1, rows1, n2, rows2)
    requires RowsFit(n1, rows1) && RowsFit(n2, rows2)
    ensures AgreeRows(cols, n1, SortRows(rt, n1, rows1, keys), n2, SortRows(rt, n2, rows2, keys))
  {
    PresentKeysAgree(cols, n1, n2, keys);
    var present := PresentKeys(n1, keys);
    KeyRowsAgree(cols, n1, rows1, n2, rows2, present);
    GatherAgrees(cols, n1, rows1, n2, rows2, rt.sortPermutation(KeyRows(n1, rows1, present), present));
  }

  // ---- group-by

  lemma ColumnCellsAgree(cols: set<string>, n1: seq<string>, rows1: seq<Row>, n2: seq<string>, rows2: seq<Row>, c: string)
    requires c in cols && AgreeRows(cols, n1, rows1, n2, rows2)
    ensures ColumnCells(n1, rows1, c) == ColumnCells(n2, rows2, c)
  {
    forall i | 0 <= i < |rows1|
      ensures CellOf(n1, rows1[i], c) == CellOf(n2, rows2[i], c)
    {
      assert AgreeRow(cols, n1, rows1[i], n2, rows2[i]);
    }
  }

  lemma GroupRowsAgree(rt: Runtime, cols: set<string>, n1: seq<string>, rows1: seq<Row>, n2: seq<string>, rows2: seq<Row>,
                       present: seq<string>, aggs: seq<AggExpr>)
    requires Elements(present) <= cols && AgreeRows(cols, n1, rows1, n2, rows2)
    requires forall a :: a in aggs && a.Agg? ==> a.column in cols
    ensures GroupRows(rt, n1, rows1, present, aggs) == GroupRows(rt, n2, rows2, present, aggs)
  {
    forall i | 0 <= i < |rows1|
      ensures Pick(n1, rows1[i], present) == Pick(n2, rows2[i], present)
    {
      assert AgreeRow(cols, n1, rows1[i], n2, rows2[i]);
      PickAgrees(cols, n1, rows1[i], n2, rows2[i], present);
    }
    assert FormatKeys(rt, n1, rows1, present) == FormatKeys(rt, n2, rows2, present);
    forall s, e | 0 <= s < e <= |rows1|
      ensures GroupRow(rt, n1, rows1[s..e], present, aggs) == GroupRow(rt, n2, rows2[s..e], present, aggs)
    {
      assert AgreeRows(cols, n1, rows1[s..e], n2, rows2[s..e]);
      forall a | 0 <= a < |aggs|
        ensures AggCell(rt, n1, rows1[s..e], aggs[a]) == AggCell(rt, n2, rows2[s..e], aggs[a])
      {
        assert aggs[a] in aggs;
        if aggs[a].Agg? {
          ColumnCellsAgree(cols, n1, rows1[s..e], n2, rows2[s..e], aggs[a].column);
        }
      }
    }
  }

  /** A group-by whose keys and aggregate columns lie in `cols` maps agreeing tables to equal ones. */
  lemma GroupByErasesTheRest(rt: Runtime, cols: set<string>, f: Frame, g: Frame, keys: seq<string>, aggs: seq<AggExpr>)
    requires Agree(cols, f, g) && OpColumns(GroupBy(keys, aggs)) <= cols
    ensures ApplyOp(rt, f, GroupBy(keys, aggs)) == ApplyOp(rt, g, GroupBy(keys, aggs))
  {
    assert Elements(keys) <= cols;
    forall a | a in aggs && a.Agg?
      ensures a.column in cols
    {
      assert a.column in OpColumns(GroupBy(keys, aggs));
    }
    PresentAgrees(cols, f.names, g.names, keys);
    FlattenAgrees(cols, f.names, f.batches, g.names, g.batches);
    var r1, r2 := Flatten(f.batches), Flatten(g.batches);
    var s1 := if keys == [] then r1 else SortRows(rt, f.names, r1, AscendingKeys(keys));
    var s2 := if keys == [] then r2 else SortRows(rt, g.names, r2, AscendingKeys(keys));
    assert KeyColumns(AscendingKeys(keys)) <= cols by {
      assert forall i :: 0 <= i < |keys| ==> keys[i] in Elements(keys);
    }
    if keys != [] {
      SortAgrees(rt, cols, f.names, r1, g.names, r2, AscendingKeys(keys));
    }
    GroupRowsAgree(rt, cols, f.names, s1, g.names, s2, Present(f.names, keys), aggs);
  }

  // ---- operations ahead of the group-by

  /** The operations normalisation places between the pruning select and the first group-by. */
  predicate AheadOfGroupBy(op: ViewOp) {
    match op
    case Drop(_) => true
    case Filter(_) => true
    case Derive(_, _) => true
    case Deduplicate(columns) => columns.Some?
    case Sample(_, _) => true
    case _ => false
  }

  ghost predicate AgreeOutcomes(cols: set<string>, a: Outcome, b: Outcome) {
    (a.Err? && b.Err?) || (a.Ok? && b.Ok? && Agree(cols, a.frame, b.frame))
  }

  lemma CombinedAgrees(cols: set<string>, f: Frame, g: Frame, r1: seq<Row>, r2: seq<Row>)
    requires AgreeNames(cols, f.names, g.names) && AgreeRows(cols, f.names, r1, g.names, r2)
    requires RowsFit(f.names, r1) && RowsFit(g.names, r2)
    ensures Agree(cols, Combined(f, r1), Combined(g, r2))
  {
  }

  lemma OpKeepsAgreement(rt: Runtime, cols: set<string>, f: Frame, g: Frame, op: ViewOp)
    requires Agree(cols, f, g) && OpColumns(op) <= cols && AheadOfGroupBy(op)
    ensures AgreeOutcomes(cols, ApplyOp(rt, f, op), ApplyOp(rt, g, op))
  {
    match op
    case Filter(p) =>
      PredOkOnItsColumns(rt, cols, f.names, g.names, p);
      forall b | 0 <= b < |f.batches| {
        FilterAgrees(rt, cols, f.names, f.batches[b], g.names, g.batches[b], p);
      }
    case Drop(columns) =>
      DropNamesAgree(cols, f.names, g.names, columns);
      forall b | 0 <= b < |f.batches| {
        DropAgrees(cols, f.names, f.batches[b], g.names, g.batches[b], columns);
      }
    case Derive(name, e) =>
      ScalarOkOnItsColumns(rt, cols, f.names, g.names, e);
      forall b | 0 <= b < |f.batches| {
        DeriveAgrees(rt, cols, f.names, f.batches[b], g.names, g.batches[b], name, e);
      }
    case Deduplicate(columns) =>
      FlattenAgrees(cols, f.names, f.batches, g.names, g.batches);
      PresentAgrees(cols, f.names, g.names, columns.value);
      DedupAgrees(rt, cols, f.names, Flatten(f.batches), g.names, Flatten(g.batches), Present(f.names, columns.value), {});
    case Sample(n, seed) =>
      FlattenAgrees(cols, f.names, f.batches, g.names, g.batches);
      var r1, r2 := Flatten(f.batches), Flatten(g.batches);
      GatherAgrees(cols, f.names, r1, g.names, r2, rt.sampleIndices(|r1|, n, seed));
      CombinedAgrees(cols, f, g, SampleRows(rt, r1, n, seed), SampleRows(rt, r2, n, seed));
  }

  /** Selecting a list of columns keeps agreement on exactly those columns. */
  lemma SelectAgrees(rt: Runtime, cols: set<string>, f: Frame, columns: seq<string>)
    requires WellFormed(f) && Elements(columns) == cols
    ensures Agree(cols, f, ApplyOp(rt, f, Select(columns)).frame)
  {
    var present := Present(f.names, columns);
    PresentElements(f.names, columns);
    forall b | 0 <= b < |f.batches|
      ensures AgreeRows(cols, f.names, f.batches[b], present, PickRows(f.names, f.batches[b], present))
    {
      forall i, c | 0 <= i < |f.batches[b]| && c in cols
        ensures CellOf(f.names, f.batches[b][i], c) == CellOf(present, Pick(f.names, f.batches[b][i], present), c)
      {
      }
    }
  }

  lemma {:induction false} PresentElements(names: seq<string>, columns: seq<string>)
    ensures forall c :: c in Present(names, columns) <==> c in columns && c in names
  {
    if columns != [] {
      PresentElements(names, columns[1..]);
    }
  }
}
