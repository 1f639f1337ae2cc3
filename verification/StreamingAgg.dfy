/** Hash aggregation (crates/tv-engine/src/streaming_agg.rs): one pass over the
    batches, a table of partial accumulators keyed by the encoded group key, the
    groups drained in hash order and sorted at the end. */
module StreamingAgg {
  import opened Seqs
  import opened Exprs
  import opened Executor
  import opened PartialAggs

  type Key = seq<Cell>

  datatype GroupEntry = GroupEntry(keyTexts: seq<Option<string>>, accs: seq<PartialAgg>)

  /** The aggregator and what it takes from Arrow: `castBack` turns a key column's text into a cell of
      that column's type, and `slot` is the number under an invalid slot of a float array. */
  datatype Aggregator = Aggregator(rt: Runtime, castBack: (string, string) -> Cell, slot: real,
                                   names: seq<string>, keys: seq<string>, aggs: seq<AggExpr>)
  {
    /** `cell_as_f64`: the cell's slot is read without asking whether the cast succeeded. */
    function CellAsFloat(c: Cell): Option<real> {
      if c.Null? then None
      else
        var f := ToFloat(rt, c);
        Some(if f.Some? then f.value else slot)
    }

    function KeyOf(row: Row): Key {
      Pick(names, row, keys)
    }

    function KeyTexts(key: Key): seq<Option<string>> {
      seq(|key|, i requires 0 <= i < |key| => ToText(rt, key[i]))
    }

    /** What a row hands the accumulator of `agg`; an unknown column hands it nothing. */
    function InputOf(row: Row, agg: AggExpr): Input {
      match agg
      case Count(_) => Input(Some(1.0), None)
      case Agg(_, column, _) =>
        if column !in names then Input(None, None)
        else
          var c := CellOf(names, row, column);
          Input(CellAsFloat(c), ToText(rt, c))
    }

    function InputsOf(rows: seq<Row>, agg: AggExpr): seq<Input> {
      seq(|rows|, i requires 0 <= i < |rows| => InputOf(rows[i], agg))
    }

    /** The rows of one group, in stream order. */
    function RowsWithKey(rows: seq<Row>, key: Key): seq<Row> {
      if rows == [] then []
      else
        var last := |rows| - 1;
        RowsWithKey(rows[..last], key) + if KeyOf(rows[last]) == key then [rows[last]] else []
    }

    ghost function KeySet(rows: seq<Row>): set<Key> {
      set i | 0 <= i < |rows| :: KeyOf(rows[i])
    }

    function Accumulated(members: seq<Row>): seq<PartialAgg> {
      seq(|aggs|, a requires 0 <= a < |aggs| => Feed(aggs[a], InputsOf(members, aggs[a])))
    }

    function EntryOf(key: Key, members: seq<Row>): GroupEntry {
      GroupEntry(KeyTexts(key), Accumulated(members))
    }

    /** The table after `rows`: one entry per key, its accumulators fed the key's rows in order. */
    ghost predicate Grouped(groups: map<Key, GroupEntry>, rows: seq<Row>) {
      && groups.Keys == KeySet(rows)
      && forall k :: k in groups ==> groups[k] == EntryOf(k, RowsWithKey(rows, k))
    }

    lemma AccumulatedNext(members: seq<Row>, row: Row, accs: seq<PartialAgg>)
      requires |accs| == |aggs|
      requires forall a :: 0 <= a < |aggs| ==> accs[a] == Update(Accumulated(members)[a], InputOf(row, aggs[a]))
      ensures accs == Accumulated(members + [row])
    {
      forall a | 0 <= a < |aggs|
        ensures accs[a] == Accumulated(members + [row])[a]
      {
        var before, after := InputsOf(members, aggs[a]), InputsOf(members + [row], aggs[a]);
        assert after == before + [InputOf(row, aggs[a])];
        assert after[..|after| - 1] == before;
      }
    }

    lemma KeySetNext(rows: seq<Row>, row: Row)
      ensures KeySet(rows + [row]) == KeySet(rows) + {KeyOf(row)}
    {
      var all := rows + [row];
      assert all[|rows|] == row;
      assert forall i :: 0 <= i < |rows| ==> all[i] == rows[i];
    }

    lemma RowsWithKeyNext(rows: seq<Row>, row: Row, key: Key)
      ensures RowsWithKey(rows + [row], key) == RowsWithKey(rows, key) + if KeyOf(row) == key then [row] else []
    {
      assert (rows + [row])[..|rows|] == rows;
    }

    lemma {:induction false} NoRowsWithKey(rows: seq<Row>, key: Key)
      requires key !in KeySet(rows)
      ensures RowsWithKey(rows, key) == []
    {
      if rows != [] {
        var last := |rows| - 1;
        assert KeyOf(rows[last]) in KeySet(rows);
        assert forall k :: k in KeySet(rows[..last]) ==> k in KeySet(rows);
        NoRowsWithKey(rows[..last], key);
      }
    }

    lemma GroupedNext(groups: map<Key, GroupEntry>, rows: seq<Row>, row: Row, entry: GroupEntry)
      requires Grouped(groups, rows)
      requires entry == EntryOf(KeyOf(row), RowsWithKey(rows, KeyOf(row)) + [row])
      ensures Grouped(groups[KeyOf(row) := entry], rows + [row])
    {
      var next := groups[KeyOf(row) := entry];
      KeySetNext(rows, row);
      forall k | k in next
        ensures next[k] == EntryOf(k, RowsWithKey(rows + [row], k))
      {
        RowsWithKeyNext(rows, row, k);
        if k != KeyOf(row) {
          assert next[k] == groups[k];
          assert RowsWithKey(rows + [row], k) == RowsWithKey(rows, k);
        }
      }
    }

    /** Every accumulator of the entry takes the row. */
    method Touch(entry: GroupEntry, row: Row) returns (next: GroupEntry)
      requires |entry.accs| == |aggs|
      ensures next.keyTexts == entry.keyTexts && |next.accs| == |aggs|
      ensures forall a :: 0 <= a < |aggs| ==> next.accs[a] == Update(entry.accs[a], InputOf(row, aggs[a]))
    {
      next := entry;
      for a := 0 to |aggs|
        invariant next.keyTexts == entry.keyTexts && |next.accs| == |aggs|
        invariant forall i :: 0 <= i < a ==> next.accs[i] == Update(entry.accs[i], InputOf(row, aggs[i]))
        invariant forall i :: a <= i < |aggs| ==> next.accs[i] == entry.accs[i]
      {
        next := next.(accs := next.accs[a := Update(next.accs[a], InputOf(row, aggs[a]))]);
      }
    }

    /** One row: `groups.entry(key).or_insert_with(…)`, then every accumulator. */
    method TakeRow(groups: map<Key, GroupEntry>, row: Row, ghost seen: seq<Row>) returns (next: map<Key, GroupEntry>)
      requires Grouped(groups, seen)
      ensures Grouped(next, seen + [row])
    {
      var key := KeyOf(row);
      var entry := if key in groups then groups[key]
                   else GroupEntry(KeyTexts(key), seq(|aggs|, a requires 0 <= a < |aggs| => NewFor(aggs[a])));
      ghost var members := RowsWithKey(seen, key);
      if key !in groups {
        NoRowsWithKey(seen, key);
      }
      assert entry.accs == Accumulated(members);
      entry := Touch(entry, row);
      AccumulatedNext(members, row, entry.accs);
      GroupedNext(groups, seen, row, entry);
      next := groups[key := entry];
    }

    /** The hash table after the whole stream, whatever the batches were. */
    method Accumulate(batches: seq<seq<Row>>) returns (groups: map<Key, GroupEntry>)
      ensures Grouped(groups, Flatten(batches))
    {
      groups := map[];
      for b := 0 to |batches|
        invariant Grouped(groups, Flatten(batches[..b]))
      {
        ghost var before := Flatten(batches[..b]);
        assert before + batches[b][..0] == before;
        for r := 0 to |batches[b]|
          invariant Grouped(groups, before + batches[b][..r])
        {
          groups := TakeRow(groups, batches[b][r], before + batches[b][..r]);
          assert before + batches[b][..r] + [batches[b][r]] == before + batches[b][..r + 1];
        }
        assert batches[b][..|batches[b]|] == batches[b];
        FlattenNext(batches, b);
      }
      assert batches[..|batches|] == batches;
    }

    // ---- the finished groups

    /** A key text cast back to its column's type. */
    function KeyCell(column: string, text: Option<string>): Cell {
      if text.None? then Null else castBack(column, text.value)
    }

    function FinalCell(agg: AggExpr, acc: PartialAgg): Cell {
      if agg.Count? || agg.fn.CountDistinctFn? then
        var n := FinalCount(acc);
        if n.None? then Null else Num(n.value as real)
      else
        var v := FinalNumber(acc, rt.sqrt);
        if v.None? then Null else Num(v.value)
    }

    function FinalRow(entry: GroupEntry): Row
      requires |entry.keyTexts| == |keys| && |entry.accs| == |aggs|
    {
      seq(|keys|, i requires 0 <= i < |keys| => KeyCell(keys[i], entry.keyTexts[i]))
      + seq(|aggs|, a requires 0 <= a < |aggs| => FinalCell(aggs[a], entry.accs[a]))
    }

    ghost predicate Complete(groups: map<Key, GroupEntry>) {
      forall k :: k in groups ==> |groups[k].keyTexts| == |keys| && |groups[k].accs| == |aggs|
    }

    /** `order` lists the members of `all` once each. */
    static ghost predicate Enumerates(order: seq<Key>, all: set<Key>) {
      && (forall i :: 0 <= i < |order| ==> order[i] in all)
      && (forall k :: k in all ==> k in order)
      && (forall i, j :: 0 <= i < j < |order| ==> order[i] != order[j])
    }

    /** The finished rows of the listed groups. */
    function FinishedRows(groups: map<Key, GroupEntry>, order: seq<Key>): seq<Row>
      requires forall i :: 0 <= i < |order| ==>
                 order[i] in groups && |groups[order[i]].keyTexts| == |keys| && |groups[order[i]].accs| == |aggs|
    {
      seq(|order|, i requires 0 <= i < |order| => FinalRow(groups[order[i]]))
    }

    /** `groups.into_values()`: the finished rows, in whatever order the table gives them. */
    method Drain(groups: map<Key, GroupEntry>) returns (rows: seq<Row>)
      requires Complete(groups)
      ensures exists order :: Enumerates(order, groups.Keys) && rows == FinishedRows(groups, order)
    {
      rows := [];
      ghost var order: seq<Key> := [];
      var remaining := groups.Keys;
      while remaining != {}
        invariant remaining <= groups.Keys && Enumerates(order, groups.Keys - remaining)
        invariant rows == FinishedRows(groups, order)
        decreases |remaining|
      {
        var key :| key in remaining;
        remaining := remaining - {key};
        rows := rows + [FinalRow(groups[key])];
        order := order + [key];
        assert order[|order| - 1] == key;
      }
      assert groups.Keys - remaining == groups.Keys;
    }

    function OutputNames(): seq<string> {
      keys + AliasNames(aggs)
    }

    /** One batch of output rows, sorted by the key columns if there are any. */
    function SortedBatch(rows: seq<Row>): seq<Row> {
      if keys == [] then rows else SortRows(rt, OutputNames(), rows, AscendingKeys(keys))
    }

    /** `finalize_groups`: every group's finished row once, sorted from whatever order the table gave. */
    method FinalizeGroups(groups: map<Key, GroupEntry>) returns (batch: seq<Row>)
      requires Complete(groups)
      ensures exists order :: Enumerates(order, groups.Keys) && batch == SortedBatch(FinishedRows(groups, order))
    {
      var drained := Drain(groups);
      batch := SortedBatch(drained);
    }
  }
}
