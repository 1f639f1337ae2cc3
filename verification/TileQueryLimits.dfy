/** Tiles of common views against the pipeline (crates/tv-engine/src/tile_ops.rs): when a tile of filters alone, or of
    filters and derived columns, shows the pipeline's rectangle, and inputs where a tile does not. */
module TileQueryLimits {
  import opened Seqs
  import opened Exprs
  import opened Executor
  import opened Meaning
  import opened Relevance
  import opened ColumnPruning
  import opened RowWise
  import opened Pruning
  import opened FilteredTiles
  import opened FilteredPipeline
  import opened TileColumns
  import opened TileQuery
  import Bits

  // ---- ascending lists of indices

  lemma {:induction false} AtLeastPlace(list: seq<nat>, i: nat)
    requires Bits.StrictlyAscending(list) && i < |list|
    ensures i <= list[i]
  {
    if i > 0 {
      AtLeastPlace(list, i - 1);
    }
  }

  lemma {:induction false} FixedBelow(list: seq<nat>, o: nat, i: nat)
    requires Bits.StrictlyAscending(list) && i <= o < |list| && list[o] == o
    ensures list[i] == i
    decreases o - i
  {
    AtLeastPlace(list, i);
    if i < o {
      FixedBelow(list, o, i + 1);
    }
  }

  /** An ascending list that has all indices below `e` begins with them. */
  lemma {:induction false} BeginsWithAll(list: seq<nat>, e: nat)
    requires Bits.StrictlyAscending(list) && forall i: nat :: i < e ==> i in list
    ensures e <= |list| && forall i :: 0 <= i < e ==> list[i] == i
  {
    if e > 0 {
      BeginsWithAll(list, e - 1);
      assert e - 1 in list;
      var j :| 0 <= j < |list| && list[j] == e - 1;
      AtLeastPlace(list, j);
      assert j == e - 1;
    }
  }

  // ---- filters alone

  lemma NothingRemains(ops: seq<ViewOp>)
    requires forall op :: op in ops ==> op.Filter?
    ensures NotFilters(ops) == []
  {
    RemainingAreReferenced(ops);
    assert NotFilters(ops) != [] ==> NotFilters(ops)[0].Filter?;
    NoFiltersLeft(ops);
  }

  /** The predicate reads every column up to the last displayed one. */
  predicate ReadsDisplay(names: seq<string>, pred: Predicate, w: Window) {
    w.colOffset < ColumnEnd(names, w) ==> forall i :: 0 <= i < ColumnEnd(names, w) ==> names[i] in PredColumns(pred)
  }

  lemma {:induction false} AllPresent(names: seq<string>, columns: seq<string>)
    requires forall c :: c in columns ==> c in names
    ensures Present(names, columns) == columns
  {
    if columns != [] {
      AllPresent(names, columns[1..]);
    }
  }

  lemma DisplayNameAt(names: seq<string>, w: Window, c: string) returns (i: nat)
    requires c in DisplayNames(names, w)
    ensures i < |names| && names[i] == c && w.colOffset <= i < ColumnEnd(names, w)
  {
    var k :| 0 <= k < |DisplayNames(names, w)| && DisplayNames(names, w)[k] == c;
    i := w.colOffset + k;
  }

  lemma KeptName(names: seq<string>, kept: seq<nat>, i: nat)
    requires i in kept && forall j :: 0 <= j < |kept| ==> kept[j] < |names|
    ensures names[i] in Gather(names, kept)
  {
    GatherAt(names, kept);
    var j :| 0 <= j < |kept| && kept[j] == i;
    assert Gather(names, kept)[j] == names[i];
  }

  /** With a selection the displayed columns of the file are read. */
  lemma DisplayedIsRead(names: seq<string>, ops: seq<ViewOp>, pred: Predicate, w: Window)
    requires Selection(names, ops, w).Some?
    ensures forall c :: c in DisplayNames(names, w) ==> c in ReadNames(names, ops, pred, w)
  {
    KeptAscends(names, ops, pred, w);
    forall c | c in DisplayNames(names, w)
      ensures c in ReadNames(names, ops, pred, w)
    {
      var i := DisplayNameAt(names, w, c);
      SelectedMember(names, ops, w, i);
      KeptName(names, TileRead(names, ops, pred, w), i);
    }
  }

  /** The first columns of the predicate's columns are the displayed ones if and only if the predicate reads them all. */
  lemma PredicateShowsIff(names: seq<string>, pred: Predicate, w: Window)
    requires NoRepeats(names)
    ensures DisplayNames(Gather(names, PredIndices(names, pred)), w) == DisplayNames(names, w) <==> ReadsDisplay(names, pred, w)
  {
    var kept := PredIndices(names, pred);
    var read := Gather(names, kept);
    IndicesAreFirsts(names, PredColumns(pred));
    ListedAscends(|names|, FirstsNamed(names, PredColumns(pred)));
    ListedLength(|names|, FirstsNamed(names, PredColumns(pred)));
    GatherAt(names, kept);
    if w.colOffset < ColumnEnd(names, w) {
      if DisplayNames(read, w) == DisplayNames(names, w) {
        ShownAreRead(names, pred, w);
      }
      if ReadsDisplay(names, pred, w) {
        ReadAreShown(names, pred, w);
      }
    }
  }

  lemma SameNameAt(names: seq<string>, read: seq<string>, w: Window, i: nat)
    requires w.colOffset <= i < ColumnEnd(names, w) && DisplayNames(read, w) == DisplayNames(names, w)
    ensures i < |read| && read[i] == names[i]
  {
    var k := i - w.colOffset;
    assert |DisplayNames(names, w)| == ColumnEnd(names, w) - w.colOffset;
    assert DisplayNames(names, w)[k] == names[i] && DisplayNames(read, w)[k] == read[i];
  }

  /** Columns of a list shown under the names of the displayed ones stand where those do. */
  lemma SamePlaces(names: seq<string>, kept: seq<nat>, w: Window, i: nat)
    requires NoRepeats(names) && (forall j :: 0 <= j < |kept| ==> kept[j] < |names|)
    requires w.colOffset <= i < ColumnEnd(names, w) && DisplayNames(Gather(names, kept), w) == DisplayNames(names, w)
    ensures i < |kept| && kept[i] == i
  {
    SameNameAt(names, Gather(names, kept), w, i);
    GatherAt(names, kept);
  }

  lemma ShownAreRead(names: seq<string>, pred: Predicate, w: Window)
    requires NoRepeats(names) && w.colOffset < ColumnEnd(names, w)
    requires DisplayNames(Gather(names, PredIndices(names, pred)), w) == DisplayNames(names, w)
    ensures ReadsDisplay(names, pred, w)
  {
    var kept, o := PredIndices(names, pred), w.colOffset;
    IndicesAreFirsts(names, PredColumns(pred));
    ListedAscends(|names|, FirstsNamed(names, PredColumns(pred)));
    SamePlaces(names, kept, w, o);
    forall i | 0 <= i < ColumnEnd(names, w)
      ensures names[i] in PredColumns(pred)
    {
      if i <= o {
        FixedBelow(kept, o, i);
      } else {
        SamePlaces(names, kept, w, i);
      }
      assert FirstNamed(names, PredColumns(pred), kept[i]);
    }
  }

  lemma SameBeginning(names: seq<string>, read: seq<string>, w: Window)
    requires w.colOffset < ColumnEnd(names, w) <= |read| <= |names|
    requires forall i :: 0 <= i < ColumnEnd(names, w) ==> read[i] == names[i]
    ensures DisplayNames(read, w) == DisplayNames(names, w)
  {
    var o, e := w.colOffset, ColumnEnd(names, w);
    assert ColumnEnd(read, w) == e;
    assert read[o..e] == names[o..e];
  }

  lemma ReadAreShown(names: seq<string>, pred: Predicate, w: Window)
    requires NoRepeats(names) && w.colOffset < ColumnEnd(names, w) && ReadsDisplay(names, pred, w)
    ensures DisplayNames(Gather(names, PredIndices(names, pred)), w) == DisplayNames(names, w)
  {
    var kept, o, e := PredIndices(names, pred), w.colOffset, ColumnEnd(names, w);
    var read := Gather(names, kept);
    IndicesAreFirsts(names, PredColumns(pred));
    ListedAscends(|names|, FirstsNamed(names, PredColumns(pred)));
    ListedLength(|names|, FirstsNamed(names, PredColumns(pred)));
    GatherAt(names, kept);
    forall i: nat | i < e
      ensures i in kept
    {
      UniquePlace(names, i);
      ListedMember(|names|, FirstsNamed(names, PredColumns(pred)), i);
    }
    BeginsWithAll(kept, e);
    SameBeginning(names, read, w);
  }

  /** A tile of filters alone, with a row to show, is the pipeline's rectangle if and only if a selection is passed or the
      predicate reads every column up to the last displayed one. */
  lemma FilterTileIsRectangleIff(rt: Runtime, names: seq<string>, file: seq<RowGroup>, ops: seq<ViewOp>, pred: Predicate, w: Window, list: seq<nat>)
    requires CombinedFilter(ops) == Some(pred) && (forall op :: op in ops ==> op.Filter?)
    requires WellFormed(TableOf(names, file)) && NoRepeats(names) && Exec(rt, TableOf(names, file), ops).Ok?
    requires Slice(AllMatches(rt, names, file, pred), w.offset, w.rows) != []
    ensures TileDisplay(rt, names, file, ops, pred, w, list, Slice(AllMatches(rt, names, file, pred), w.offset, w.rows))
              == PipelineDisplay(rt, names, file, ops, w)
            <==> Selection(names, ops, w).Some? || ReadsDisplay(names, pred, w)
  {
    NothingRemains(ops);
    TileIsRectangleIff(rt, names, file, ops, pred, w, list);
    FilterTileNames(names, ops, pred, w);
  }

  lemma FilterTileNames(names: seq<string>, ops: seq<ViewOp>, pred: Predicate, w: Window)
    requires NotFilters(ops) == [] && NoRepeats(names)
    ensures TileNames(names, ops, pred, w) == PipelineNames(names, ops, w) <==> Selection(names, ops, w).Some? || ReadsDisplay(names, pred, w)
  {
    var read := ReadNames(names, ops, pred, w);
    if Selection(names, ops, w).Some? {
      NamesAtPositions(read, DisplayNames(names, w));
      DisplayedIsRead(names, ops, pred, w);
      AllPresent(read, DisplayNames(names, w));
    } else {
      NamesAtPlaces(read, w);
      PredicateShowsIff(names, pred, w);
    }
  }

  // ---- filters and derived columns

  predicate FiltersOrDerives(op: ViewOp) {
    op.Filter? || op.Derive? || op.Approximate?
  }

  lemma {:induction false} DerivedBehind(names: seq<string>, ops: seq<ViewOp>)
    requires forall i :: 0 <= i < |ops| ==> ops[i].Derive? || ops[i].Approximate?
    ensures ThroughNames(names, ops) == names + ThroughNames([], ops)
    decreases |ops|
  {
    if ops != [] {
      var first, rest := StepNames([], ops[0]), ThroughNames([], ops[1..]);
      assert StepNames(names, ops[0]) == names + first;
      DerivedBehind(names + first, ops[1..]);
      DerivedBehind(first, ops[1..]);
      Reassociate(names, first, rest);
    }
  }

  /** The window, counted in the pipeline's columns, takes in a derived one. */
  predicate ReachesDerived(names: seq<string>, ops: seq<ViewOp>, w: Window) {
    var all := ThroughNames(names, NotFilters(ops));
    w.colOffset < ColumnEnd(all, w) && |names| < ColumnEnd(all, w)
  }

  /** A tile of filters and derived columns with a selection and a row to show is the pipeline's rectangle if and only if the
      window takes in no derived column: those are computed but not shown. */
  lemma DerivedTileIsRectangleIff(rt: Runtime, names: seq<string>, file: seq<RowGroup>, ops: seq<ViewOp>, pred: Predicate, w: Window, list: seq<nat>)
    requires CombinedFilter(ops) == Some(pred) && Stateless(ops) && (forall op :: op in ops ==> FiltersOrDerives(op))
    requires WellFormed(TableOf(names, file)) && NeverRepeats(names, NotFilters(ops)) && Exec(rt, TableOf(names, file), ops).Ok?
    requires Selection(names, ops, w).Some? && Slice(AllMatches(rt, names, file, pred), w.offset, w.rows) != []
    ensures TileDisplay(rt, names, file, ops, pred, w, list, Slice(AllMatches(rt, names, file, pred), w.offset, w.rows))
              == PipelineDisplay(rt, names, file, ops, w)
            <==> !ReachesDerived(names, ops, w)
  {
    TileIsRectangleIff(rt, names, file, ops, pred, w, list);
    DerivedTileNames(names, ops, pred, w);
    SelectionReadsEnough(rt, names, ops, pred, w);
    if file == [] {
      assert UpTo(0) == [];
    } else {
      PipelineOk(rt, names, file, ops);
    }
  }

  lemma DerivedTileNames(names: seq<string>, ops: seq<ViewOp>, pred: Predicate, w: Window)
    requires Selection(names, ops, w).Some? && (forall op :: op in ops ==> FiltersOrDerives(op))
    ensures TileNames(names, ops, pred, w) == PipelineNames(names, ops, w) <==> !ReachesDerived(names, ops, w)
  {
    var rest, read := NotFilters(ops), ReadNames(names, ops, pred, w);
    NoFiltersLeft(ops);
    RemainingAreReferenced(ops);
    forall i | 0 <= i < |rest|
      ensures rest[i].Derive? || rest[i].Approximate?
    {
      assert rest[i] in rest && rest[i] in ops;
    }
    DerivedBehind(names, rest);
    DerivedBehind(read, rest);
    NamesAtPositions(ThroughNames(read, rest), DisplayNames(names, w));
    DisplayedIsRead(names, ops, pred, w);
    AllPresent(ThroughNames(read, rest), DisplayNames(names, w));
    ShownOfMore(names, ThroughNames([], rest), w);
  }

  /** More columns at the end show more exactly if the window reaches them. */
  lemma ShownOfMore(names: seq<string>, more: seq<string>, w: Window)
    ensures DisplayNames(names, w) == DisplayNames(names + more, w) <==>
            !(w.colOffset < ColumnEnd(names + more, w) && |names| < ColumnEnd(names + more, w))
  {
    var e, e' := ColumnEnd(names, w), ColumnEnd(names + more, w);
    var all := names + more;
    if w.colOffset < e' && |names| < e' {
      assert |DisplayNames(all, w)| == e' - w.colOffset > |DisplayNames(names, w)|;
    } else if w.colOffset < |names| {
      assert e' == e && all[w.colOffset..e] == names[w.colOffset..e];
    }
  }

  // ---- inputs

  lemma PredicateOfFirst(names: seq<string>, pred: Predicate)
    requires names != [] && PredColumns(pred) == {names[0]}
    ensures PredIndices(names, pred) == [0] && Gather(names, PredIndices(names, pred)) == [names[0]]
  {
    var keep := FirstsNamed(names, {names[0]});
    ListedAscends(|names|, keep);
    forall g: nat
      ensures g in Listed(|names|, keep) <==> g in [0]
    {
      ListedMember(|names|, keep, g);
    }
    AscendingUnique(Listed(|names|, keep), [0]);
    GatherOne(names, 0);
  }

  lemma GatherOne<T>(rows: seq<T>, i: nat)
    requires i < |rows|
    ensures Gather(rows, [i]) == [rows[i]]
  {
    GatherAt(rows, [i]);
  }

  lemma ReferencedByTwo(ops: seq<ViewOp>, first: ViewOp, second: ViewOp)
    requires ops == [first, second]
    ensures Referenced(ops) == OpColumns(first) + OpColumns(second)
  {
    assert ops[1..] == [second] && [second][1..] == [];
    assert Referenced([second]) == OpColumns(second) + {};
  }

  /** A filter on one of two displayed columns: the tile shows that column alone. */
  lemma PredicateColumnsOnly(a: string, b: string, pred: Predicate, ops: seq<ViewOp>, w: Window)
    requires a != b && PredColumns(pred) == {a} && ops == [Filter(pred)] && w.colOffset == 0 && w.cols == 2
    ensures Selection([a, b], ops, w).None?
    ensures TileNames([a, b], ops, pred, w) == [a] && PipelineNames([a, b], ops, w) == [a, b]
  {
    var names := [a, b];
    NothingRemains(ops);
    NoSelectionIff(names, ops, w);
    PredicateOfFirst(names, pred);
    NamesAtPlaces([a], w);
  }

  /** Deriving a column from the other one: the pipeline applies it, a tile with a row fails, whatever it displays. */
  lemma DeriveBeyondTheRead(rt: Runtime, a: string, b: string, s: string, pred: Predicate, e: ScalarExpr, ops: seq<ViewOp>, w: Window)
    requires a != b && PredColumns(pred) == {a} && ops == [Filter(pred), Derive(s, e)]
    requires e == BinOp(Add, Column(b), Lit(IntLit(1)))
    ensures Stateless(ops) && Selection([a, b], ops, w).None?
    ensures ThroughOk(rt, [a, b], NotFilters(ops)) && !ThroughOk(rt, ReadNames([a, b], ops, pred, w), NotFilters(ops))
  {
    var names, filter, derive := [a, b], ops[0], ops[1];
    FilterThenDerive(ops, filter, derive);
    ReferencedByTwo(ops, filter, derive);
    assert ScalarColumns(e) == {b};
    NoSelectionIff(names, ops, w);
    forall i: nat | i < |names|
      ensures Covered(names, ops, w, i)
    {
    }
    PredicateOfFirst(names, pred);
    OkOfOne(rt, names, derive);
    OkOfOne(rt, [a], derive);
    assert ScalarOk(rt, names, Column(b)) && !ScalarOk(rt, [a], Column(b)) && ScalarOk(rt, names, Lit(IntLit(1)));
  }

  lemma OkOfOne(rt: Runtime, names: seq<string>, op: ViewOp)
    ensures ThroughOk(rt, names, [op]) == StepOk(rt, names, op)
  {
    assert [op][1..] == [];
  }

  lemma FilterThenDerive(ops: seq<ViewOp>, filter: ViewOp, derive: ViewOp)
    requires ops == [filter, derive] && filter.Filter? && derive.Derive? && RankFree(derive.expr)
    ensures NotFilters(ops) == [derive] && Stateless(ops)
  {
    forall phase: nat | phase < PHASES {
      BucketsOfTwo(ops, filter, derive, phase);
    }
    NoneBehind(ops, 5);
  }

  /** Selecting two of three columns and filtering on the first: the tile shows the first alone. */
  lemma SelectedColumnUnread(a: string, b: string, c: string, pred: Predicate, ops: seq<ViewOp>, w: Window)
    requires a != b && b != c && a != c && PredColumns(pred) == {a} && w.colOffset == 0 && w.cols == 2
    requires ops == [Select([a, b]), Filter(pred)]
    ensures Selection([a, b, c], ops, w).None?
    ensures TileNames([a, b, c], ops, pred, w) == [a] && PipelineNames([a, b, c], ops, w) == [a, b]
  {
    var names, select, filter := [a, b, c], ops[0], ops[1];
    TakenThenFilter(ops, select, filter);
    assert select in ops && Explicit(select);
    PredicateOfFirst(names, pred);
    ThroughOne(names, select);
    ThroughOne([a], select);
    PresentTwo(names, a, b);
    PresentTwo([a], a, b);
    NamesAtPlaces([a], w);
  }

  /** Two of three columns are read: the first, which is referenced, and the second, which is displayed. */
  lemma FirstTwoSelected(names: seq<string>, ops: seq<ViewOp>, w: Window, i: nat)
    requires |names| == 3 && NoRepeats(names) && (forall op :: op in ops ==> !Explicit(op))
    requires i < 2 && Referenced(ops) == {names[i]} && w.colOffset == 1 - i && w.cols == 1
    ensures Selection(names, ops, w) == Some([0, 1])
  {
    NoSelectionIff(names, ops, w);
    UniquePlace(names, i);
    assert !Covered(names, ops, w, 2);
    var selection := Selection(names, ops, w);
    KeptAscends(names, ops, IsNull(names[i]), w);
    forall g: nat
      ensures g in selection.value <==> g in [0, 1]
    {
      SelectedMember(names, ops, w, g);
      assert g in [0, 1] <==> g == 0 || g == 1;
    }
    AscendingUnique(selection.value, [0, 1]);
  }

  lemma GatherTwo<T>(s: seq<T>, i: nat, j: nat)
    requires i < |s| && j < |s|
    ensures Gather(s, [i, j]) == [s[i], s[j]]
  {
    GatherAt(s, [i, j]);
  }

  /** Dropping the first of three columns and filtering on one of two: both are read, and the second is left. */
  lemma DropReadsTwo(names: seq<string>, ops: seq<ViewOp>, pred: Predicate, w: Window, i: nat)
    requires |names| == 3 && NoRepeats(names) && i < 2 && PredColumns(pred) == {names[i]}
    requires ops == [Drop([names[0]]), Filter(pred)] && w.colOffset == 1 - i && w.cols == 1
    ensures Stateless(ops) && NotFilters(ops) == [ops[0]]
    ensures Selection(names, ops, w).Some? && TileRead(names, ops, pred, w) == [0, 1]
    ensures ReadNames(names, ops, pred, w) == [names[0], names[1]] && ComputedNames(names, ops, pred, w) == [names[1]]
  {
    TakenThenFilter(ops, ops[0], ops[1]);
    assert Selection(names, ops, w) == Some([0, 1]) by {
      ReferencedByTwo(ops, ops[0], ops[1]);
      FirstTwoSelected(names, ops, w, i);
    }
    assert ReadNames(names, ops, pred, w) == [names[0], names[1]] by {
      GatherTwo(names, 0, 1);
    }
    DropOfTwo(names[0], names[1], ops[0]);
  }

  /** Dropping a column and filtering on it, with the next column displayed: an error in the pipeline, a tile of that column. */
  lemma DroppedFilterColumn(rt: Runtime, names: seq<string>, file: seq<RowGroup>, row: Row, ops: seq<ViewOp>, pred: Predicate, w: Window)
    requires |names| == 3 && NoRepeats(names) && |row| == 3 && row[0] == Null
    requires pred == IsNull(names[0]) && ops == [Drop([names[0]]), Filter(pred)]
    requires TableOf(names, file).batches == [[row]] && w == Window(1, 1, 0, 1)
    ensures Exec(rt, TableOf(names, file), ops).Err?
    ensures Slice(AllMatches(rt, names, file, pred), w.offset, w.rows) == [row]
    ensures TileDisplay(rt, names, file, ops, pred, w, [0], [row]) == Shown([names[1]], [[row[1]]])
  {
    DroppedFilterFails(rt, names, file, row, ops);
    OneMatch(rt, names, file, row, pred);
    DroppedTile(rt, names, file, row, ops, pred, w);
  }

  lemma DroppedTile(rt: Runtime, names: seq<string>, file: seq<RowGroup>, row: Row, ops: seq<ViewOp>, pred: Predicate, w: Window)
    requires |names| == 3 && NoRepeats(names) && |row| == 3 && pred == IsNull(names[0]) && ops == [Drop([names[0]]), Filter(pred)]
    requires w == Window(1, 1, 0, 1)
    ensures TileDisplay(rt, names, file, ops, pred, w, [0], [row]) == Shown([names[1]], [[row[1]]])
  {
    DropReadsTwo(names, ops, pred, w, 0);
    DroppedPlaces(names, ops, w);
    DroppedRow(rt, names, row, ops[0]);
    ShowOne(rt, names, ops, pred, w, row, [row[1]]);
    AllOkOfOne(rt, names, ops, ops[0], ops[1]);
    OkOfOne(rt, [names[0], names[1]], ops[0]);
    OneCell(rt, names, file, ops, pred, w, row, names[1], row[1]);
  }

  lemma DroppedPlaces(names: seq<string>, ops: seq<ViewOp>, w: Window)
    requires |names| == 3 && Selection(names, ops, w).Some? && w.colOffset == 1 && w.cols == 1
    ensures TilePlaces(names, ops, w, [names[1]]) == [0]
  {
    assert DisplayNames(names, w) == [names[1]];
    PlacesOfOne(names[1]);
  }

  lemma DroppedRow(rt: Runtime, names: seq<string>, row: Row, drop: ViewOp)
    requires |names| == 3 && |row| == 3 && names[0] != names[1] && drop == Drop([names[0]])
    ensures Through(rt, [names[0], names[1]], [drop], PickAt(row, [0, 1])) == [row[1]]
  {
    assert PickAt(row, [0, 1]) == [row[0], row[1]];
    DropOfTwoRow(rt, names[0], names[1], row[0], row[1], drop);
  }

  lemma ShownOne(d: string, x: Cell)
    ensures Show([d], [[x]], [0]) == Shown([d], [[x]])
  {
    GatherOne([d], 0);
    PickOne([x], 0);
  }

  lemma PickOne(row: Row, i: nat)
    ensures OnColumns([row], [i]) == [[CellAt(row, i)]]
  {
    assert PickAt(row, [i]) == [CellAt(row, i)];
    assert OnColumns([row], [i])[0] == PickAt(row, [i]);
  }

  /** A tile of one column and one row. */
  lemma OneCell(rt: Runtime, names: seq<string>, file: seq<RowGroup>, ops: seq<ViewOp>, pred: Predicate, w: Window, row: Row, d: string, x: Cell)
    requires AllOk(rt, names, ops) && ThroughOk(rt, ReadNames(names, ops, pred, w), NotFilters(ops))
    requires ComputedNames(names, ops, pred, w) == [d] && TilePlaces(names, ops, w, [d]) == [0]
    requires AllThrough(rt, ReadNames(names, ops, pred, w), NotFilters(ops), OnColumns([row], TileRead(names, ops, pred, w))) == [[x]]
    ensures TileDisplay(rt, names, file, ops, pred, w, [0], [row]) == Shown([d], [[x]])
  {
    ShownOne(d, x);
  }

  lemma PlacesOfOne(d: string)
    ensures PositionsOf([d], [d]) == [0]
  {
    assert [d][1..] == [];
  }

  /** One row through the remaining operations. */
  lemma ShowOne(rt: Runtime, names: seq<string>, ops: seq<ViewOp>, pred: Predicate, w: Window, row: Row, shown: Row)
    requires Through(rt, ReadNames(names, ops, pred, w), NotFilters(ops), PickAt(row, TileRead(names, ops, pred, w))) == shown
    ensures AllThrough(rt, ReadNames(names, ops, pred, w), NotFilters(ops), OnColumns([row], TileRead(names, ops, pred, w))) == [shown]
  {
  }

  lemma AllOkOfOne(rt: Runtime, names: seq<string>, ops: seq<ViewOp>, first: ViewOp, filter: ViewOp)
    requires ops == [first, filter] && !first.Filter? && filter.Filter? && PredOk(rt, names, filter.pred)
    ensures AllOk(rt, names, ops)
  {
  }

  lemma DroppedFilterFails(rt: Runtime, names: seq<string>, file: seq<RowGroup>, row: Row, ops: seq<ViewOp>)
    requires |names| == 3 && NoRepeats(names) && |row| == 3
    requires ops == [Drop([names[0]]), Filter(IsNull(names[0]))]
    requires TableOf(names, file).batches == [[row]]
    ensures WellFormed(TableOf(names, file)) && Exec(rt, TableOf(names, file), ops).Err?
  {
    var drop, filter := ops[0], ops[1];
    TakenThenFilter(ops, drop, filter);
    ThroughOne(names, drop);
    assert !PredOk(rt, StepNames(names, drop), filter.pred) by {
      CellAfterDrop(names, row, drop.columns, names[0]);
      assert names[0] in drop.columns;
    }
    assert filter in ops;
    MissingColumnFails(rt, names, file, ops, filter);
  }

  lemma MissingColumnFails(rt: Runtime, names: seq<string>, file: seq<RowGroup>, ops: seq<ViewOp>, filter: ViewOp)
    requires Stateless(ops) && WellFormed(TableOf(names, file)) && file != [] && filter in ops && filter.Filter?
    requires !PredOk(rt, ThroughNames(names, BeforeFilters(ops)), filter.pred)
    ensures Exec(rt, TableOf(names, file), ops).Err?
  {
    ExecSucceedsIff(rt, TableOf(names, file), ops);
  }

  lemma DropOfTwo(c: string, d: string, drop: ViewOp)
    requires c != d && drop == Drop([c])
    ensures KeepIndices([c, d], [c]) == [1] && ThroughNames([c, d], [drop]) == [d]
  {
    var names := [c, d];
    ThroughOne(names, drop);
    assert names[..1] == [c] && names[..1][..0] == [];
    assert KeepIndices([c], [c]) == [];
    assert KeepIndices(names, [c]) == [1];
    GatherOne(names, 1);
  }

  lemma DropOfTwoRow(rt: Runtime, c: string, d: string, x: Cell, y: Cell, drop: ViewOp)
    requires c != d && drop == Drop([c])
    ensures Through(rt, [c, d], [drop], [x, y]) == [y]
  {
    DropOfTwo(c, d, drop);
    GatherOne([x, y], 1);
    assert [drop][1..] == [];
  }

  lemma OneMatch(rt: Runtime, names: seq<string>, file: seq<RowGroup>, row: Row, pred: Predicate)
    requires TableOf(names, file).batches == [[row]] && EvalPred(rt, names, row, pred) == Some(true)
    ensures AllMatches(rt, names, file, pred) == [row]
  {
    var batches := TableOf(names, file).batches;
    assert |batches| == |file| && batches[0] == file[0].rows;
    assert UpTo(1) == [0];
    MatchesInOne(rt, names, file, pred, 0);
    assert [row][1..] == [];
    assert FilterRows(rt, names, [row], pred) == [row] + FilterRows(rt, names, [], pred);
  }

  /** Dropping the first column and filtering on the second, with one column displayed: the pipeline shows the second column,
      which now is the first; the tile looks for the dropped one and shows nothing. */
  lemma DropShiftsTheDisplay(names: seq<string>, ops: seq<ViewOp>, pred: Predicate, w: Window)
    requires |names| == 3 && NoRepeats(names) && PredColumns(pred) == {names[1]}
    requires ops == [Drop([names[0]]), Filter(pred)] && w.colOffset == 0 && w.cols == 1
    ensures TileNames(names, ops, pred, w) == [] && PipelineNames(names, ops, w) == [names[1]]
  {
    var a, b := names[0], names[1];
    DropReadsTwo(names, ops, pred, w, 1);
    ThroughOne(names, ops[0]);
    DropOfThree(names, ops[0]);
    assert DisplayNames(names, w) == [a] && DisplayNames([b, names[2]], w) == [b];
    NamesAtPositions([b], [a]);
    assert [a][1..] == [] && a !in [b];
    assert Present([b], [a]) == [];
  }

  lemma DropOfThree(names: seq<string>, drop: ViewOp)
    requires |names| == 3 && NoRepeats(names) && drop == Drop([names[0]])
    ensures StepNames(names, drop) == [names[1], names[2]]
  {
    var c := names[0];
    assert names[..2][..1] == [c] && [c][..0] == [];
    assert KeepIndices([c], [c]) == [];
    assert KeepIndices(names[..2], [c]) == [1];
    assert KeepIndices(names, [c]) == [1, 2];
    GatherTwo(names, 1, 2);
  }

  /** A column renamed to the name of another: both show one column of that name, but the pipeline shows the other
      one, which the tile has not read. */
  lemma RepeatedNameMisleads(rt: Runtime, a: string, b: string, x: Cell, file: seq<RowGroup>, ops: seq<ViewOp>, pred: Predicate, w: Window)
    requires a != b && pred == IsNull(b) && ops == [Filter(pred), Rename([(b, a)])]
    requires TableOf([a, b], file).batches == [[[x, Null]]] && w == Window(0, 1, 0, 1)
    ensures PipelineDisplay(rt, [a, b], file, ops, w) == Shown([a], [[x]])
    ensures Slice(AllMatches(rt, [a, b], file, pred), w.offset, w.rows) == [[x, Null]]
    ensures TileDisplay(rt, [a, b], file, ops, pred, w, [0], [[x, Null]]) == Shown([a], [[Null]])
  {
    FilterThenRename(ops, ops[0], ops[1]);
    OneMatch(rt, [a, b], file, [x, Null], pred);
    RenamedPipeline(rt, a, b, x, file, ops, pred, w);
    RenamedTile(rt, a, b, x, file, ops, pred, w);
  }

  lemma FilterThenRename(ops: seq<ViewOp>, filter: ViewOp, rename: ViewOp)
    requires ops == [filter, rename] && filter.Filter? && rename.Rename?
    ensures NotFilters(ops) == [rename] && BeforeFilters(ops) == [] && Stateless(ops)
  {
    forall phase: nat | phase < PHASES {
      BucketsOfTwo(ops, filter, rename, phase);
    }
    assert PhasesFrom(ops, 5) == [rename] by {
      NoneBehind(ops, 8);
      assert PhasesFrom(ops, 7) == [rename] + [];
      assert PhasesFrom(ops, 6) == [rename];
    }
  }

  lemma RenameOne(a: string, b: string, rename: ViewOp)
    requires a != b && rename == Rename([(b, a)])
    ensures ThroughNames([a, b], [rename]) == [a, a] && ThroughNames([b], [rename]) == [a]
  {
    ThroughOne([a, b], rename);
    ThroughOne([b], rename);
    assert rename.mappings[1..] == [];
    assert Renamed(a, rename.mappings) == a && Renamed(b, rename.mappings) == a;
  }

  lemma RenamedRow(rt: Runtime, names: seq<string>, rename: ViewOp, row: Row)
    requires rename.Rename?
    ensures AllThrough(rt, names, [rename], [row]) == [row]
  {
    assert [rename][1..] == [];
    assert AllThrough(rt, names, [rename], [row])[0] == Through(rt, names, [rename], row) == row;
  }

  lemma RenamedPipeline(rt: Runtime, a: string, b: string, x: Cell, file: seq<RowGroup>, ops: seq<ViewOp>, pred: Predicate, w: Window)
    requires a != b && pred == IsNull(b) && ops == [Filter(pred), Rename([(b, a)])] && w == Window(0, 1, 0, 1)
    requires TableOf([a, b], file).batches == [[[x, Null]]] && Stateless(ops) && NotFilters(ops) == [ops[1]] && BeforeFilters(ops) == []
    requires AllMatches(rt, [a, b], file, pred) == [[x, Null]]
    ensures PipelineDisplay(rt, [a, b], file, ops, w) == Shown([a], [[x]])
  {
    var names, rename := [a, b], ops[1];
    OneFilter(ops, ops[0], rename);
    OkOfOne(rt, names, rename);
    RenameSucceeds(rt, names, file, ops);
    PipelineOfOneRow(rt, names, file, ops, pred, w, [x, Null]);
    RenameOne(a, b, rename);
    RenamedRow(rt, names, rename, [x, Null]);
    FirstOfTwo(a, [x, Null], w);
  }

  lemma PipelineOfOneRow(rt: Runtime, names: seq<string>, file: seq<RowGroup>, ops: seq<ViewOp>, pred: Predicate, w: Window, row: Row)
    requires CombinedFilter(ops) == Some(pred) && Stateless(ops) && WellFormed(TableOf(names, file))
    requires Exec(rt, TableOf(names, file), ops).Ok? && AllMatches(rt, names, file, pred) == [row] && w.offset == 0 && w.rows == 1
    ensures PipelineDisplay(rt, names, file, ops, w) == ShownOfWhole(rt, names, ops, w, [row])
  {
    PipelineIsMapped(rt, names, file, ops, pred, w);
    assert Slice([row], 0, 1) == [row];
  }

  lemma RenameSucceeds(rt: Runtime, names: seq<string>, file: seq<RowGroup>, ops: seq<ViewOp>)
    requires |ops| == 2 && ops[0].Filter? && PredOk(rt, names, ops[0].pred) && ops[1].Rename?
    requires Stateless(ops) && NotFilters(ops) == [ops[1]] && BeforeFilters(ops) == []
    requires WellFormed(TableOf(names, file)) && file != []
    ensures Exec(rt, TableOf(names, file), ops).Ok?
  {
    OkOfOne(rt, names, ops[1]);
    ExecSucceedsIff(rt, TableOf(names, file), ops);
  }

  lemma FirstOfTwo(a: string, row: Row, w: Window)
    requires |row| == 2 && w.colOffset == 0 && w.cols == 1
    ensures Show([a, a], [row], Places(2, w)) == Shown([a], [[row[0]]])
  {
    assert Places(2, w) == [0];
    GatherOne([a, a], 0);
    PickOne(row, 0);
  }

  lemma OneFilter(ops: seq<ViewOp>, filter: ViewOp, other: ViewOp)
    requires ops == [filter, other] && filter.Filter? && !other.Filter?
    ensures CombinedFilter(ops) == Some(filter.pred)
  {
    assert ops[1..] == [other] && [other][1..] == [];
    assert FilterPreds([other]) == [];
    assert FilterPreds(ops) == [filter.pred] + [];
  }

  lemma RenamedTile(rt: Runtime, a: string, b: string, x: Cell, file: seq<RowGroup>, ops: seq<ViewOp>, pred: Predicate, w: Window)
    requires a != b && pred == IsNull(b) && ops == [Filter(pred), Rename([(b, a)])] && w == Window(0, 1, 0, 1)
    requires NotFilters(ops) == [ops[1]]
    ensures TileDisplay(rt, [a, b], file, ops, pred, w, [0], [[x, Null]]) == Shown([a], [[Null]])
  {
    var names, rename := [a, b], ops[1];
    RenameReadsOne(a, b, ops, pred, w);
    RenameOne(a, b, rename);
    OkOfOne(rt, [b], rename);
    assert AllOk(rt, names, ops);
    PickOne([x, Null], 1);
    RenamedRow(rt, [b], rename, [Null]);
    assert Places(1, w) == [0];
    OneCell(rt, names, file, ops, pred, w, [x, Null], a, Null);
  }

  lemma RenameReadsOne(a: string, b: string, ops: seq<ViewOp>, pred: Predicate, w: Window)
    requires a != b && pred == IsNull(b) && ops == [Filter(pred), Rename([(b, a)])] && w == Window(0, 1, 0, 1)
    ensures Selection([a, b], ops, w).None? && TileRead([a, b], ops, pred, w) == [1] && ReadNames([a, b], ops, pred, w) == [b]
  {
    var names := [a, b];
    ReferencedByTwo(ops, ops[0], ops[1]);
    assert (b, a) in ops[1].mappings;
    NoSelectionIff(names, ops, w);
    assert NoRepeats(names);
    UniquePlace(names, 1);
    forall i: nat | i < 2
      ensures Covered(names, ops, w, i)
    {
    }
    var keep := FirstsNamed(names, {b});
    ListedAscends(2, keep);
    forall g: nat
      ensures g in Listed(2, keep) <==> g in [1]
    {
      ListedMember(2, keep, g);
    }
    AscendingUnique(Listed(2, keep), [1]);
    GatherOne(names, 1);
  }

  lemma PresentTwo(names: seq<string>, a: string, b: string)
    ensures Present(names, [a, b]) == (if a in names then [a] else []) + (if b in names then [b] else [])
  {
    assert [a, b][1..] == [b] && [b][1..] == [];
    assert Present(names, [b]) == if b in names then [b] + [] else [];
  }

  lemma TakenThenFilter(ops: seq<ViewOp>, first: ViewOp, filter: ViewOp)
    requires ops == [first, filter] && (first.Select? || first.Drop?) && filter.Filter?
    ensures BeforeFilters(ops) == [first] && NotFilters(ops) == [first] && Stateless(ops)
  {
    forall phase: nat | phase < PHASES {
      BucketsOfTwo(ops, first, filter, phase);
    }
    NoneBehind(ops, 4);
  }

  lemma BucketsOfTwo(ops: seq<ViewOp>, first: ViewOp, second: ViewOp, phase: nat)
    requires ops == [first, second] && PhaseOf(first) != PhaseOf(second)
    ensures InPhase(ops, phase) == if PhaseOf(first) == phase then [first] else if PhaseOf(second) == phase then [second] else []
  {
    assert ops == [first] + [second];
    InPhaseAppend([first], [second], phase);
    assert [first][1..] == [] && [second][1..] == [];
    assert InPhase([second], phase) == if PhaseOf(second) == phase then [second] else [];
    assert InPhase([first], phase) == if PhaseOf(first) == phase then [first] else [];
  }

  lemma ThroughOne(names: seq<string>, op: ViewOp)
    ensures ThroughNames(names, [op]) == StepNames(names, op)
  {
    assert [op][1..] == [];
  }

  lemma {:induction false} NoneBehind(ops: seq<ViewOp>, from: nat)
    requires from <= PHASES && forall op :: op in ops ==> PhaseOf(op) < from
    ensures PhasesFrom(ops, from) == []
  {
    if PhasesFrom(ops, from) != [] {
      PhasesFromMembers(ops, from, PhasesFrom(ops, from)[0]);
    }
  }
}
