/** The tile of a filtered view over one file (crates/tv-engine/src/tile_ops.rs): the columns to read, the filtered
    read, the remaining operations on the rows read, the projection to the columns shown; when it is the
    rectangle of what the whole pipeline computes, and when it fails. */
module TileQuery {
  import opened Seqs
  import opened Exprs
  import opened Executor
  import opened Meaning
  import opened Relevance
  import opened ColumnPruning
  import opened RowWise
  import opened Pruning
  import opened FilteredTiles
  import opened FilteredPipeline
  import opened TileColumns
  import Bits
  import SliceBatches
  import R = RoaringIndex

  /** What a client is shown; without a row or without a column there is nothing to show. */
  datatype Display = Failed | Nothing | Shown(names: seq<string>, rows: seq<Row>)

  function Show(names: seq<string>, rows: seq<Row>, places: seq<nat>): Display {
    if rows == [] || places == [] then Nothing else Shown(Gather(names, places), OnColumns(rows, places))
  }

  // ---- a tile

  /** The names of the columns read. */
  function ReadNames(names: seq<string>, ops: seq<ViewOp>, pred: Predicate, w: Window): seq<string> {
    Gather(names, TileRead(names, ops, pred, w))
  }

  /** The names of the columns the remaining operations make of them. */
  function ComputedNames(names: seq<string>, ops: seq<ViewOp>, pred: Predicate, w: Window): seq<string> {
    ThroughNames(ReadNames(names, ops, pred, w), NotFilters(ops))
  }

  /** The names a tile shows. */
  function TileNames(names: seq<string>, ops: seq<ViewOp>, pred: Predicate, w: Window): seq<string> {
    var computed := ComputedNames(names, ops, pred, w);
    Gather(computed, TilePlaces(names, ops, w, computed))
  }

  /** The row groups read, with or without cached counts. */
  ghost function TileList(names: seq<string>, file: seq<RowGroup>, pred: Predicate, ix: Indexes, marks: Option<seq<nat>>,
                          counts: Option<seq<nat>>, w: Window): seq<nat>
    requires SizedBloom(ix.bloom)
  {
    if counts.None? then Chosen(names, file, pred, ix, marks)
    else IndexedList(Qualifying(names, file, pred, ix), counts.value, w.offset, marks)
  }

  /** The rows of the tile, with all columns. */
  ghost function TileRows(rt: Runtime, names: seq<string>, file: seq<RowGroup>, pred: Predicate, ix: Indexes,
                          counts: Option<seq<nat>>, w: Window): seq<Row>
    requires SizedBloom(ix.bloom)
  {
    if counts.None? then Slice(AllMatches(rt, names, file, pred), w.offset, w.rows)
    else IndexedWindow(rt, names, file, pred, Qualifying(names, file, pred, ix), counts.value, w.offset, w.rows)
  }

  /** A tile that reads the row groups `list` and finds `rows` fails: the row filter does, or one of the remaining
      operations, which are run only if there is a row, on the columns read. */
  ghost predicate TileFails(rt: Runtime, names: seq<string>, file: seq<RowGroup>, ops: seq<ViewOp>, pred: Predicate, w: Window,
                            list: seq<nat>, rows: seq<Row>) {
    || (HoldsRows(file, list) && !AllOk(rt, names, ops))
    || (rows != [] && !ThroughOk(rt, ReadNames(names, ops, pred, w), NotFilters(ops)))
  }

  ghost function TileDisplay(rt: Runtime, names: seq<string>, file: seq<RowGroup>, ops: seq<ViewOp>, pred: Predicate, w: Window,
                             list: seq<nat>, rows: seq<Row>): Display {
    if TileFails(rt, names, file, ops, pred, w, list, rows) then Failed else ShownOfRead(rt, names, ops, pred, w, rows)
  }

  /** What a tile of these rows shows: they are read on the columns read, go through the remaining operations, and are
      shown on the columns shown. */
  function ShownOfRead(rt: Runtime, names: seq<string>, ops: seq<ViewOp>, pred: Predicate, w: Window, rows: seq<Row>): Display {
    var computed := ComputedNames(names, ops, pred, w);
    var mapped := AllThrough(rt, ReadNames(names, ops, pred, w), NotFilters(ops), OnColumns(rows, TileRead(names, ops, pred, w)));
    Show(computed, mapped, TilePlaces(names, ops, w, computed))
  }

  /** The tile branch for a filtered stateless view of one file. The cached counts, if there are any, were made under
      the indexes `before`; where they fit, the rows are the window of the matching rows of the file. */
  method QueryFilteredTile(rt: Runtime, names: seq<string>, file: seq<RowGroup>, ops: seq<ViewOp>, pred: Predicate,
                           bloom: Option<BloomIndex>, bitmap: R.RoaringIndex?, marks: Option<seq<nat>>, split: seq<Row> -> seq<seq<Row>>,
                           counts: Option<seq<nat>>, ghost before: Indexes, w: Window)
    returns (display: Display)
    requires CombinedFilter(ops) == Some(pred) && Stateless(ops)
    requires Readable(rt, names, file, pred, bloom, bitmap, marks, split) && ValidIndexes(rt, names, file, pred, before)
    requires counts.Some? ==> FilterIndex(rt, names, file, pred, before) == counts
    ensures var ix := IndexesOf(bloom, bitmap);
            display == TileDisplay(rt, names, file, ops, pred, w,
                                   TileList(names, file, pred, ix, marks, counts, w), TileRows(rt, names, file, pred, ix, counts, w))
    ensures var ix := IndexesOf(bloom, bitmap);
            counts.None? || CountsFit(rt, names, file, pred, Qualifying(names, file, pred, before), Qualifying(names, file, pred, ix)) ==>
              TileRows(rt, names, file, pred, ix, counts, w) == Slice(AllMatches(rt, names, file, pred), w.offset, w.rows)
  {
    var selection := SelectColumns(names, ops, w);
    KeptAscends(names, ops, pred, w);
    FitRows(rt, names, file, pred, before, IndexesOf(bloom, bitmap), counts, w);
    var tile;
    if counts.Some? {
      tile := ReadFilteredTileIndexed(rt, names, file, pred, bloom, bitmap, w.offset, w.rows, counts.value, selection, marks, split);
    } else {
      tile := ReadFilteredTile(rt, names, file, pred, bloom, bitmap, w.offset, w.rows, selection, marks, split);
      SliceOnColumns(AllMatches(rt, names, file, pred), KeptColumns(names, pred, selection), w.offset, w.rows);
    }
    CombinedOk(rt, names, ops);
    if tile.None? {
      return Failed;
    }
    display := ShowTile(rt, names, ops, pred, selection, tile.value, w);
  }

  lemma FitRows(rt: Runtime, names: seq<string>, file: seq<RowGroup>, pred: Predicate, before: Indexes, ix: Indexes,
                counts: Option<seq<nat>>, w: Window)
    requires ValidIndexes(rt, names, file, pred, before) && ValidIndexes(rt, names, file, pred, ix)
    requires counts.Some? ==> FilterIndex(rt, names, file, pred, before) == counts
    ensures counts.None? || CountsFit(rt, names, file, pred, Qualifying(names, file, pred, before), Qualifying(names, file, pred, ix)) ==>
              TileRows(rt, names, file, pred, ix, counts, w) == Slice(AllMatches(rt, names, file, pred), w.offset, w.rows)
  {
    if counts.Some? && CountsFit(rt, names, file, pred, Qualifying(names, file, pred, before), Qualifying(names, file, pred, ix)) {
      QualifyingMissesNothing(rt, names, file, pred, before);
      QualifyingMissesNothing(rt, names, file, pred, ix);
      FittingCountsServe(rt, names, file, pred, Qualifying(names, file, pred, before), Qualifying(names, file, pred, ix), w.offset, w.rows);
    }
  }

  /** The remaining operations on the rows read, and the projection. */
  method ShowTile(rt: Runtime, names: seq<string>, ops: seq<ViewOp>, pred: Predicate, selection: Option<seq<nat>>,
                  tile: seq<seq<Row>>, w: Window) returns (display: Display)
    requires Stateless(ops) && [] !in tile && selection == Selection(names, ops, w)
    ensures var computed := ComputedNames(names, ops, pred, w);
            display == if Flatten(tile) != [] && !ThroughOk(rt, ReadNames(names, ops, pred, w), NotFilters(ops)) then Failed
                       else Show(computed, AllThrough(rt, ReadNames(names, ops, pred, w), NotFilters(ops), Flatten(tile)),
                                 TilePlaces(names, ops, w, computed))
  {
    var read := Gather(names, KeptColumns(names, pred, selection));
    var out := ExecuteSkippingFilters(rt, Frame(read, tile), ops);
    TileIsMappedOrFails(rt, read, tile, ops);
    if out.Err? {
      return Failed;
    }
    var columns := out.frame.names;
    var places := if selection.Some? then PositionsOf(columns, DisplayNames(names, w)) else Places(|columns|, w);
    display := Show(columns, Flatten(out.frame.batches), places);
  }

  // ---- the rectangle of the pipeline

  /** The rectangle of the whole pipeline's table. */
  ghost function PipelineDisplay(rt: Runtime, names: seq<string>, file: seq<RowGroup>, ops: seq<ViewOp>, w: Window): Display {
    var out := Exec(rt, TableOf(names, file), ops);
    if out.Err? then Failed
    else Show(out.frame.names, Slice(Flatten(out.frame.batches), w.offset, w.rows), Places(|out.frame.names|, w))
  }

  /** What it is for a window of the matching rows. */
  function ShownOfWhole(rt: Runtime, names: seq<string>, ops: seq<ViewOp>, w: Window, rows: seq<Row>): Display {
    var computed := ThroughNames(names, NotFilters(ops));
    Show(computed, AllThrough(rt, names, NotFilters(ops), rows), Places(|computed|, w))
  }

  /** The names of its columns. */
  function PipelineNames(names: seq<string>, ops: seq<ViewOp>, w: Window): seq<string> {
    DisplayNames(ThroughNames(names, NotFilters(ops)), w)
  }

  lemma {:induction false} MatchingRowsFit(rt: Runtime, names: seq<string>, rows: seq<Row>, pred: Predicate)
    requires RowsFit(names, rows)
    ensures RowsFit(names, FilterRows(rt, names, rows, pred))
  {
    if rows != [] {
      MatchingRowsFit(rt, names, rows[1..], pred);
    }
  }

  lemma {:induction false} MatchesFit(rt: Runtime, names: seq<string>, file: seq<RowGroup>, pred: Predicate, list: seq<nat>)
    requires WellFormed(TableOf(names, file))
    ensures RowsFit(names, MatchesIn(rt, names, file, pred, list))
  {
    if list != [] {
      MatchesFit(rt, names, file, pred, list[1..]);
      if list[0] < |file| {
        assert TableOf(names, file).batches[list[0]] == file[list[0]].rows;
        MatchingRowsFit(rt, names, file[list[0]].rows, pred);
      }
    }
  }

  lemma NotFiltersRowWise(ops: seq<ViewOp>)
    requires Stateless(ops)
    ensures AllRowWise(NotFilters(ops))
  {
    AheadTakesAway(ops);
    BehindIsRowWise(ops);
  }

  /** The pipeline's rectangle: the window of the kept rows, mapped, on the places of the window. */
  lemma PipelineIsMapped(rt: Runtime, names: seq<string>, file: seq<RowGroup>, ops: seq<ViewOp>, pred: Predicate, w: Window)
    requires CombinedFilter(ops) == Some(pred) && Stateless(ops) && WellFormed(TableOf(names, file))
    requires Exec(rt, TableOf(names, file), ops).Ok?
    ensures PipelineDisplay(rt, names, file, ops, w) == ShownOfWhole(rt, names, ops, w, Slice(AllMatches(rt, names, file, pred), w.offset, w.rows))
  {
    PipelineRowsAreMapped(rt, names, file, ops);
    ThroughSlice(rt, names, NotFilters(ops), AllMatches(rt, names, file, pred), w.offset, w.rows);
    if file != [] {
      ExecIsFilterThenMap(rt, TableOf(names, file), ops);
    }
  }

  /** Where the pipeline succeeds the row filter does not fail, and the remaining operations apply to the whole table. */
  lemma PipelineOk(rt: Runtime, names: seq<string>, file: seq<RowGroup>, ops: seq<ViewOp>)
    requires Stateless(ops) && WellFormed(TableOf(names, file)) && file != []
    requires Exec(rt, TableOf(names, file), ops).Ok?
    ensures AllOk(rt, names, ops) && ThroughOk(rt, names, NotFilters(ops))
  {
    ExecSucceedsIff(rt, TableOf(names, file), ops);
    AheadTakesAway(ops);
    OkOnMoreColumns(rt, names, BeforeFilters(ops), ops);
  }

  /** On the columns of the same names a row through the operations shows the same cells, read in part or as a whole. */
  lemma RowShownAlike(rt: Runtime, names: seq<string>, ops: seq<ViewOp>, kept: seq<nat>, row: Row, p1: seq<nat>, p2: seq<nat>)
    requires |row| == |names| && AllRowWise(ops) && NeverRepeats(names, ops) && ThroughOk(rt, Gather(names, kept), ops)
    requires Bits.StrictlyAscending(kept) && forall i :: 0 <= i < |kept| ==> kept[i] < |names|
    requires var n1, n2 := ThroughNames(names, ops), ThroughNames(Gather(names, kept), ops);
             && (forall i :: 0 <= i < |p1| ==> p1[i] < |n1|) && (forall i :: 0 <= i < |p2| ==> p2[i] < |n2|)
             && Gather(n1, p1) == Gather(n2, p2)
    ensures PickAt(Through(rt, names, ops, row), p1) == PickAt(Through(rt, Gather(names, kept), ops, PickAt(row, kept)), p2)
  {
    KeptIsSeen(names, row, kept);
    ThroughSeen(rt, names, row, Gather(names, kept), PickAt(row, kept), ops);
    SameNamesSameCells(ThroughNames(names, ops), Through(rt, names, ops, row), p1,
                       ThroughNames(Gather(names, kept), ops), Through(rt, Gather(names, kept), ops, PickAt(row, kept)), p2);
  }

  /** The rectangle of the pipeline on columns `p1` is that of the tile on columns `p2`, if they have the same names. */
  lemma RowsShownAlike(rt: Runtime, names: seq<string>, ops: seq<ViewOp>, kept: seq<nat>, rows: seq<Row>, p1: seq<nat>, p2: seq<nat>)
    requires RowsFit(names, rows) && AllRowWise(ops) && NeverRepeats(names, ops) && ThroughOk(rt, Gather(names, kept), ops)
    requires Bits.StrictlyAscending(kept) && forall i :: 0 <= i < |kept| ==> kept[i] < |names|
    requires var n1, n2 := ThroughNames(names, ops), ThroughNames(Gather(names, kept), ops);
             && (forall i :: 0 <= i < |p1| ==> p1[i] < |n1|) && (forall i :: 0 <= i < |p2| ==> p2[i] < |n2|)
             && Gather(n1, p1) == Gather(n2, p2)
    ensures OnColumns(AllThrough(rt, names, ops, rows), p1)
         == OnColumns(AllThrough(rt, Gather(names, kept), ops, OnColumns(rows, kept)), p2)
  {
    forall i | 0 <= i < |rows|
      ensures PickAt(Through(rt, names, ops, rows[i]), p1) == PickAt(Through(rt, Gather(names, kept), ops, PickAt(rows[i], kept)), p2)
    {
      RowShownAlike(rt, names, ops, kept, rows[i], p1, p2);
    }
  }

  lemma ShowSame(n1: seq<string>, rows1: seq<Row>, p1: seq<nat>, n2: seq<string>, rows2: seq<Row>, p2: seq<nat>)
    requires rows1 != [] && rows2 != []
    requires (forall i :: 0 <= i < |p1| ==> p1[i] < |n1|) && (forall i :: 0 <= i < |p2| ==> p2[i] < |n2|)
    requires Gather(n1, p1) == Gather(n2, p2) ==> OnColumns(rows1, p1) == OnColumns(rows2, p2)
    ensures Show(n1, rows1, p1) == Show(n2, rows2, p2) <==> Gather(n1, p1) == Gather(n2, p2)
  {
    GatherAt(n1, p1);
    GatherAt(n2, p2);
  }

  /** Where the pipeline succeeds a tile fails by its remaining operations only. */
  lemma TileFailsHere(rt: Runtime, names: seq<string>, file: seq<RowGroup>, ops: seq<ViewOp>, pred: Predicate, w: Window,
                      list: seq<nat>, rows: seq<Row>)
    requires Stateless(ops) && WellFormed(TableOf(names, file)) && Exec(rt, TableOf(names, file), ops).Ok?
    ensures TileFails(rt, names, file, ops, pred, w, list, rows) <==>
            rows != [] && !ThroughOk(rt, ReadNames(names, ops, pred, w), NotFilters(ops))
  {
    if file != [] {
      PipelineOk(rt, names, file, ops);
    }
  }

  /** Rows through the operations, read in part or as a whole, are shown alike if and only if the names shown are the same. */
  lemma NonEmptyAlike(rt: Runtime, names: seq<string>, ops: seq<ViewOp>, kept: seq<nat>, rows: seq<Row>, p1: seq<nat>, p2: seq<nat>)
    requires RowsFit(names, rows) && rows != [] && AllRowWise(ops) && NeverRepeats(names, ops) && ThroughOk(rt, Gather(names, kept), ops)
    requires Bits.StrictlyAscending(kept) && forall i :: 0 <= i < |kept| ==> kept[i] < |names|
    requires var n1, n2 := ThroughNames(names, ops), ThroughNames(Gather(names, kept), ops);
             (forall i :: 0 <= i < |p1| ==> p1[i] < |n1|) && (forall i :: 0 <= i < |p2| ==> p2[i] < |n2|)
    ensures var n1, n2 := ThroughNames(names, ops), ThroughNames(Gather(names, kept), ops);
            Show(n1, AllThrough(rt, names, ops, rows), p1) == Show(n2, AllThrough(rt, Gather(names, kept), ops, OnColumns(rows, kept)), p2)
            <==> Gather(n1, p1) == Gather(n2, p2)
  {
    var n1, n2 := ThroughNames(names, ops), ThroughNames(Gather(names, kept), ops);
    if Gather(n1, p1) == Gather(n2, p2) {
      RowsShownAlike(rt, names, ops, kept, rows, p1, p2);
    }
    ShowSame(n1, AllThrough(rt, names, ops, rows), p1, n2, AllThrough(rt, Gather(names, kept), ops, OnColumns(rows, kept)), p2);
  }

  /** Rows are shown alike by the tile and the pipeline if and only if the names shown are the same. */
  lemma ShownAlikeIff(rt: Runtime, names: seq<string>, ops: seq<ViewOp>, pred: Predicate, w: Window, rows: seq<Row>)
    requires Stateless(ops) && NeverRepeats(names, NotFilters(ops)) && RowsFit(names, rows) && rows != []
    requires ThroughOk(rt, ReadNames(names, ops, pred, w), NotFilters(ops))
    ensures ShownOfRead(rt, names, ops, pred, w, rows) == ShownOfWhole(rt, names, ops, w, rows) <==>
            TileNames(names, ops, pred, w) == PipelineNames(names, ops, w)
  {
    var computed, whole := ComputedNames(names, ops, pred, w), ThroughNames(names, NotFilters(ops));
    NamesAtPlaces(whole, w);
    KeptAscends(names, ops, pred, w);
    NotFiltersRowWise(ops);
    NonEmptyAlike(rt, names, NotFilters(ops), TileRead(names, ops, pred, w), rows, Places(|whole|, w), TilePlaces(names, ops, w, computed));
  }

  /** Where the pipeline succeeds, a tile of no row shows nothing, as the pipeline does; a tile with a row is the rectangle
      of the pipeline if and only if the remaining operations find their columns among those read, and the columns
      shown are those of the rectangle. */
  lemma TileIsRectangleIff(rt: Runtime, names: seq<string>, file: seq<RowGroup>, ops: seq<ViewOp>, pred: Predicate, w: Window, list: seq<nat>)
    requires CombinedFilter(ops) == Some(pred) && Stateless(ops) && WellFormed(TableOf(names, file))
    requires NeverRepeats(names, NotFilters(ops)) && Exec(rt, TableOf(names, file), ops).Ok?
    ensures var rows := Slice(AllMatches(rt, names, file, pred), w.offset, w.rows);
            var tile, whole := TileDisplay(rt, names, file, ops, pred, w, list, rows), PipelineDisplay(rt, names, file, ops, w);
            if rows == [] then tile == whole == Nothing
            else tile == whole <==>
                   && ThroughOk(rt, ReadNames(names, ops, pred, w), NotFilters(ops))
                   && TileNames(names, ops, pred, w) == PipelineNames(names, ops, w)
  {
    var rows := Slice(AllMatches(rt, names, file, pred), w.offset, w.rows);
    PipelineIsMapped(rt, names, file, ops, pred, w);
    TileFailsHere(rt, names, file, ops, pred, w, list, rows);
    assert RowsFit(names, rows) by {
      MatchesFit(rt, names, file, pred, UpTo(|file|));
    }
    TileShowsIff(rt, names, file, ops, pred, w, list, rows);
  }

  lemma TileShowsIff(rt: Runtime, names: seq<string>, file: seq<RowGroup>, ops: seq<ViewOp>, pred: Predicate, w: Window,
                     list: seq<nat>, rows: seq<Row>)
    requires Stateless(ops) && NeverRepeats(names, NotFilters(ops)) && RowsFit(names, rows)
    requires TileFails(rt, names, file, ops, pred, w, list, rows) <==>
             rows != [] && !ThroughOk(rt, ReadNames(names, ops, pred, w), NotFilters(ops))
    ensures var tile, whole := TileDisplay(rt, names, file, ops, pred, w, list, rows), ShownOfWhole(rt, names, ops, w, rows);
            if rows == [] then tile == whole == Nothing
            else tile == whole <==>
                   && ThroughOk(rt, ReadNames(names, ops, pred, w), NotFilters(ops))
                   && TileNames(names, ops, pred, w) == PipelineNames(names, ops, w)
  {
    if rows != [] && ThroughOk(rt, ReadNames(names, ops, pred, w), NotFilters(ops)) {
      ShownAlikeIff(rt, names, ops, pred, w, rows);
    }
  }

  // ---- with a selection the remaining operations find their columns

  lemma RemainingAreReferenced(ops: seq<ViewOp>)
    ensures forall i :: 0 <= i < |NotFilters(ops)| ==> NotFilters(ops)[i] in ops && OpColumns(NotFilters(ops)[i]) <= Referenced(ops)
  {
    forall phase: nat | phase < FILTER_PHASE {
      InPhasePure(ops, phase, phase);
    }
    forall i | 0 <= i < |NotFilters(ops)|
      ensures NotFilters(ops)[i] in ops && OpColumns(NotFilters(ops)[i]) <= Referenced(ops)
    {
      var op := NotFilters(ops)[i];
      if op in PhasesFrom(ops, 4) {
        PhasesFromMembers(ops, 4, op);
      } else {
        assert op in BeforeFilters(ops);
      }
      ReferencedCovers(ops, op);
    }
  }

  /** When a selection is passed, the remaining operations apply to the columns read if and only if they apply to all. */
  lemma SelectionReadsEnough(rt: Runtime, names: seq<string>, ops: seq<ViewOp>, pred: Predicate, w: Window)
    requires Stateless(ops) && Selection(names, ops, w).Some?
    ensures ThroughOk(rt, ReadNames(names, ops, pred, w), NotFilters(ops)) <==> ThroughOk(rt, names, NotFilters(ops))
  {
    SelectionReadsReferenced(names, ops, pred, w);
    NotFiltersRowWise(ops);
    RemainingAreReferenced(ops);
    forall i | 0 <= i < |NotFilters(ops)|
      ensures !NotFilters(ops)[i].Select?
    {
      assert NotFilters(ops)[i] in ops && !Explicit(NotFilters(ops)[i]);
    }
    OkAlike(rt, Referenced(ops), ReadNames(names, ops, pred, w), names, NotFilters(ops));
  }

  /** Operations that apply to the columns read apply to all. */
  lemma ReadIsPart(rt: Runtime, names: seq<string>, ops: seq<ViewOp>, pred: Predicate, w: Window)
    requires Stateless(ops)
    ensures ThroughOk(rt, ReadNames(names, ops, pred, w), NotFilters(ops)) ==> ThroughOk(rt, names, NotFilters(ops))
  {
    var kept := TileRead(names, ops, pred, w);
    KeptAscends(names, ops, pred, w);
    GatherAt(names, kept);
    NotFiltersRowWise(ops);
    if ThroughOk(rt, ReadNames(names, ops, pred, w), NotFilters(ops)) {
      forall c | c in ReadNames(names, ops, pred, w)
        ensures c in names
      {
        var j := IndexOf(Gather(names, kept), c).value;
        assert names[kept[j]] == c;
      }
      OkOnMore(rt, names, ReadNames(names, ops, pred, w), NotFilters(ops));
    }
  }

  // ---- where a tile and the whole pipeline differ

  /** A tile fails where the whole pipeline succeeds exactly when it has a row and a remaining operation misses a column
      that was not read; that happens without a selection only. */
  lemma TileFailsBesidePipelineIff(rt: Runtime, names: seq<string>, file: seq<RowGroup>, ops: seq<ViewOp>, pred: Predicate, w: Window,
                                   list: seq<nat>, rows: seq<Row>)
    requires Stateless(ops) && WellFormed(TableOf(names, file)) && file != [] && Exec(rt, TableOf(names, file), ops).Ok?
    ensures TileFails(rt, names, file, ops, pred, w, list, rows) <==>
            rows != [] && !ThroughOk(rt, ReadNames(names, ops, pred, w), NotFilters(ops))
    ensures TileFails(rt, names, file, ops, pred, w, list, rows) ==> Selection(names, ops, w).None?
  {
    TileFailsHere(rt, names, file, ops, pred, w, list, rows);
    PipelineOk(rt, names, file, ops);
    if Selection(names, ops, w).Some? {
      SelectionReadsEnough(rt, names, ops, pred, w);
    }
  }

  /** A tile succeeds where the whole pipeline fails exactly when the pipeline does fail while, for the tile, the filters
      find their columns in the file itself or no row group is read, and the rest applies to the columns read or no row is. */
  lemma TileOutlivesPipelineIff(rt: Runtime, names: seq<string>, file: seq<RowGroup>, ops: seq<ViewOp>, pred: Predicate, w: Window,
                                list: seq<nat>, rows: seq<Row>)
    requires Stateless(ops) && WellFormed(TableOf(names, file)) && file != []
    ensures Exec(rt, TableOf(names, file), ops).Err? && !TileFails(rt, names, file, ops, pred, w, list, rows) <==>
            && (AllOk(rt, ThroughNames(names, BeforeFilters(ops)), ops) ==> !ThroughOk(rt, names, NotFilters(ops)))
            && (AllOk(rt, names, ops) || !HoldsRows(file, list))
            && (ThroughOk(rt, ReadNames(names, ops, pred, w), NotFilters(ops)) || rows == [])
  {
    ExecSucceedsIff(rt, TableOf(names, file), ops);
  }

  /** For a tile that shows a row: exactly when a filter reads a column of the file that is taken away ahead of it. */
  lemma ShownTileOutlivesPipelineIff(rt: Runtime, names: seq<string>, file: seq<RowGroup>, ops: seq<ViewOp>, pred: Predicate, w: Window,
                                     list: seq<nat>, rows: seq<Row>)
    requires Stateless(ops) && WellFormed(TableOf(names, file)) && file != []
    requires rows != [] && HoldsRows(file, list)
    ensures Exec(rt, TableOf(names, file), ops).Err? && !TileFails(rt, names, file, ops, pred, w, list, rows) <==>
            && ThroughOk(rt, ReadNames(names, ops, pred, w), NotFilters(ops))
            && AllOk(rt, names, ops) && !AllOk(rt, ThroughNames(names, BeforeFilters(ops)), ops)
  {
    TileOutlivesPipelineIff(rt, names, file, ops, pred, w, list, rows);
    ReadIsPart(rt, names, ops, pred, w);
  }
}
