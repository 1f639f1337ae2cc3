/** The filtered tile readers of crates/tv-engine/src/reader.rs: whatever row groups the indexes
    rule out, a tile is the same window of the file's matching rows, on the columns read; with
    cached counts it is as long as the counts fit the row groups chosen now. */
module FilteredTiles {
  import opened Seqs
  import opened Exprs
  import opened Executor
  import opened Pruning
  import opened Relevance
  import Bits
  import R = RoaringIndex
  import SliceBatches

  // ---- the specification: filter the whole file

  function Matches(rt: Runtime, names: seq<string>, rg: RowGroup, pred: Predicate): seq<Row> {
    FilterRows(rt, names, rg.rows, pred)
  }

  /** The matching rows of the listed row groups, in list order. */
  function MatchesIn(rt: Runtime, names: seq<string>, file: seq<RowGroup>, pred: Predicate, list: seq<nat>): seq<Row> {
    if list == [] then []
    else (if list[0] < |file| then Matches(rt, names, file[list[0]], pred) else []) + MatchesIn(rt, names, file, pred, list[1..])
  }

  function UpTo(n: nat): seq<nat> {
    seq(n, i requires 0 <= i < n => i)
  }

  /** The matching rows of the whole file. */
  function AllMatches(rt: Runtime, names: seq<string>, file: seq<RowGroup>, pred: Predicate): seq<Row> {
    MatchesIn(rt, names, file, pred, UpTo(|file|))
  }

  // ---- lists of row groups that miss no match

  function Listed(n: nat, keep: nat -> bool): (list: seq<nat>) {
    if n == 0 then [] else Listed(n - 1, keep) + if keep(n - 1) then [n - 1] else []
  }

  lemma {:induction false} MatchesInAppend(rt: Runtime, names: seq<string>, file: seq<RowGroup>, pred: Predicate, a: seq<nat>, b: seq<nat>)
    ensures MatchesIn(rt, names, file, pred, a + b) == MatchesIn(rt, names, file, pred, a) + MatchesIn(rt, names, file, pred, b)
  {
    if a == [] {
      assert a + b == b;
    } else {
      assert (a + b)[1..] == a[1..] + b;
      MatchesInAppend(rt, names, file, pred, a[1..], b);
    }
  }

  lemma MatchesInOne(rt: Runtime, names: seq<string>, file: seq<RowGroup>, pred: Predicate, g: nat)
    ensures MatchesIn(rt, names, file, pred, [g]) == if g < |file| then Matches(rt, names, file[g], pred) else []
  {
    assert [g][1..] == [];
  }

  /** Leaving out row groups without a match changes nothing. */
  lemma {:induction false} ListedMatches(rt: Runtime, names: seq<string>, file: seq<RowGroup>, pred: Predicate, n: nat, keep: nat -> bool)
    requires n <= |file| && forall g :: 0 <= g < n && !keep(g) ==> Matches(rt, names, file[g], pred) == []
    ensures MatchesIn(rt, names, file, pred, Listed(n, keep)) == MatchesIn(rt, names, file, pred, UpTo(n))
  {
    if n > 0 {
      ListedMatches(rt, names, file, pred, n - 1, keep);
      NextMatches(rt, names, file, pred, n - 1);
      KeptMatches(rt, names, file, pred, Listed(n - 1, keep), n - 1, keep(n - 1));
    }
  }

  lemma NextMatches(rt: Runtime, names: seq<string>, file: seq<RowGroup>, pred: Predicate, n: nat)
    requires n < |file|
    ensures MatchesIn(rt, names, file, pred, UpTo(n + 1)) == MatchesIn(rt, names, file, pred, UpTo(n)) + Matches(rt, names, file[n], pred)
  {
    assert UpTo(n + 1) == UpTo(n) + [n];
    MatchesInAppend(rt, names, file, pred, UpTo(n), [n]);
    MatchesInOne(rt, names, file, pred, n);
  }

  lemma KeptMatches(rt: Runtime, names: seq<string>, file: seq<RowGroup>, pred: Predicate, list: seq<nat>, g: nat, kept: bool)
    requires g < |file| && (kept || Matches(rt, names, file[g], pred) == [])
    ensures MatchesIn(rt, names, file, pred, list + if kept then [g] else []) == MatchesIn(rt, names, file, pred, list) + Matches(rt, names, file[g], pred)
  {
    if kept {
      MatchesInAppend(rt, names, file, pred, list, [g]);
      MatchesInOne(rt, names, file, pred, g);
    } else {
      assert list + [] == list;
    }
  }

  function Marked(list: seq<nat>, marks: seq<nat>): seq<nat> {
    if list == [] then [] else if list[0] in marks then [list[0]] + Marked(list[1..], marks) else Marked(list[1..], marks)
  }

  lemma {:induction false} MarkedMatches(rt: Runtime, names: seq<string>, file: seq<RowGroup>, pred: Predicate, list: seq<nat>, marks: seq<nat>)
    requires forall g :: 0 <= g < |file| && g !in marks ==> Matches(rt, names, file[g], pred) == []
    ensures MatchesIn(rt, names, file, pred, Marked(list, marks)) == MatchesIn(rt, names, file, pred, list)
  {
    if list != [] {
      MarkedMatches(rt, names, file, pred, list[1..], marks);
      MatchesInAppend(rt, names, file, pred, [list[0]], Marked(list[1..], marks));
      MatchesInOne(rt, names, file, pred, list[0]);
    }
  }

  lemma {:induction false} NoneMatch(rt: Runtime, names: seq<string>, rows: seq<Row>, pred: Predicate)
    requires forall i :: 0 <= i < |rows| ==> EvalPred(rt, names, rows[i], pred) != Some(true)
    ensures FilterRows(rt, names, rows, pred) == []
  {
    if rows != [] {
      assert forall i :: 0 <= i < |rows[1..]| ==> rows[1..][i] == rows[i + 1];
      NoneMatch(rt, names, rows[1..], pred);
    }
  }

  // ---- the bitmap index as a filter

  /** The texts among the values. */
  function Texts(values: seq<Literal>): seq<string> {
    if values == [] then [] else if values[0].TextLit? then [values[0].s] + Texts(values[1..]) else Texts(values[1..])
  }

  lemma {:induction false} TextMembers(values: seq<Literal>, s: string)
    ensures s in Texts(values) <==> TextLit(s) in values
  {
    if values != [] {
      TextMembers(values[1..], s);
    }
  }

  /** `applicable_predicate`: a text equality, or an In with at least one text. */
  function Applicable(pred: Predicate): Option<(string, seq<string>)> {
    match pred
    case Compare(Eq, column, TextLit(s)) => Some((column, [s]))
    case In(column, values) => if Texts(values) == [] then None else Some((column, Texts(values)))
    case _ => None
  }

  /** The texts of one column, row group by row group; bitmap indexes are built over text columns only. */
  function ColumnTexts(rg: RowGroup, col: nat): seq<Option<string>> {
    seq(|rg.rows|, i requires 0 <= i < |rg.rows| => if CellAt(rg.rows[i], col).Str? then Some(CellAt(rg.rows[i], col).s) else None)
  }

  function FileTexts(file: seq<RowGroup>, col: nat): seq<seq<Option<string>>> {
    seq(|file|, g requires 0 <= g < |file| => ColumnTexts(file[g], col))
  }

  ghost predicate TextColumn(file: seq<RowGroup>, col: nat) {
    forall g, i :: 0 <= g < |file| && 0 <= i < |file[g].rows| ==> CellAt(file[g].rows[i], col).Null? || CellAt(file[g].rows[i], col).Str?
  }

  /** The bitmap index belongs to the predicate's column, which holds text. */
  ghost predicate ValidBitmap(f: R.Filters, file: seq<RowGroup>, names: seq<string>, pred: Predicate) {
    var a := Applicable(pred);
    a.Some? && a.value.0 in names ==>
      TextColumn(file, IndexOf(names, a.value.0).value) && R.Indexes(f, FileTexts(file, IndexOf(names, a.value.0).value))
  }

  /** The guard the bitmap lookup leaves out: every value of an In is text. */
  predicate BitmapSafe(pred: Predicate) {
    pred.In? ==> forall i :: 0 <= i < |pred.values| ==> Textual(pred.values[i])
  }

  /** Whether the bitmap keeps row group `g`: an unknown single value keeps every row group. */
  ghost predicate BitmapKeeps(f: R.Filters, values: seq<string>, g: nat) {
    if |values| == 1 then values[0] !in f || R.Recorded(f, values[0], g) else R.AnyRecorded(f, values, g)
  }

  /** A row matching an applicable predicate has one of its texts in the column. */
  lemma MatchedText(rt: Runtime, names: seq<string>, file: seq<RowGroup>, pred: Predicate, g: nat, i: nat) returns (s: string)
    requires Applicable(pred).Some? && Applicable(pred).value.0 in names && BitmapSafe(pred)
    requires TextColumn(file, IndexOf(names, Applicable(pred).value.0).value) && g < |file| && i < |file[g].rows|
    requires EvalPred(rt, names, file[g].rows[i], pred) == Some(true)
    ensures s in Applicable(pred).value.1 && Some(s) in ColumnTexts(file[g], IndexOf(names, Applicable(pred).value.0).value)
  {
    var row := file[g].rows[i];
    var col := IndexOf(names, pred.column).value;
    assert CellAt(row, col) == CellOf(names, row, pred.column);
    var value := if pred.Compare? then pred.value else NullLit;
    if pred.In? {
      var k := InNeedsOne(rt, CellAt(row, col), pred.values);
      value := pred.values[k];
      TextMembers(pred.values, value.s);
    }
    s := value.s;
    assert ColumnTexts(file[g], col)[i] == Some(s);
  }

  /** The bitmap keeps every row group with a matching row. */
  lemma BitmapKeepsMatches(rt: Runtime, names: seq<string>, file: seq<RowGroup>, pred: Predicate, f: R.Filters, g: nat, i: nat)
    requires Applicable(pred).Some? && Applicable(pred).value.0 in names && BitmapSafe(pred)
    requires ValidBitmap(f, file, names, pred) && g < |file| && i < |file[g].rows|
    requires EvalPred(rt, names, file[g].rows[i], pred) == Some(true)
    ensures BitmapKeeps(f, Applicable(pred).value.1, g)
  {
    var s := MatchedText(rt, names, file, pred, g, i);
    var col := IndexOf(names, Applicable(pred).value.0).value;
    assert FileTexts(file, col)[g] == ColumnTexts(file[g], col);
    assert R.Recorded(f, s, g);
  }

  // ---- qualifying row groups

  /** The indexes a read may use. */
  datatype Indexes = Indexes(bloom: Option<BloomIndex>, bitmap: Option<R.Filters>)

  ghost function IndexesOf(bloom: Option<BloomIndex>, bitmap: R.RoaringIndex?): Indexes
    reads bitmap
  {
    Indexes(bloom, if bitmap == null then None else Some(bitmap.filters))
  }

  ghost predicate ValidIndexes(rt: Runtime, names: seq<string>, file: seq<RowGroup>, pred: Predicate, ix: Indexes) {
    && (forall g :: 0 <= g < |file| ==> ValidRowGroup(rt, ix.bloom, g, file[g]))
    && SizedBloom(ix.bloom) && (ix.bloom.Some? ==> BloomSafe(pred))
    && (ix.bitmap.Some? ==> R.WellSized(ix.bitmap.value) && BitmapSafe(pred) && ValidBitmap(ix.bitmap.value, file, names, pred))
  }

  predicate UsesBitmap(names: seq<string>, pred: Predicate, ix: Indexes) {
    ix.bitmap.Some? && Applicable(pred).Some? && Applicable(pred).value.0 in names
  }

  ghost predicate Qualifies(names: seq<string>, file: seq<RowGroup>, pred: Predicate, ix: Indexes, g: nat)
    requires SizedBloom(ix.bloom)
  {
    g < |file| &&
    if UsesBitmap(names, pred, ix) then BitmapKeeps(ix.bitmap.value, Applicable(pred).value.1, g)
    else !CanPrune(pred, file[g], g, names, ix.bloom)
  }

  ghost function Qualifier(names: seq<string>, file: seq<RowGroup>, pred: Predicate, ix: Indexes): nat -> bool
    requires SizedBloom(ix.bloom)
  {
    (g: nat) => Qualifies(names, file, pred, ix, g)
  }

  ghost function Qualifying(names: seq<string>, file: seq<RowGroup>, pred: Predicate, ix: Indexes): seq<nat>
    requires SizedBloom(ix.bloom)
  {
    Listed(|file|, Qualifier(names, file, pred, ix))
  }

  /** A row group that does not qualify has no matching row. */
  lemma DisqualifiedHasNoMatch(rt: Runtime, names: seq<string>, file: seq<RowGroup>, pred: Predicate, ix: Indexes, g: nat)
    requires ValidIndexes(rt, names, file, pred, ix) && g < |file| && !Qualifies(names, file, pred, ix, g)
    ensures Matches(rt, names, file[g], pred) == []
  {
    forall i | 0 <= i < |file[g].rows|
      ensures EvalPred(rt, names, file[g].rows[i], pred) != Some(true)
    {
      if !UsesBitmap(names, pred, ix) {
        PruneIsSound(rt, names, file[g], g, i, pred, ix.bloom);
      } else if EvalPred(rt, names, file[g].rows[i], pred) == Some(true) {
        BitmapKeepsMatches(rt, names, file, pred, ix.bitmap.value, g, i);
      }
    }
    NoneMatch(rt, names, file[g].rows, pred);
  }

  /** The qualifying row groups hold all matching rows of the file, in file order. */
  lemma QualifyingMissesNothing(rt: Runtime, names: seq<string>, file: seq<RowGroup>, pred: Predicate, ix: Indexes)
    requires ValidIndexes(rt, names, file, pred, ix)
    ensures MatchesIn(rt, names, file, pred, Qualifying(names, file, pred, ix)) == AllMatches(rt, names, file, pred)
  {
    var keep := Qualifier(names, file, pred, ix);
    forall g: nat | g < |file| && !keep(g)
      ensures Matches(rt, names, file[g], pred) == []
    {
      DisqualifiedHasNoMatch(rt, names, file, pred, ix, g);
    }
    ListedMatches(rt, names, file, pred, |file|, keep);
  }

  lemma {:induction false} ListedMember(n: nat, keep: nat -> bool, g: nat)
    ensures g in Listed(n, keep) <==> g < n && keep(g)
  {
    if n > 0 {
      ListedMember(n - 1, keep, g);
    }
  }

  lemma {:induction false} ListedAscends(n: nat, keep: nat -> bool)
    ensures Bits.StrictlyAscending(Listed(n, keep))
  {
    if n > 0 {
      ListedAscends(n - 1, keep);
      var init := Listed(n - 1, keep);
      forall i | 0 <= i < |init|
        ensures init[i] < n - 1
      {
        ListedMember(n - 1, keep, init[i]);
      }
    }
  }

  /** An ascending list is determined by its members. */
  lemma {:induction false} AscendingUnique(a: seq<nat>, b: seq<nat>)
    requires Bits.StrictlyAscending(a) && Bits.StrictlyAscending(b) && forall g: nat :: g in a <==> g in b
    ensures a == b
  {
    HasMember(a);
    HasMember(b);
    if a != [] {
      assert a[0] in b && b[0] in a;
      FirstIsLeast(a, b[0]);
      FirstIsLeast(b, a[0]);
      forall g: nat
        ensures g in a[1..] <==> g in b[1..]
      {
        TailMember(a, g);
        TailMember(b, g);
      }
      AscendingUnique(a[1..], b[1..]);
    }
  }

  lemma HasMember(a: seq<nat>)
    ensures a != [] ==> exists g: nat :: g in a
  {
    if a != [] {
      assert a[0] in a;
    }
  }

  lemma FirstIsLeast(a: seq<nat>, g: nat)
    requires Bits.StrictlyAscending(a) && g in a
    ensures a[0] <= g
  {
  }

  lemma TailMember(a: seq<nat>, g: nat)
    requires Bits.StrictlyAscending(a) && a != []
    ensures g in a[1..] <==> g in a && g != a[0]
  {
    assert a == [a[0]] + a[1..];
    if g in a[1..] {
      var i :| 0 <= i < |a[1..]| && a[1..][i] == g;
      assert a[0] < a[i + 1];
    }
  }

  /** The branches of the readers that choose the row groups. */
  method QualifyingRgs(names: seq<string>, file: seq<RowGroup>, pred: Predicate, bloom: Option<BloomIndex>, bitmap: R.RoaringIndex?)
    returns (list: seq<nat>)
    requires SizedBloom(bloom) && (bitmap != null ==> bitmap.Valid())
    ensures list == Qualifying(names, file, pred, IndexesOf(bloom, bitmap))
  {
    ghost var ix := IndexesOf(bloom, bitmap);
    var applicable := Applicable(pred);
    var n := |file|;
    if bitmap != null && applicable.Some? && applicable.value.0 in names {
      var values := applicable.value.1;
      if |values| == 1 {
        var found := bitmap.RowGroupsForEq(values[0], n);
        list := if found.Some? then found.value else UpTo(n);
        UpToMembers(n);
      } else {
        list := bitmap.RowGroupsForIn(values, n);
      }
      BitmapList(names, file, pred, ix, list);
    } else {
      list := [];
      for i := 0 to n
        invariant list == Listed(i, Qualifier(names, file, pred, ix))
      {
        if !CanPrune(pred, file[i], i, names, bloom) {
          list := list + [i];
        }
      }
    }
  }

  lemma UpToMembers(n: nat)
    ensures Bits.StrictlyAscending(UpTo(n)) && forall g: nat :: g in UpTo(n) <==> g < n
  {
    forall g: nat | g < n
      ensures g in UpTo(n)
    {
      assert UpTo(n)[g] == g;
    }
  }

  lemma BitmapList(names: seq<string>, file: seq<RowGroup>, pred: Predicate, ix: Indexes, list: seq<nat>)
    requires SizedBloom(ix.bloom) && UsesBitmap(names, pred, ix) && Bits.StrictlyAscending(list)
    requires forall g: nat :: g in list <==> g < |file| && BitmapKeeps(ix.bitmap.value, Applicable(pred).value.1, g)
    ensures list == Qualifying(names, file, pred, ix)
  {
    var keep := Qualifier(names, file, pred, ix);
    ListedAscends(|file|, keep);
    forall g: nat
      ensures g in list <==> g in Listed(|file|, keep)
    {
      ListedMember(|file|, keep, g);
      assert keep(g) <==> Qualifies(names, file, pred, ix, g);
    }
    AscendingUnique(list, Listed(|file|, keep));
  }

  // ---- the readers

  /** Row groups outside the mark list, when there is one, have no matching row. */
  ghost predicate ValidMarkList(rt: Runtime, names: seq<string>, file: seq<RowGroup>, pred: Predicate, marks: Option<seq<nat>>) {
    marks.Some? ==> forall g :: 0 <= g < |file| && g !in marks.value ==> Matches(rt, names, file[g], pred) == []
  }

  ghost predicate Readable(rt: Runtime, names: seq<string>, file: seq<RowGroup>, pred: Predicate,
                           bloom: Option<BloomIndex>, bitmap: R.RoaringIndex?, marks: Option<seq<nat>>, split: seq<Row> -> seq<seq<Row>>)
    reads bitmap
  {
    && ValidIndexes(rt, names, file, pred, IndexesOf(bloom, bitmap))
    && ValidMarkList(rt, names, file, pred, marks) && SliceBatches.Splits(split)
  }

  function MarkFilter(list: seq<nat>, marks: Option<seq<nat>>): seq<nat> {
    if marks.Some? then Marked(list, marks.value) else list
  }

  lemma MarkFilterMatches(rt: Runtime, names: seq<string>, file: seq<RowGroup>, pred: Predicate, list: seq<nat>, marks: Option<seq<nat>>)
    requires ValidMarkList(rt, names, file, pred, marks)
    ensures MatchesIn(rt, names, file, pred, MarkFilter(list, marks)) == MatchesIn(rt, names, file, pred, list)
  {
    if marks.Some? {
      MarkedMatches(rt, names, file, pred, list, marks.value);
    }
  }

  /** Some listed row group holds a row, so that reading the list evaluates the predicate. */
  predicate HoldsRows(file: seq<RowGroup>, list: seq<nat>) {
    exists g :: g in list && g < |file| && file[g].rows != []
  }

  /** Reading the listed row groups fails: the row filter meets an unknown column or a bad pattern. */
  predicate FilterFails(rt: Runtime, names: seq<string>, file: seq<RowGroup>, pred: Predicate, list: seq<nat>) {
    !PredOk(rt, names, pred) && HoldsRows(file, list)
  }

  /** The row groups a read chooses: those that qualify and are in the mark list, if there is one. */
  ghost function Chosen(names: seq<string>, file: seq<RowGroup>, pred: Predicate, ix: Indexes, marks: Option<seq<nat>>): seq<nat>
    requires SizedBloom(ix.bloom)
  {
    MarkFilter(Qualifying(names, file, pred, ix), marks)
  }

  // ---- the columns a read takes

  /** The cells of a row at the given columns. */
  function PickAt(row: Row, columns: seq<nat>): Row {
    seq(|columns|, i requires 0 <= i < |columns| => CellAt(row, columns[i]))
  }

  function OnColumns(rows: seq<Row>, columns: seq<nat>): seq<Row> {
    seq(|rows|, i requires 0 <= i < |rows| => PickAt(rows[i], columns))
  }

  /** Column `i` is the one `schema.index_of` finds for a name of the set. */
  predicate FirstNamed(names: seq<string>, columns: set<string>, i: nat) {
    i < |names| && names[i] in columns && IndexOf(names, names[i]) == Some(i)
  }

  function FirstsNamed(names: seq<string>, columns: set<string>): nat -> bool {
    (i: nat) => FirstNamed(names, columns, i)
  }

  /** The indices of a set of column names, ascending; names the schema does not have are skipped. */
  function ColumnIndices(names: seq<string>, columns: set<string>): seq<nat> {
    Listed(|names|, FirstsNamed(names, columns))
  }

  /** `predicate_column_indices`, as the set of columns a projection mask makes of it. */
  function PredIndices(names: seq<string>, pred: Predicate): seq<nat> {
    ColumnIndices(names, PredColumns(pred))
  }

  function Either(a: seq<nat>, b: seq<nat>): nat -> bool {
    (i: nat) => i in a || i in b
  }

  /** The columns read: those of the predicate, and those of the selection if there is one. */
  function ReadColumns(names: seq<string>, pred: Predicate, selection: Option<seq<nat>>): seq<nat> {
    if selection.None? then PredIndices(names, pred)
    else Listed(|names|, Either(PredIndices(names, pred), selection.value))
  }

  /** The columns a tile keeps: the selection, or without one those of the predicate alone. */
  function KeptColumns(names: seq<string>, pred: Predicate, selection: Option<seq<nat>>): seq<nat> {
    if selection.None? then PredIndices(names, pred) else selection.value
  }

  /** The columns of a selection all exist. */
  predicate Selectable(names: seq<string>, selection: Option<seq<nat>>) {
    selection.Some? ==> forall i :: 0 <= i < |selection.value| ==> selection.value[i] < |names|
  }

  /** Where `column` stands in a list of columns: the answer of the binary search. */
  function PlaceOf(read: seq<nat>, column: nat): (place: Option<nat>)
    ensures place.Some? <==> column in read
    ensures place.Some? ==> place.value < |read| && read[place.value] == column
  {
    if read == [] then None
    else if read[0] == column then Some(0)
    else
      var rest := PlaceOf(read[1..], column);
      if rest.None? then None else Some(rest.value + 1)
  }

  /** `project_batch_by_full_schema_indices`: where the selected columns stand among those read. */
  function PlacesOf(read: seq<nat>, selection: seq<nat>): seq<nat> {
    if selection == [] then []
    else if PlaceOf(read, selection[0]).Some? then [PlaceOf(read, selection[0]).value] + PlacesOf(read, selection[1..])
    else PlacesOf(read, selection[1..])
  }

  /** Projecting the columns read onto the selection gives the selected columns. */
  lemma {:induction false} PickedThroughRead(row: Row, read: seq<nat>, selection: seq<nat>)
    requires forall i :: 0 <= i < |selection| ==> selection[i] in read
    ensures PickAt(PickAt(row, read), PlacesOf(read, selection)) == PickAt(row, selection)
  {
    if selection != [] {
      PickedThroughRead(row, read, selection[1..]);
      var place, rest := PlaceOf(read, selection[0]).value, PlacesOf(read, selection[1..]);
      assert CellAt(PickAt(row, read), place) == CellAt(row, selection[0]);
      assert PickAt(PickAt(row, read), [place] + rest) == [CellAt(PickAt(row, read), place)] + PickAt(PickAt(row, read), rest);
      assert PickAt(row, selection) == [CellAt(row, selection[0])] + PickAt(row, selection[1..]);
    }
  }

  lemma ReadSelected(names: seq<string>, pred: Predicate, selection: Option<seq<nat>>)
    requires selection.Some? && Selectable(names, selection)
    ensures forall i :: 0 <= i < |selection.value| ==> selection.value[i] in ReadColumns(names, pred, selection)
  {
    var keep := Either(PredIndices(names, pred), selection.value);
    forall i | 0 <= i < |selection.value|
      ensures selection.value[i] in Listed(|names|, keep)
    {
      ListedMember(|names|, keep, selection.value[i]);
    }
  }

  /** A window of rows on some columns. */
  lemma SliceOnColumns(rows: seq<Row>, columns: seq<nat>, offset: nat, limit: nat)
    ensures Slice(OnColumns(rows, columns), offset, limit) == OnColumns(Slice(rows, offset, limit), columns)
  {
  }

  /** The row filter sees the predicate's columns only; it accepts the same rows, and fails alike. */
  lemma RowFilterReadsItsColumns(rt: Runtime, names: seq<string>, row: Row, pred: Predicate)
    ensures var read := PredIndices(names, pred);
            && PredOk(rt, Gather(names, read), pred) == PredOk(rt, names, pred)
            && EvalPred(rt, Gather(names, read), PickAt(row, read), pred) == EvalPred(rt, names, row, pred)
  {
    var read, cols := PredIndices(names, pred), PredColumns(pred);
    IndicesAreFirsts(names, cols);
    forall c | c in cols
      ensures c in Gather(names, read) <==> c in names
      ensures CellOf(Gather(names, read), PickAt(row, read), c) == CellOf(names, row, c)
    {
      ColumnOfKept(names, row, read, c);
      if c in names {
        ListedMember(|names|, FirstsNamed(names, cols), IndexOf(names, c).value);
      }
    }
    PredOkOnItsColumns(rt, cols, Gather(names, read), names, pred);
    PredReadsItsColumns(rt, cols, Gather(names, read), PickAt(row, read), names, row, pred);
  }

  /** A column of a table on the columns `kept` is one of them, and the first of its name if that one is kept. */
  lemma ColumnOfKept(names: seq<string>, row: Row, kept: seq<nat>, c: string)
    requires forall i :: 0 <= i < |kept| ==> kept[i] < |names| && IndexOf(names, names[kept[i]]) == Some(kept[i])
    ensures c in Gather(names, kept) <==> c in names && IndexOf(names, c).value in kept
    ensures c in Gather(names, kept) ==> CellOf(Gather(names, kept), PickAt(row, kept), c) == CellOf(names, row, c)
  {
    var names' := Gather(names, kept);
    GatherAt(names, kept);
    if c in names' {
      var j := IndexOf(names', c).value;
      assert names[kept[j]] == c;
    }
    if c in names && IndexOf(names, c).value in kept {
      var j :| 0 <= j < |kept| && kept[j] == IndexOf(names, c).value;
      assert names'[j] == c;
    }
  }

  lemma IndicesAreFirsts(names: seq<string>, columns: set<string>)
    ensures forall i :: 0 <= i < |ColumnIndices(names, columns)| ==> FirstNamed(names, columns, ColumnIndices(names, columns)[i])
  {
    var indices := ColumnIndices(names, columns);
    forall i | 0 <= i < |indices|
      ensures FirstNamed(names, columns, indices[i])
    {
      ListedMember(|names|, FirstsNamed(names, columns), indices[i]);
    }
  }

  /** `read_parquet_filtered_tile`: `None` when the row filter fails. */
  method ReadFilteredTile(rt: Runtime, names: seq<string>, file: seq<RowGroup>, pred: Predicate, bloom: Option<BloomIndex>,
                          bitmap: R.RoaringIndex?, offset: nat, rows: nat, selection: Option<seq<nat>>, marks: Option<seq<nat>>,
                          split: seq<Row> -> seq<seq<Row>>)
    returns (tile: Option<seq<seq<Row>>>)
    requires Readable(rt, names, file, pred, bloom, bitmap, marks, split) && Selectable(names, selection)
    ensures tile.None? <==> FilterFails(rt, names, file, pred, Chosen(names, file, pred, IndexesOf(bloom, bitmap), marks))
    ensures ShowsWindow(tile, OnColumns(AllMatches(rt, names, file, pred), KeptColumns(names, pred, selection)), offset, rows)
  {
    var qualifying := QualifyingRgs(names, file, pred, bloom, bitmap);
    QualifyingMissesNothing(rt, names, file, pred, IndexesOf(bloom, bitmap));
    MarkFilterMatches(rt, names, file, pred, qualifying, marks);
    qualifying := MarkFilter(qualifying, marks);
    if qualifying == [] {
      return Some([]);
    }
    tile := ReadListed(rt, names, file, pred, qualifying, offset, rows, selection, split);
  }

  /** `count_parquet_filtered`: `None` when the row filter fails. */
  method CountFiltered(rt: Runtime, names: seq<string>, file: seq<RowGroup>, pred: Predicate, bloom: Option<BloomIndex>,
                       bitmap: R.RoaringIndex?, marks: Option<seq<nat>>, split: seq<Row> -> seq<seq<Row>>)
    returns (count: Option<nat>)
    requires Readable(rt, names, file, pred, bloom, bitmap, marks, split)
    ensures count.None? <==> FilterFails(rt, names, file, pred, Chosen(names, file, pred, IndexesOf(bloom, bitmap), marks))
    ensures count.Some? ==> count.value == |AllMatches(rt, names, file, pred)|
  {
    var qualifying := QualifyingRgs(names, file, pred, bloom, bitmap);
    QualifyingMissesNothing(rt, names, file, pred, IndexesOf(bloom, bitmap));
    MarkFilterMatches(rt, names, file, pred, qualifying, marks);
    qualifying := MarkFilter(qualifying, marks);
    if qualifying == [] {
      return Some(0);
    }
    if FilterFails(rt, names, file, pred, qualifying) {
      return None;
    }
    var n := SliceBatches.CountRows(split(MatchesIn(rt, names, file, pred, qualifying)));
    count := Some(n);
  }

  // ---- the cumulative index

  /** The running match counts of a list of row groups. */
  function Cumulative(rt: Runtime, names: seq<string>, file: seq<RowGroup>, pred: Predicate, list: seq<nat>): seq<nat> {
    seq(|list|, i requires 0 <= i < |list| => |MatchesIn(rt, names, file, pred, list[..i + 1])|)
  }

  /** The index `build_filter_rg_index` leaves to be cached; nothing when the row filter fails. */
  ghost function FilterIndex(rt: Runtime, names: seq<string>, file: seq<RowGroup>, pred: Predicate, ix: Indexes): Option<seq<nat>>
    requires SizedBloom(ix.bloom)
  {
    var qualifying := Qualifying(names, file, pred, ix);
    if FilterFails(rt, names, file, pred, qualifying) then None else Some(Cumulative(rt, names, file, pred, qualifying))
  }

  /** `build_filter_rg_index`. */
  method BuildFilterRgIndex(rt: Runtime, names: seq<string>, file: seq<RowGroup>, pred: Predicate, bloom: Option<BloomIndex>,
                            bitmap: R.RoaringIndex?, split: seq<Row> -> seq<seq<Row>>)
    returns (cumulative: Option<seq<nat>>)
    requires Readable(rt, names, file, pred, bloom, bitmap, None, split)
    ensures cumulative == FilterIndex(rt, names, file, pred, IndexesOf(bloom, bitmap))
  {
    var qualifying := QualifyingRgs(names, file, pred, bloom, bitmap);
    cumulative := CountGroups(rt, names, file, pred, qualifying, split);
  }

  /** The loop over the row groups: it counts the matches of each, and ends at the first that fails. */
  method CountGroups(rt: Runtime, names: seq<string>, file: seq<RowGroup>, pred: Predicate, list: seq<nat>, split: seq<Row> -> seq<seq<Row>>)
    returns (cumulative: Option<seq<nat>>)
    requires SliceBatches.Splits(split)
    ensures cumulative == if FilterFails(rt, names, file, pred, list) then None else Some(Cumulative(rt, names, file, pred, list))
  {
    var counts: seq<nat> := [];
    var running := 0;
    for i := 0 to |list|
      invariant !FilterFails(rt, names, file, pred, list[..i])
      invariant running == |MatchesIn(rt, names, file, pred, list[..i])|
      invariant counts == Cumulative(rt, names, file, pred, list)[..i]
    {
      FailsAtNext(rt, names, file, pred, list, i);
      if FilterFails(rt, names, file, pred, [list[i]]) {
        return None;
      }
      var count := SliceBatches.CountRows(split(MatchesIn(rt, names, file, pred, [list[i]])));
      CumulativeNext(rt, names, file, pred, list, i);
      running := running + count;
      counts := counts + [running];
    }
    assert list[..|list|] == list;
    assert Cumulative(rt, names, file, pred, list)[..|list|] == Cumulative(rt, names, file, pred, list);
    cumulative := Some(counts);
  }

  lemma FailsAtNext(rt: Runtime, names: seq<string>, file: seq<RowGroup>, pred: Predicate, list: seq<nat>, i: nat)
    requires i < |list|
    ensures FilterFails(rt, names, file, pred, list[..i + 1]) <==>
            FilterFails(rt, names, file, pred, list[..i]) || FilterFails(rt, names, file, pred, [list[i]])
    ensures FilterFails(rt, names, file, pred, [list[i]]) ==> FilterFails(rt, names, file, pred, list)
  {
    assert list[..i + 1] == list[..i] + [list[i]];
  }

  lemma CumulativeNext(rt: Runtime, names: seq<string>, file: seq<RowGroup>, pred: Predicate, list: seq<nat>, i: nat)
    requires i < |list|
    ensures |MatchesIn(rt, names, file, pred, list[..i + 1])| ==
            |MatchesIn(rt, names, file, pred, list[..i])| + |MatchesIn(rt, names, file, pred, [list[i]])|
    ensures Cumulative(rt, names, file, pred, list)[..i + 1] ==
            Cumulative(rt, names, file, pred, list)[..i] + [|MatchesIn(rt, names, file, pred, list[..i + 1])|]
  {
    assert list[..i + 1] == list[..i] + [list[i]];
    MatchesInAppend(rt, names, file, pred, list[..i], [list[i]]);
  }

  /** `partition_point(|c| c <= offset)`: how many leading counts are at most `offset`. */
  function PartitionPoint(cumulative: seq<nat>, offset: nat): (p: nat)
    ensures p <= |cumulative| && (p > 0 ==> cumulative[p - 1] <= offset) && (p < |cumulative| ==> cumulative[p] > offset)
  {
    if cumulative == [] || cumulative[0] > offset then 0 else 1 + PartitionPoint(cumulative[1..], offset)
  }

  lemma Beyond<T>(a: seq<T>, b: seq<T>, lo: nat, hi: nat)
    requires lo <= hi <= |b|
    ensures (a + b)[|a| + lo..|a| + hi] == b[lo..hi]
  {
    forall k | 0 <= k < hi - lo
      ensures (a + b)[|a| + lo..|a| + hi][k] == b[lo..hi][k]
    {
      assert (a + b)[|a| + lo + k] == b[lo + k];
    }
  }

  lemma SkipWhole<T>(a: seq<T>, b: seq<T>, offset: nat, limit: nat)
    requires |a| <= offset
    ensures Slice(a + b, offset, limit) == Slice(b, offset - |a|, limit)
  {
    Beyond(a, b, Min(offset - |a|, |b|), Min(offset - |a| + limit, |b|));
  }

  /** The row groups a read with cached counts opens: those from where the counts point, in the mark list. */
  function IndexedList(list: seq<nat>, counts: seq<nat>, offset: nat, marks: Option<seq<nat>>): seq<nat> {
    var start := PartitionPoint(counts, offset);
    if counts == [] || start >= |list| then [] else MarkFilter(list[start..], marks)
  }

  /** How many rows the counts take to be passed. */
  function Passed(counts: seq<nat>, offset: nat): (passed: nat)
    ensures passed <= offset
  {
    var start := PartitionPoint(counts, offset);
    if start > 0 then counts[start - 1] else 0
  }

  /** The rows a read with cached counts gives, whatever list of row groups the counts were made for. */
  function IndexedWindow(rt: Runtime, names: seq<string>, file: seq<RowGroup>, pred: Predicate, list: seq<nat>,
                         counts: seq<nat>, offset: nat, limit: nat): seq<Row> {
    Slice(MatchesIn(rt, names, file, pred, IndexedList(list, counts, offset, None)), offset - Passed(counts, offset), limit)
  }

  /** `read_parquet_filtered_tile_indexed`: the row groups are chosen by the indexes of now, the counts may be older. */
  method ReadFilteredTileIndexed(rt: Runtime, names: seq<string>, file: seq<RowGroup>, pred: Predicate, bloom: Option<BloomIndex>,
                                 bitmap: R.RoaringIndex?, offset: nat, rows: nat, counts: seq<nat>, selection: Option<seq<nat>>,
                                 marks: Option<seq<nat>>, split: seq<Row> -> seq<seq<Row>>)
    returns (tile: Option<seq<seq<Row>>>)
    requires Readable(rt, names, file, pred, bloom, bitmap, marks, split) && Selectable(names, selection)
    ensures var list := Qualifying(names, file, pred, IndexesOf(bloom, bitmap));
            && (tile.None? <==> FilterFails(rt, names, file, pred, IndexedList(list, counts, offset, marks)))
            && Shows(tile, OnColumns(IndexedWindow(rt, names, file, pred, list, counts, offset, rows), KeptColumns(names, pred, selection)))
  {
    var qualifying := QualifyingRgs(names, file, pred, bloom, bitmap);
    tile := ReadFromCounts(rt, names, file, pred, qualifying, offset, rows, counts, selection, marks, split);
  }

  /** From the row group the counts point at, through the mark list, to the window. */
  method ReadFromCounts(rt: Runtime, names: seq<string>, file: seq<RowGroup>, pred: Predicate, qualifying: seq<nat>, offset: nat, rows: nat,
                        counts: seq<nat>, selection: Option<seq<nat>>, marks: Option<seq<nat>>, split: seq<Row> -> seq<seq<Row>>)
    returns (tile: Option<seq<seq<Row>>>)
    requires ValidMarkList(rt, names, file, pred, marks) && SliceBatches.Splits(split) && Selectable(names, selection)
    ensures tile.None? <==> FilterFails(rt, names, file, pred, IndexedList(qualifying, counts, offset, marks))
    ensures Shows(tile, OnColumns(IndexedWindow(rt, names, file, pred, qualifying, counts, offset, rows), KeptColumns(names, pred, selection)))
  {
    var start := PartitionPoint(counts, offset);
    if qualifying == [] || counts == [] || start >= |qualifying| {
      NothingIndexed(rt, names, file, pred, qualifying, counts, offset, rows);
      return Some([]);
    }
    var prior := if start > 0 then counts[start - 1] else 0;
    tile := ReadFromStart(rt, names, file, pred, qualifying, offset, rows, counts, start, prior, selection, marks, split);
  }

  method ReadFromStart(rt: Runtime, names: seq<string>, file: seq<RowGroup>, pred: Predicate, qualifying: seq<nat>, offset: nat, rows: nat,
                       ghost counts: seq<nat>, start: nat, prior: nat, selection: Option<seq<nat>>, marks: Option<seq<nat>>,
                       split: seq<Row> -> seq<seq<Row>>)
    returns (tile: Option<seq<seq<Row>>>)
    requires ValidMarkList(rt, names, file, pred, marks) && SliceBatches.Splits(split) && Selectable(names, selection)
    requires counts != [] && start == PartitionPoint(counts, offset) < |qualifying| && prior == Passed(counts, offset)
    ensures tile.None? <==> FilterFails(rt, names, file, pred, IndexedList(qualifying, counts, offset, marks))
    ensures Shows(tile, OnColumns(IndexedWindow(rt, names, file, pred, qualifying, counts, offset, rows), KeptColumns(names, pred, selection)))
  {
    var relevant := MarkFilter(qualifying[start..], marks);
    tile := ReadListed(rt, names, file, pred, relevant, offset - prior, rows, selection, split);
    MarkedWindow(rt, names, file, pred, qualifying, counts, offset, rows, KeptColumns(names, pred, selection), marks);
  }

  /** The window of the marked row groups from where the counts point is that of the list. */
  lemma MarkedWindow(rt: Runtime, names: seq<string>, file: seq<RowGroup>, pred: Predicate, list: seq<nat>, counts: seq<nat>,
                     offset: nat, limit: nat, columns: seq<nat>, marks: Option<seq<nat>>)
    requires ValidMarkList(rt, names, file, pred, marks) && counts != [] && PartitionPoint(counts, offset) < |list|
    ensures var marked := MatchesIn(rt, names, file, pred, MarkFilter(list[PartitionPoint(counts, offset)..], marks));
            Slice(OnColumns(marked, columns), offset - Passed(counts, offset), limit)
              == OnColumns(IndexedWindow(rt, names, file, pred, list, counts, offset, limit), columns)
  {
    var start := PartitionPoint(counts, offset);
    MarkFilterMatches(rt, names, file, pred, list[start..], marks);
    SliceOnColumns(MatchesIn(rt, names, file, pred, list[start..]), columns, offset - Passed(counts, offset), limit);
    IndexedRead(rt, names, file, pred, list, counts, offset, limit);
  }

  lemma IndexedRead(rt: Runtime, names: seq<string>, file: seq<RowGroup>, pred: Predicate, list: seq<nat>, counts: seq<nat>, offset: nat, limit: nat)
    requires counts != [] && PartitionPoint(counts, offset) < |list|
    ensures IndexedWindow(rt, names, file, pred, list, counts, offset, limit)
         == Slice(MatchesIn(rt, names, file, pred, list[PartitionPoint(counts, offset)..]), offset - Passed(counts, offset), limit)
  {
  }

  lemma NothingIndexed(rt: Runtime, names: seq<string>, file: seq<RowGroup>, pred: Predicate, list: seq<nat>, counts: seq<nat>, offset: nat, limit: nat)
    requires counts == [] || PartitionPoint(counts, offset) >= |list|
    ensures IndexedWindow(rt, names, file, pred, list, counts, offset, limit) == []
  {
  }

  /** A tile, if the read did not fail, holds these rows, without empty batches. */
  ghost predicate Shows(tile: Option<seq<seq<Row>>>, rows: seq<Row>) {
    tile.Some? ==> Flatten(tile.value) == rows && [] !in tile.value
  }

  ghost predicate ShowsWindow(tile: Option<seq<seq<Row>>>, all: seq<Row>, offset: nat, rows: nat) {
    Shows(tile, Slice(all, offset, rows))
  }

  /** The rows the row filter accepts, looking at the columns `read` only. */
  function Accepted(rt: Runtime, names: seq<string>, read: seq<nat>, rows: seq<Row>, pred: Predicate): seq<Row> {
    if rows == [] then []
    else if EvalPred(rt, Gather(names, read), PickAt(rows[0], read), pred) == Some(true) then [rows[0]] + Accepted(rt, names, read, rows[1..], pred)
    else Accepted(rt, names, read, rows[1..], pred)
  }

  function AcceptedIn(rt: Runtime, names: seq<string>, read: seq<nat>, file: seq<RowGroup>, pred: Predicate, list: seq<nat>): seq<Row> {
    if list == [] then []
    else (if list[0] < |file| then Accepted(rt, names, read, file[list[0]].rows, pred) else []) + AcceptedIn(rt, names, read, file, pred, list[1..])
  }

  lemma {:induction false} AcceptedAreMatches(rt: Runtime, names: seq<string>, rows: seq<Row>, pred: Predicate)
    ensures Accepted(rt, names, PredIndices(names, pred), rows, pred) == FilterRows(rt, names, rows, pred)
  {
    if rows != [] {
      RowFilterReadsItsColumns(rt, names, rows[0], pred);
      AcceptedAreMatches(rt, names, rows[1..], pred);
    }
  }

  lemma {:induction false} AcceptedInAreMatches(rt: Runtime, names: seq<string>, file: seq<RowGroup>, pred: Predicate, list: seq<nat>)
    ensures AcceptedIn(rt, names, PredIndices(names, pred), file, pred, list) == MatchesIn(rt, names, file, pred, list)
  {
    if list != [] {
      AcceptedInAreMatches(rt, names, file, pred, list[1..]);
      if list[0] < |file| {
        AcceptedAreMatches(rt, names, file[list[0]].rows, pred);
      }
    }
  }

  /** Reading the listed row groups: the row filter on the predicate's columns, the read mask, the window, the projection. */
  method ReadListed(rt: Runtime, names: seq<string>, file: seq<RowGroup>, pred: Predicate, list: seq<nat>, offset: nat, rows: nat,
                    selection: Option<seq<nat>>, split: seq<Row> -> seq<seq<Row>>)
    returns (tile: Option<seq<seq<Row>>>)
    requires SliceBatches.Splits(split) && Selectable(names, selection)
    ensures tile.None? <==> FilterFails(rt, names, file, pred, list)
    ensures ShowsWindow(tile, OnColumns(MatchesIn(rt, names, file, pred, list), KeptColumns(names, pred, selection)), offset, rows)
  {
    var mask, read := PredIndices(names, pred), ReadColumns(names, pred, selection);
    RowFilterReadsItsColumns(rt, names, [], pred);
    if !PredOk(rt, Gather(names, mask), pred) && HoldsRows(file, list) {
      return None;
    }
    var accepted := AcceptedIn(rt, names, mask, file, pred, list);
    AcceptedInAreMatches(rt, names, file, pred, list);
    var cut := SliceBatches.Cut(split(OnColumns(accepted, read)), offset, rows);
    if selection.Some? {
      ReadSelected(names, pred, selection);
      SliceOnColumns(accepted, read, offset, rows);
      cut := ProjectBatches(cut, PlacesOf(read, selection.value));
      ProjectedWindow(Slice(accepted, offset, rows), read, selection.value);
      SliceOnColumns(accepted, selection.value, offset, rows);
    }
    tile := Some(cut);
  }

  lemma ProjectedWindow(rows: seq<Row>, read: seq<nat>, selection: seq<nat>)
    requires forall i :: 0 <= i < |selection| ==> selection[i] in read
    ensures OnColumns(OnColumns(rows, read), PlacesOf(read, selection)) == OnColumns(rows, selection)
  {
    forall i | 0 <= i < |rows|
      ensures PickAt(PickAt(rows[i], read), PlacesOf(read, selection)) == PickAt(rows[i], selection)
    {
      PickedThroughRead(rows[i], read, selection);
    }
  }

  /** The projection of each batch; none becomes empty. */
  method ProjectBatches(batches: seq<seq<Row>>, columns: seq<nat>) returns (projected: seq<seq<Row>>)
    ensures Flatten(projected) == OnColumns(Flatten(batches), columns)
    ensures [] !in batches ==> [] !in projected
  {
    projected := [];
    for i := 0 to |batches|
      invariant Flatten(projected) == OnColumns(Flatten(batches[..i]), columns)
      invariant [] !in batches ==> [] !in projected
    {
      var batch := OnColumns(batches[i], columns);
      FlattenNext(batches, i);
      FlattenOne(projected, batch);
      assert batches[i] in batches;
      projected := projected + [batch];
    }
    assert batches[..|batches|] == batches;
  }

  // ---- counts made for another list

  /** Row groups whose matches all lie before the window may be skipped, with their matches taken off the offset. */
  lemma SplitAt(rt: Runtime, names: seq<string>, file: seq<RowGroup>, pred: Predicate, list: seq<nat>, start: nat)
    requires start <= |list|
    ensures MatchesIn(rt, names, file, pred, list) ==
            MatchesIn(rt, names, file, pred, list[..start]) + MatchesIn(rt, names, file, pred, list[start..])
  {
    assert list == list[..start] + list[start..];
    MatchesInAppend(rt, names, file, pred, list[..start], list[start..]);
  }

  /** How many matches the first `s` row groups of a list hold. */
  function MatchesUpTo(rt: Runtime, names: seq<string>, file: seq<RowGroup>, pred: Predicate, list: seq<nat>, s: nat): nat {
    |MatchesIn(rt, names, file, pred, list[..Min(s, |list|)])|
  }

  /** A place the counts of `before` can point at: a row group with a match, or the end. */
  predicate PointedAt(rt: Runtime, names: seq<string>, file: seq<RowGroup>, pred: Predicate, before: seq<nat>, s: nat) {
    s == |before| || (s < |before| && MatchesIn(rt, names, file, pred, [before[s]]) != [])
  }

  /** Counts made for the list `before` fit the list `now`: wherever they point, as many matches lie ahead in both. */
  ghost predicate CountsFit(rt: Runtime, names: seq<string>, file: seq<RowGroup>, pred: Predicate, before: seq<nat>, now: seq<nat>) {
    forall s :: 0 <= s <= |before| && PointedAt(rt, names, file, pred, before, s) ==>
      MatchesUpTo(rt, names, file, pred, now, s) == MatchesUpTo(rt, names, file, pred, before, s)
  }

  /** The read with counts of the list `before` over the list `now` gives every window of the rows. */
  ghost predicate WindowsServed(rt: Runtime, names: seq<string>, file: seq<RowGroup>, pred: Predicate, before: seq<nat>, now: seq<nat>, all: seq<Row>) {
    forall offset: nat, limit: nat ::
      IndexedWindow(rt, names, file, pred, now, Cumulative(rt, names, file, pred, before), offset, limit) == Slice(all, offset, limit)
  }

  lemma {:induction false} PointsBelow(counts: seq<nat>, offset: nat, s: nat)
    requires s <= |counts| && (forall i :: 0 <= i < s ==> counts[i] <= offset) && (s < |counts| ==> counts[s] > offset)
    ensures PartitionPoint(counts, offset) == s
  {
    if s > 0 {
      PointsBelow(counts[1..], offset, s - 1);
    }
  }

  lemma CountsAscend(rt: Runtime, names: seq<string>, file: seq<RowGroup>, pred: Predicate, list: seq<nat>, i: nat, j: nat)
    requires i <= j <= |list|
    ensures MatchesUpTo(rt, names, file, pred, list, i) <= MatchesUpTo(rt, names, file, pred, list, j)
  {
    assert list[..j][..i] == list[..i];
    SplitAt(rt, names, file, pred, list[..j], i);
  }

  lemma CountAfter(rt: Runtime, names: seq<string>, file: seq<RowGroup>, pred: Predicate, list: seq<nat>, s: nat)
    requires s < |list|
    ensures MatchesUpTo(rt, names, file, pred, list, s + 1)
         == MatchesUpTo(rt, names, file, pred, list, s) + |MatchesIn(rt, names, file, pred, [list[s]])|
  {
    CumulativeNext(rt, names, file, pred, list, s);
  }

  /** The counts point at a row group with a match, or at the end, and say how many matches lie ahead of it. */
  lemma WhereCountsPoint(rt: Runtime, names: seq<string>, file: seq<RowGroup>, pred: Predicate, before: seq<nat>, offset: nat)
    ensures var counts := Cumulative(rt, names, file, pred, before);
            var s := PartitionPoint(counts, offset);
            && s <= |before| && PointedAt(rt, names, file, pred, before, s)
            && Passed(counts, offset) == MatchesUpTo(rt, names, file, pred, before, s) <= offset
  {
    var s := PartitionPoint(Cumulative(rt, names, file, pred, before), offset);
    if s < |before| {
      CountAfter(rt, names, file, pred, before, s);
    }
    if s == 0 {
      assert before[..0] == [];
    }
  }

  /** And they point at each such place for some offset. */
  lemma CountsPointAt(rt: Runtime, names: seq<string>, file: seq<RowGroup>, pred: Predicate, before: seq<nat>, s: nat)
    requires s <= |before| && PointedAt(rt, names, file, pred, before, s)
    ensures PartitionPoint(Cumulative(rt, names, file, pred, before), MatchesUpTo(rt, names, file, pred, before, s)) == s
  {
    var counts, offset := Cumulative(rt, names, file, pred, before), MatchesUpTo(rt, names, file, pred, before, s);
    forall i | 0 <= i < s
      ensures counts[i] <= offset
    {
      CountsAscend(rt, names, file, pred, before, i + 1, s);
    }
    if s < |before| {
      CountAfter(rt, names, file, pred, before, s);
    }
    PointsBelow(counts, offset, s);
  }

  lemma SliceBeyond<T>(rows: seq<T>, offset: nat, limit: nat)
    requires |rows| <= offset
    ensures Slice(rows, offset, limit) == []
  {
  }

  /** Counts that fit and point beyond the list point beyond all matches. */
  lemma NothingLeft(rt: Runtime, names: seq<string>, file: seq<RowGroup>, pred: Predicate, before: seq<nat>, now: seq<nat>, s: nat)
    requires MatchesIn(rt, names, file, pred, before) == MatchesIn(rt, names, file, pred, now)
    requires s <= |before| && MatchesUpTo(rt, names, file, pred, now, s) == MatchesUpTo(rt, names, file, pred, before, s)
    requires s >= |now| || before == []
    ensures |MatchesIn(rt, names, file, pred, now)| == MatchesUpTo(rt, names, file, pred, before, s)
  {
    if s >= |now| {
      assert now[..Min(s, |now|)] == now;
    } else {
      assert before[..0] == before;
    }
  }

  /** Counts that fit give the window. */
  lemma FittingCountsServe(rt: Runtime, names: seq<string>, file: seq<RowGroup>, pred: Predicate, before: seq<nat>, now: seq<nat>,
                           offset: nat, limit: nat)
    requires MatchesIn(rt, names, file, pred, before) == MatchesIn(rt, names, file, pred, now)
    requires CountsFit(rt, names, file, pred, before, now)
    ensures IndexedWindow(rt, names, file, pred, now, Cumulative(rt, names, file, pred, before), offset, limit)
         == Slice(MatchesIn(rt, names, file, pred, now), offset, limit)
  {
    var counts := Cumulative(rt, names, file, pred, before);
    var s := PartitionPoint(counts, offset);
    WhereCountsPoint(rt, names, file, pred, before, offset);
    if s < |now| && counts != [] {
      IndexedRead(rt, names, file, pred, now, counts, offset, limit);
      SplitAt(rt, names, file, pred, now, s);
      SkipWhole(MatchesIn(rt, names, file, pred, now[..s]), MatchesIn(rt, names, file, pred, now[s..]), offset, limit);
    } else {
      NothingIndexed(rt, names, file, pred, now, counts, offset, limit);
      NothingLeft(rt, names, file, pred, before, now, s);
      SliceBeyond(MatchesIn(rt, names, file, pred, now), offset, limit);
    }
  }

  lemma SliceToEnd<T>(rows: seq<T>, offset: nat)
    requires offset <= |rows|
    ensures |Slice(rows, offset, |rows|)| == |rows| - offset
  {
  }

  lemma WholeSlice<T>(rows: seq<T>, limit: nat)
    requires |rows| <= limit
    ensures Slice(rows, 0, limit) == rows
  {
  }

  /** A place the counts point at, where the window is served, has as many matches ahead in both lists. */
  lemma ServedCountsFit(rt: Runtime, names: seq<string>, file: seq<RowGroup>, pred: Predicate, before: seq<nat>, now: seq<nat>, s: nat)
    requires MatchesIn(rt, names, file, pred, before) == MatchesIn(rt, names, file, pred, now)
    requires s <= |before| && PointedAt(rt, names, file, pred, before, s)
    requires WindowsServed(rt, names, file, pred, before, now, MatchesIn(rt, names, file, pred, now))
    ensures MatchesUpTo(rt, names, file, pred, now, s) == MatchesUpTo(rt, names, file, pred, before, s)
  {
    var counts, all := Cumulative(rt, names, file, pred, before), MatchesIn(rt, names, file, pred, now);
    var offset := MatchesUpTo(rt, names, file, pred, before, s);
    assert offset <= |all| by {
      CountsAscend(rt, names, file, pred, before, s, |before|);
      assert before[..|before|] == before;
    }
    assert |IndexedWindow(rt, names, file, pred, now, counts, offset, |all|)| == |all| - offset by {
      SliceToEnd(all, offset);
    }
    PointedWindow(rt, names, file, pred, before, now, s);
    RestOfMatches(rt, names, file, pred, now, s);
  }

  lemma RestOfMatches(rt: Runtime, names: seq<string>, file: seq<RowGroup>, pred: Predicate, list: seq<nat>, s: nat)
    ensures |MatchesIn(rt, names, file, pred, list)| ==
            MatchesUpTo(rt, names, file, pred, list, s) + if s < |list| then |MatchesIn(rt, names, file, pred, list[s..])| else 0
  {
    if s < |list| {
      SplitAt(rt, names, file, pred, list, s);
    } else {
      assert list[..|list|] == list;
    }
  }

  /** From a place the counts point at, the read runs to the end. */
  lemma PointedWindow(rt: Runtime, names: seq<string>, file: seq<RowGroup>, pred: Predicate, before: seq<nat>, now: seq<nat>, s: nat)
    requires s <= |before| && PointedAt(rt, names, file, pred, before, s)
    ensures var counts, all := Cumulative(rt, names, file, pred, before), MatchesIn(rt, names, file, pred, now);
            var offset := MatchesUpTo(rt, names, file, pred, before, s);
            |IndexedWindow(rt, names, file, pred, now, counts, offset, |all|)|
              == if s < |now| && counts != [] then |MatchesIn(rt, names, file, pred, now[s..])| else 0
  {
    var counts, all := Cumulative(rt, names, file, pred, before), MatchesIn(rt, names, file, pred, now);
    var offset := MatchesUpTo(rt, names, file, pred, before, s);
    CountsPointAt(rt, names, file, pred, before, s);
    assert Passed(counts, offset) == offset by {
      WhereCountsPoint(rt, names, file, pred, before, offset);
    }
    if s < |now| && counts != [] {
      IndexedRead(rt, names, file, pred, now, counts, offset, |all|);
      assert |MatchesIn(rt, names, file, pred, now[s..])| <= |all| by {
        SplitAt(rt, names, file, pred, now, s);
      }
      WholeSlice(MatchesIn(rt, names, file, pred, now[s..]), |all|);
    } else {
      NothingIndexed(rt, names, file, pred, now, counts, offset, |all|);
    }
  }

  /** Counts made under other indexes give every window of the matching rows if and only if they fit the list of now. */
  lemma CountsFitExactly(rt: Runtime, names: seq<string>, file: seq<RowGroup>, pred: Predicate, before: Indexes, now: Indexes)
    requires ValidIndexes(rt, names, file, pred, before) && ValidIndexes(rt, names, file, pred, now)
    ensures var was, chosen := Qualifying(names, file, pred, before), Qualifying(names, file, pred, now);
            WindowsServed(rt, names, file, pred, was, chosen, AllMatches(rt, names, file, pred)) <==> CountsFit(rt, names, file, pred, was, chosen)
  {
    var was, chosen := Qualifying(names, file, pred, before), Qualifying(names, file, pred, now);
    QualifyingMissesNothing(rt, names, file, pred, before);
    QualifyingMissesNothing(rt, names, file, pred, now);
    if WindowsServed(rt, names, file, pred, was, chosen, AllMatches(rt, names, file, pred)) {
      forall s | 0 <= s <= |was| && PointedAt(rt, names, file, pred, was, s)
        ensures MatchesUpTo(rt, names, file, pred, chosen, s) == MatchesUpTo(rt, names, file, pred, was, s)
      {
        ServedCountsFit(rt, names, file, pred, was, chosen, s);
      }
    }
    if CountsFit(rt, names, file, pred, was, chosen) {
      forall offset: nat, limit: nat
        ensures IndexedWindow(rt, names, file, pred, chosen, Cumulative(rt, names, file, pred, was), offset, limit)
             == Slice(AllMatches(rt, names, file, pred), offset, limit)
      {
        FittingCountsServe(rt, names, file, pred, was, chosen, offset, limit);
      }
    }
  }

  /** A row group without a match that the old indexes ruled out and the new ones do not, ahead of two others:
      the second page repeats the first. */
  lemma PrunedGroupComesBack(rt: Runtime, names: seq<string>, file: seq<RowGroup>, pred: Predicate, back: nat, first: nat, second: nat)
    requires MatchesIn(rt, names, file, pred, [back]) == []
    requires MatchesIn(rt, names, file, pred, [first]) != [] && MatchesIn(rt, names, file, pred, [second]) != []
    ensures var was, chosen := [first, second], [back, first, second];
            var page := |MatchesIn(rt, names, file, pred, [first])|;
            && !CountsFit(rt, names, file, pred, was, chosen)
            && IndexedWindow(rt, names, file, pred, chosen, Cumulative(rt, names, file, pred, was), page, page)
               == Slice(MatchesIn(rt, names, file, pred, chosen), 0, page) == MatchesIn(rt, names, file, pred, [first])
  {
    var was, chosen := [first, second], [back, first, second];
    var a := MatchesIn(rt, names, file, pred, [first]);
    GroupsAhead(rt, names, file, pred, back, first, second);
    CountsPointAt(rt, names, file, pred, was, 1);
    WhereCountsPoint(rt, names, file, pred, was, |a|);
    IndexedRead(rt, names, file, pred, chosen, Cumulative(rt, names, file, pred, was), |a|, |a|);
    FirstPage(a, MatchesIn(rt, names, file, pred, [second]));
  }

  lemma FirstPage<T>(a: seq<T>, b: seq<T>)
    ensures Slice(a + b, 0, |a|) == a
  {
  }

  /** What lies ahead of the second place in both lists, and behind it in the longer one. */
  lemma GroupsAhead(rt: Runtime, names: seq<string>, file: seq<RowGroup>, pred: Predicate, back: nat, first: nat, second: nat)
    requires MatchesIn(rt, names, file, pred, [back]) == [] && MatchesIn(rt, names, file, pred, [second]) != []
    ensures var was, chosen := [first, second], [back, first, second];
            var all := MatchesIn(rt, names, file, pred, [first]) + MatchesIn(rt, names, file, pred, [second]);
            && MatchesUpTo(rt, names, file, pred, was, 1) == |MatchesIn(rt, names, file, pred, [first])|
            && MatchesUpTo(rt, names, file, pred, chosen, 1) == 0 && PointedAt(rt, names, file, pred, was, 1)
            && MatchesIn(rt, names, file, pred, chosen[1..]) == all == MatchesIn(rt, names, file, pred, chosen)
  {
    var was, chosen := [first, second], [back, first, second];
    assert was[..1] == [first] && chosen[..1] == [back] && chosen[1..] == was && was == [first] + [second] && chosen == [back] + was;
    MatchesInAppend(rt, names, file, pred, [first], [second]);
    MatchesInAppend(rt, names, file, pred, [back], was);
  }

  // ---- the mark list

  lemma {:induction false} SameAnswer(pred: Predicate, names: seq<string>, marks: map<nat, MarkIndex>, g: nat, h: nat)
    ensures MarkListed(pred, names, marks, g).Some? <==> MarkListed(pred, names, marks, h).Some?
    decreases pred
  {
    if pred.And? {
      SameFirstAnswer(pred.exprs, names, marks, g, h);
    }
  }

  lemma {:induction false} SameFirstAnswer(ps: seq<Predicate>, names: seq<string>, marks: map<nat, MarkIndex>, g: nat, h: nat)
    ensures FirstMark(ps, names, marks, g).Some? <==> FirstMark(ps, names, marks, h).Some?
    decreases ps
  {
    if ps != [] {
      SameAnswer(ps[0], names, marks, g, h);
      SameFirstAnswer(ps[1..], names, marks, g, h);
    }
  }

  function MarkLister(pred: Predicate, names: seq<string>, marks: map<nat, MarkIndex>): nat -> bool {
    (g: nat) => MarkListed(pred, names, marks, g) == Some(true)
  }

  /** `mark_qualifying_rgs`: the row groups a mark index lists for the predicate. */
  function MarkQualifyingRgs(pred: Predicate, names: seq<string>, marks: map<nat, MarkIndex>, n: nat): Option<seq<nat>> {
    if MarkListed(pred, names, marks, 0).None? then None
    else Some(Listed(n, MarkLister(pred, names, marks)))
  }

  /** A mark list of valid mark indexes is one the readers accept. */
  lemma MarkListIsValid(rt: Runtime, names: seq<string>, marks: map<nat, MarkIndex>, file: seq<RowGroup>, pred: Predicate)
    requires ValidMarks(marks, file)
    ensures ValidMarkList(rt, names, file, pred, MarkQualifyingRgs(pred, names, marks, |file|))
  {
    var answer := MarkQualifyingRgs(pred, names, marks, |file|);
    if answer.Some? {
      forall g | 0 <= g < |file| && g !in answer.value
        ensures Matches(rt, names, file[g], pred) == []
      {
        ListedMember(|file|, MarkLister(pred, names, marks), g);
        SameAnswer(pred, names, marks, 0, g);
        assert !MarkLister(pred, names, marks)(g);
        assert MarkListed(pred, names, marks, g) != Some(true);
        var listed := MarkListed(pred, names, marks, g);
        assert listed.Some? && !listed.value;
        forall i | 0 <= i < |file[g].rows|
          ensures EvalPred(rt, names, file[g].rows[i], pred) != Some(true)
        {
          MarkIsSound(rt, names, marks, file, g, i, pred);
        }
        NoneMatch(rt, names, file[g].rows, pred);
      }
    }
  }
}
