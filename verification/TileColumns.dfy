/** Which columns the tile of a filtered view reads and shows (crates/tv-engine/src/tile_ops.rs and
    crates/tv-core/src/optimizer.rs), and what the remaining operations make of the columns read: they
    see part of the pipeline's columns, under the same names and with the same cells. */
module TileColumns {
  import opened Seqs
  import opened Exprs
  import opened Executor
  import opened Relevance
  import opened ColumnPruning
  import opened RowWise
  import opened Pruning
  import opened FilteredTiles
  import Bits

  /** What a tile asks for: a rectangle of the view. */
  datatype Window = Window(colOffset: nat, cols: nat, offset: nat, rows: nat)

  // ---- the columns to read

  predicate Explicit(op: ViewOp) {
    op.Select? || op.GroupBy?
  }

  /** `needed_column_indices`. */
  function NeededIndices(names: seq<string>, ops: seq<ViewOp>): Option<seq<nat>> {
    if exists op :: op in ops && Explicit(op) then None
    else if Referenced(ops) == {} then None
    else
      var indices := ColumnIndices(names, Referenced(ops));
      if |indices| == |names| then None else Some(indices)
  }

  /** The end of the columns of the file that the window names. */
  function ColumnEnd(names: seq<string>, w: Window): nat {
    Min(w.colOffset + w.cols, |names|)
  }

  function NeededOrShown(names: seq<string>, needed: seq<nat>, w: Window): nat -> bool {
    (i: nat) => i in needed || w.colOffset <= i < ColumnEnd(names, w)
  }

  /** The selection passed to the reader: the needed columns and the displayed ones, unless that is all of them. */
  function Selection(names: seq<string>, ops: seq<ViewOp>, w: Window): Option<seq<nat>> {
    var needed := NeededIndices(names, ops);
    if needed.None? then None
    else
      var indices := Listed(|names|, NeededOrShown(names, needed.value, w));
      if |indices| == |names| then None else Some(indices)
  }

  function MemberOf(list: seq<nat>): nat -> bool {
    (i: nat) => i in list
  }

  /** `sort_unstable` and `dedup` on indices below `n`. */
  function SortedDistinct(n: nat, list: seq<nat>): seq<nat> {
    Listed(n, MemberOf(list))
  }

  lemma {:induction false} SameListed(n: nat, a: nat -> bool, b: nat -> bool)
    requires forall i: nat :: i < n ==> a(i) == b(i)
    ensures Listed(n, a) == Listed(n, b)
  {
    if n > 0 {
      SameListed(n - 1, a, b);
    }
  }

  lemma {:induction false} ListedLength(n: nat, keep: nat -> bool)
    ensures |Listed(n, keep)| <= n
    ensures |Listed(n, keep)| == n <==> forall i: nat :: i < n ==> keep(i)
    ensures |Listed(n, keep)| == n ==> Listed(n, keep) == UpTo(n)
  {
    if n > 0 {
      ListedLength(n - 1, keep);
    }
  }

  /** The loop that adds the displayed columns to those needed. */
  method SelectColumns(names: seq<string>, ops: seq<ViewOp>, w: Window) returns (selection: Option<seq<nat>>)
    ensures selection == Selection(names, ops, w)
  {
    var needed := NeededIndices(names, ops);
    if needed.None? {
      return None;
    }
    var indices := needed.value;
    var end := ColumnEnd(names, w);
    var di := w.colOffset;
    while di < end
      invariant w.colOffset <= di && (di <= end || di == w.colOffset)
      invariant forall i :: i in indices <==> i in needed.value || w.colOffset <= i < di
    {
      if di !in indices {
        indices := indices + [di];
      }
      di := di + 1;
    }
    SameListed(|names|, MemberOf(indices), NeededOrShown(names, needed.value, w));
    indices := SortedDistinct(|names|, indices);
    selection := if |indices| == |names| then None else Some(indices);
  }

  /** Column `i` is the first of a referenced name, or displayed. */
  predicate Covered(names: seq<string>, ops: seq<ViewOp>, w: Window, i: nat) {
    FirstNamed(names, Referenced(ops), i) || w.colOffset <= i < ColumnEnd(names, w)
  }

  /** There is no selection exactly when the view selects or groups, nothing is referenced, or every column is covered. */
  lemma NoSelectionIff(names: seq<string>, ops: seq<ViewOp>, w: Window)
    ensures Selection(names, ops, w).None? <==>
            || (exists op :: op in ops && Explicit(op)) || Referenced(ops) == {}
            || forall i: nat :: i < |names| ==> Covered(names, ops, w, i)
  {
    var referenced := FirstsNamed(names, Referenced(ops));
    var indices := Listed(|names|, referenced);
    var keep := NeededOrShown(names, indices, w);
    ListedLength(|names|, referenced);
    ListedLength(|names|, keep);
    forall i: nat | i < |names|
      ensures keep(i) == Covered(names, ops, w, i) && (referenced(i) ==> Covered(names, ops, w, i))
    {
      ListedMember(|names|, referenced, i);
    }
  }

  /** The members of a selection: the referenced columns and the displayed ones. */
  lemma SelectedMember(names: seq<string>, ops: seq<ViewOp>, w: Window, i: nat)
    requires Selection(names, ops, w).Some?
    ensures i in Selection(names, ops, w).value <==>
            i < |names| && Covered(names, ops, w, i)
  {
    var indices := ColumnIndices(names, Referenced(ops));
    ListedMember(|names|, FirstsNamed(names, Referenced(ops)), i);
    ListedMember(|names|, NeededOrShown(names, indices, w), i);
  }

  /** The columns a tile of the view keeps when it is read. */
  function TileRead(names: seq<string>, ops: seq<ViewOp>, pred: Predicate, w: Window): seq<nat> {
    KeptColumns(names, pred, Selection(names, ops, w))
  }

  lemma KeptAscends(names: seq<string>, ops: seq<ViewOp>, pred: Predicate, w: Window)
    ensures var kept := TileRead(names, ops, pred, w);
            Bits.StrictlyAscending(kept) && (forall i :: 0 <= i < |kept| ==> kept[i] < |names|)
    ensures Selectable(names, Selection(names, ops, w))
  {
    var kept := TileRead(names, ops, pred, w);
    var keep := if Selection(names, ops, w).Some? then NeededOrShown(names, NeededIndices(names, ops).value, w)
                else FirstsNamed(names, PredColumns(pred));
    ListedAscends(|names|, keep);
    forall i | 0 <= i < |kept|
      ensures kept[i] < |names|
    {
      ListedMember(|names|, keep, kept[i]);
    }
  }

  // ---- the columns to show

  /** `project_batch_by_names`: the places of the names a batch has. */
  function PositionsOf(names: seq<string>, wanted: seq<string>): (places: seq<nat>)
    ensures forall i :: 0 <= i < |places| ==> places[i] < |names|
  {
    if wanted == [] then []
    else if wanted[0] in names then [IndexOf(names, wanted[0]).value] + PositionsOf(names, wanted[1..])
    else PositionsOf(names, wanted[1..])
  }

  lemma {:induction false} NamesAtPositions(names: seq<string>, wanted: seq<string>)
    ensures Gather(names, PositionsOf(names, wanted)) == Present(names, wanted)
  {
    if wanted != [] {
      NamesAtPositions(names, wanted[1..]);
    }
  }

  /** `project_tile_columns`: the places of the window's columns, counted in the batch. */
  function Places(n: nat, w: Window): (places: seq<nat>)
    ensures forall i :: 0 <= i < |places| ==> places[i] < n
  {
    if w.colOffset >= n then []
    else UpTo(n)[w.colOffset..Min(w.colOffset + w.cols, n)]
  }

  /** The displayed columns of the file. */
  function DisplayNames(names: seq<string>, w: Window): seq<string> {
    if w.colOffset >= |names| then [] else names[w.colOffset..ColumnEnd(names, w)]
  }

  lemma NamesAtPlaces(names: seq<string>, w: Window)
    ensures Gather(names, Places(|names|, w)) == DisplayNames(names, w)
  {
    if w.colOffset < |names| {
      GatherRange(names, w.colOffset, ColumnEnd(names, w));
    }
  }

  lemma {:induction false} GatherRange<T>(s: seq<T>, lo: nat, hi: nat)
    requires lo <= hi <= |s|
    ensures Gather(s, UpTo(|s|)[lo..hi]) == s[lo..hi]
    decreases hi
  {
    if lo < hi {
      GatherRange(s, lo, hi - 1);
      assert UpTo(|s|)[lo..hi] == UpTo(|s|)[lo..hi - 1] + [hi - 1];
      GatherSnoc(s, UpTo(|s|)[lo..hi - 1], hi - 1);
      assert s[lo..hi] == s[lo..hi - 1] + [s[hi - 1]];
    } else {
      assert UpTo(|s|)[lo..hi] == [] && s[lo..hi] == [];
    }
  }

  /** Where a tile finds the columns it shows among those it computed: by name with a selection, by place without. */
  function TilePlaces(names: seq<string>, ops: seq<ViewOp>, w: Window, computed: seq<string>): (places: seq<nat>)
    ensures forall i :: 0 <= i < |places| ==> places[i] < |computed|
  {
    if Selection(names, ops, w).Some? then PositionsOf(computed, DisplayNames(names, w)) else Places(|computed|, w)
  }

  // ---- part of a table under the same names

  ghost predicate NoRepeats(names: seq<string>) {
    forall i, j :: 0 <= i < j < |names| ==> names[i] != names[j]
  }

  /** No name is repeated before, between or after the operations. */
  ghost predicate NeverRepeats(names: seq<string>, ops: seq<ViewOp>)
    decreases |ops|
  {
    NoRepeats(names) && (ops == [] || NeverRepeats(StepNames(names, ops[0]), ops[1..]))
  }

  /** The second row is the first on some of its columns. */
  ghost predicate Sees(n1: seq<string>, r1: Row, n2: seq<string>, r2: Row) {
    && |r1| == |n1| && |r2| == |n2| && NoRepeats(n1) && NoRepeats(n2)
    && forall c :: c in n2 ==> c in n1 && CellOf(n1, r1, c) == CellOf(n2, r2, c)
  }

  lemma UniquePlace(names: seq<string>, i: nat)
    requires NoRepeats(names) && i < |names|
    ensures IndexOf(names, names[i]) == Some(i)
  {
    var idx := IndexOf(names, names[i]);
    assert names[idx.value] == names[i];
  }

  /** The columns read, taken out of a row. */
  lemma KeptIsSeen(names: seq<string>, row: Row, kept: seq<nat>)
    requires |row| == |names| && NoRepeats(names)
    requires Bits.StrictlyAscending(kept) && forall i :: 0 <= i < |kept| ==> kept[i] < |names|
    ensures Sees(names, row, Gather(names, kept), PickAt(row, kept))
  {
    GatherAt(names, kept);
    forall i | 0 <= i < |kept|
      ensures IndexOf(names, names[kept[i]]) == Some(kept[i])
    {
      UniquePlace(names, kept[i]);
    }
    forall c | c in Gather(names, kept)
      ensures c in names && CellOf(names, row, c) == CellOf(Gather(names, kept), PickAt(row, kept), c)
    {
      ColumnOfKept(names, row, kept, c);
    }
  }

  lemma {:induction false} PresentOfFewer(n1: seq<string>, n2: seq<string>, columns: seq<string>)
    requires (forall c :: c in n2 ==> c in n1) && NoRepeats(Present(n1, columns))
    ensures NoRepeats(Present(n2, columns)) && forall c :: c in Present(n2, columns) ==> c in Present(n1, columns)
  {
    if columns != [] {
      var p1, p2 := Present(n1, columns), Present(n2, columns);
      if columns[0] in n1 {
        assert p1[1..] == Present(n1, columns[1..]);
        forall i, j | 0 <= i < j < |p1[1..]|
          ensures p1[1..][i] != p1[1..][j]
        {
          assert p1[i + 1] != p1[j + 1];
        }
      }
      PresentOfFewer(n1, n2, columns[1..]);
      if columns[0] in n2 {
        var rest := Present(n2, columns[1..]);
        assert columns[0] !in rest by {
          forall j | 0 <= j < |p1[1..]|
            ensures p1[1..][j] != columns[0]
          {
            assert p1[0] != p1[j + 1];
          }
        }
      }
    }
  }

  lemma {:induction false} DroppedNoRepeats(names: seq<string>, dropped: seq<string>)
    requires NoRepeats(names)
    ensures NoRepeats(Gather(names, KeepIndices(names, dropped)))
  {
    if names != [] {
      var n := |names| - 1;
      var kept := KeepIndices(names[..n], dropped);
      DroppedNoRepeats(names[..n], dropped);
      KeptInRange(names[..n], dropped);
      GatherPrefix(names, n, kept);
      if names[n] !in dropped {
        GatherSnoc(names, kept, n);
        CellAfterDrop(names[..n], seq(n, i => Null), dropped, names[n]);
      }
    }
  }

  // ---- rank-free expressions read what they reference

  lemma {:induction false} OkReadsScalarColumns(rt: Runtime, names: seq<string>, e: ScalarExpr)
    requires ScalarOk(rt, names, e) && RankFree(e)
    ensures ScalarColumns(e) <= Elements(names)
    decreases e
  {
    match e
    case BinOp(_, left, right) =>
      OkReadsScalarColumns(rt, names, left);
      OkReadsScalarColumns(rt, names, right);
    case Unary(_, arg) => OkReadsScalarColumns(rt, names, arg);
    case Concat(parts) => OkReadsScalarsColumns(rt, names, parts);
    case Coalesce(exprs) => OkReadsScalarsColumns(rt, names, exprs);
    case Case(whens, elseExpr) =>
      OkReadsWhensColumns(rt, names, whens);
      if elseExpr.Some? {
        OkReadsScalarColumns(rt, names, elseExpr.value);
      }
    case _ =>
  }

  lemma {:induction false} OkReadsScalarsColumns(rt: Runtime, names: seq<string>, es: seq<ScalarExpr>)
    requires ScalarsOk(rt, names, es) && AllRankFree(es)
    ensures ScalarsColumns(es) <= Elements(names)
    decreases es
  {
    if es != [] {
      OkReadsScalarColumns(rt, names, es[0]);
      OkReadsScalarsColumns(rt, names, es[1..]);
    }
  }

  lemma {:induction false} OkReadsWhensColumns(rt: Runtime, names: seq<string>, whens: seq<When>)
    requires WhensOk(rt, names, whens) && WhensRankFree(whens)
    ensures WhensColumns(whens) <= Elements(names)
    decreases whens
  {
    if whens != [] {
      OkReadsArmColumns(rt, names, whens[0]);
      OkReadsWhensColumns(rt, names, whens[1..]);
    }
  }

  lemma OkReadsArmColumns(rt: Runtime, names: seq<string>, w: When)
    requires ArmOk(rt, names, w) && ArmRankFree(w)
    ensures ArmColumns(w) <= Elements(names)
    decreases w
  {
    OkReadsColumns(rt, names, w.guard);
    OkReadsScalarColumns(rt, names, w.value);
  }

  /** An expression that finds its columns among fewer finds them among more, and gives a row the same cell. */
  lemma ScalarOnMore(rt: Runtime, n1: seq<string>, r1: Row, n2: seq<string>, r2: Row, e: ScalarExpr)
    requires Sees(n1, r1, n2, r2) && RankFree(e) && ScalarOk(rt, n2, e)
    ensures ScalarOk(rt, n1, e) && EvalScalar(rt, n1, [r1], e)[0] == EvalScalar(rt, n2, [r2], e)[0]
  {
    OkReadsScalarColumns(rt, n2, e);
    ScalarOkOnItsColumns(rt, ScalarColumns(e), n2, n1, e);
    ScalarReadsItsColumns(rt, ScalarColumns(e), n1, [r1], n2, [r2], e);
  }

  // ---- operations keep the relation

  lemma RenameSeen(n1: seq<string>, r1: Row, n2: seq<string>, r2: Row, mappings: seq<(string, string)>)
    requires Sees(n1, r1, n2, r2) && NoRepeats(RenameAll(n1, mappings))
    ensures Sees(RenameAll(n1, mappings), r1, RenameAll(n2, mappings), r2)
  {
    var m1, m2 := RenameAll(n1, mappings), RenameAll(n2, mappings);
    forall j | 0 <= j < |n2|
      ensures n2[j] in n1 && IndexOf(m1, m2[j]) == Some(IndexOf(n1, n2[j]).value)
    {
      UniquePlace(m1, IndexOf(n1, n2[j]).value);
    }
    forall j, k | 0 <= j < k < |n2|
      ensures m2[j] != m2[k]
    {
      assert n1[IndexOf(n1, n2[j]).value] == n2[j] && n1[IndexOf(n1, n2[k]).value] == n2[k];
    }
    forall c | c in m2
      ensures c in m1 && CellOf(m1, r1, c) == CellOf(m2, r2, c)
    {
      var j := IndexOf(m2, c).value;
      UniquePlace(n2, j);
      assert CellOf(n1, r1, n2[j]) == CellOf(n2, r2, n2[j]);
    }
  }

  lemma StepSeen(rt: Runtime, n1: seq<string>, r1: Row, n2: seq<string>, r2: Row, op: ViewOp)
    requires Sees(n1, r1, n2, r2) && IsRowWise(op) && StepOk(rt, n2, op) && NoRepeats(StepNames(n1, op))
    ensures StepOk(rt, n1, op)
    ensures Sees(StepNames(n1, op), Step(rt, n1, op, r1), StepNames(n2, op), Step(rt, n2, op, r2))
  {
    match op
    case Select(columns) =>
      PresentOfFewer(n1, n2, columns);
      PresentElements(n1, columns);
      StepKeepsCell(rt, n1, op, r1, "");
      StepKeepsCell(rt, n2, op, r2, "");
      forall c | c in StepNames(n2, op)
        ensures c in StepNames(n1, op) && CellOf(StepNames(n1, op), Step(rt, n1, op, r1), c) == CellOf(StepNames(n2, op), Step(rt, n2, op, r2), c)
      {
        StepKeepsCell(rt, n1, op, r1, c);
        StepKeepsCell(rt, n2, op, r2, c);
      }
    case Drop(columns) =>
      DroppedNoRepeats(n2, columns);
      CellAfterDrop(n1, r1, columns, "");
      CellAfterDrop(n2, r2, columns, "");
      forall c | c in StepNames(n2, op)
        ensures c in StepNames(n1, op) && CellOf(StepNames(n1, op), Step(rt, n1, op, r1), c) == CellOf(StepNames(n2, op), Step(rt, n2, op, r2), c)
      {
        CellAfterDrop(n1, r1, columns, c);
        CellAfterDrop(n2, r2, columns, c);
      }
    case Derive(name, e) =>
      ScalarOnMore(rt, n1, r1, n2, r2, e);
      var cell := EvalScalar(rt, n1, [r1], e)[0];
      assert name !in n1 by {
        forall i | 0 <= i < |n1|
          ensures n1[i] != name
        {
          assert (n1 + [name])[i] != (n1 + [name])[|n1|];
        }
      }
      forall c | c in n2 + [name]
        ensures c in n1 + [name] && CellOf(n1 + [name], r1 + [cell], c) == CellOf(n2 + [name], r2 + [cell], c)
      {
        CellOfAppend(n1, r1, name, cell, c);
        CellOfAppend(n2, r2, name, cell, c);
      }
    case Rename(mappings) => RenameSeen(n1, r1, n2, r2, mappings);
    case Approximate(_, _) =>
  }

  /** Operations that apply to part of a table apply to the whole, and compute part of what they compute there. */
  lemma {:induction false} ThroughSeen(rt: Runtime, n1: seq<string>, r1: Row, n2: seq<string>, r2: Row, ops: seq<ViewOp>)
    requires Sees(n1, r1, n2, r2) && AllRowWise(ops) && ThroughOk(rt, n2, ops) && NeverRepeats(n1, ops)
    ensures ThroughOk(rt, n1, ops)
    ensures Sees(ThroughNames(n1, ops), Through(rt, n1, ops, r1), ThroughNames(n2, ops), Through(rt, n2, ops, r2))
    decreases |ops|
  {
    if ops != [] {
      StepSeen(rt, n1, r1, n2, r2, ops[0]);
      ThroughSeen(rt, StepNames(n1, ops[0]), Step(rt, n1, ops[0], r1), StepNames(n2, ops[0]), Step(rt, n2, ops[0], r2), ops[1..]);
    }
  }

  /** Columns of the same names hold the same cells. */
  lemma SameNamesSameCells(n1: seq<string>, r1: Row, p1: seq<nat>, n2: seq<string>, r2: Row, p2: seq<nat>)
    requires Sees(n1, r1, n2, r2) && Gather(n1, p1) == Gather(n2, p2)
    requires (forall i :: 0 <= i < |p1| ==> p1[i] < |n1|) && forall i :: 0 <= i < |p2| ==> p2[i] < |n2|
    ensures PickAt(r1, p1) == PickAt(r2, p2)
  {
    GatherAt(n1, p1);
    GatherAt(n2, p2);
    forall i | 0 <= i < |p1|
      ensures CellAt(r1, p1[i]) == CellAt(r2, p2[i])
    {
      assert n1[p1[i]] == Gather(n1, p1)[i] == Gather(n2, p2)[i] == n2[p2[i]];
      SameNameSameCell(n1, r1, p1[i], n2, r2, p2[i]);
    }
  }

  lemma SameNameSameCell(n1: seq<string>, r1: Row, i: nat, n2: seq<string>, r2: Row, j: nat)
    requires Sees(n1, r1, n2, r2) && i < |n1| && j < |n2| && n1[i] == n2[j]
    ensures CellAt(r1, i) == CellAt(r2, j)
  {
    UniquePlace(n1, i);
    UniquePlace(n2, j);
    assert n2[j] in n2 && CellOf(n1, r1, n2[j]) == CellOf(n2, r2, n2[j]);
  }

  // ---- with a selection the referenced columns are all there

  lemma RenamedAgree(cols: set<string>, n1: seq<string>, n2: seq<string>, mappings: seq<(string, string)>)
    requires AgreeNames(cols, n1, n2) && forall m :: m in mappings ==> m.0 in cols
    ensures AgreeNames(cols, RenameAll(n1, mappings), RenameAll(n2, mappings))
  {
    forall c | c in cols
      ensures c in RenameAll(n1, mappings) <==> c in RenameAll(n2, mappings)
    {
      RenamedPresent(cols, n1, n2, mappings, c);
      RenamedPresent(cols, n2, n1, mappings, c);
    }
  }

  lemma RenamedPresent(cols: set<string>, n1: seq<string>, n2: seq<string>, mappings: seq<(string, string)>, c: string)
    requires AgreeNames(cols, n1, n2) && c in cols && forall m :: m in mappings ==> m.0 in cols
    ensures c in RenameAll(n1, mappings) ==> c in RenameAll(n2, mappings)
  {
    if c in RenameAll(n1, mappings) {
      var i := IndexOf(RenameAll(n1, mappings), c).value;
      UnmappedStays(n1[i], mappings);
      assert n1[i] in cols;
      var j := IndexOf(n2, n1[i]).value;
      assert RenameAll(n2, mappings)[j] == c;
    }
  }

  lemma {:induction false} UnmappedStays(name: string, mappings: seq<(string, string)>)
    ensures (forall m :: m in mappings ==> m.0 != name) ==> Renamed(name, mappings) == name
  {
    if mappings != [] {
      UnmappedStays(name, mappings[1..]);
    }
  }

  /** Tables that agree on the referenced columns let the operations through alike. */
  lemma {:induction false} OkAlike(rt: Runtime, cols: set<string>, n1: seq<string>, n2: seq<string>, ops: seq<ViewOp>)
    requires AgreeNames(cols, n1, n2) && AllRowWise(ops)
    requires forall i :: 0 <= i < |ops| ==> !ops[i].Select? && OpColumns(ops[i]) <= cols
    ensures ThroughOk(rt, n1, ops) == ThroughOk(rt, n2, ops)
    decreases |ops|
  {
    if ops != [] {
      match ops[0] {
        case Drop(columns) => DropNamesAgree(cols, n1, n2, columns);
        case Derive(name, e) => ScalarOkOnItsColumns(rt, cols, n1, n2, e);
        case Rename(mappings) =>
          forall m | m in mappings
            ensures m.0 in cols
          {
            assert m.0 in OpColumns(ops[0]);
          }
          RenamedAgree(cols, n1, n2, mappings);
        case _ =>
      }
      OkAlike(rt, cols, StepNames(n1, ops[0]), StepNames(n2, ops[0]), ops[1..]);
    }
  }

  /** Operations that apply to fewer columns apply to more. */
  lemma {:induction false} OkOnMore(rt: Runtime, n1: seq<string>, n2: seq<string>, ops: seq<ViewOp>)
    requires (forall c :: c in n2 ==> c in n1) && AllRowWise(ops) && ThroughOk(rt, n2, ops)
    ensures ThroughOk(rt, n1, ops)
    decreases |ops|
  {
    if ops != [] {
      match ops[0] {
        case Select(columns) =>
          PresentElements(n1, columns);
          PresentElements(n2, columns);
        case Drop(columns) =>
          forall c | c in StepNames(n2, ops[0])
            ensures c in StepNames(n1, ops[0])
          {
            CellAfterDrop(n1, seq(|n1|, i => Null), columns, c);
            CellAfterDrop(n2, seq(|n2|, i => Null), columns, c);
          }
        case Derive(name, e) =>
          OkReadsScalarColumns(rt, n2, e);
          ScalarOkOnItsColumns(rt, ScalarColumns(e), n2, n1, e);
        case Rename(mappings) =>
          forall c | c in StepNames(n2, ops[0])
            ensures c in StepNames(n1, ops[0])
          {
            var i := IndexOf(StepNames(n2, ops[0]), c).value;
            assert StepNames(n1, ops[0])[IndexOf(n1, n2[i]).value] == c;
          }
        case _ =>
      }
      OkOnMore(rt, StepNames(n1, ops[0]), StepNames(n2, ops[0]), ops[1..]);
    }
  }

  /** A selection reads every referenced column the file has. */
  lemma SelectionReadsReferenced(names: seq<string>, ops: seq<ViewOp>, pred: Predicate, w: Window)
    requires Selection(names, ops, w).Some?
    ensures AgreeNames(Referenced(ops), Gather(names, TileRead(names, ops, pred, w)), names)
  {
    var kept := TileRead(names, ops, pred, w);
    KeptAscends(names, ops, pred, w);
    GatherAt(names, kept);
    forall c | c in Referenced(ops) && c in names
      ensures c in Gather(names, kept)
    {
      var i := IndexOf(names, c).value;
      SelectedMember(names, ops, w, i);
      var j :| 0 <= j < |kept| && kept[j] == i;
      assert Gather(names, kept)[j] == c;
    }
    forall c | c in Gather(names, kept)
      ensures c in names
    {
      var j := IndexOf(Gather(names, kept), c).value;
      assert names[kept[j]] == c;
    }
  }
}
