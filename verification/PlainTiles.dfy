/** Tiles of an unfiltered source: row groups and row selectors chosen by position
    (crates/tv-engine/src/reader.rs), and the same across several files (crates/tv-engine/src/dispatch.rs). */
module PlainTiles {
  import opened Seqs
  import opened SortIndex
  import opened SliceBatches

  lemma {:induction false} SelectedFromPrefix<T>(rows: seq<T>, more: seq<T>, pos: nat, selectors: seq<RowSelector>)
    requires PositionAfter(pos, selectors) <= |rows|
    ensures pos <= |rows| && Selected(rows + more, pos, selectors) == Selected(rows, pos, selectors)
    decreases |selectors|
  {
    if selectors != [] {
      PositionGrows(pos + selectors[0].n, selectors[1..]);
      SelectedFromPrefix(rows, more, pos + selectors[0].n, selectors[1..]);
    }
  }

  lemma {:induction false} PositionGrows(pos: nat, selectors: seq<RowSelector>)
    ensures pos <= PositionAfter(pos, selectors)
    decreases |selectors|
  {
    if selectors != [] {
      PositionGrows(pos + selectors[0].n, selectors[1..]);
    }
  }

  function SkipThenSelect(skip: nat, take: nat): seq<RowSelector> {
    (if skip > 0 then [Skip(skip)] else []) + [Select(take)]
  }

  lemma SelectPart<T>(rows: seq<T>, pos: nat, skip: nat, take: nat)
    requires pos + skip + take <= |rows|
    ensures Selected(rows, pos, SkipThenSelect(skip, take)) == rows[pos + skip..pos + skip + take]
    ensures PositionAfter(pos, SkipThenSelect(skip, take)) == pos + skip + take
  {
    var last := [Select(take)];
    assert last[1..] == [];
    assert Selected(rows, pos + skip, last) == rows[pos + skip..pos + skip + take] + Selected(rows, pos + skip + take, []);
    assert PositionAfter(pos + skip, last) == PositionAfter(pos + skip + take, last[1..]);
    if skip > 0 {
      assert ([Skip(skip)] + last)[1..] == last;
    } else {
      assert [] + last == last;
    }
  }

  /** What the loop has arranged after the row groups `before`: the chosen row groups hold `reached`,
      the selectors pick the window so far out of them, and while rows are wanted they end where `reached` ends. */
  ghost predicate Arranged<T>(before: seq<T>, reached: seq<T>, selectors: seq<RowSelector>, started: bool, offset: nat, rows: nat) {
    && PositionAfter(0, selectors) <= |reached|
    && Selected(reached, 0, selectors) == Slice(before, offset, rows)
    && (started <==> |before| > offset)
    && (!started ==> selectors == [] && reached == [])
    && (|Slice(before, offset, rows)| < rows ==> PositionAfter(0, selectors) == |reached|)
  }

  lemma WindowGrows<T>(before: seq<T>, group: seq<T>, offset: nat, rows: nat, skip: nat, take: nat)
    requires |Slice(before, offset, rows)| < rows && |before| + |group| > offset
    requires skip == (if |before| > offset then 0 else offset - |before|)
    requires take == Min(|group| - skip, rows - |Slice(before, offset, rows)|)
    ensures skip + take <= |group|
    ensures Slice(before + group, offset, rows) == Slice(before, offset, rows) + group[skip..skip + take]
  {
    PartExtends(before, group, offset, rows);
  }

  lemma SelectMore<T>(reached: seq<T>, selectors: seq<RowSelector>, group: seq<T>, last: seq<RowSelector>)
    requires PositionAfter(0, selectors) == |reached|
    ensures Selected(reached + group, 0, selectors + last) == Selected(reached, 0, selectors) + Selected(reached + group, |reached|, last)
    ensures PositionAfter(0, selectors + last) == PositionAfter(|reached|, last)
  {
    SelectedFromPrefix(reached, group, 0, selectors);
    SelectedAppend(reached + group, 0, selectors, last);
  }

  lemma SelectGroup<T>(reached: seq<T>, group: seq<T>, skip: nat, take: nat, last: seq<RowSelector>)
    requires last == SkipThenSelect(skip, take) && skip + take <= |group|
    ensures Selected(reached + group, |reached|, last) == group[skip..skip + take]
    ensures PositionAfter(|reached|, last) == |reached| + skip + take
  {
    SelectPart(reached + group, |reached|, skip, take);
    PartOfSecond(reached, group, skip, take);
  }

  lemma PartOfSecond<T>(a: seq<T>, b: seq<T>, skip: nat, take: nat)
    requires skip + take <= |b|
    ensures (a + b)[|a| + skip..|a| + skip + take] == b[skip..skip + take]
  {
  }

  lemma ArrangedNext<T>(before: seq<T>, reached: seq<T>, selectors: seq<RowSelector>, group: seq<T>, offset: nat, rows: nat, skip: nat, take: nat, last: seq<RowSelector>)
    requires Arranged(before, reached, selectors, |before| > offset, offset, rows) && |Slice(before, offset, rows)| < rows
    requires |before| + |group| > offset
    requires skip == (if |before| > offset then 0 else offset - |before|)
    requires take == Min(|group| - skip, rows - |Slice(before, offset, rows)|)
    requires last == SkipThenSelect(skip, take)
    ensures Arranged(before + group, reached + group, selectors + last, true, offset, rows)
    ensures |Slice(before + group, offset, rows)| == |Slice(before, offset, rows)| + take
  {
    WindowGrows(before, group, offset, rows, skip, take);
    SelectGroup(reached, group, skip, take, last);
    SelectMore(reached, selectors, group, last);
  }

  lemma ArrangedPast<T>(before: seq<T>, group: seq<T>, offset: nat, rows: nat)
    requires |before| + |group| <= offset
    ensures Arranged<T>(before + group, [], [], false, offset, rows)
  {
  }

  /** The loop of `read_parquet_tile` after `g` row groups. */
  ghost predicate Chosen<T>(file: seq<seq<T>>, g: nat, before: seq<T>, targets: seq<nat>, selectors: seq<RowSelector>, offset: nat, rows: nat) {
    && Seen(before, file, g) && (forall i :: 0 <= i < |targets| ==> targets[i] < |file|)
    && Arranged(before, Rows(file, targets), selectors, targets != [], offset, rows)
  }

  lemma ChosenNext<T>(file: seq<seq<T>>, g: nat, before: seq<T>, targets: seq<nat>, selectors: seq<RowSelector>, offset: nat, rows: nat, skip: nat, take: nat)
    requires Chosen(file, g, before, targets, selectors, offset, rows) && g < |file|
    requires |Slice(before, offset, rows)| < rows && |before| + |file[g]| > offset
    requires skip == (if targets == [] then offset - |before| else 0)
    requires take == Min(|file[g]| - skip, rows - |Slice(before, offset, rows)|)
    ensures Chosen(file, g + 1, before + file[g], targets + [g], selectors + SkipThenSelect(skip, take), offset, rows)
    ensures |Slice(before + file[g], offset, rows)| == |Slice(before, offset, rows)| + take
  {
    SeenNext(before, file, g);
    RowsNext(file, targets, g);
    ArrangedNext(before, Rows(file, targets), selectors, file[g], offset, rows, skip, take, SkipThenSelect(skip, take));
  }

  lemma ChosenPast<T>(file: seq<seq<T>>, g: nat, before: seq<T>, targets: seq<nat>, selectors: seq<RowSelector>, offset: nat, rows: nat)
    requires Chosen(file, g, before, targets, selectors, offset, rows) && g < |file| && |before| + |file[g]| <= offset
    ensures Chosen(file, g + 1, before + file[g], targets, selectors, offset, rows)
    ensures Slice(before + file[g], offset, rows) == Slice(before, offset, rows) == []
  {
    SeenNext(before, file, g);
    ArrangedPast(before, file[g], offset, rows);
  }

  /** `read_parquet_tile`: a tile is the window of the file's rows, and the selector arithmetic never goes below zero. */
  method ReadParquetTile<T(!new)>(file: seq<seq<T>>, offset: nat, rows: nat, split: seq<T> -> seq<seq<T>>) returns (tile: seq<seq<T>>)
    requires Splits(split)
    ensures Flatten(tile) == Slice(Flatten(file), offset, rows)
  {
    if rows == 0 {
      return [];
    }
    var endRow := offset + rows;
    var cursor := 0;
    var targets: seq<nat>, selectors: seq<RowSelector> := [], [];
    var remaining := rows;
    ghost var before: seq<T> := [];
    var g := 0;
    while g < |file| && cursor < endRow && remaining > 0
      invariant Chosen(file, g, before, targets, selectors, offset, rows)
      invariant cursor == |before| && remaining == rows - |Slice(before, offset, rows)|
    {
      var n := |file[g]|;
      if cursor + n > offset {
        var skip := if targets == [] then offset - cursor else 0;
        var available := if n < skip then 0 else n - skip;
        var take := Min(available, remaining);
        ChosenNext(file, g, before, targets, selectors, offset, rows, skip, take);
        targets := targets + [g];
        selectors := selectors + SkipThenSelect(skip, take);
        remaining := remaining - take;
      } else {
        ChosenPast(file, g, before, targets, selectors, offset, rows);
      }
      before := before + file[g];
      cursor := cursor + n;
      g := g + 1;
    }
    WindowComplete(before, file, g, offset, rows);
    if targets == [] {
      return [];
    }
    tile := split(Selected(Rows(file, targets), 0, selectors));
  }

  /** The rows of the chosen row groups, one after the other. */
  function Rows<T>(file: seq<seq<T>>, targets: seq<nat>): seq<T> {
    Flatten(Gather(file, targets))
  }

  lemma {:induction false} GatherNext<T>(rows: seq<T>, idx: seq<nat>, i: nat)
    requires i < |rows|
    ensures Gather(rows, idx + [i]) == Gather(rows, idx) + [rows[i]]
  {
    if idx == [] {
      assert [] + [i] == [i] && [i][1..] == [];
    } else {
      assert (idx + [i])[1..] == idx[1..] + [i];
      GatherNext(rows, idx[1..], i);
    }
  }

  lemma RowsNext<T>(file: seq<seq<T>>, targets: seq<nat>, g: nat)
    requires g < |file|
    ensures Rows(file, targets + [g]) == Rows(file, targets) + file[g]
  {
    GatherNext(file, targets, g);
    FlattenOne(Gather(file, targets), file[g]);
  }

  /** Past the end of the window, or out of row groups, the window is complete. */
  lemma WindowComplete<T>(before: seq<T>, file: seq<seq<T>>, g: nat, offset: nat, rows: nat)
    requires Seen(before, file, g)
    requires g == |file| || |before| >= offset + rows || |Slice(before, offset, rows)| == rows
    ensures Slice(before, offset, rows) == Slice(Flatten(file), offset, rows)
  {
    if g == |file| {
      assert before + [] == before;
    } else {
      FullWindow(before, Flatten(file[g..]), offset, rows);
    }
  }

  // ---- several files

  function RowsOfFiles<T>(files: seq<seq<seq<T>>>): seq<T> {
    if files == [] then [] else Flatten(files[0]) + RowsOfFiles(files[1..])
  }

  /** A window of a concatenation: what the first part leaves of the window is taken from the second. */
  lemma WindowContinues<T>(a: seq<T>, b: seq<T>, offset: nat, limit: nat)
    ensures Slice(a + b, offset, limit)
         == Slice(a, offset, limit) + Slice(b, if offset <= |a| then 0 else offset - |a|, limit - |Slice(a, offset, limit)|)
  {
  }

  /** `read_multi_file_tile`: the window of the files' rows taken one file after the other. */
  method ReadMultiFileTile<T(!new)>(files: seq<seq<seq<T>>>, offset: nat, rows: nat, split: seq<T> -> seq<seq<T>>) returns (collected: seq<seq<T>>)
    requires Splits(split)
    ensures Flatten(collected) == Slice(RowsOfFiles(files), offset, rows)
  {
    collected := [];
    var globalOffset, remaining := 0, rows;
    ghost var before: seq<T> := [];
    var i := 0;
    while i < |files| && remaining > 0
      invariant 0 <= i <= |files| && before + RowsOfFiles(files[i..]) == RowsOfFiles(files)
      invariant globalOffset == |before| && HasWindow(collected, before, offset, rows) && remaining == rows - |Flatten(collected)|
    {
      var file := files[i];
      var fileRows := CountRows(file);
      FilesNext(files, i, before);
      if globalOffset + fileRows > offset {
        var localOffset := if offset <= globalOffset then 0 else offset - globalOffset;
        var tile := ReadParquetTile(file, localOffset, remaining, split);
        var got := CountRows(tile);
        HasWindowNext(collected, before, Flatten(file), tile, offset, rows);
        collected := collected + tile;
        remaining := if got <= remaining then remaining - got else 0;
      } else {
        HasWindowPast(collected, before, Flatten(file), offset, rows);
      }
      globalOffset := globalOffset + fileRows;
      before := before + Flatten(file);
      i := i + 1;
    }
    FilesEnd(files, i, before, offset, rows);
  }

  /** The batches collected are the window of the rows so far. */
  ghost predicate HasWindow<T>(collected: seq<seq<T>>, before: seq<T>, offset: nat, rows: nat) {
    Flatten(collected) == Slice(before, offset, rows)
  }

  lemma HasWindowNext<T>(collected: seq<seq<T>>, before: seq<T>, file: seq<T>, tile: seq<seq<T>>, offset: nat, rows: nat)
    requires HasWindow(collected, before, offset, rows)
    requires Flatten(tile) == Slice(file, if offset <= |before| then 0 else offset - |before|, rows - |Slice(before, offset, rows)|)
    ensures HasWindow(collected + tile, before + file, offset, rows)
    ensures |Flatten(collected + tile)| == |Flatten(collected)| + |Flatten(tile)|
  {
    var window, more := Slice(before, offset, rows), Flatten(tile);
    assert Slice(before + file, offset, rows) == window + more by {
      WindowContinues(before, file, offset, rows);
    }
    assert Flatten(collected + tile) == window + more by {
      FlattenAppend(collected, tile);
    }
  }

  lemma HasWindowPast<T>(collected: seq<seq<T>>, before: seq<T>, file: seq<T>, offset: nat, rows: nat)
    requires HasWindow(collected, before, offset, rows) && |before| + |file| <= offset
    ensures HasWindow(collected, before + file, offset, rows)
  {
  }

  lemma FilesNext<T>(files: seq<seq<seq<T>>>, i: nat, before: seq<T>)
    requires i < |files| && before + RowsOfFiles(files[i..]) == RowsOfFiles(files)
    ensures before + Flatten(files[i]) + RowsOfFiles(files[i + 1..]) == RowsOfFiles(files)
  {
    assert files[i..][0] == files[i] && files[i..][1..] == files[i + 1..];
    Reassociate(before, Flatten(files[i]), RowsOfFiles(files[i + 1..]));
  }

  lemma FilesEnd<T>(files: seq<seq<seq<T>>>, i: nat, before: seq<T>, offset: nat, rows: nat)
    requires i <= |files| && before + RowsOfFiles(files[i..]) == RowsOfFiles(files)
    requires i == |files| || |Slice(before, offset, rows)| == rows
    ensures Slice(before, offset, rows) == Slice(RowsOfFiles(files), offset, rows)
  {
    if i < |files| {
      FullWindow(before, RowsOfFiles(files[i..]), offset, rows);
    } else {
      assert before + [] == before;
    }
  }
}
