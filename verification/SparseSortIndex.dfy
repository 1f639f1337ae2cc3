/** The sparse index of crates/tv-engine/src/sparse_sort_index.rs: one entry per row group of a sorted
    spill file, and the reader that covers a window of the file exactly once, in order. */
module SparseSortIndex {
  import opened Seqs
  import SliceBatches

  datatype Entry = Entry(rgIdx: nat, rowStart: nat, rowEnd: nat)

  /** A row group, how many of its rows to skip, and how many to take. */
  datatype Piece = Piece(rgIdx: nat, within: nat, take: nat)

  /** How many rows the first `i` row groups hold. */
  ghost function Before<T>(file: seq<seq<T>>, i: nat): nat
    requires i <= |file|
  {
    |Flatten(file[..i])|
  }

  /** Each row group's place, cumulatively. */
  ghost predicate Describes<T>(entries: seq<Entry>, file: seq<seq<T>>) {
    |entries| == |file| && forall i :: 0 <= i < |entries| ==> entries[i] == EntryOf(file, i)
  }

  ghost function EntryOf<T>(file: seq<seq<T>>, i: int): Entry {
    if 0 <= i < |file| then Entry(i, Before(file, i), Before(file, i + 1)) else Entry(0, 0, 0)
  }

  method BuildSparse<T>(file: seq<seq<T>>) returns (entries: seq<Entry>)
    ensures Describes(entries, file)
  {
    entries := [];
    var rowCursor := 0;
    for rg := 0 to |file|
      invariant |entries| == rg && rowCursor == Before(file, rg)
      invariant forall i :: 0 <= i < rg ==> entries[i] == EntryOf(file, i)
    {
      FlattenNext(file, rg);
      entries := entries + [Entry(rg, rowCursor, rowCursor + |file[rg]|)];
      rowCursor := rowCursor + |file[rg]|;
    }
  }

  /** `partition_point`: how many leading row groups end at or before `offset`. */
  function PartitionPoint(entries: seq<Entry>, offset: nat): (p: nat)
    ensures p <= |entries|
  {
    if entries == [] || entries[0].rowEnd > offset then 0 else 1 + PartitionPoint(entries[1..], offset)
  }

  lemma {:induction false} PartitionPointSplits(entries: seq<Entry>, offset: nat)
    ensures var p := PartitionPoint(entries, offset);
            && (p > 0 ==> entries[p - 1].rowEnd <= offset) && (p < |entries| ==> entries[p].rowEnd > offset)
  {
    if entries != [] && entries[0].rowEnd <= offset {
      PartitionPointSplits(entries[1..], offset);
    }
  }

  /** The rows the pieces stand for, in order. */
  function Pieces<T>(file: seq<seq<T>>, pieces: seq<Piece>): seq<T> {
    if pieces == [] then []
    else (if pieces[0].rgIdx < |file| then Slice(file[pieces[0].rgIdx], pieces[0].within, pieces[0].take) else []) + Pieces(file, pieces[1..])
  }

  lemma {:induction false} PiecesPush<T>(file: seq<seq<T>>, pieces: seq<Piece>, p: Piece)
    requires p.rgIdx < |file|
    ensures Pieces(file, pieces + [p]) == Pieces(file, pieces) + Slice(file[p.rgIdx], p.within, p.take)
  {
    if pieces == [] {
      assert [p][1..] == [];
    } else {
      assert (pieces + [p])[1..] == pieces[1..] + [p];
      PiecesPush(file, pieces[1..], p);
    }
  }

  /** The part of a row group inside a window, in the index's arithmetic. */
  lemma Overlap<T>(before: seq<T>, rg: seq<T>, offset: nat, limit: nat)
    requires |before| + |rg| > offset && |before| < offset + limit
    ensures var within := if |before| < offset then offset - |before| else 0;
            var take := Min(|before| + |rg|, offset + limit) - if |before| < offset then offset else |before|;
            take >= 0 && Slice(before + rg, offset, limit) == Slice(before, offset, limit) + Slice(rg, within, take)
  {
  }

  lemma NothingYet<T>(before: seq<T>, offset: nat, limit: nat)
    requires |before| <= offset
    ensures Slice(before, offset, limit) == []
  {
  }

  lemma NothingMore<T>(before: seq<T>, rest: seq<T>, offset: nat, limit: nat)
    requires |before| >= offset + limit
    ensures Slice(before + rest, offset, limit) == Slice(before, offset, limit)
  {
  }

  /** The pieces lie in ascending row groups, each visited once, and their rows are exactly the window. */
  ghost predicate CoversOnce<T>(file: seq<seq<T>>, pieces: seq<Piece>, offset: nat, limit: nat) {
    && Pieces(file, pieces) == Slice(Flatten(file), offset, limit)
    && (forall i :: 0 <= i < |pieces| ==> pieces[i].rgIdx < |file| && pieces[i].within + pieces[i].take <= |file[pieces[i].rgIdx]|)
    && (forall i, j :: 0 <= i < j < |pieces| ==> pieces[i].rgIdx < pieces[j].rgIdx)
  }

  /** `sparse_tile_lookup`: the pieces cover exactly the rows `[offset, min(offset + limit, total))`. */
  method SparseTileLookup<T>(entries: seq<Entry>, ghost file: seq<seq<T>>, offset: nat, limit: nat) returns (pieces: seq<Piece>)
    requires Describes(entries, file)
    ensures CoversOnce(file, pieces, offset, limit)
  {
    var rowEnd := offset + limit;
    pieces := [];
    var start := PartitionPoint(entries, offset);
    StartsAt(entries, file, start, offset, limit);
    var i := start;
    while i < |entries| && entries[i].rowStart < rowEnd
      invariant start <= i <= |entries|
      invariant Covered(file, pieces, i, offset, limit)
    {
      var e := entries[i];
      Reaches(entries, file, start, i, offset);
      CoverNext(entries, file, pieces, i, offset, limit);
      pieces := pieces + [PieceAt(e, offset, limit)];
      i := i + 1;
    }
    CoverEnds(entries, file, pieces, i, offset, limit);
  }

  /** The pieces cover the window as far as the first `i` row groups reach. */
  ghost predicate Covered<T>(file: seq<seq<T>>, pieces: seq<Piece>, i: nat, offset: nat, limit: nat) {
    && i <= |file| && Pieces(file, pieces) == Slice(Flatten(file[..i]), offset, limit)
    && (forall k :: 0 <= k < |pieces| ==> pieces[k].rgIdx < i && pieces[k].within + pieces[k].take <= |file[pieces[k].rgIdx]|)
    && (forall k, l :: 0 <= k < l < |pieces| ==> pieces[k].rgIdx < pieces[l].rgIdx)
  }

  /** The piece of row group `i` inside the window. */
  function PieceAt(e: Entry, offset: nat, limit: nat): Piece
    requires e.rowStart <= e.rowEnd && e.rowEnd > offset && e.rowStart < offset + limit
  {
    Piece(e.rgIdx, if e.rowStart < offset then offset - e.rowStart else 0,
          Min(e.rowEnd, offset + limit) - if e.rowStart < offset then offset else e.rowStart)
  }

  lemma PieceCovers<T>(file: seq<seq<T>>, i: nat, offset: nat, limit: nat)
    requires i < |file|
    ensures var e := EntryOf(file, i);
            && e.rowStart <= e.rowEnd
            && (e.rowEnd > offset && e.rowStart < offset + limit ==>
                  (var p := PieceAt(e, offset, limit);
                  p.within + p.take <= |file[i]|
                  && Slice(Flatten(file[..i + 1]), offset, limit) == Slice(Flatten(file[..i]), offset, limit) + Slice(file[i], p.within, p.take)))
  {
    FlattenNext(file, i);
    if EntryOf(file, i).rowEnd > offset && EntryOf(file, i).rowStart < offset + limit {
      Overlap(Flatten(file[..i]), file[i], offset, limit);
    }
  }

  lemma CoverNext<T>(entries: seq<Entry>, file: seq<seq<T>>, pieces: seq<Piece>, i: nat, offset: nat, limit: nat)
    requires Describes(entries, file) && i < |file| && Covered(file, pieces, i, offset, limit)
    requires entries[i].rowEnd > offset && entries[i].rowStart < offset + limit
    ensures entries[i].rowStart <= entries[i].rowEnd
    ensures Covered(file, pieces + [PieceAt(entries[i], offset, limit)], i + 1, offset, limit)
  {
    assert entries[i] == EntryOf(file, i);
    PieceCovers(file, i, offset, limit);
    var p := PieceAt(entries[i], offset, limit);
    PiecesPush(file, pieces, p);
    CoveredPush(file, pieces, p, i, offset, limit);
  }

  lemma CoveredPush<T>(file: seq<seq<T>>, pieces: seq<Piece>, p: Piece, i: nat, offset: nat, limit: nat)
    requires i < |file| && Covered(file, pieces, i, offset, limit) && p.rgIdx == i && p.within + p.take <= |file[i]|
    requires Pieces(file, pieces + [p]) == Slice(Flatten(file[..i + 1]), offset, limit)
    ensures Covered(file, pieces + [p], i + 1, offset, limit)
  {
  }

  lemma CoverEnds<T>(entries: seq<Entry>, file: seq<seq<T>>, pieces: seq<Piece>, i: nat, offset: nat, limit: nat)
    requires Describes(entries, file) && Covered(file, pieces, i, offset, limit)
    requires i == |entries| || entries[i].rowStart >= offset + limit
    ensures CoversOnce(file, pieces, offset, limit)
  {
    FlattenSplit(file, i);
    if i < |entries| {
      assert entries[i] == EntryOf(file, i);
      NothingMore(Flatten(file[..i]), Flatten(file[i..]), offset, limit);
    } else {
      assert file[..i] == file;
    }
  }

  lemma StartsAt<T>(entries: seq<Entry>, file: seq<seq<T>>, start: nat, offset: nat, limit: nat)
    requires Describes(entries, file) && start == PartitionPoint(entries, offset)
    ensures Covered(file, [], start, offset, limit)
  {
    PartitionPointSplits(entries, offset);
    if start > 0 {
      assert entries[start - 1] == EntryOf(file, start - 1);
      NothingYet(Flatten(file[..start]), offset, limit);
    }
  }

  lemma {:induction false} EndsGrow<T>(entries: seq<Entry>, file: seq<seq<T>>, start: nat, i: nat)
    requires Describes(entries, file) && start <= i < |entries|
    ensures entries[start].rowEnd <= entries[i].rowEnd
    decreases i - start
  {
    if start < i {
      EndsGrow(entries, file, start, i - 1);
      FlattenNext(file, i);
      assert entries[i] == EntryOf(file, i) && entries[i - 1] == EntryOf(file, i - 1);
    }
  }

  lemma Reaches<T>(entries: seq<Entry>, file: seq<seq<T>>, start: nat, i: nat, offset: nat)
    requires Describes(entries, file) && start == PartitionPoint(entries, offset) && start <= i < |entries|
    ensures entries[i].rowEnd > offset
  {
    PartitionPointSplits(entries, offset);
    EndsGrow(entries, file, start, i);
  }

  /** `read_sparse_tile`: each piece is cut out of its row group's batches. */
  method ReadSparseTile<T>(file: seq<seq<T>>, pieces: seq<Piece>, split: seq<T> -> seq<seq<T>>) returns (result: seq<seq<T>>)
    requires forall rows :: Flatten(split(rows)) == rows
    requires forall i :: 0 <= i < |pieces| ==> pieces[i].rgIdx < |file|
    ensures Flatten(result) == Pieces(file, pieces)
  {
    result := [];
    for i := 0 to |pieces|
      invariant Flatten(result) == Pieces(file, pieces[..i])
    {
      var p := pieces[i];
      var cut := SliceBatches.Cut(split(file[p.rgIdx]), p.within, p.take);
      FlattenAppend(result, cut);
      assert pieces[..i + 1] == pieces[..i] + [p];
      PiecesPush(file, pieces[..i], p);
      result := result + cut;
    }
    assert pieces[..|pieces|] == pieces;
  }
}
