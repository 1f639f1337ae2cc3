/** The skip-and-take loop shared by `slice_batches`, `slice_top_k`, `slice_result` and the tile
    readers: it cuts the window `[offset, offset + limit)` out of a list of batches. */
module SliceBatches {
  import opened Seqs

  /** The part of `batch` that falls into the window when `skipped` rows precede it. */
  function Part<T>(batch: seq<T>, skipped: nat, collected: nat, offset: nat, limit: nat): (part: seq<T>)
    requires collected <= limit
    ensures skipped + |batch| > offset && collected < limit && batch != [] ==> part != []
    ensures collected + |part| <= limit
  {
    var start := if offset <= skipped then 0 else offset - skipped;
    if skipped + |batch| <= offset then [] else batch[start..start + Min(|batch| - start, limit - collected)]
  }

  lemma PartExtends<T>(before: seq<T>, batch: seq<T>, offset: nat, limit: nat)
    ensures var window := Slice(before, offset, limit);
            Slice(before + batch, offset, limit) == window + Part(batch, |before|, |window|, offset, limit)
  {
  }

  lemma FullWindow<T>(a: seq<T>, b: seq<T>, offset: nat, limit: nat)
    requires |Slice(a, offset, limit)| == limit
    ensures Slice(a + b, offset, limit) == Slice(a, offset, limit)
  {
  }

  /** `result` is the window of the rows seen `before`. */
  ghost predicate IsCut<T>(result: seq<seq<T>>, before: seq<T>, offset: nat, limit: nat) {
    Flatten(result) == Slice(before, offset, limit)
  }

  lemma CutNext<T>(result: seq<seq<T>>, before: seq<T>, batch: seq<T>, offset: nat, limit: nat)
    requires IsCut(result, before, offset, limit)
    ensures |Flatten(result)| <= limit
    ensures var part := Part(batch, |before|, |Flatten(result)|, offset, limit);
            && (part == [] ==> IsCut(result, before + batch, offset, limit))
            && IsCut(result + [part], before + batch, offset, limit) && |Flatten(result + [part])| == |Flatten(result)| + |part|
  {
    PartExtends(before, batch, offset, limit);
    FlattenOne(result, Part(batch, |before|, |Flatten(result)|, offset, limit));
  }

  /** `before` are the rows of the first `i` batches. */
  ghost predicate Seen<T>(before: seq<T>, batches: seq<seq<T>>, i: nat) {
    i <= |batches| && before + Flatten(batches[i..]) == Flatten(batches)
  }

  lemma SeenNext<T>(before: seq<T>, batches: seq<seq<T>>, i: nat)
    requires Seen(before, batches, i) && i < |batches|
    ensures Seen(before + batches[i], batches, i + 1)
  {
    assert batches[i..][1..] == batches[i + 1..];
    Reassociate(before, batches[i], Flatten(batches[i + 1..]));
  }

  lemma CutEnds<T>(result: seq<seq<T>>, before: seq<T>, batches: seq<seq<T>>, i: nat, offset: nat, limit: nat)
    requires Seen(before, batches, i) && IsCut(result, before, offset, limit)
    requires i == |batches| || |Flatten(result)| == limit
    ensures IsCut(result, Flatten(batches), offset, limit)
  {
    if i == |batches| {
      assert before + [] == before;
    } else {
      FullWindow(before, Flatten(batches[i..]), offset, limit);
    }
  }

  /** `result` has no empty batch if `batches` has none. */
  ghost predicate AsSolid<T>(batches: seq<seq<T>>, result: seq<seq<T>>) {
    [] !in batches ==> [] !in result
  }

  lemma SolidNext<T>(batches: seq<seq<T>>, i: nat, result: seq<seq<T>>, part: seq<T>)
    requires AsSolid(batches, result) && i < |batches| && (batches[i] != [] ==> part != [])
    ensures AsSolid(batches, result + [part])
  {
    assert batches[i] in batches;
  }

  method Cut<T>(batches: seq<seq<T>>, offset: nat, limit: nat) returns (result: seq<seq<T>>)
    ensures Flatten(result) == Slice(Flatten(batches), offset, limit)
    ensures AsSolid(batches, result)
  {
    result := [];
    var skipped, collected := 0, 0;
    ghost var before: seq<T> := [];
    var i := 0;
    while i < |batches| && collected < limit
      invariant Seen(before, batches, i) && IsCut(result, before, offset, limit)
      invariant skipped == |before| && collected == |Flatten(result)| <= limit
      invariant AsSolid(batches, result)
    {
      var batch := batches[i];
      var n := |batch|;
      SeenNext(before, batches, i);
      CutNext(result, before, batch, offset, limit);
      if skipped + n > offset {
        var part := Part(batch, skipped, collected, offset, limit);
        SolidNext(batches, i, result, part);
        result := result + [part];
        collected := collected + |part|;
      }
      skipped, before := skipped + n, before + batch;
      i := i + 1;
    }
    CutEnds(result, before, batches, i, offset, limit);
  }

  /** A reader hands its rows over in batches of its own choice, none of them empty. */
  ghost predicate Splits<T(!new)>(split: seq<T> -> seq<seq<T>>) {
    forall rows :: Flatten(split(rows)) == rows && [] !in split(rows)
  }

  lemma NoEmptyBatch<T>(batches: seq<seq<T>>)
    requires [] !in batches
    ensures batches == [] <==> Flatten(batches) == []
  {
    if batches != [] {
      assert batches[0] in batches;
    }
  }

  method CountRows<T>(batches: seq<seq<T>>) returns (count: nat)
    ensures count == |Flatten(batches)|
  {
    count := 0;
    for i := 0 to |batches|
      invariant count == |Flatten(batches[..i])|
    {
      FlattenNext(batches, i);
      count := count + |batches[i]|;
    }
    assert batches[..|batches|] == batches;
  }
}
