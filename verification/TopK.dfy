/** `top_k_from_batches` of crates/tv-engine/src/top_k.rs: the k least rows of a stream, kept as
    `survivors` while chunks of the stream are sorted, cut to k rows and folded in. */
module TopK {
  import opened Seqs
  import opened Orders

  const CHUNK_BYTES: nat := 64 * 1024 * 1024

  /** Every row of `all` that `kept` leaves out is at least every row it keeps. */
  ghost predicate RestAtLeast<T>(leq: (T, T) -> bool, all: seq<T>, kept: seq<T>) {
    forall x, i :: x in multiset(all) - multiset(kept) && 0 <= i < |kept| ==> leq(kept[i], x)
  }

  /** `kept` are the `k` least rows of `all`, in order. */
  ghost predicate IsTop<T>(leq: (T, T) -> bool, k: nat, all: seq<T>, kept: seq<T>) {
    Sorted(leq, kept) && |kept| == Min(k, |all|) && multiset(kept) <= multiset(all) && RestAtLeast(leq, all, kept)
  }

  lemma SortedTakeIsTop<T(!new)>(leq: (T, T) -> bool, k: nat, all: seq<T>, s: seq<T>)
    requires Sorted(leq, s) && multiset(s) == multiset(all)
    ensures |s| == |all| && IsTop(leq, k, all, s[..Min(k, |s|)])
  {
    assert |multiset(s)| == |multiset(all)|;
    var kept, rest := s[..Min(k, |s|)], s[Min(k, |s|)..];
    assert s == kept + rest;
    assert multiset(all) - multiset(kept) == multiset(rest);
    forall x, i | x in multiset(rest) && 0 <= i < |kept|
      ensures leq(kept[i], x)
    {
      var j :| 0 <= j < |rest| && rest[j] == x;
      assert s[|kept| + j] == x && s[i] == kept[i];
    }
  }

  lemma SameContents<T>(a: multiset<T>, c: multiset<T>)
    requires a <= c && |a| == |c|
    ensures a == c
  {
    assert c == a + (c - a);
    assert |c - a| == 0;
  }

  /** Of the k least rows of `a + b`, one above `x` comes from `a`, if `a` has k rows at most `x`. */
  lemma AboveMeansOwn<T(!new)>(leq: (T, T) -> bool, k: nat, a: seq<T>, b: seq<T>, c: seq<T>, x: T, j: nat)
    requires TotalPreorder(leq) && IsTop(leq, k, a + b, c) && |a| == k && j < |c|
    requires forall i :: 0 <= i < |a| ==> leq(a[i], x)
    ensures leq(c[j], x) || c[j] in multiset(a)
  {
    if !leq(c[j], x) {
      assert multiset(a) <= multiset(c) by {
        forall y
          ensures multiset(a)[y] <= multiset(c)[y]
        {
          if y in multiset(a) {
            var i :| 0 <= i < |a| && a[i] == y;
            assert y !in multiset(a + b) - multiset(c) by {
              assert leq(a[i], x) && !leq(c[j], y);
            }
            assert multiset(a + b)[y] == multiset(a)[y] + multiset(b)[y];
          }
        }
      }
      SameContents(multiset(a), multiset(c));
    }
  }

  /** The k least rows of `a + b` are at most `x` when `a` alone has k rows at most `x`. */
  lemma TopBelow<T(!new)>(leq: (T, T) -> bool, k: nat, a: seq<T>, b: seq<T>, c: seq<T>, x: T)
    requires TotalPreorder(leq) && IsTop(leq, k, a + b, c) && |a| == k
    requires forall i :: 0 <= i < |a| ==> leq(a[i], x)
    ensures forall j :: 0 <= j < |c| ==> leq(c[j], x)
  {
    forall j | 0 <= j < |c|
      ensures leq(c[j], x)
    {
      AboveMeansOwn(leq, k, a, b, c, x, j);
    }
  }

  /** Cutting both parts to their k least rows first does not change the k least rows of the whole. */
  lemma TopOfTops<T(!new)>(leq: (T, T) -> bool, k: nat, A: seq<T>, B: seq<T>, a: seq<T>, b: seq<T>, c: seq<T>)
    requires TotalPreorder(leq) && IsTop(leq, k, A, a) && IsTop(leq, k, B, b) && IsTop(leq, k, a + b, c)
    ensures IsTop(leq, k, A + B, c)
  {
    var mA, mB, ma, mb, mc := multiset(A), multiset(B), multiset(a), multiset(b), multiset(c);
    assert multiset(A + B) == mA + mB && multiset(a + b) == ma + mb;
    forall x | x in multiset(A + B) - mc
      ensures forall j :: 0 <= j < |c| ==> leq(c[j], x)
    {
      assert (mA + mB)[x] > mc[x];
      if x in mA - ma {
        LeftOut(leq, k, A, a, x);
        TopBelow(leq, k, a, b, c, x);
      } else if x in mB - mb {
        LeftOut(leq, k, B, b, x);
        SwapTop(leq, k, a, b, c);
        TopBelow(leq, k, b, a, c, x);
      } else {
        assert x in (ma + mb) - mc;
      }
    }
  }

  lemma SwapTop<T(!new)>(leq: (T, T) -> bool, k: nat, a: seq<T>, b: seq<T>, c: seq<T>)
    requires IsTop(leq, k, a + b, c)
    ensures IsTop(leq, k, b + a, c)
  {
    assert multiset(a + b) == multiset(b + a);
  }

  lemma LeftOut<T>(leq: (T, T) -> bool, k: nat, A: seq<T>, a: seq<T>, x: T)
    requires IsTop(leq, k, A, a) && x in multiset(A) - multiset(a)
    ensures |a| == k && forall i :: 0 <= i < |a| ==> leq(a[i], x)
  {
    if |a| == |A| {
      SameContents(multiset(a), multiset(A));
      assert false;
    }
  }

  lemma AsSequence<T>(m: multiset<T>) returns (s: seq<T>)
    ensures multiset(s) == m
    decreases |m|
  {
    if |m| == 0 {
      s := [];
    } else {
      var x :| x in m;
      var rest := AsSequence(m - multiset{x});
      s := [x] + rest;
    }
  }

  /** The k least rows are, key by key, the first k rows of the fully sorted input. */
  lemma TopIsTakeOfSort<T(!new)>(leq: (T, T) -> bool, sort: seq<T> -> seq<T>, k: nat, all: seq<T>, kept: seq<T>, i: nat)
    requires TotalPreorder(leq) && Sorts(leq, sort) && IsTop(leq, k, all, kept) && i < |kept|
    ensures |sort(all)| == |all| && leq(kept[i], sort(all)[i]) && leq(sort(all)[i], kept[i])
  {
    var rest := AsSequence(multiset(all) - multiset(kept));
    var t := kept + sort(rest);
    assert multiset(t) == multiset(kept) + multiset(rest) == multiset(all);
    forall a, b | 0 <= a < b < |t|
      ensures leq(t[a], t[b])
    {
      if a < |kept| && |kept| <= b {
        assert sort(rest)[b - |kept|] in multiset(rest);
      }
    }
    assert |multiset(sort(all))| == |multiset(all)|;
    SortedArrangementsAgree(leq, sort(all), t, i);
  }

  // ---- the loop

  method SliceTopK<T>(batches: seq<seq<T>>, k: nat) returns (result: seq<seq<T>>)
    ensures Flatten(result) == Flatten(batches)[..Min(k, |Flatten(batches)|)]
  {
    result := [];
    var collected := 0;
    var i := 0;
    while i < |batches| && collected < k
      invariant i <= |batches| && collected == |Flatten(result)|
      invariant Flatten(result) == Flatten(batches[..i])[..Min(k, |Flatten(batches[..i])|)]
      invariant collected < k ==> Flatten(result) == Flatten(batches[..i])
    {
      var remaining := k - collected;
      FlattenNext(batches, i);
      if |batches[i]| <= remaining {
        FlattenOne(result, batches[i]);
        result := result + [batches[i]];
        collected := collected + |batches[i]|;
      } else {
        FlattenOne(result, batches[i][..remaining]);
        result := result + [batches[i][..remaining]];
        collected := k;
      }
      i := i + 1;
    }
    FlattenSplit(batches, i);
    if i == |batches| {
      assert batches[..i] == batches;
    }
  }

  /** `apply_sort`: one sorted batch, or nothing for no batches. */
  function ApplySort<T>(sort: seq<T> -> seq<T>, batches: seq<seq<T>>): seq<seq<T>> {
    if batches == [] then [] else [sort(Flatten(batches))]
  }

  lemma AppliedSort<T(!new)>(leq: (T, T) -> bool, sort: seq<T> -> seq<T>, batches: seq<seq<T>>)
    requires Sorts(leq, sort)
    ensures Sorted(leq, Flatten(ApplySort(sort, batches)))
    ensures multiset(Flatten(ApplySort(sort, batches))) == multiset(Flatten(batches))
  {
    if batches != [] {
      FlattenOne([], sort(Flatten(batches)));
    }
  }

  method SortAndTake<T(!new)>(ghost leq: (T, T) -> bool, sort: seq<T> -> seq<T>, batches: seq<seq<T>>, k: nat) returns (top: seq<seq<T>>)
    requires Sorts(leq, sort)
    ensures IsTop(leq, k, Flatten(batches), Flatten(top))
  {
    var sorted := ApplySort(sort, batches);
    AppliedSort(leq, sort, batches);
    SortedTakeIsTop(leq, k, Flatten(batches), Flatten(sorted));
    var take := Min(|Flatten(sorted)|, k);
    top := SliceTopK(sorted, take);
  }

  method FlushChunk<T(!new)>(ghost leq: (T, T) -> bool, sort: seq<T> -> seq<T>, k: nat, chunk: seq<seq<T>>, survivors: seq<seq<T>>, ghost flushed: seq<T>)
    returns (survivors': seq<seq<T>>)
    requires TotalPreorder(leq) && Sorts(leq, sort) && IsTop(leq, k, flushed, Flatten(survivors))
    ensures IsTop(leq, k, flushed + Flatten(chunk), Flatten(survivors'))
  {
    if chunk == [] {
      assert flushed + [] == flushed;
      return survivors;
    }
    var trimmed := SortAndTake(leq, sort, chunk, k);
    FlattenAppend(survivors, trimmed);
    survivors' := SortAndTake(leq, sort, survivors + trimmed, k);
    TopOfTops(leq, k, flushed, Flatten(chunk), Flatten(survivors), Flatten(trimmed), Flatten(survivors'));
  }

  /** The rows that reach the sort: every non-empty batch after the stateless operations. */
  function Processed<T>(process: seq<T> -> seq<seq<T>>, stream: seq<seq<T>>): seq<T> {
    if stream == [] then []
    else (if stream[0] == [] then [] else Flatten(process(stream[0]))) + Processed(process, stream[1..])
  }

  lemma {:induction false} ProcessedNext<T>(process: seq<T> -> seq<seq<T>>, stream: seq<seq<T>>, i: nat)
    requires i < |stream|
    ensures Processed(process, stream[..i + 1]) == Processed(process, stream[..i]) + if stream[i] == [] then [] else Flatten(process(stream[i]))
  {
    if i > 0 {
      ProcessedNext(process, stream[1..], i - 1);
      assert stream[..i + 1][1..] == stream[1..][..i] && stream[..i][1..] == stream[1..][..i - 1];
    } else {
      assert stream[..1][1..] == [] && stream[..0] == [];
    }
  }

  /** What the loop has read: `flushed` is in the survivors, the chunk waits. */
  ghost predicate Holding<T(!new)>(leq: (T, T) -> bool, k: nat, survivors: seq<seq<T>>, flushed: seq<T>, chunk: seq<seq<T>>, read: seq<T>) {
    IsTop(leq, k, flushed, Flatten(survivors)) && flushed + Flatten(chunk) == read
  }

  method TopKFromBatches<T(!new)>(ghost leq: (T, T) -> bool, sort: seq<T> -> seq<T>, process: seq<T> -> seq<seq<T>>,
                                  stream: seq<seq<T>>, hasKeys: bool, k: nat, size: seq<T> -> nat)
    returns (result: seq<seq<T>>)
    requires TotalPreorder(leq) && Sorts(leq, sort)
    ensures hasKeys ==> IsTop(leq, k, Processed(process, stream), Flatten(result))
    ensures !hasKeys ==> result == []
  {
    if !hasKeys || k == 0 {
      return [];
    }
    var survivors, chunk: seq<seq<T>> := [], [];
    var bytes: nat := 0;
    ghost var flushed: seq<T> := [];
    for i := 0 to |stream|
      invariant Holding(leq, k, survivors, flushed, chunk, Processed(process, stream[..i]))
    {
      ProcessedNext(process, stream, i);
      if stream[i] != [] {
        survivors, chunk, bytes, flushed :=
          TakeBatches(leq, sort, k, size, process(stream[i]), survivors, chunk, bytes, flushed, Processed(process, stream[..i]));
      }
    }
    assert stream[..|stream|] == stream;
    if chunk != [] {
      survivors := FlushChunk(leq, sort, k, chunk, survivors, flushed);
    } else {
      assert flushed + [] == flushed;
    }
    result := SortAndTake(leq, sort, survivors, k);
    TopOfItself(leq, k, Processed(process, stream), Flatten(survivors), Flatten(result));
  }

  /** The inner loop: the batches one input batch becomes join the chunk, which is flushed when heavy enough. */
  method TakeBatches<T(!new)>(ghost leq: (T, T) -> bool, sort: seq<T> -> seq<T>, k: nat, size: seq<T> -> nat, processed: seq<seq<T>>,
                              survivors: seq<seq<T>>, chunk: seq<seq<T>>, bytes: nat, ghost flushed: seq<T>, ghost read: seq<T>)
    returns (survivors': seq<seq<T>>, chunk': seq<seq<T>>, bytes': nat, ghost flushed': seq<T>)
    requires TotalPreorder(leq) && Sorts(leq, sort) && Holding(leq, k, survivors, flushed, chunk, read)
    ensures Holding(leq, k, survivors', flushed', chunk', read + Flatten(processed))
  {
    survivors', chunk', bytes', flushed' := survivors, chunk, bytes, flushed;
    assert read + [] == read;
    for j := 0 to |processed|
      invariant Holding(leq, k, survivors', flushed', chunk', read + Flatten(processed[..j]))
    {
      var b := processed[j];
      FlattenNext(processed, j);
      Reassociate(read, Flatten(processed[..j]), b);
      if b != [] {
        survivors', chunk', bytes', flushed' :=
          PushBatch(leq, sort, k, b, bytes' + size(b), survivors', chunk', flushed', read + Flatten(processed[..j]));
      }
    }
    assert processed[..|processed|] == processed;
  }

  method PushBatch<T(!new)>(ghost leq: (T, T) -> bool, sort: seq<T> -> seq<T>, k: nat, b: seq<T>, bytes: nat,
                            survivors: seq<seq<T>>, chunk: seq<seq<T>>, ghost flushed: seq<T>, ghost read: seq<T>)
    returns (survivors': seq<seq<T>>, chunk': seq<seq<T>>, bytes': nat, ghost flushed': seq<T>)
    requires TotalPreorder(leq) && Sorts(leq, sort) && Holding(leq, k, survivors, flushed, chunk, read)
    ensures Holding(leq, k, survivors', flushed', chunk', read + b)
  {
    survivors', chunk', bytes', flushed' := survivors, chunk + [b], bytes, flushed;
    HoldOneMore(leq, k, survivors, flushed, chunk, read, b);
    if bytes >= CHUNK_BYTES {
      survivors' := FlushChunk(leq, sort, k, chunk', survivors, flushed);
      flushed' := flushed + Flatten(chunk');
      chunk', bytes' := [], 0;
      assert flushed' + [] == flushed';
    }
  }

  lemma HoldOneMore<T(!new)>(leq: (T, T) -> bool, k: nat, survivors: seq<seq<T>>, flushed: seq<T>, chunk: seq<seq<T>>, read: seq<T>, b: seq<T>)
    requires Holding(leq, k, survivors, flushed, chunk, read)
    ensures Holding(leq, k, survivors, flushed, chunk + [b], read + b)
  {
    FlattenOne(chunk, b);
    Reassociate(flushed, Flatten(chunk), b);
  }

  lemma TopOfItself<T(!new)>(leq: (T, T) -> bool, k: nat, all: seq<T>, kept: seq<T>, again: seq<T>)
    requires IsTop(leq, k, all, kept) && IsTop(leq, k, kept, again)
    ensures IsTop(leq, k, all, again)
  {
    SameContents(multiset(again), multiset(kept));
    forall x, i | x in multiset(all) - multiset(again) && 0 <= i < |again|
      ensures leq(again[i], x)
    {
      assert again[i] in multiset(kept);
      var j :| 0 <= j < |kept| && kept[j] == again[i];
    }
  }
}
