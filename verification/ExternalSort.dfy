/** The external sort of crates/tv-engine/src/external_sort.rs: chunks of the input sorted into
    runs, a cascade of bounded-fanout merges, tiles of the final merge, and adjacent dedup. */
module ExternalSort {
  import opened Seqs
  import opened Orders
  import opened Merge
  import opened KWayMerge
  import SliceBatches

  const U64_MAX: nat := 0xFFFF_FFFF_FFFF_FFFF
  const READ_BATCH: nat := 4096

  /** The kernels the sorter takes from Arrow and from the standard library. */
  datatype Kernels<!T> = Kernels(leq: (T, T) -> bool, pick: Picker<T>, sort: seq<T> -> seq<T>)

  ghost predicate Sound<T(!new)>(k: Kernels<T>) {
    TotalPreorder(k.leq) && PicksLeast(k.leq, k.pick) && Sorts(k.leq, k.sort)
  }

  // ---- runs on disk

  /** The batches a reader with a batch size of `n` rows hands out. */
  function Batched<T>(rows: seq<T>, n: nat): (batches: seq<seq<T>>)
    requires n > 0
    ensures Flatten(batches) == rows && NoEmptyBatch(batches)
    decreases |rows|
  {
    if rows == [] then []
    else
      var take := Min(n, |rows|);
      assert rows == rows[..take] + rows[take..];
      [rows[..take]] + Batched(rows[take..], n)
  }

  /** `write_run`, as it is read back. */
  function WriteRun<T>(batches: seq<seq<T>>): (run: SpilledRun<T>)
    ensures Rows(run) == Flatten(batches) && run.rowCount == |Rows(run)| && NoEmptyBatch(run.batches)
  {
    SpilledRun(Batched(Flatten(batches), READ_BATCH), |Flatten(batches)|)
  }

  ghost predicate SortedRun<T(!new)>(k: Kernels<T>, run: SpilledRun<T>) {
    NoEmptyBatch(run.batches) && run.rowCount == |Rows(run)| && Sorted(k.leq, Rows(run))
  }

  ghost predicate SortedRuns<T(!new)>(k: Kernels<T>, runs: seq<SpilledRun<T>>) {
    forall r :: 0 <= r < |runs| ==> SortedRun(k, runs[r])
  }

  /** All rows of all runs. */
  function Content<T>(runs: seq<SpilledRun<T>>): seq<T> {
    Flatten(AllRows(runs))
  }

  lemma ContentAppend<T>(a: seq<SpilledRun<T>>, b: seq<SpilledRun<T>>)
    ensures Content(a + b) == Content(a) + Content(b)
  {
    assert AllRows(a + b) == AllRows(a) + AllRows(b);
    FlattenAppend(AllRows(a), AllRows(b));
  }

  lemma ContentOne<T>(run: SpilledRun<T>)
    ensures Content([run]) == Rows(run)
  {
    assert AllRows([run]) == [Rows(run)];
    FlattenOne([], Rows(run));
  }

  // ---- sorted runs

  /** The input cut into chunks: a chunk is closed once its batches weigh `limit` bytes. */
  function Chunks<T>(stream: seq<seq<T>>, size: seq<T> -> nat, limit: nat, chunk: seq<seq<T>>, bytes: nat): seq<seq<T>> {
    if stream == [] then (if chunk == [] then [] else [Flatten(chunk)])
    else if stream[0] == [] then Chunks(stream[1..], size, limit, chunk, bytes)
    else
      var grown, weight := chunk + [stream[0]], bytes + size(stream[0]);
      if weight >= limit then [Flatten(grown)] + Chunks(stream[1..], size, limit, [], 0)
      else Chunks(stream[1..], size, limit, grown, weight)
  }

  lemma {:induction false} ChunksKeepOrder<T>(stream: seq<seq<T>>, size: seq<T> -> nat, limit: nat, chunk: seq<seq<T>>, bytes: nat)
    ensures Flatten(Chunks(stream, size, limit, chunk, bytes)) == Flatten(chunk) + Flatten(stream)
    decreases |stream|
  {
    if stream == [] {
      FlattenOne([], Flatten(chunk));
    } else if stream[0] == [] {
      ChunksKeepOrder(stream[1..], size, limit, chunk, bytes);
    } else {
      var grown, weight := chunk + [stream[0]], bytes + size(stream[0]);
      FlattenOne(chunk, stream[0]);
      Reassociate(Flatten(chunk), stream[0], Flatten(stream[1..]));
      if weight >= limit {
        ChunksKeepOrder(stream[1..], size, limit, [], 0);
        assert Flatten([Flatten(grown)] + Chunks(stream[1..], size, limit, [], 0)) == Flatten(grown) + ([] + Flatten(stream[1..])) by {
          FlattenAppend([Flatten(grown)], Chunks(stream[1..], size, limit, [], 0));
          FlattenOne([], Flatten(grown));
        }
      } else {
        ChunksKeepOrder(stream[1..], size, limit, grown, weight);
      }
    }
  }

  function SortEach<T>(sort: seq<T> -> seq<T>, chunks: seq<seq<T>>): seq<seq<T>> {
    seq(|chunks|, i requires 0 <= i < |chunks| => sort(chunks[i]))
  }

  lemma {:induction false} SortEachConserves<T(!new)>(k: Kernels<T>, chunks: seq<seq<T>>)
    requires Sound(k)
    ensures multiset(Flatten(SortEach(k.sort, chunks))) == multiset(Flatten(chunks))
  {
    if chunks != [] {
      SortEachConserves(k, chunks[1..]);
      assert SortEach(k.sort, chunks)[1..] == SortEach(k.sort, chunks[1..]);
    }
  }

  method SortToInitialRuns<T(!new)>(k: Kernels<T>, stream: seq<seq<T>>, size: seq<T> -> nat, chunkBytes: nat)
    returns (runs: seq<SpilledRun<T>>, totalRows: nat)
    requires Sound(k)
    ensures AllRows(runs) == SortEach(k.sort, Chunks(stream, size, chunkBytes, [], 0))
    ensures SortedRuns(k, runs) && multiset(Content(runs)) == multiset(Flatten(stream)) && totalRows == |Flatten(stream)|
  {
    runs, totalRows := [], 0;
    var chunk: seq<seq<T>> := [];
    var bytes: nat := 0;
    ghost var all := Chunks(stream, size, chunkBytes, [], 0);
    ghost var closed: seq<seq<T>> := [];
    for i := 0 to |stream|
      invariant closed + Chunks(stream[i..], size, chunkBytes, chunk, bytes) == all
      invariant AllRows(runs) == SortEach(k.sort, closed) && SortedRuns(k, runs)
      invariant totalRows == |Flatten(stream[..i])|
    {
      var batch := stream[i];
      assert stream[i..][0] == batch && stream[i..][1..] == stream[i + 1..];
      FlattenNext(stream, i);
      if batch != [] {
        bytes, totalRows, chunk := bytes + size(batch), totalRows + |batch|, chunk + [batch];
        if bytes >= chunkBytes {
          var run := SpillChunk(k, chunk);
          OneMoreRun(k, runs, closed, run, Flatten(chunk));
          Reassociate(closed, [Flatten(chunk)], Chunks(stream[i + 1..], size, chunkBytes, [], 0));
          runs, closed := runs + [run], closed + [Flatten(chunk)];
          chunk, bytes := [], 0;
        }
      }
    }
    if chunk != [] {
      var run := SpillChunk(k, chunk);
      OneMoreRun(k, runs, closed, run, Flatten(chunk));
      runs, closed := runs + [run], closed + [Flatten(chunk)];
    }
    assert closed == all && stream[..|stream|] == stream;
    SortEachConserves(k, all);
    ChunksKeepOrder(stream, size, chunkBytes, [], 0);
  }

  lemma OneMoreRun<T(!new)>(k: Kernels<T>, runs: seq<SpilledRun<T>>, closed: seq<seq<T>>, run: SpilledRun<T>, chunk: seq<T>)
    requires AllRows(runs) == SortEach(k.sort, closed) && Rows(run) == k.sort(chunk)
    ensures AllRows(runs + [run]) == SortEach(k.sort, closed + [chunk])
  {
    assert AllRows(runs + [run]) == AllRows(runs) + [Rows(run)];
    assert SortEach(k.sort, closed + [chunk]) == SortEach(k.sort, closed) + [k.sort(chunk)];
  }

  method SpillChunk<T(!new)>(k: Kernels<T>, chunk: seq<seq<T>>) returns (run: SpilledRun<T>)
    requires Sound(k)
    ensures SortedRun(k, run) && Rows(run) == k.sort(Flatten(chunk))
  {
    var sorted := k.sort(Flatten(chunk));
    FlattenOne([], sorted);
    run := WriteRun([sorted]);
  }

  // ---- merging runs

  method DoMerge<T(!new)>(k: Kernels<T>, runs: seq<SpilledRun<T>>, offset: nat, limit: nat) returns (output: seq<seq<T>>)
    requires Sound(k) && Readable(runs)
    ensures Flatten(output) == Slice(FullMerge(k.leq, k.pick, AllRows(runs)), offset, limit)
  {
    if |runs| == 0 {
      output := [];
    } else if |runs| == 1 {
      MergeOfOneRun(k.leq, k.pick, Rows(runs[0]));
      assert AllRows(runs) == [Rows(runs[0])];
      output := if limit == 0 then [] else Batched(Slice(Rows(runs[0]), offset, limit), READ_BATCH);
    } else {
      output := MergeCursors(runs, offset, limit, k.leq, k.pick);
    }
  }

  lemma WholeMerge<T(!new)>(k: Kernels<T>, runs: seq<SpilledRun<T>>)
    requires Sound(k) && SortedRuns(k, runs)
    ensures var merged := FullMerge(k.leq, k.pick, AllRows(runs));
            && Sorted(k.leq, merged) && multiset(merged) == multiset(Content(runs)) && |merged| == |Content(runs)|
            && (|Content(runs)| <= U64_MAX ==> Slice(merged, 0, U64_MAX) == merged)
  {
    var merged := FullMerge(k.leq, k.pick, AllRows(runs));
    MergeOfSortedRuns(k.leq, k.pick, AllRows(runs));
    assert |multiset(merged)| == |merged| && |multiset(Content(runs))| == |Content(runs)|;
  }

  method MergeRunsToRun<T(!new)>(k: Kernels<T>, runs: seq<SpilledRun<T>>) returns (run: SpilledRun<T>)
    requires Sound(k) && SortedRuns(k, runs) && |Content(runs)| <= U64_MAX
    ensures SortedRun(k, run) && multiset(Rows(run)) == multiset(Content(runs))
  {
    var batches := DoMerge(k, runs, 0, U64_MAX);
    WholeMerge(k, runs);
    run := WriteRun(batches);
  }

  /** How many runs one cascade pass makes of `n` runs. */
  function PassRuns(n: nat, fanout: nat): nat
    requires fanout > 0
  {
    if n == 0 then 0 else if n <= fanout then 1 else 1 + PassRuns(n - fanout, fanout)
  }

  lemma {:induction false} PassNeverGrows(n: nat, fanout: nat)
    requires fanout > 0
    ensures PassRuns(n, fanout) <= n && (fanout == 1 ==> PassRuns(n, fanout) == n)
  {
    if n > fanout {
      PassNeverGrows(n - fanout, fanout);
    }
  }

  /** `done` merges have dealt with the first `i` of `n` runs. */
  ghost predicate Dealt(done: nat, i: nat, n: nat, fanout: nat) {
    fanout > 0 && i <= n && done + PassRuns(n - i, fanout) == PassRuns(n, fanout)
  }

  lemma DealtNext(done: nat, i: nat, n: nat, fanout: nat)
    requires Dealt(done, i, n, fanout) && i < n
    ensures i < Min(i + fanout, n) <= n && Dealt(done + 1, Min(i + fanout, n), n, fanout)
  {
  }

  /** While there are more runs than the fanout, a pass makes progress exactly when the fanout is at least two. */
  lemma PassShrinksIffFanoutTwo(n: nat, fanout: nat)
    requires 0 < fanout < n
    ensures PassRuns(n, fanout) < n <==> fanout >= 2
  {
    PassNeverGrows(n, fanout);
    PassNeverGrows(n - fanout, fanout);
  }

  lemma Group<T(!new)>(k: Kernels<T>, runs: seq<SpilledRun<T>>, i: nat, end: nat)
    requires SortedRuns(k, runs) && i <= end <= |runs|
    ensures SortedRuns(k, runs[i..end]) && |Content(runs[i..end])| <= |Content(runs)|
  {
    ContentSplit(runs, i, end);
  }

  /** `next` holds the rows of the first `i` runs, in sorted runs. */
  ghost predicate Passed<T(!new)>(k: Kernels<T>, next: seq<SpilledRun<T>>, runs: seq<SpilledRun<T>>, i: nat)
    requires i <= |runs|
  {
    SortedRuns(k, next) && multiset(Content(next)) == multiset(Content(runs[..i]))
  }

  lemma PassStep<T(!new)>(k: Kernels<T>, next: seq<SpilledRun<T>>, runs: seq<SpilledRun<T>>, i: nat, end: nat, merged: SpilledRun<T>)
    requires i <= end <= |runs| && Passed(k, next, runs, i)
    requires SortedRun(k, merged) && multiset(Rows(merged)) == multiset(Content(runs[i..end]))
    ensures Passed(k, next + [merged], runs, end)
  {
    ContentSplit(runs, i, end);
    ContentAppend(next, [merged]);
    ContentOne(merged);
  }

  lemma PassEnds<T(!new)>(k: Kernels<T>, next: seq<SpilledRun<T>>, runs: seq<SpilledRun<T>>)
    ensures Passed(k, [], runs, 0)
    ensures Passed(k, next, runs, |runs|) ==> SortedRuns(k, next) && multiset(Content(next)) == multiset(Content(runs))
  {
    assert runs[..0] == [] && runs[..|runs|] == runs;
  }

  method CascadePass<T(!new)>(k: Kernels<T>, runs: seq<SpilledRun<T>>, fanout: nat) returns (next: seq<SpilledRun<T>>)
    requires Sound(k) && SortedRuns(k, runs) && |Content(runs)| <= U64_MAX && fanout > 0
    ensures SortedRuns(k, next) && multiset(Content(next)) == multiset(Content(runs))
    ensures |next| == PassRuns(|runs|, fanout)
  {
    next := [];
    PassEnds(k, next, runs);
    var i := 0;
    while i < |runs|
      invariant i <= |runs| && Dealt(|next|, i, |runs|, fanout)
      invariant Passed(k, next, runs, i)
    {
      var end := Min(i + fanout, |runs|);
      DealtNext(|next|, i, |runs|, fanout);
      Group(k, runs, i, end);
      var merged := MergeRunsToRun(k, runs[i..end]);
      PassStep(k, next, runs, i, end, merged);
      next := next + [merged];
      i := end;
    }
    PassEnds(k, next, runs);
  }

  lemma ContentSplit<T>(runs: seq<SpilledRun<T>>, i: nat, end: nat)
    requires i <= end <= |runs|
    ensures Content(runs[..end]) == Content(runs[..i]) + Content(runs[i..end])
    ensures |Content(runs[i..end])| <= |Content(runs)|
  {
    assert runs[..end] == runs[..i] + runs[i..end] && runs == runs[..end] + runs[end..];
    ContentAppend(runs[..i], runs[i..end]);
    ContentAppend(runs[..end], runs[end..]);
  }

  method CascadeMergeIfNeeded<T(!new)>(k: Kernels<T>, initial: seq<SpilledRun<T>>, fanout: nat) returns (runs: seq<SpilledRun<T>>)
    requires Sound(k) && SortedRuns(k, initial) && |Content(initial)| <= U64_MAX && fanout >= 2
    ensures SortedRuns(k, runs) && multiset(Content(runs)) == multiset(Content(initial)) && |runs| <= fanout
    ensures |initial| <= fanout ==> runs == initial
  {
    runs := initial;
    while |runs| > fanout
      invariant SortedRuns(k, runs) && multiset(Content(runs)) == multiset(Content(initial))
      invariant |initial| <= fanout ==> runs == initial
      decreases |runs|
    {
      SameSize(Content(runs), Content(initial));
      PassShrinksIffFanoutTwo(|runs|, fanout);
      runs := CascadePass(k, runs, fanout);
    }
  }

  lemma SameSize<T>(a: seq<T>, b: seq<T>)
    requires multiset(a) == multiset(b)
    ensures |a| == |b|
  {
    assert |multiset(a)| == |multiset(b)|;
  }

  // ---- the whole sort

  datatype SortedResult<T> = SortedResult(runs: seq<SpilledRun<T>>, totalRows: nat, cumulativeRows: seq<nat>)

  /** At most `fanout` sorted runs holding the input's rows, with their running row counts. */
  ghost predicate SortedInput<T(!new)>(k: Kernels<T>, stream: seq<seq<T>>, fanout: nat, r: SortedResult<T>) {
    && SortedRuns(k, r.runs) && |r.runs| <= fanout
    && multiset(Content(r.runs)) == multiset(Flatten(stream)) && r.totalRows == |Flatten(stream)|
    && |r.cumulativeRows| == |r.runs|
    && (forall i :: 0 <= i < |r.runs| ==> r.cumulativeRows[i] == |Content(r.runs[..i + 1])|)
  }

  method SortToRuns<T(!new)>(k: Kernels<T>, stream: seq<seq<T>>, size: seq<T> -> nat, chunkBytes: nat, fanout: nat)
    returns (result: SortedResult<T>)
    requires Sound(k) && |Flatten(stream)| <= U64_MAX && fanout >= 2
    ensures SortedInput(k, stream, fanout, result)
    ensures result.runs != [] ==> result.cumulativeRows[|result.runs| - 1] == result.totalRows
  {
    var initial, totalRows := SortToInitialRuns(k, stream, size, chunkBytes);
    SameSize(Content(initial), Flatten(stream));
    if initial == [] {
      return SortedResult([], 0, []);
    }
    var runs := CascadeMergeIfNeeded(k, initial, fanout);
    SameSize(Content(runs), Content(initial));
    var cumulative := RunningTotals(k, runs);
    assert runs[..|runs|] == runs;
    result := SortedResult(runs, totalRows, cumulative);
  }

  method RunningTotals<T(!new)>(ghost k: Kernels<T>, runs: seq<SpilledRun<T>>) returns (cumulative: seq<nat>)
    requires SortedRuns(k, runs)
    ensures |cumulative| == |runs| && forall i :: 0 <= i < |runs| ==> cumulative[i] == |Content(runs[..i + 1])|
  {
    var acc := 0;
    cumulative := [];
    for i := 0 to |runs|
      invariant acc == |Content(runs[..i])| && |cumulative| == i
      invariant forall j :: 0 <= j < i ==> cumulative[j] == |Content(runs[..j + 1])|
    {
      ContentSplit(runs, i, i + 1);
      ContentOne(runs[i]);
      assert runs[i..i + 1] == [runs[i]];
      acc := acc + runs[i].rowCount;
      cumulative := cumulative + [acc];
    }
  }

  method MergeTile<T(!new)>(k: Kernels<T>, runs: seq<SpilledRun<T>>, offset: nat, limit: nat) returns (tile: seq<seq<T>>)
    requires Sound(k) && SortedRuns(k, runs)
    ensures Flatten(tile) == Slice(FullMerge(k.leq, k.pick, AllRows(runs)), offset, limit)
  {
    tile := DoMerge(k, runs, offset, limit);
  }

  /** Every tile of the sorted input is a window of one and the same sorted arrangement of its rows. */
  lemma TilesOfTheSortedInput<T(!new)>(k: Kernels<T>, stream: seq<seq<T>>, fanout: nat, result: SortedResult<T>) returns (sorted: seq<T>)
    requires Sound(k) && SortedInput(k, stream, fanout, result)
    ensures sorted == FullMerge(k.leq, k.pick, AllRows(result.runs))
    ensures Sorted(k.leq, sorted) && multiset(sorted) == multiset(Flatten(stream)) && |sorted| == result.totalRows
  {
    sorted := FullMerge(k.leq, k.pick, AllRows(result.runs));
    WholeMerge(k, result.runs);
    SameSize(sorted, Flatten(stream));
  }

  // ---- adjacent dedup

  /** The rows that differ from the row before them. */
  function Dedup<T>(same: (T, T) -> bool, rows: seq<T>): seq<T> {
    if |rows| <= 1 then rows
    else
      var last := |rows| - 1;
      Dedup(same, rows[..last]) + if same(rows[last], rows[last - 1]) then [] else [rows[last]]
  }

  method DedupSortedBatches<T>(same: (T, T) -> bool, batches: seq<seq<T>>) returns (result: seq<seq<T>>)
    ensures Flatten(result) == Dedup(same, Flatten(batches))
  {
    if batches == [] {
      return batches;
    }
    var combined := Flatten(batches);
    FlattenOne([], combined);
    if combined == [] {
      return [combined];
    }
    var keep := [true];
    for i := 1 to |combined|
      invariant |keep| == i && Masked(combined[..i], keep) == Dedup(same, combined[..i])
    {
      var dup := same(combined[i], combined[i - 1]);
      MaskedNext(same, combined, i, keep);
      keep := keep + [!dup];
    }
    assert combined[..|combined|] == combined;
    var kept := Masked(combined, keep);
    FlattenOne([], kept);
    result := [kept];
  }

  lemma MaskedNext<T>(same: (T, T) -> bool, rows: seq<T>, i: nat, keep: seq<bool>)
    requires 0 < i < |rows| && |keep| == i && Masked(rows[..i], keep) == Dedup(same, rows[..i])
    ensures Masked(rows[..i + 1], keep + [!same(rows[i], rows[i - 1])]) == Dedup(same, rows[..i + 1])
  {
    assert rows[..i + 1] == rows[..i] + [rows[i]];
    MaskedPush(rows[..i], keep, rows[i], !same(rows[i], rows[i - 1]));
    DedupNext(same, rows, i);
  }

  lemma DedupNext<T>(same: (T, T) -> bool, rows: seq<T>, i: nat)
    requires 0 < i < |rows|
    ensures Dedup(same, rows[..i + 1]) == Dedup(same, rows[..i]) + if same(rows[i], rows[i - 1]) then [] else [rows[i]]
  {
    assert rows[..i + 1][..i] == rows[..i];
  }

  /** Dedup keys that are the sort keys: rows are the same when each is at most the other. */
  ghost predicate SameKey<T(!new)>(leq: (T, T) -> bool, same: (T, T) -> bool) {
    forall a, b :: same(a, b) <==> leq(a, b) && leq(b, a)
  }

  ghost predicate StrictlyAscending<T>(leq: (T, T) -> bool, out: seq<T>) {
    forall i, j :: 0 <= i < j < |out| ==> leq(out[i], out[j]) && !leq(out[j], out[i])
  }

  ghost predicate HasKey<T>(leq: (T, T) -> bool, out: seq<T>, x: T) {
    exists j :: 0 <= j < |out| && leq(out[j], x) && leq(x, out[j])
  }

  ghost predicate HasKeys<T>(leq: (T, T) -> bool, out: seq<T>, rows: seq<T>) {
    forall i :: 0 <= i < |rows| ==> HasKey(leq, out, rows[i])
  }

  /** Strictly ascending rows, one for each key of `rows` and no other. */
  ghost predicate OnePerKey<T>(leq: (T, T) -> bool, rows: seq<T>, out: seq<T>) {
    StrictlyAscending(leq, out) && HasKeys(leq, out, rows) && forall i :: 0 <= i < |out| ==> out[i] in rows
  }

  lemma KeysGrow<T>(leq: (T, T) -> bool, out: seq<T>, more: seq<T>, rows: seq<T>, x: T)
    requires HasKeys(leq, out, rows) && HasKey(leq, out + more, x)
    ensures HasKeys(leq, out + more, rows + [x])
  {
    forall i | 0 <= i < |rows|
      ensures HasKey(leq, out + more, rows[i])
    {
      var j :| 0 <= j < |out| && leq(out[j], rows[i]) && leq(rows[i], out[j]);
      assert (out + more)[j] == out[j];
    }
  }

  /** Adjacent dedup of sorted rows leaves one row per key, strictly ascending. */
  lemma {:induction false} DedupOfSorted<T(!new)>(leq: (T, T) -> bool, same: (T, T) -> bool, rows: seq<T>)
    requires TotalPreorder(leq) && SameKey(leq, same) && Sorted(leq, rows)
    ensures OnePerKey(leq, rows, Dedup(same, rows))
  {
    if |rows| <= 1 {
      AtMostOneRow(leq, rows);
    } else {
      var last := |rows| - 1;
      SortedPrefix(leq, rows, last);
      DedupOfSorted(leq, same, rows[..last]);
      DedupOneMore(leq, same, rows, Dedup(same, rows[..last]));
    }
  }

  lemma AtMostOneRow<T(!new)>(leq: (T, T) -> bool, rows: seq<T>)
    requires TotalPreorder(leq) && |rows| <= 1
    ensures OnePerKey(leq, rows, rows)
  {
    if |rows| == 1 {
      assert HasKey(leq, rows, rows[0]);
    }
  }

  lemma SortedPrefix<T>(leq: (T, T) -> bool, rows: seq<T>, n: nat)
    requires 0 < n < |rows| && Sorted(leq, rows)
    ensures Sorted(leq, rows[..n]) && leq(rows[n - 1], rows[n])
  {
  }

  lemma DedupOneMore<T(!new)>(leq: (T, T) -> bool, same: (T, T) -> bool, rows: seq<T>, out: seq<T>)
    requires TotalPreorder(leq) && SameKey(leq, same) && |rows| > 1 && Sorted(leq, rows)
    requires OnePerKey(leq, rows[..|rows| - 1], out)
    ensures OnePerKey(leq, rows, out + if same(rows[|rows| - 1], rows[|rows| - 2]) then [] else [rows[|rows| - 1]])
  {
    var last := |rows| - 1;
    var init, x, y := rows[..last], rows[last], rows[last - 1];
    assert Sorted(leq, init) by {
      SortedPrefix(leq, rows, last);
    }
    assert rows == init + [x] && y == init[last - 1];
    assert HasKey(leq, out, y);
    if same(x, y) {
      KeyOfEqual(leq, out, y, x);
      assert out + [] == out;
      KeysGrow(leq, out, [], init, x);
    } else {
      NewKey(leq, init, out, x);
      KeysGrow(leq, out, [x], init, x);
    }
  }

  lemma KeyOfEqual<T(!new)>(leq: (T, T) -> bool, out: seq<T>, y: T, x: T)
    requires TotalPreorder(leq) && HasKey(leq, out, y) && leq(x, y) && leq(y, x)
    ensures HasKey(leq, out, x)
  {
    var j :| 0 <= j < |out| && leq(out[j], y) && leq(y, out[j]);
    assert leq(out[j], x) && leq(x, out[j]);
  }

  lemma NewKey<T(!new)>(leq: (T, T) -> bool, init: seq<T>, out: seq<T>, x: T)
    requires TotalPreorder(leq) && init != [] && Sorted(leq, init) && StrictlyAscending(leq, out)
    requires forall i :: 0 <= i < |out| ==> out[i] in init
    requires !leq(x, init[|init| - 1])
    ensures StrictlyAscending(leq, out + [x]) && HasKey(leq, out + [x], x)
  {
    var y := init[|init| - 1];
    forall i | 0 <= i < |out|
      ensures leq(out[i], x) && !leq(x, out[i])
    {
      var a :| 0 <= a < |init| && init[a] == out[i];
      assert leq(y, y) && leq(out[i], y);
    }
    assert leq(x, x) && (out + [x])[|out|] == x;
  }

  method MergeDedupTile<T(!new)>(k: Kernels<T>, runs: seq<SpilledRun<T>>, same: (T, T) -> bool, offset: nat, limit: nat)
    returns (tile: seq<seq<T>>)
    requires Sound(k) && SortedRuns(k, runs) && |Content(runs)| <= U64_MAX
    ensures Flatten(tile) == Slice(Dedup(same, FullMerge(k.leq, k.pick, AllRows(runs))), offset, limit)
    ensures SameKey(k.leq, same) ==> exists all :: OnePerKey(k.leq, Content(runs), all) && Flatten(tile) == Slice(all, offset, limit)
  {
    var merged := DoMerge(k, runs, 0, U64_MAX);
    WholeMerge(k, runs);
    var deduped := DedupSortedBatches(same, merged);
    tile := SliceBatches.Cut(deduped, offset, limit);
    if SameKey(k.leq, same) {
      DedupedMerge(k, runs, same, Flatten(merged));
    }
  }

  lemma DedupedMerge<T(!new)>(k: Kernels<T>, runs: seq<SpilledRun<T>>, same: (T, T) -> bool, merged: seq<T>)
    requires Sound(k) && SameKey(k.leq, same) && Sorted(k.leq, merged) && multiset(merged) == multiset(Content(runs))
    ensures OnePerKey(k.leq, Content(runs), Dedup(same, merged))
  {
    DedupOfSorted(k.leq, same, merged);
    var out := Dedup(same, merged);
    forall i | 0 <= i < |out|
      ensures out[i] in Content(runs)
    {
      assert out[i] in multiset(merged);
    }
    forall i | 0 <= i < |Content(runs)|
      ensures HasKey(k.leq, out, Content(runs)[i])
    {
      assert Content(runs)[i] in multiset(merged);
      var j :| 0 <= j < |merged| && merged[j] == Content(runs)[i];
    }
  }
}
