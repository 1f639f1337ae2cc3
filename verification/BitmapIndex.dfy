/** The run-length row sets of crates/tv-engine/src/bitmap_index.rs: inserting merges runs in u32
    arithmetic, counting is summing lengths, and reading back undoes writing. */
module BitmapIndex {
  import opened Seqs
  import opened Orders
  import opened Bytes

  const MAX: nat := U32 - 1

  /** A run of rows, both ends included. */
  datatype Run = Run(start: nat, end: nat)

  predicate WellFormed(r: Run) {
    r.start <= r.end <= MAX
  }

  predicate Has(r: Run, x: nat) {
    r.start <= x <= r.end
  }

  ghost predicate InRuns(runs: seq<Run>, x: nat) {
    exists i :: 0 <= i < |runs| && Has(runs[i], x)
  }

  /** Sorted, disjoint and not even adjacent. */
  ghost predicate Canonical(runs: seq<Run>) {
    && (forall i :: 0 <= i < |runs| ==> WellFormed(runs[i]))
    && (forall i, j :: 0 <= i < j < |runs| ==> runs[i].end + 1 < runs[j].start)
  }

  // ---- insertion

  /** How `sort_unstable` compares pairs. */
  function Lex(): (Run, Run) -> bool {
    (a: Run, b: Run) => a.start < b.start || (a.start == b.start && a.end <= b.end)
  }

  /** One step of the merge loop, with the wrapping `last + 1`. */
  function Merge1(merged: seq<Run>, r: Run): seq<Run> {
    if merged != [] && r.start <= (merged[|merged| - 1].end + 1) % U32 then
      var last := merged[|merged| - 1];
      merged[|merged| - 1 := Run(last.start, if last.end >= r.end then last.end else r.end)]
    else merged + [r]
  }

  function MergeAll(merged: seq<Run>, rest: seq<Run>): seq<Run>
    decreases |rest|
  {
    if rest == [] then merged else MergeAll(Merge1(merged, rest[0]), rest[1..])
  }

  /** Inserting does not wrap: no run ends at the largest row, or the new row sorts before the one that does. */
  predicate InsertSafe(runs: seq<Run>, row: nat) {
    runs == [] ||
    (var last := runs[|runs| - 1];
    last.end < MAX || row < last.start || (row == last.start && row < MAX))
  }

  /** Only the last of the sorted runs may end at the largest row. */
  ghost predicate EndsBelow(sorted: seq<Run>) {
    && (forall i :: 0 <= i < |sorted| ==> WellFormed(sorted[i]))
    && (forall i, j :: 0 <= i < j < |sorted| ==> sorted[i].start <= sorted[j].start)
    && (forall i :: 0 <= i < |sorted| - 1 ==> sorted[i].end < MAX)
  }

  lemma SafeMeansEndsBelow(runs: seq<Run>, row: nat, sorted: seq<Run>)
    requires Canonical(runs) && row <= MAX && InsertSafe(runs, row)
    requires Sorted(Lex(), sorted) && multiset(sorted) == multiset(runs + [Run(row, row)])
    ensures EndsBelow(sorted)
  {
    var all := runs + [Run(row, row)];
    forall i | 0 <= i < |sorted|
      ensures WellFormed(sorted[i])
    {
      assert sorted[i] in multiset(all);
    }
    forall i, j | 0 <= i < j < |sorted|
      ensures sorted[i].start <= sorted[j].start
    {
      assert Lex()(sorted[i], sorted[j]);
    }
    forall i | 0 <= i < |sorted| - 1
      ensures sorted[i].end < MAX
    {
      MaxComesLast(runs, row, sorted, i, i + 1);
    }
  }

  /** Of two different places among the runs and the new row, the one that sorts first ends below the largest row. */
  lemma AheadEndsBelow(runs: seq<Run>, row: nat, all: seq<Run>, p: nat, q: nat)
    requires Canonical(runs) && row <= MAX && InsertSafe(runs, row) && all == runs + [Run(row, row)]
    requires p < |all| && q < |all| && p != q && Lex()(all[p], all[q])
    ensures all[p].end < MAX
  {
    var n := |runs|;
    if p < n && q < n {
      assert runs[p] == all[p] && runs[q] == all[q];
    } else if p < n {
      assert runs[p] == all[p] && all[q] == Run(row, row);
      assert p < n - 1 ==> runs[p].end + 1 < runs[n - 1].start;
    } else {
      assert all[p] == Run(row, row) && runs[q] == all[q];
      assert q < n - 1 ==> runs[q].end + 1 < runs[n - 1].start;
    }
  }

  /** When inserting is safe, nothing sorts after a run that ends at the largest row. */
  lemma MaxComesLast(runs: seq<Run>, row: nat, sorted: seq<Run>, i: nat, j: nat)
    requires Canonical(runs) && row <= MAX && InsertSafe(runs, row)
    requires Sorted(Lex(), sorted) && multiset(sorted) == multiset(runs + [Run(row, row)])
    requires i < j < |sorted|
    ensures sorted[i].end < MAX
  {
    var all := runs + [Run(row, row)];
    var a, b := sorted[i], sorted[j];
    assert Lex()(a, b);
    if a == b {
      TwoOfThem(all, sorted, i, j);
      var p, q :| 0 <= p < q < |all| && all[p] == a && all[q] == a;
      AheadEndsBelow(runs, row, all, p, q);
    } else {
      assert a in multiset(all) && b in multiset(all);
      var p :| 0 <= p < |all| && all[p] == a;
      var q :| 0 <= q < |all| && all[q] == b;
      AheadEndsBelow(runs, row, all, p, q);
    }
  }

  /** Equal neighbours in the sorted runs: the new row was a run already. */
  lemma TwoOfThem(all: seq<Run>, sorted: seq<Run>, i: nat, j: nat)
    requires multiset(sorted) == multiset(all) && i < j < |sorted| && sorted[i] == sorted[j]
    ensures exists p, q :: 0 <= p < q < |all| && all[p] == sorted[i] && all[q] == sorted[i]
  {
    CountsTwice(sorted, i, j);
    var p, q := TwoPlaces(all, sorted[i]);
  }

  lemma CountsTwice<T>(s: seq<T>, i: nat, j: nat)
    requires i < j < |s| && s[i] == s[j]
    ensures multiset(s)[s[i]] >= 2
  {
    RemoveOneCounts(s, i);
    assert (s[..i] + s[i + 1..])[j - 1] == s[j];
  }

  lemma TwoPlaces<T>(s: seq<T>, x: T) returns (p: nat, q: nat)
    requires multiset(s)[x] >= 2
    ensures p < q < |s| && s[p] == x == s[q]
  {
    assert x in multiset(s);
    var i :| 0 <= i < |s| && s[i] == x;
    var rest := s[..i] + s[i + 1..];
    RemoveOneCounts(s, i);
    assert x in multiset(rest);
    var k :| 0 <= k < |rest| && rest[k] == x;
    if k < i {
      p, q := k, i;
    } else {
      p, q := i, k + 1;
    }
  }

  lemma RemoveOneCounts<T>(s: seq<T>, p: nat)
    requires p < |s|
    ensures multiset(s) == multiset{s[p]} + multiset(s[..p] + s[p + 1..])
  {
    assert s == s[..p] + [s[p]] + s[p + 1..];
  }

  // ---- the merge loop

  lemma InRunsPush(runs: seq<Run>, r: Run, x: nat)
    ensures InRuns(runs + [r], x) <==> InRuns(runs, x) || Has(r, x)
  {
    var all := runs + [r];
    if InRuns(runs, x) {
      var i :| 0 <= i < |runs| && Has(runs[i], x);
      assert all[i] == runs[i];
    }
    if Has(r, x) {
      assert all[|runs|] == r;
    }
  }

  /** The runs merged from the first `i` sorted runs. */
  ghost predicate MergedSoFar(merged: seq<Run>, sorted: seq<Run>, i: nat) {
    && i <= |sorted| && Canonical(merged) && (merged == [] <==> i == 0)
    && (i > 0 && merged != [] ==> merged[|merged| - 1].start <= sorted[i - 1].start)
    && (i < |sorted| && merged != [] ==> merged[|merged| - 1].end < MAX)
    && (forall x: nat :: InRuns(merged, x) <==> InRuns(sorted[..i], x))
  }

  lemma MergeNext(merged: seq<Run>, sorted: seq<Run>, i: nat)
    requires MergedSoFar(merged, sorted, i) && EndsBelow(sorted) && i < |sorted|
    ensures MergedSoFar(Merge1(merged, sorted[i]), sorted, i + 1)
  {
    var r, next := sorted[i], Merge1(merged, sorted[i]);
    assert i > 0 ==> sorted[i - 1].start <= r.start;
    assert sorted[..i + 1] == sorted[..i] + [r];
    assert merged != [] ==> (merged[|merged| - 1].end + 1) % U32 == merged[|merged| - 1].end + 1;
    forall x: nat
      ensures InRuns(next, x) <==> InRuns(sorted[..i + 1], x)
    {
      InRunsPush(sorted[..i], r, x);
      if merged != [] {
        assert merged == merged[..|merged| - 1] + [merged[|merged| - 1]];
        InRunsPush(merged[..|merged| - 1], merged[|merged| - 1], x);
        InRunsPush(merged[..|merged| - 1], next[|merged| - 1], x);
        assert next == merged + [r] || next == merged[..|merged| - 1] + [next[|merged| - 1]];
      }
      InRunsPush(merged, r, x);
    }
  }

  lemma MergeAllNext(merged: seq<Run>, sorted: seq<Run>, i: nat)
    requires i < |sorted|
    ensures MergeAll(merged, sorted[i..]) == MergeAll(Merge1(merged, sorted[i]), sorted[i + 1..])
  {
    assert sorted[i..][0] == sorted[i] && sorted[i..][1..] == sorted[i + 1..];
  }

  /** Safe merging yields canonical runs with the same rows. */
  lemma {:induction false} SafeMerge(merged: seq<Run>, sorted: seq<Run>, i: nat)
    requires MergedSoFar(merged, sorted, i) && EndsBelow(sorted)
    ensures MergedSoFar(MergeAll(merged, sorted[i..]), sorted, |sorted|)
    decreases |sorted| - i
  {
    if i == |sorted| {
      assert sorted[i..] == [];
    } else {
      var next := Merge1(merged, sorted[i]);
      assert MergedSoFar(next, sorted, i + 1) by {
        MergeNext(merged, sorted, i);
      }
      SafeMerge(next, sorted, i + 1);
      MergeAllNext(merged, sorted, i);
    }
  }

  lemma {:induction false} MergeAllAppend(merged: seq<Run>, a: seq<Run>, b: seq<Run>)
    ensures MergeAll(merged, a + b) == MergeAll(MergeAll(merged, a), b)
    decreases |a|
  {
    if a == [] {
      assert a + b == b;
    } else {
      assert (a + b)[0] == a[0] && (a + b)[1..] == a[1..] + b;
      MergeAllAppend(Merge1(merged, a[0]), a[1..], b);
    }
  }

  /** Canonical runs merge to themselves. */
  lemma {:induction false} MergeCanonical(runs: seq<Run>, i: nat)
    requires Canonical(runs) && i <= |runs|
    ensures MergeAll(runs[..i], runs[i..]) == runs
    decreases |runs| - i
  {
    if i < |runs| {
      assert i > 0 ==> runs[..i][i - 1] == runs[i - 1] && runs[i - 1].end + 1 < runs[i].start;
      assert Merge1(runs[..i], runs[i]) == runs[..i + 1];
      MergeCanonical(runs, i + 1);
      assert runs[i..][0] == runs[i] && runs[i..][1..] == runs[i + 1..];
    } else {
      assert runs[i..] == [] && runs[..i] == runs;
    }
  }

  lemma LexIsTotal()
    ensures TotalPreorder(Lex())
  {
    var lex := Lex();
    forall a: Run, b: Run
      ensures lex(a, b) || lex(b, a)
    {
    }
    forall a: Run, b: Run, c: Run | lex(a, b) && lex(b, c)
      ensures lex(a, c)
    {
    }
  }

  lemma UnsafeRowSortsLast(runs: seq<Run>, row: nat)
    requires Canonical(runs) && row <= MAX && !InsertSafe(runs, row)
    ensures Sorted(Lex(), runs + [Run(row, row)])
  {
    var all, last := runs + [Run(row, row)], runs[|runs| - 1];
    forall i, j | 0 <= i < j < |all|
      ensures Lex()(all[i], all[j])
    {
      if j < |runs| {
        assert runs[i].end + 1 < runs[j].start;
      } else if i < |runs| - 1 {
        assert runs[i].end + 1 < last.start;
      }
    }
  }

  /** When inserting is not safe, the wrapped comparison leaves the row as a run of its own inside the last run. */
  lemma UnsafeMerge(runs: seq<Run>, row: nat, sorted: seq<Run>)
    requires Canonical(runs) && row <= MAX && !InsertSafe(runs, row)
    requires Sorted(Lex(), sorted) && multiset(sorted) == multiset(runs + [Run(row, row)])
    ensures MergeAll([], sorted) == runs + [Run(row, row)] && !Canonical(runs + [Run(row, row)])
  {
    var all, last := runs + [Run(row, row)], runs[|runs| - 1];
    LexIsTotal();
    UnsafeRowSortsLast(runs, row);
    assert |multiset(sorted)| == |multiset(all)|;
    forall i | 0 <= i < |sorted|
      ensures sorted[i] == all[i]
    {
      SortedArrangementsAgree(Lex(), sorted, all, i);
    }
    assert sorted == all;
    LastIsPushed(runs, row);
    assert all[|runs| - 1].end + 1 >= all[|runs|].start;
  }

  lemma LastIsPushed(runs: seq<Run>, row: nat)
    requires Canonical(runs) && row <= MAX && !InsertSafe(runs, row)
    ensures MergeAll([], runs + [Run(row, row)]) == runs + [Run(row, row)]
  {
    MergeSelf(runs);
    MergeAllAppend([], runs, [Run(row, row)]);
    MergeOne(runs, Run(row, row));
    WrappedAddition(runs[|runs| - 1], row);
  }

  lemma MergeSelf(runs: seq<Run>)
    requires Canonical(runs)
    ensures MergeAll([], runs) == runs
  {
    MergeCanonical(runs, 0);
    assert runs[..0] == [] && runs[0..] == runs;
  }

  lemma MergeOne(merged: seq<Run>, r: Run)
    ensures MergeAll(merged, [r]) == Merge1(merged, r)
  {
    assert [r][1..] == [];
  }

  lemma WrappedAddition(last: Run, row: nat)
    requires last.end == MAX && row >= last.start && (row > last.start || row >= MAX)
    ensures row > (last.end + 1) % U32
  {
  }

  class RoaringLike {
    var runs: seq<Run>

    constructor ()
      ensures runs == []
    {
      runs := [];
    }

    /** `insert`: adds the row to the set and keeps the runs canonical, exactly when no addition wraps. */
    method Insert(row: nat, sort: seq<Run> -> seq<Run>)
      requires Canonical(runs) && row <= MAX && Sorts(Lex(), sort)
      modifies this
      ensures Canonical(runs) <==> InsertSafe(old(runs), row)
      ensures InsertSafe(old(runs), row) ==> forall x: nat :: InRuns(runs, x) <==> InRuns(old(runs), x) || x == row
    {
      ghost var before := runs;
      runs := runs + [Run(row, row)];
      var sorted := sort(runs);
      var merged: seq<Run> := [];
      assert sorted[0..] == sorted;
      for i := 0 to |sorted|
        invariant MergeAll(merged, sorted[i..]) == MergeAll([], sorted)
      {
        var r := sorted[i];
        assert sorted[i..][0] == r && sorted[i..][1..] == sorted[i + 1..];
        if merged != [] && r.start <= (merged[|merged| - 1].end + 1) % U32 {
          var last := merged[|merged| - 1];
          merged := merged[|merged| - 1 := Run(last.start, if last.end >= r.end then last.end else r.end)];
        } else {
          merged := merged + [r];
        }
      }
      runs := merged;
      InsertedRuns(before, row, sorted);
    }

    /** `count`, in u32 arithmetic for each run. */
    method Count() returns (count: nat)
      requires Canonical(runs)
      ensures runs != [Run(0, MAX)] ==> count == |Rows(runs)|
      ensures runs == [Run(0, MAX)] ==> count == 0
    {
      count := 0;
      for i := 0 to |runs|
        invariant runs != [Run(0, MAX)] ==> count == |Rows(runs[..i])|
        invariant runs == [Run(0, MAX)] ==> count == 0
      {
        RowsNext(runs, i);
        WholeRange(runs, i);
        count := count + (runs[i].end - runs[i].start + 1) % U32;
      }
      assert runs[..|runs|] == runs;
    }
  }

  lemma InsertedRuns(before: seq<Run>, row: nat, sorted: seq<Run>)
    requires Canonical(before) && row <= MAX
    requires Sorted(Lex(), sorted) && multiset(sorted) == multiset(before + [Run(row, row)])
    ensures Canonical(MergeAll([], sorted)) <==> InsertSafe(before, row)
    ensures InsertSafe(before, row) ==> forall x: nat :: InRuns(MergeAll([], sorted), x) <==> InRuns(before, x) || x == row
  {
    if InsertSafe(before, row) {
      SafeMeansEndsBelow(before, row, sorted);
      assert sorted[..0] == [] && sorted[0..] == sorted && sorted[..|sorted|] == sorted;
      SafeMerge([], sorted, 0);
      forall x: nat
        ensures InRuns(MergeAll([], sorted), x) <==> InRuns(before, x) || x == row
      {
        InRunsPush(before, Run(row, row), x);
        SameRows(sorted, before + [Run(row, row)], x);
      }
    } else {
      UnsafeMerge(before, row, sorted);
    }
  }

  lemma SameRows(a: seq<Run>, b: seq<Run>, x: nat)
    requires multiset(a) == multiset(b)
    ensures InRuns(a, x) <==> InRuns(b, x)
  {
    if InRuns(a, x) {
      var i :| 0 <= i < |a| && Has(a[i], x);
      assert a[i] in multiset(b);
    }
    if InRuns(b, x) {
      var i :| 0 <= i < |b| && Has(b[i], x);
      assert b[i] in multiset(a);
    }
  }

  // ---- the rows of a set

  function RunRows(r: Run): seq<nat>
    requires r.start <= r.end
  {
    seq(r.end - r.start + 1, i requires 0 <= i < r.end - r.start + 1 => r.start + i)
  }

  /** `iter_rows`: every run's rows in turn. */
  function Rows(runs: seq<Run>): seq<nat> {
    if runs == [] then [] else (if runs[0].start <= runs[0].end then RunRows(runs[0]) else []) + Rows(runs[1..])
  }

  lemma RowsNext(runs: seq<Run>, i: nat)
    requires i < |runs| && Canonical(runs)
    ensures |Rows(runs[..i + 1])| == |Rows(runs[..i])| + runs[i].end - runs[i].start + 1
  {
    assert runs[..i + 1] == runs[..i] + [runs[i]];
    RowsAppend(runs[..i], [runs[i]]);
    assert [runs[i]][1..] == [];
  }

  lemma {:induction false} RowsAppend(a: seq<Run>, b: seq<Run>)
    ensures Rows(a + b) == Rows(a) + Rows(b)
  {
    if a == [] {
      assert a + b == b;
    } else {
      assert (a + b)[1..] == a[1..] + b;
      RowsAppend(a[1..], b);
    }
  }

  /** A run's length wraps only when it holds every row there is, and then it is the only run. */
  lemma WholeRange(runs: seq<Run>, i: nat)
    requires i < |runs| && Canonical(runs)
    ensures runs[i].end - runs[i].start + 1 < U32 || runs == [Run(0, MAX)]
  {
    assert i == 0 || runs[0].end + 1 < runs[i].start;
    assert |runs| == 1 || runs[0].end + 1 < runs[1].start <= runs[1].end <= MAX;
    if runs[i] == Run(0, MAX) {
      assert runs == [runs[0]];
    }
  }

  /** The rows that come out are the rows of the set. */
  lemma {:induction false} RowsAreTheSet(runs: seq<Run>, x: nat)
    requires forall i :: 0 <= i < |runs| ==> WellFormed(runs[i])
    ensures x in Rows(runs) <==> InRuns(runs, x)
  {
    if runs != [] {
      RowsAreTheSet(runs[1..], x);
      assert runs == [runs[0]] + runs[1..];
      InRunsCons(runs[0], runs[1..], x);
      RunMember(runs[0], x);
    }
  }

  /** And they come out strictly ascending, each row once. */
  lemma {:induction false} RowsAscend(runs: seq<Run>)
    requires Canonical(runs)
    ensures forall i, j :: 0 <= i < j < |Rows(runs)| ==> Rows(runs)[i] < Rows(runs)[j]
  {
    if runs != [] {
      RowsAscend(runs[1..]);
      var later := Rows(runs[1..]);
      forall i | 0 <= i < |later|
        ensures runs[0].end < later[i]
      {
        LaterRows(runs, later[i]);
      }
    }
  }

  lemma LaterRows(runs: seq<Run>, x: nat)
    requires Canonical(runs) && runs != [] && x in Rows(runs[1..])
    ensures runs[0].end < x
  {
    RowsAreTheSet(runs[1..], x);
    var k :| 0 <= k < |runs[1..]| && Has(runs[1..][k], x);
    assert runs[0].end + 1 < runs[k + 1].start;
  }

  lemma RunMember(r: Run, x: nat)
    requires r.start <= r.end
    ensures x in RunRows(r) <==> Has(r, x)
  {
    if Has(r, x) {
      assert RunRows(r)[x - r.start] == x;
    }
  }

  lemma InRunsCons(r: Run, rest: seq<Run>, x: nat)
    ensures InRuns([r] + rest, x) <==> Has(r, x) || InRuns(rest, x)
  {
    var all := [r] + rest;
    if Has(r, x) {
      assert all[0] == r;
    }
    if InRuns(rest, x) {
      var i :| 0 <= i < |rest| && Has(rest[i], x);
      assert all[i + 1] == rest[i];
    }
  }

  // ---- on disk

  function SerializeRuns(runs: seq<Run>): seq<Byte> {
    if runs == [] then [] else LittleEndian(runs[0].start, 4) + LittleEndian(runs[0].end, 4) + SerializeRuns(runs[1..])
  }

  function Serialize(runs: seq<Run>): seq<Byte> {
    LittleEndian(|runs|, 4) + SerializeRuns(runs)
  }

  /** Reads `n` runs; `None` when the bytes end early. */
  function DeserializeRuns(bytes: seq<Byte>, n: nat): Option<(seq<Run>, seq<Byte>)> {
    if n == 0 then Some(([], bytes))
    else if |bytes| < 8 then None
    else
      var rest := DeserializeRuns(bytes[8..], n - 1);
      if rest.None? then None else Some(([Run(Decoded(bytes[..4]), Decoded(bytes[4..8]))] + rest.value.0, rest.value.1))
  }

  function Deserialize(bytes: seq<Byte>): Option<(seq<Run>, seq<Byte>)> {
    if |bytes| < 4 then None else DeserializeRuns(bytes[4..], Decoded(bytes[..4]))
  }

  lemma RunReadsBack(r: Run, more: seq<Byte>)
    requires r.start < U32 && r.end < U32
    ensures var bytes := LittleEndian(r.start, 4) + LittleEndian(r.end, 4) + more;
            Decoded(bytes[..4]) == r.start && Decoded(bytes[4..8]) == r.end && bytes[8..] == more
  {
    var bytes := LittleEndian(r.start, 4) + LittleEndian(r.end, 4) + more;
    FourBytes();
    DecodeEncode(r.start, 4);
    DecodeEncode(r.end, 4);
    assert bytes[..4] == LittleEndian(r.start, 4) && bytes[4..8] == LittleEndian(r.end, 4);
  }

  lemma {:induction false} RunsReadBack(runs: seq<Run>, more: seq<Byte>)
    requires forall i :: 0 <= i < |runs| ==> runs[i].start < U32 && runs[i].end < U32
    ensures DeserializeRuns(SerializeRuns(runs) + more, |runs|) == Some((runs, more))
  {
    if runs == [] {
      assert SerializeRuns(runs) + more == more;
    } else {
      var rest := SerializeRuns(runs[1..]) + more;
      RunReadsBack(runs[0], rest);
      Reassociate(LittleEndian(runs[0].start, 4) + LittleEndian(runs[0].end, 4), SerializeRuns(runs[1..]), more);
      RunsReadBack(runs[1..], more);
      assert runs == [runs[0]] + runs[1..];
    }
  }

  /** Reading back a canonical set undoes writing it, and leaves the bytes behind it. */
  lemma DeserializeUndoesSerialize(runs: seq<Run>, more: seq<Byte>)
    requires Canonical(runs) && |runs| < U32
    ensures Deserialize(Serialize(runs) + more) == Some((runs, more))
  {
    var bytes := Serialize(runs) + more;
    FourBytes();
    DecodeEncode(|runs|, 4);
    assert bytes[..4] == LittleEndian(|runs|, 4) && bytes[4..] == SerializeRuns(runs) + more;
    RunsReadBack(runs, more);
  }
}
