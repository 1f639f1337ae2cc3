/** The value of each aggregate function on the non-null values of a group
    (`compute_agg` in crates/tv-engine/src/executor.rs), and why it depends only
    on which values there are and not on their order. */
module Aggregates {
  import opened Seqs
  import opened Sums
  import opened Exprs

  function MinR(a: real, b: real): real {
    if a <= b then a else b
  }

  function MaxR(a: real, b: real): real {
    if a >= b then a else b
  }

  function FoldMin(start: real, vals: seq<real>): real {
    if vals == [] then start else MinR(vals[0], FoldMin(start, vals[1..]))
  }

  function FoldMax(start: real, vals: seq<real>): real {
    if vals == [] then start else MaxR(vals[0], FoldMax(start, vals[1..]))
  }

  function InsertReal(x: real, sorted: seq<real>): (r: seq<real>)
    ensures |r| == |sorted| + 1
  {
    if sorted == [] || x <= sorted[0] then [x] + sorted else [sorted[0]] + InsertReal(x, sorted[1..])
  }

  function SortReals(vals: seq<real>): (r: seq<real>)
    ensures |r| == |vals|
  {
    if vals == [] then [] else InsertReal(vals[0], SortReals(vals[1..]))
  }

  predicate Ascending(vals: seq<real>) {
    forall i, j :: 0 <= i < j < |vals| ==> vals[i] <= vals[j]
  }

  /** `((p / 100) * (n - 1)).round() as usize`, clipped to the last index; the cast sends negatives to zero. */
  function PercentileIndex(p: real, n: nat): (idx: nat)
    requires n > 0
    ensures idx < n
  {
    var x := p / 100.0 * (n - 1) as real;
    if x < 0.0 then 0 else Min((x + 0.5).Floor, n - 1)
  }

  function MedianOf(sorted: seq<real>): real
    requires sorted != []
  {
    var mid := |sorted| / 2;
    if |sorted| % 2 == 0 then (sorted[mid - 1] + sorted[mid]) / 2.0 else sorted[mid]
  }

  /** The aggregate of a group's non-null values; `None` is SQL null. `maxFloat` is the
      largest finite float, the seed of the minimum and maximum folds. */
  function AggValue(fn: AggFn, vals: seq<real>, sqrt: real -> real, maxFloat: real): Option<real>
    requires !fn.CountDistinctFn?
  {
    if vals == [] then None else
    match fn
    case SumFn => Some(Sum(vals))
    case MinFn => Some(FoldMin(maxFloat, vals))
    case MaxFn => Some(FoldMax(-maxFloat, vals))
    case MeanFn => Some(Mean(vals))
    case MedianFn => Some(MedianOf(SortReals(vals)))
    case StdDevFn => if |vals| < 2 then None else Some(sqrt(Dev(vals, Mean(vals), 2) / (|vals| - 1) as real))
    case PercentileFn(p) => Some(SortReals(vals)[PercentileIndex(p, |vals|)])
  }

  // ---- order independence

  lemma {:induction false} InsertPermutes(x: real, sorted: seq<real>)
    ensures multiset(InsertReal(x, sorted)) == multiset{x} + multiset(sorted)
  {
    if sorted != [] && x > sorted[0] {
      InsertPermutes(x, sorted[1..]);
      assert sorted == [sorted[0]] + sorted[1..];
    }
  }

  lemma {:induction false} InsertKeepsAscending(x: real, sorted: seq<real>)
    requires Ascending(sorted)
    ensures Ascending(InsertReal(x, sorted))
  {
    if sorted != [] && x > sorted[0] {
      var rest := InsertReal(x, sorted[1..]);
      InsertKeepsAscending(x, sorted[1..]);
      InsertPermutes(x, sorted[1..]);
      forall j | 0 <= j < |rest|
        ensures sorted[0] <= rest[j]
      {
        assert rest[j] in multiset(rest);
        assert rest[j] == x || rest[j] in sorted[1..];
      }
    }
  }

  lemma {:induction false} SortIsAscendingPermutation(vals: seq<real>)
    ensures Ascending(SortReals(vals)) && multiset(SortReals(vals)) == multiset(vals)
  {
    if vals != [] {
      SortIsAscendingPermutation(vals[1..]);
      InsertPermutes(vals[0], SortReals(vals[1..]));
      InsertKeepsAscending(vals[0], SortReals(vals[1..]));
      assert vals == [vals[0]] + vals[1..];
    }
  }

  lemma HeadIsLeast(a: seq<real>, x: real)
    requires Ascending(a) && x in multiset(a)
    ensures a != [] && a[0] <= x
  {
    assert x in a;
  }

  lemma HeadAndTail(a: seq<real>)
    requires a != []
    ensures multiset(a) == multiset{a[0]} + multiset(a[1..])
    ensures Ascending(a) ==> Ascending(a[1..])
  {
    assert a == [a[0]] + a[1..];
  }

  lemma Cancel(x: real, m: multiset<real>, n: multiset<real>)
    requires multiset{x} + m == multiset{x} + n
    ensures m == n
  {
    assert m == multiset{x} + m - multiset{x};
    assert n == multiset{x} + n - multiset{x};
  }

  /** A multiset of real values has one ascending arrangement. */
  lemma {:induction false} AscendingUnique(a: seq<real>, b: seq<real>)
    requires Ascending(a) && Ascending(b) && multiset(a) == multiset(b)
    ensures a == b
  {
    if a == [] {
      assert |multiset(b)| == |b|;
    } else {
      assert a[0] in multiset(a);
      HeadIsLeast(b, a[0]);
      assert b[0] in multiset(b);
      HeadIsLeast(a, b[0]);
      HeadAndTail(a);
      HeadAndTail(b);
      Cancel(a[0], multiset(a[1..]), multiset(b[1..]));
      AscendingUnique(a[1..], b[1..]);
    }
  }

  lemma {:induction false} FoldsOfInsert(x: real, sorted: seq<real>, start: real, c: real, k: nat)
    ensures FoldMin(start, InsertReal(x, sorted)) == MinR(x, FoldMin(start, sorted))
    ensures FoldMax(start, InsertReal(x, sorted)) == MaxR(x, FoldMax(start, sorted))
    ensures Sum(InsertReal(x, sorted)) == x + Sum(sorted)
    ensures Dev(InsertReal(x, sorted), c, k) == Pow(x - c, k) + Dev(sorted, c, k)
  {
    if sorted == [] || x <= sorted[0] {
      assert ([x] + sorted)[1..] == sorted;
    } else {
      FoldsOfInsert(x, sorted[1..], start, c, k);
      assert ([sorted[0]] + InsertReal(x, sorted[1..]))[1..] == InsertReal(x, sorted[1..]);
    }
  }

  lemma {:induction false} FoldsOfSort(vals: seq<real>, start: real, c: real, k: nat)
    ensures FoldMin(start, SortReals(vals)) == FoldMin(start, vals)
    ensures FoldMax(start, SortReals(vals)) == FoldMax(start, vals)
    ensures Sum(SortReals(vals)) == Sum(vals)
    ensures Dev(SortReals(vals), c, k) == Dev(vals, c, k)
  {
    if vals != [] {
      FoldsOfSort(vals[1..], start, c, k);
      FoldsOfInsert(vals[0], SortReals(vals[1..]), start, c, k);
    }
  }

  /** Every aggregate is a function of the multiset of values. */
  lemma AggregatesIgnoreOrder(fn: AggFn, a: seq<real>, b: seq<real>, sqrt: real -> real, maxFloat: real)
    requires !fn.CountDistinctFn?
    requires multiset(a) == multiset(b)
    ensures AggValue(fn, a, sqrt, maxFloat) == AggValue(fn, b, sqrt, maxFloat)
  {
    SortIsAscendingPermutation(a);
    SortIsAscendingPermutation(b);
    AscendingUnique(SortReals(a), SortReals(b));
    assert |multiset(a)| == |a| && |multiset(b)| == |b|;
    forall start: real
      ensures FoldMin(start, a) == FoldMin(start, b) && FoldMax(start, a) == FoldMax(start, b)
      ensures Sum(a) == Sum(b)
    {
      FoldsOfSort(a, start, 0.0, 0);
      FoldsOfSort(b, start, 0.0, 0);
    }
    FoldsOfSort(a, 0.0, Mean(a), 2);
    FoldsOfSort(b, 0.0, Mean(b), 2);
  }
}
