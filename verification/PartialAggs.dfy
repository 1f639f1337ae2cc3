/** The accumulators of crates/tv-engine/src/streaming_agg.rs (`PartialAgg`), and
    the proof that feeding one a group's values one at a time finalises to the value
    `compute_agg` computes from all of them at once. */
module PartialAggs {
  import opened Seqs
  import opened Sums
  import opened Exprs
  import opened Aggregates
  import opened Moments

  datatype PartialAgg =
    | CountAcc(count: nat)
    | DistinctAcc(seen: seq<string>)
    | SumAcc(total: Option<real>)
    | MinAcc(least: Option<real>)
    | MaxAcc(greatest: Option<real>)
    | MeanAcc(n: nat, sum: real)
    | StdDevAcc(n: nat, sum: real, m2: real)
    | MedianAcc(vals: seq<real>)
    | PercentileAcc(vals: seq<real>, p: real)

  /** What one row hands an accumulator: the cell as a number and as text. */
  datatype Input = Input(value: Option<real>, text: Option<string>)

  function NewFor(agg: AggExpr): PartialAgg {
    match agg
    case Count(_) => CountAcc(0)
    case Agg(fn, _, _) =>
      match fn
      case CountDistinctFn => DistinctAcc([])
      case SumFn => SumAcc(None)
      case MinFn => MinAcc(None)
      case MaxFn => MaxAcc(None)
      case MeanFn => MeanAcc(0, 0.0)
      case StdDevFn => StdDevAcc(0, 0.0, 0.0)
      case MedianFn => MedianAcc([])
      case PercentileFn(p) => PercentileAcc([], p)
  }

  function Update(acc: PartialAgg, x: Input): PartialAgg {
    match acc
    case CountAcc(count) => CountAcc(count + 1)
    case DistinctAcc(seen) =>
      if x.text.Some? && x.text.value !in seen then DistinctAcc(seen + [x.text.value]) else acc
    case _ => if x.value.None? then acc else UpdateNumber(acc, x.value.value)
  }

  function UpdateNumber(acc: PartialAgg, v: real): PartialAgg
    requires !acc.CountAcc? && !acc.DistinctAcc?
  {
    match acc
    case SumAcc(total) => SumAcc(Some((if total.None? then 0.0 else total.value) + v))
    case MinAcc(least) => MinAcc(Some(if least.None? then v else MinR(least.value, v)))
    case MaxAcc(greatest) => MaxAcc(Some(if greatest.None? then v else MaxR(greatest.value, v)))
    case MeanAcc(n, sum) => MeanAcc(n + 1, sum + v)
    case StdDevAcc(n, sum, m2) =>
      var oldMean := if n + 1 > 1 then Ratio(sum, n) else 0.0;
      var newMean := Ratio(sum + v, n + 1);
      StdDevAcc(n + 1, sum + v, m2 + Spread(v, oldMean, newMean))
    case MedianAcc(vals) => MedianAcc(vals + [v])
    case PercentileAcc(vals, p) => PercentileAcc(vals + [v], p)
  }

  function Ratio(sum: real, n: nat): real
    requires n > 0
  {
    sum / n as real
  }

  /** The deviation from the old mean times the deviation from the new one. */
  function Spread(v: real, oldMean: real, newMean: real): real {
    (v - oldMean) * (v - newMean)
  }

  /** `finalize_i64`. */
  function FinalCount(acc: PartialAgg): Option<nat> {
    match acc
    case CountAcc(count) => Some(count)
    case DistinctAcc(seen) => Some(|seen|)
    case _ => None
  }

  /** `finalize_f64`. */
  function FinalNumber(acc: PartialAgg, sqrt: real -> real): Option<real> {
    match acc
    case SumAcc(total) => total
    case MinAcc(least) => least
    case MaxAcc(greatest) => greatest
    case MeanAcc(n, sum) => if n == 0 then None else Some(Ratio(sum, n))
    case StdDevAcc(n, _, m2) => if n < 2 then None else Some(sqrt(Ratio(m2, n - 1)))
    case MedianAcc(vals) => if vals == [] then None else Some(MedianOf(SortReals(vals)))
    case PercentileAcc(vals, p) => if vals == [] then None else Some(SortReals(vals)[PercentileIndex(p, |vals|)])
    case _ => None
  }

  // ---- a run of updates

  /** The accumulator after the inputs, in order. */
  function Feed(agg: AggExpr, inputs: seq<Input>): PartialAgg {
    if inputs == [] then NewFor(agg) else Update(Feed(agg, inputs[..|inputs| - 1]), inputs[|inputs| - 1])
  }

  /** The numbers among the inputs. */
  function Numbers(inputs: seq<Input>): seq<real> {
    if inputs == [] then []
    else
      var x := inputs[|inputs| - 1];
      Numbers(inputs[..|inputs| - 1]) + if x.value.Some? then [x.value.value] else []
  }

  function Texts(inputs: seq<Input>): set<string> {
    set i | 0 <= i < |inputs| && inputs[i].text.Some? :: inputs[i].text.value
  }

  /** No value lies beyond the largest finite float, the seed of the executor's folds. */
  ghost predicate Finite(vals: seq<real>, maxFloat: real) {
    forall i :: 0 <= i < |vals| ==> -maxFloat <= vals[i] <= maxFloat
  }

  lemma {:induction false} FoldsOfLast(vals: seq<real>, v: real, lo: real, hi: real)
    ensures FoldMin(hi, vals + [v]) == MinR(FoldMin(hi, vals), v)
    ensures FoldMax(lo, vals + [v]) == MaxR(FoldMax(lo, vals), v)
  {
    if vals == [] {
      assert [] + [v] == [v] && [v][1..] == [];
    } else {
      assert (vals + [v])[1..] == vals[1..] + [v];
      FoldsOfLast(vals[1..], v, lo, hi);
    }
  }

  lemma SumOfNext(vals: seq<real>, v: real)
    ensures Sum(vals + [v]) == Sum(vals) + v
  {
    SumAppend(vals, [v]);
    assert [v][1..] == [] && Sum([v]) == v;
  }

  lemma MeanIsRatio(vals: seq<real>)
    requires vals != []
    ensures Mean(vals) == Ratio(Sum(vals), |vals|)
  {
  }

  /** The mean after one more value, as one step from the old mean. */
  lemma MeanStep(vals: seq<real>, v: real, n: real, u: real)
    requires n == |vals| as real + 1.0 && v - Mean(vals) == u * n
    ensures Mean(vals + [v]) == Mean(vals) + u == v - |vals| as real * u
  {
    MeanMerged(vals, [v], n);
    MomentsOfOne(v);
    MeanAlgebra(|vals| as real, 1.0, n, Mean(vals), v, u);
  }

  lemma WelfordAlgebra(v: real, mean: real, n1: real, u: real, d: real, x2: real)
    requires mean + u == v - n1 * u && d == -u
    ensures Moved2(x2, n1, d) + Pow(v - (mean + u), 2) == x2 + Spread(v, mean, mean + u)
  {
    PowSmall(v - (mean + u));
    assert d * d == u * u;
    assert v - mean == u * n1 + u;
    assert (u * n1 + u) * (u * n1) == n1 * (u * u) + (u * n1) * (u * n1);
  }

  lemma DevAboutNewMean(vals: seq<real>, v: real, m: real, d: real)
    requires m == Mean(vals) - d
    ensures Dev(vals + [v], m, 2) == Moved2(Dev(vals, Mean(vals), 2), |vals| as real, d) + Pow(v - m, 2)
  {
    DevAppend(vals, [v], m, 2);
    assert [v][1..] == [] && Dev([v], m, 2) == Pow(v - m, 2) + Dev([], m, 2);
    ShiftFromMean2(vals, d);
  }

  /** The incremental second moment is the two-pass sum of squared deviations. */
  lemma StdDevStep(vals: seq<real>, v: real, n: real, u: real)
    requires n == |vals| as real + 1.0 && v - Mean(vals) == u * n
    ensures Mean(vals + [v]) == Mean(vals) + u
    ensures Dev(vals + [v], Mean(vals + [v]), 2) == Dev(vals, Mean(vals), 2) + Spread(v, Mean(vals), Mean(vals) + u)
  {
    MeanStep(vals, v, n, u);
    WelfordAlgebra(v, Mean(vals), |vals| as real, u, -u, Dev(vals, Mean(vals), 2));
    DevAboutNewMean(vals, v, Mean(vals + [v]), -u);
  }

  /** What an accumulator of `fn` holds after the values `vals`. */
  ghost predicate Holding(acc: PartialAgg, fn: AggFn, vals: seq<real>, maxFloat: real) {
    match fn
    case CountDistinctFn => acc.DistinctAcc?
    case SumFn => acc == SumAcc(if vals == [] then None else Some(Sum(vals)))
    case MinFn => acc == MinAcc(if vals == [] then None else Some(FoldMin(maxFloat, vals)))
    case MaxFn => acc == MaxAcc(if vals == [] then None else Some(FoldMax(-maxFloat, vals)))
    case MeanFn => acc == MeanAcc(|vals|, Sum(vals))
    case StdDevFn => acc == StdDevAcc(|vals|, Sum(vals), Dev(vals, Mean(vals), 2))
    case MedianFn => acc == MedianAcc(vals)
    case PercentileFn(p) => acc == PercentileAcc(vals, p)
  }

  lemma HoldingNext(acc: PartialAgg, fn: AggFn, vals: seq<real>, v: real, maxFloat: real)
    requires !fn.CountDistinctFn? && Holding(acc, fn, vals, maxFloat) && -maxFloat <= v <= maxFloat
    ensures Holding(UpdateNumber(acc, v), fn, vals + [v], maxFloat)
  {
    SumOfNext(vals, v);
    if fn.StdDevFn? {
      StdDevNext(acc, vals, v, maxFloat);
    } else {
      FoldsOfLast(vals, v, -maxFloat, maxFloat);
    }
  }

  lemma StdDevNext(acc: PartialAgg, vals: seq<real>, v: real, maxFloat: real)
    requires Holding(acc, StdDevFn, vals, maxFloat)
    ensures Holding(UpdateNumber(acc, v), StdDevFn, vals + [v], maxFloat)
  {
    var n := |vals| as real + 1.0;
    var u := (v - Mean(vals)) / n;
    SumOfNext(vals, v);
    MeanIsRatio(vals + [v]);
    assert vals != [] ==> Mean(vals) == Ratio(Sum(vals), |vals|) by {
      if vals != [] { MeanIsRatio(vals); }
    }
    Undo(v - Mean(vals), n, u);
    StdDevStep(vals, v, n, u);
  }

  lemma Undo(a: real, n: real, u: real)
    requires n > 0.0 && u == a / n
    ensures a == u * n
  {
  }

  lemma {:induction false} FeedHolds(fn: AggFn, column: string, alias: string, inputs: seq<Input>, maxFloat: real)
    requires !fn.CountDistinctFn? && Finite(Numbers(inputs), maxFloat)
    ensures Holding(Feed(Agg(fn, column, alias), inputs), fn, Numbers(inputs), maxFloat)
  {
    if inputs != [] {
      var before, x := inputs[..|inputs| - 1], inputs[|inputs| - 1];
      FiniteNext(inputs, maxFloat);
      FeedHolds(fn, column, alias, before, maxFloat);
      if x.value.Some? {
        HoldingNext(Feed(Agg(fn, column, alias), before), fn, Numbers(before), x.value.value, maxFloat);
      }
    }
  }

  lemma FiniteNext(inputs: seq<Input>, maxFloat: real)
    requires inputs != [] && Finite(Numbers(inputs), maxFloat)
    ensures var before, x := Numbers(inputs[..|inputs| - 1]), inputs[|inputs| - 1].value;
            && Finite(before, maxFloat) && Numbers(inputs) == before + (if x.Some? then [x.value] else [])
            && (x.None? ==> Numbers(inputs) == before) && (x.Some? ==> -maxFloat <= x.value <= maxFloat)
  {
    var before, x := Numbers(inputs[..|inputs| - 1]), inputs[|inputs| - 1].value;
    forall i | 0 <= i < |before|
      ensures -maxFloat <= before[i] <= maxFloat
    {
      assert Numbers(inputs)[i] == before[i];
    }
    if x.Some? {
      assert Numbers(inputs)[|before|] == x.value;
    }
  }

  /** One pass over a group's values finalises to the aggregate of the whole group,
      the standard deviation included. */
  lemma FinalNumberIsAggValue(fn: AggFn, column: string, alias: string, inputs: seq<Input>, sqrt: real -> real, maxFloat: real)
    requires !fn.CountDistinctFn? && Finite(Numbers(inputs), maxFloat)
    ensures FinalNumber(Feed(Agg(fn, column, alias), inputs), sqrt) == AggValue(fn, Numbers(inputs), sqrt, maxFloat)
  {
    FeedHolds(fn, column, alias, inputs, maxFloat);
  }

  lemma {:induction false} FeedCounts(alias: string, inputs: seq<Input>)
    ensures Feed(Count(alias), inputs) == CountAcc(|inputs|)
  {
    if inputs != [] {
      FeedCounts(alias, inputs[..|inputs| - 1]);
    }
  }

  ghost predicate Lists(seen: seq<string>, texts: set<string>) {
    && (forall i, j :: 0 <= i < j < |seen| ==> seen[i] != seen[j])
    && (set i | 0 <= i < |seen| :: seen[i]) == texts
  }

  lemma {:induction false} ListsSize(seen: seq<string>, texts: set<string>)
    requires Lists(seen, texts)
    ensures |seen| == |texts|
  {
    if seen != [] {
      var last := |seen| - 1;
      var rest := set i | 0 <= i < last :: seen[i];
      assert texts == rest + {seen[last]};
      ListsSize(seen[..last], rest);
    }
  }

  /** The list of distinct texts holds each text once. */
  lemma {:induction false} FeedListsTexts(column: string, alias: string, inputs: seq<Input>)
    ensures Feed(Agg(CountDistinctFn, column, alias), inputs).DistinctAcc?
    ensures Lists(Feed(Agg(CountDistinctFn, column, alias), inputs).seen, Texts(inputs))
  {
    if inputs != [] {
      var before, x := inputs[..|inputs| - 1], inputs[|inputs| - 1];
      FeedListsTexts(column, alias, before);
      var seen := Feed(Agg(CountDistinctFn, column, alias), before).seen;
      assert inputs == before + [x];
      if x.text.Some? {
        TextsNext(before, x);
        if x.text.value !in seen {
          ListsNext(seen, x.text.value, Texts(before));
        } else {
          assert x.text.value in Texts(before);
          assert Texts(before) + {x.text.value} == Texts(before);
        }
      } else {
        assert Texts(inputs) == Texts(before);
      }
    }
  }

  lemma TextsNext(before: seq<Input>, x: Input)
    requires x.text.Some?
    ensures Texts(before + [x]) == Texts(before) + {x.text.value}
  {
    var all := before + [x];
    assert all[|before|] == x;
    assert forall i :: 0 <= i < |before| ==> all[i] == before[i];
  }

  lemma ListsNext(seen: seq<string>, t: string, texts: set<string>)
    requires Lists(seen, texts) && t !in seen
    ensures Lists(seen + [t], texts + {t})
  {
    var all := seen + [t];
    assert all[|seen|] == t;
    assert forall i :: 0 <= i < |seen| ==> all[i] == seen[i];
  }

  lemma FinalCountIsDistinct(column: string, alias: string, inputs: seq<Input>)
    ensures FinalCount(Feed(Agg(CountDistinctFn, column, alias), inputs)) == Some(|Texts(inputs)|)
  {
    FeedListsTexts(column, alias, inputs);
    ListsSize(Feed(Agg(CountDistinctFn, column, alias), inputs).seen, Texts(inputs));
  }
}
