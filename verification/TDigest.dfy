/** The t-digest of crates/tv-engine/src/quantile_sketch.rs over the reals: adding and compressing
    conserve weight and weighted mean, and `quantile` and `cdf` are adjoint. */
module TDigest {
  import opened Seqs
  import opened Orders

  datatype Centroid = Centroid(mean: real, weight: real)

  // ---- weights and moments

  function Weight(cs: seq<Centroid>): real {
    if cs == [] then 0.0 else cs[0].weight + Weight(cs[1..])
  }

  function Product(a: real, b: real): real {
    a * b
  }

  /** The weighted sum of the means. */
  function Moment(cs: seq<Centroid>): real {
    if cs == [] then 0.0 else Product(cs[0].mean, cs[0].weight) + Moment(cs[1..])
  }

  lemma {:induction false} SumsAppend(a: seq<Centroid>, b: seq<Centroid>)
    ensures Weight(a + b) == Weight(a) + Weight(b) && Moment(a + b) == Moment(a) + Moment(b)
  {
    if a == [] {
      assert a + b == b;
    } else {
      assert (a + b)[1..] == a[1..] + b;
      SumsAppend(a[1..], b);
    }
  }

  lemma SumsPush(cs: seq<Centroid>, c: Centroid)
    ensures Weight(cs + [c]) == Weight(cs) + c.weight && Moment(cs + [c]) == Moment(cs) + Product(c.mean, c.weight)
  {
    SumsAppend(cs, [c]);
    assert [c][1..] == [];
  }

  lemma SumsSet(cs: seq<Centroid>, i: nat, c: Centroid)
    requires i < |cs|
    ensures Weight(cs[i := c]) == Weight(cs) - cs[i].weight + c.weight
    ensures Moment(cs[i := c]) == Moment(cs) - Product(cs[i].mean, cs[i].weight) + Product(c.mean, c.weight)
  {
    assert cs == cs[..i] + ([cs[i]] + cs[i + 1..]) && cs[i := c] == cs[..i] + ([c] + cs[i + 1..]);
    SumsAppend(cs[..i], [cs[i]] + cs[i + 1..]);
    SumsAppend(cs[..i], [c] + cs[i + 1..]);
    assert ([cs[i]] + cs[i + 1..])[1..] == cs[i + 1..] && ([c] + cs[i + 1..])[1..] == cs[i + 1..];
  }

  lemma {:induction false} SumsFollowContents(a: seq<Centroid>, b: seq<Centroid>)
    requires multiset(a) == multiset(b)
    ensures Weight(a) == Weight(b) && Moment(a) == Moment(b)
    decreases |a|
  {
    assert |multiset(a)| == |multiset(b)|;
    if a != [] {
      assert a[0] in multiset(b);
      var j :| 0 <= j < |b| && b[j] == a[0];
      SameWithout(a, b, j);
      SumsFollowContents(a[1..], b[..j] + b[j + 1..]);
      SumsAppend(b[..j], b[j + 1..]);
      SumsAppend(b[..j], b[j..]);
      assert b == b[..j] + b[j..] && b[j..][1..] == b[j + 1..];
    }
  }

  // ---- combining two centroids

  /** The weighted mean of two points. */
  function Combined(m1: real, w1: real, m2: real, w2: real): real
    requires w1 + w2 > 0.0
  {
    (Product(m1, w1) + Product(m2, w2)) / (w1 + w2)
  }

  lemma Quotient(a: real, b: real)
    requires b != 0.0
    ensures Product(a / b, b) == a
  {
  }

  lemma ProductMonotone(a: real, b: real, w: real)
    requires a <= b && w >= 0.0
    ensures Product(a, w) <= Product(b, w)
  {
  }

  lemma ProductSplit(a: real, w1: real, w2: real)
    ensures Product(a, w1 + w2) == Product(a, w1) + Product(a, w2)
  {
  }

  lemma ProductReflects(a: real, b: real, w: real)
    requires Product(a, w) <= Product(b, w) && w > 0.0
    ensures a <= b
  {
  }

  /** Combining conserves the moment and stays between the two means. */
  lemma CombinedConserves(m1: real, w1: real, m2: real, w2: real, lo: real, hi: real)
    requires w1 > 0.0 && w2 > 0.0
    ensures Product(Combined(m1, w1, m2, w2), w1 + w2) == Product(m1, w1) + Product(m2, w2)
    ensures lo <= m1 <= hi && lo <= m2 <= hi ==> lo <= Combined(m1, w1, m2, w2) <= hi
  {
    var w, m := w1 + w2, Combined(m1, w1, m2, w2);
    Quotient(Product(m1, w1) + Product(m2, w2), w);
    if lo <= m1 <= hi && lo <= m2 <= hi {
      ProductMonotone(lo, m1, w1);
      ProductMonotone(lo, m2, w2);
      ProductMonotone(m1, hi, w1);
      ProductMonotone(m2, hi, w2);
      ProductSplit(lo, w1, w2);
      ProductSplit(hi, w1, w2);
      ProductReflects(lo, m, w);
      ProductReflects(m, hi, w);
    }
  }

  // ---- well-formed digests

  ghost predicate Positive(cs: seq<Centroid>) {
    forall i :: 0 <= i < |cs| ==> cs[i].weight > 0.0
  }

  ghost predicate WithinRange(cs: seq<Centroid>, lo: real, hi: real) {
    forall i :: 0 <= i < |cs| ==> lo <= cs[i].mean <= hi
  }

  /** Weights count values: whole numbers of at least one. */
  predicate Whole(w: real) {
    w == w.Floor as real && w >= 1.0
  }

  ghost predicate WholeWeights(cs: seq<Centroid>) {
    forall i :: 0 <= i < |cs| ==> Whole(cs[i].weight)
  }

  lemma WholeSum(a: real, b: real)
    requires Whole(a) && Whole(b)
    ensures Whole(a + b) && (a + b).Floor == a.Floor + b.Floor
  {
    assert a + b == (a.Floor + b.Floor) as real;
  }

  function ByMean(): (Centroid, Centroid) -> bool {
    (a: Centroid, b: Centroid) => a.mean <= b.mean
  }

  ghost predicate MeansAscend(cs: seq<Centroid>) {
    forall i, j :: 0 <= i < j < |cs| ==> cs[i].mean <= cs[j].mean
  }

  lemma SortedByMean(sort: seq<Centroid> -> seq<Centroid>, cs: seq<Centroid>)
    requires Sorts(ByMean(), sort)
    ensures |sort(cs)| == |cs| && MeansAscend(sort(cs)) && Weight(sort(cs)) == Weight(cs) && Moment(sort(cs)) == Moment(cs)
    ensures Positive(cs) ==> Positive(sort(cs))
    ensures WholeWeights(cs) ==> WholeWeights(sort(cs))
    ensures forall lo, hi :: WithinRange(cs, lo, hi) ==> WithinRange(sort(cs), lo, hi)
  {
    var s := sort(cs);
    SumsFollowContents(s, cs);
    assert |multiset(s)| == |multiset(cs)|;
    forall i | 0 <= i < |s|
      ensures exists j :: 0 <= j < |cs| && cs[j] == s[i]
    {
      assert s[i] in multiset(cs);
    }
    forall i, j | 0 <= i < j < |s|
      ensures s[i].mean <= s[j].mean
    {
      assert ByMean()(s[i], s[j]);
    }
  }

  function Largest(a: int, b: int): int {
    if a >= b then a else b
  }

  function Distance(a: real, b: real): real {
    if a >= b then a - b else b - a
  }

  /** The first of the nearest centroids, or the length when none is nearer than the largest float. */
  ghost predicate IsNearest(cs: seq<Centroid>, value: real, maxFloat: real, at: nat) {
    && at <= |cs|
    && (at < |cs| ==> Distance(cs[at].mean, value) < maxFloat)
    && (forall i :: 0 <= i < |cs| ==> (if at < |cs| then Distance(cs[at].mean, value) else maxFloat) <= Distance(cs[i].mean, value))
    && (at < |cs| ==> forall i :: 0 <= i < at ==> Distance(cs[at].mean, value) < Distance(cs[i].mean, value))
  }

  /** The weight a centroid may reach when it takes a value. */
  function Capacity(compression: real, n: nat, count: nat): real {
    4.0 * compression * (n as real) / (Largest(count, 1) as real)
  }

  /** The value joins the centroid `at` if that has room, and becomes a centroid of its own otherwise. */
  function Placed(cs: seq<Centroid>, at: nat, value: real, capacity: real): seq<Centroid>
    requires Positive(cs)
  {
    if at < |cs| && cs[at].weight < capacity then cs[at := Joined(cs[at], Centroid(value, 1.0))]
    else cs + [Centroid(value, 1.0)]
  }

  /** Two centroids as one: weights add, the mean is the weighted mean. */
  function Joined(a: Centroid, b: Centroid): Centroid
    requires a.weight > 0.0 && b.weight > 0.0
  {
    Centroid(Combined(a.mean, a.weight, b.mean, b.weight), a.weight + b.weight)
  }

  /** The weight a merged centroid may reach around the quantile `(cum + w / 2) / total`. */
  function Room(compression: real, cum: real, w: real, total: real): real
    requires total > 0.0
  {
    var q := (cum + w / 2.0) / total;
    4.0 * compression * q * (1.0 - q)
  }

  /** Each centroid joins the last one as long as their weight fits the room there. */
  function Neighbours(rest: seq<Centroid>, compression: real, total: real, cum: real, merged: seq<Centroid>): seq<Centroid>
    requires Positive(rest) && Positive(merged) && (rest != [] ==> total > 0.0)
    decreases |rest|
  {
    if rest == [] then merged
    else
      var c, e := rest[0], |merged| - 1;
      if merged != [] && merged[e].weight + c.weight <= Room(compression, cum, c.weight, total) then
        Neighbours(rest[1..], compression, total, cum + c.weight, merged[e := Joined(merged[e], c)])
      else Neighbours(rest[1..], compression, total, cum + c.weight, merged + [c])
  }

  /** The centroids after `compress`. */
  function Compressed(sorted: seq<Centroid>, compression: real): seq<Centroid>
    requires Positive(sorted)
  {
    PositiveTotal(sorted);
    Neighbours(sorted, compression, Weight(sorted), 0.0, [])
  }

  class TDigest {
    var centroids: seq<Centroid>
    var n: nat
    const compression: real

    ghost predicate Valid()
      reads this
    {
      Positive(centroids)
    }

    constructor (c: real)
      ensures Valid() && centroids == [] && n == 0 && compression == c
    {
      centroids, n, compression := [], 0, c;
    }

    /** The index of a nearest centroid, or the length when none is nearer than the largest float. */
    method Closest(value: real, maxFloat: real) returns (closest: nat)
      ensures IsNearest(centroids, value, maxFloat, closest)
    {
      var minDist := maxFloat;
      closest := |centroids|;
      for i := 0 to |centroids|
        invariant closest < i || closest == |centroids|
        invariant closest < |centroids| ==> minDist == Distance(centroids[closest].mean, value)
        invariant closest == |centroids| ==> minDist == maxFloat
        invariant forall j :: 0 <= j < i ==> minDist <= Distance(centroids[j].mean, value)
        invariant closest < |centroids| ==> minDist < maxFloat && forall j :: 0 <= j < closest ==> minDist < Distance(centroids[j].mean, value)
      {
        var d := Distance(centroids[i].mean, value);
        if d < minDist {
          minDist := d;
          closest := i;
        }
      }
    }

    /** `add`: the value joins the nearest centroid or opens one, and a list grown too long is compressed.
        That is one more unit of weight at `value`, and the range widens to the value at most. */
    method Add(value: real, maxFloat: real, sort: seq<Centroid> -> seq<Centroid>) returns (ghost at: nat, ghost placed: seq<Centroid>)
      requires Valid() && Sorts(ByMean(), sort)
      modifies this
      ensures Valid() && n == old(n) + 1 && IsNearest(old(centroids), value, maxFloat, at)
      ensures placed == Placed(old(centroids), at, value, Capacity(compression, n, |old(centroids)|)) && Positive(sort(placed))
      ensures centroids == if |placed| > |old(centroids)| && |placed| > Largest(compression.Floor * 2, 32)
                           then Compressed(sort(placed), compression) else placed
      ensures Weight(centroids) == Weight(old(centroids)) + 1.0 && Moment(centroids) == Moment(old(centroids)) + value
      ensures forall lo, hi :: WithinRange(old(centroids), lo, hi) && lo <= value <= hi ==> WithinRange(centroids, lo, hi)
      ensures WholeWeights(old(centroids)) ==> WholeWeights(centroids)
    {
      n := n + 1;
      var closest := Closest(value, maxFloat);
      var limit := Capacity(compression, n, |centroids|);
      at, placed := closest, Placed(centroids, closest, value, limit);
      PlacedConserves(centroids, closest, value, limit);
      SortedByMean(sort, placed);
      if closest < |centroids| && centroids[closest].weight < limit {
        centroids := centroids[closest := Joined(centroids[closest], Centroid(value, 1.0))];
      } else {
        centroids := centroids + [Centroid(value, 1.0)];
        if |centroids| > Largest(compression.Floor * 2, 32) {
          Compress(sort);
        }
      }
    }

    /** `compress`: neighbours in mean order are merged; weight, moment and range stay, means ascend. */
    method Compress(sort: seq<Centroid> -> seq<Centroid>)
      requires Valid() && Sorts(ByMean(), sort)
      modifies this`centroids
      ensures Positive(sort(old(centroids))) && centroids == Compressed(sort(old(centroids)), compression)
      ensures Valid() && MeansAscend(centroids) && |centroids| <= |old(centroids)|
      ensures Weight(centroids) == Weight(old(centroids)) && Moment(centroids) == Moment(old(centroids))
      ensures forall lo, hi :: WithinRange(old(centroids), lo, hi) ==> WithinRange(centroids, lo, hi)
      ensures WholeWeights(old(centroids)) ==> WholeWeights(centroids)
    {
      var sorted := sort(centroids);
      SortedByMean(sort, centroids);
      var merged := MergeNeighbours(sorted, compression);
      centroids := merged;
    }

    /** `merge`: weight and moment add up. The count does not: the other digest's values are counted
        once as they are added and once more at the end. */
    method Merge(other: seq<Centroid>, otherN: nat, maxFloat: real, sort: seq<Centroid> -> seq<Centroid>)
      requires Valid() && Sorts(ByMean(), sort) && WholeWeights(other)
      modifies this
      ensures Valid()
      ensures Weight(centroids) == Weight(old(centroids)) + Weight(other) && Moment(centroids) == Moment(old(centroids)) + Moment(other)
      ensures n as real == (old(n) + otherN) as real + Weight(other)
      ensures WholeWeights(old(centroids)) ==> WholeWeights(centroids)
    {
      for i := 0 to |other|
        invariant Valid() && (WholeWeights(old(centroids)) ==> WholeWeights(centroids))
        invariant Weight(centroids) == Weight(old(centroids)) + Weight(other[..i])
        invariant Moment(centroids) == Moment(old(centroids)) + Moment(other[..i])
        invariant n as real == old(n) as real + Weight(other[..i])
      {
        var c := other[i];
        assert other[..i + 1] == other[..i] + [c];
        SumsPush(other[..i], c);
        AddRepeatedly(c.mean, Largest(c.weight.Floor, 1), maxFloat, sort);
      }
      assert other[..|other|] == other;
      n := n + otherN;
    }

    method AddRepeatedly(value: real, times: nat, maxFloat: real, sort: seq<Centroid> -> seq<Centroid>)
      requires Valid() && Sorts(ByMean(), sort)
      modifies this
      ensures Valid() && n == old(n) + times && (WholeWeights(old(centroids)) ==> WholeWeights(centroids))
      ensures Weight(centroids) == Weight(old(centroids)) + times as real
      ensures Moment(centroids) == Moment(old(centroids)) + Product(value, times as real)
    {
      assert Product(value, 0.0) == 0.0;
      for k := 0 to times
        invariant Valid() && n == old(n) + k && (WholeWeights(old(centroids)) ==> WholeWeights(centroids))
        invariant Weight(centroids) == Weight(old(centroids)) + k as real
        invariant Moment(centroids) == Moment(old(centroids)) + Product(value, k as real)
      {
        ghost var at, placed := Add(value, maxFloat, sort);
        ProductSplit(value, k as real, 1.0);
        assert Product(value, 1.0) == value && (k as real) + 1.0 == (k + 1) as real;
      }
    }
  }

  /** Placing a value adds one unit of weight at it. */
  lemma PlacedConserves(cs: seq<Centroid>, at: nat, value: real, capacity: real)
    requires Positive(cs)
    ensures var placed := Placed(cs, at, value, capacity);
            && Positive(placed) && Weight(placed) == Weight(cs) + 1.0 && Moment(placed) == Moment(cs) + value
            && (forall lo, hi :: WithinRange(cs, lo, hi) && lo <= value <= hi ==> WithinRange(placed, lo, hi))
            && (WholeWeights(cs) ==> WholeWeights(placed))
  {
    assert Product(value, 1.0) == value;
    if at < |cs| && cs[at].weight < capacity {
      var c := cs[at];
      var next := Joined(c, Centroid(value, 1.0));
      CombinedConserves(c.mean, c.weight, value, 1.0, c.mean, c.mean);
      SumsSet(cs, at, next);
      if WholeWeights(cs) {
        WholeSum(c.weight, 1.0);
      }
      forall lo, hi | WithinRange(cs, lo, hi) && lo <= value <= hi
        ensures WithinRange(cs[at := next], lo, hi)
      {
        CombinedConserves(c.mean, c.weight, value, 1.0, lo, hi);
      }
    } else {
      SumsPush(cs, Centroid(value, 1.0));
    }
  }

  /** What the merge loop has made of the first `i` sorted centroids. */
  ghost predicate MergedSoFar(sorted: seq<Centroid>, i: nat, merged: seq<Centroid>) {
    && i <= |sorted| && |merged| <= i && (i > 0 ==> merged != [])
    && Positive(merged) && MeansAscend(merged) && (i > 0 && merged != [] ==> merged[|merged| - 1].mean <= sorted[i - 1].mean)
    && Weight(merged) == Weight(sorted[..i]) && Moment(merged) == Moment(sorted[..i])
    && (WholeWeights(sorted) ==> WholeWeights(merged))
    && forall lo, hi :: WithinRange(sorted, lo, hi) ==> WithinRange(merged, lo, hi)
  }

  lemma MergeInto(sorted: seq<Centroid>, i: nat, merged: seq<Centroid>)
    requires MergedSoFar(sorted, i, merged) && i < |sorted| && merged != [] && Positive(sorted) && MeansAscend(sorted)
    ensures var last, c := merged[|merged| - 1], sorted[i];
            last.weight + c.weight > 0.0 &&
            MergedSoFar(sorted, i + 1, merged[|merged| - 1 := Joined(last, c)])
  {
    var e := |merged| - 1;
    var last, c := merged[e], sorted[i];
    var next := Joined(last, c);
    CombinedConserves(last.mean, last.weight, c.mean, c.weight, last.mean, c.mean);
    SumsSet(merged, e, next);
    assert sorted[..i + 1] == sorted[..i] + [c];
    SumsPush(sorted[..i], c);
    if WholeWeights(sorted) {
      WholeSum(last.weight, c.weight);
    }
    forall lo, hi | WithinRange(sorted, lo, hi)
      ensures WithinRange(merged[e := next], lo, hi)
    {
      CombinedConserves(last.mean, last.weight, c.mean, c.weight, lo, hi);
    }
  }

  lemma PushNext(sorted: seq<Centroid>, i: nat, merged: seq<Centroid>)
    requires MergedSoFar(sorted, i, merged) && i < |sorted| && Positive(sorted) && MeansAscend(sorted)
    ensures MergedSoFar(sorted, i + 1, merged + [sorted[i]])
  {
    assert sorted[..i + 1] == sorted[..i] + [sorted[i]];
    SumsPush(sorted[..i], sorted[i]);
    SumsPush(merged, sorted[i]);
    assert i > 0 ==> sorted[i - 1].mean <= sorted[i].mean;
  }

  method MergeNeighbours(sorted: seq<Centroid>, compression: real) returns (merged: seq<Centroid>)
    requires Positive(sorted) && MeansAscend(sorted)
    ensures merged == Compressed(sorted, compression)
    ensures Positive(merged) && MeansAscend(merged) && |merged| <= |sorted|
    ensures Weight(merged) == Weight(sorted) && Moment(merged) == Moment(sorted)
    ensures forall lo, hi :: WithinRange(sorted, lo, hi) ==> WithinRange(merged, lo, hi)
    ensures WholeWeights(sorted) ==> WholeWeights(merged)
  {
    merged := [];
    var totalW := Weight(sorted);
    PositiveTotal(sorted);
    var cumW := 0.0;
    for i := 0 to |sorted|
      invariant MergedSoFar(sorted, i, merged)
      invariant Neighbours(sorted[i..], compression, totalW, cumW, merged) == Compressed(sorted, compression)
    {
      var c := sorted[i];
      var limit := Room(compression, cumW, c.weight, totalW);
      assert sorted[i..][0] == c && sorted[i..][1..] == sorted[i + 1..];
      PushNext(sorted, i, merged);
      if merged != [] {
        MergeInto(sorted, i, merged);
      }
      if merged != [] && merged[|merged| - 1].weight + c.weight <= limit {
        merged := merged[|merged| - 1 := Joined(merged[|merged| - 1], c)];
      } else {
        merged := merged + [c];
      }
      cumW := cumW + c.weight;
    }
    assert sorted[..|sorted|] == sorted;
  }

  lemma {:induction false} PositiveTotal(cs: seq<Centroid>)
    requires Positive(cs)
    ensures Weight(cs) >= 0.0 && (cs != [] ==> Weight(cs) > 0.0)
  {
    if cs != [] {
      PositiveTotal(cs[1..]);
    }
  }

  // ---- quantile and cdf

  /** The mean at which the running weight first reaches the target; the last mean if it never does. */
  function FirstReaching(cs: seq<Centroid>, cum: real, target: real): real
    requires cs != []
  {
    if cum + cs[0].weight >= target || |cs| == 1 then cs[0].mean else FirstReaching(cs[1..], cum + cs[0].weight, target)
  }

  /** The weight of the leading centroids with a mean of at most `x`. */
  function WeightAtMost(cs: seq<Centroid>, x: real): real {
    if cs == [] || cs[0].mean > x then 0.0 else cs[0].weight + WeightAtMost(cs[1..], x)
  }

  method Quantile(cs: seq<Centroid>, q: real, sort: seq<Centroid> -> seq<Centroid>) returns (x: Option<real>)
    requires Sorts(ByMean(), sort)
    ensures cs == [] ==> x == None
    ensures cs != [] ==> |sort(cs)| == |cs| && x == Some(FirstReaching(sort(cs), 0.0, Product(q, Weight(cs))))
  {
    if cs == [] {
      return None;
    }
    var target := Product(q, Weight(cs));
    var cum := 0.0;
    var sorted := sort(cs);
    SortedByMean(sort, cs);
    for i := 0 to |sorted|
      invariant i < |sorted| ==> FirstReaching(sorted, 0.0, target) == FirstReaching(sorted[i..], cum, target)
      invariant i == |sorted| ==> FirstReaching(sorted, 0.0, target) == sorted[i - 1].mean
    {
      assert sorted[i..][1..] == sorted[i + 1..];
      cum := cum + sorted[i].weight;
      if cum >= target {
        return Some(sorted[i].mean);
      }
    }
    x := Some(sorted[|sorted| - 1].mean);
  }

  function Clamp01(x: real): real {
    if x < 0.0 then 0.0 else if x > 1.0 then 1.0 else x
  }

  method Cdf(cs: seq<Centroid>, x: real, sort: seq<Centroid> -> seq<Centroid>) returns (p: real)
    requires Sorts(ByMean(), sort) && Positive(cs)
    ensures cs == [] ==> p == 0.5
    ensures cs != [] ==> Weight(cs) > 0.0 && p == CdfOf(sort(cs), x, Weight(cs))
  {
    if cs == [] {
      return 0.5;
    }
    var sorted := sort(cs);
    SortedByMean(sort, cs);
    PositiveTotal(cs);
    var totalW := Weight(sorted);
    var cum := 0.0;
    var i := 0;
    assert sorted[0..] == sorted;
    while i < |sorted| && !(sorted[i].mean > x)
      invariant i <= |sorted| && cum + WeightAtMost(sorted[i..], x) == WeightAtMost(sorted, x)
    {
      assert sorted[i..][1..] == sorted[i + 1..];
      cum := cum + sorted[i].weight;
      i := i + 1;
    }
    p := Clamp01(cum / totalW);
  }

  function CdfOf(sorted: seq<Centroid>, x: real, total: real): real
    requires total > 0.0
  {
    Clamp01(WeightAtMost(sorted, x) / total)
  }

  lemma {:induction false} ReachesAtLeastFirst(cs: seq<Centroid>, cum: real, target: real)
    requires cs != [] && MeansAscend(cs)
    ensures cs[0].mean <= FirstReaching(cs, cum, target)
  {
    if !(cum + cs[0].weight >= target || |cs| == 1) {
      ReachesAtLeastFirst(cs[1..], cum + cs[0].weight, target);
    }
  }

  /** Reaching a target by `x` is having at least the target's weight up to `x`. */
  lemma {:induction false} ReachingIsWeight(cs: seq<Centroid>, cum: real, target: real, x: real)
    requires cs != [] && MeansAscend(cs) && Positive(cs) && cum < target <= cum + Weight(cs)
    ensures FirstReaching(cs, cum, target) <= x <==> target <= cum + WeightAtMost(cs, x)
  {
    PositiveTail(cs);
    if cum + cs[0].weight >= target {
      NonNegativeAtMost(cs[1..], x);
    } else {
      assert |cs| > 1;
      ReachesAtLeastFirst(cs[1..], cum + cs[0].weight, target);
      ReachingIsWeight(cs[1..], cum + cs[0].weight, target, x);
    }
  }

  lemma PositiveTail(cs: seq<Centroid>)
    requires cs != [] && Positive(cs) && MeansAscend(cs)
    ensures Positive(cs[1..]) && MeansAscend(cs[1..]) && (|cs| == 1 ==> Weight(cs[1..]) == 0.0)
    ensures |cs| > 1 ==> cs[0].mean <= cs[1..][0].mean
  {
  }

  lemma {:induction false} NonNegativeAtMost(cs: seq<Centroid>, x: real)
    requires Positive(cs)
    ensures 0.0 <= WeightAtMost(cs, x) <= Weight(cs)
  {
    if cs != [] {
      NonNegativeAtMost(cs[1..], x);
      PositiveTotal(cs[1..]);
    }
  }

  lemma ClampedQuotient(w: real, total: real, q: real)
    requires total > 0.0 && 0.0 <= w <= total
    ensures Clamp01(w / total) == w / total
    ensures q <= w / total <==> Product(q, total) <= w
  {
    Quotient(w, total);
    assert Product(0.0, total) == 0.0 && Product(1.0, total) == total;
    ProductReflects(0.0, w / total, total);
    ProductReflects(w / total, 1.0, total);
    if q <= w / total {
      ProductMonotone(q, w / total, total);
    }
    if Product(q, total) <= w {
      ProductReflects(q, w / total, total);
    }
  }

  /** `quantile` and `cdf` are adjoint: for a probability above zero, the quantile is at most `x`
      exactly when the probability is at most the cdf at `x`. */
  lemma QuantileCdfAdjoint(cs: seq<Centroid>, q: real, x: real)
    requires cs != [] && MeansAscend(cs) && Positive(cs) && 0.0 < q <= 1.0
    ensures Weight(cs) > 0.0
    ensures FirstReaching(cs, 0.0, Product(q, Weight(cs))) <= x <==> q <= CdfOf(cs, x, Weight(cs))
  {
    var total := Weight(cs);
    PositiveTotal(cs);
    NonNegativeAtMost(cs, x);
    ClampedQuotient(WeightAtMost(cs, x), total, q);
    assert Product(1.0, total) == total;
    ProductMonotone(q, 1.0, total);
    PositiveProduct(q, total);
    ReachingIsWeight(cs, 0.0, Product(q, total), x);
  }

  lemma PositiveProduct(a: real, b: real)
    requires a > 0.0 && b > 0.0
    ensures Product(a, b) > 0.0
  {
  }

  lemma {:induction false} AtMostMonotone(cs: seq<Centroid>, x: real, y: real)
    requires Positive(cs) && x <= y
    ensures WeightAtMost(cs, x) <= WeightAtMost(cs, y)
  {
    if cs != [] && cs[0].mean <= x {
      AtMostMonotone(cs[1..], x, y);
    } else {
      NonNegativeAtMost(cs, y);
    }
  }

  lemma {:induction false} ReachingMonotone(cs: seq<Centroid>, cum: real, s: real, t: real)
    requires cs != [] && MeansAscend(cs) && s <= t
    ensures FirstReaching(cs, cum, s) <= FirstReaching(cs, cum, t)
  {
    if |cs| > 1 {
      if cum + cs[0].weight >= s {
        ReachesAtLeastFirst(cs, cum, t);
      } else {
        ReachingMonotone(cs[1..], cum + cs[0].weight, s, t);
      }
    }
  }

  /** Both functions are monotone, the cdf is a probability, and the cdf of a quantile is at least its probability. */
  lemma QuantileAndCdfLaws(cs: seq<Centroid>, p: real, q: real, x: real, y: real)
    requires cs != [] && MeansAscend(cs) && Positive(cs) && p <= q && x <= y
    ensures Weight(cs) > 0.0
    ensures FirstReaching(cs, 0.0, Product(p, Weight(cs))) <= FirstReaching(cs, 0.0, Product(q, Weight(cs)))
    ensures 0.0 <= CdfOf(cs, x, Weight(cs)) <= CdfOf(cs, y, Weight(cs)) <= 1.0
    ensures 0.0 <= q <= 1.0 ==> q <= CdfOf(cs, FirstReaching(cs, 0.0, Product(q, Weight(cs))), Weight(cs))
  {
    var total := Weight(cs);
    PositiveTotal(cs);
    ProductMonotone(p, q, total);
    ReachingMonotone(cs, 0.0, Product(p, total), Product(q, total));
    NonNegativeAtMost(cs, x);
    NonNegativeAtMost(cs, y);
    AtMostMonotone(cs, x, y);
    ClampedQuotient(WeightAtMost(cs, x), total, CdfOf(cs, x, total));
    ClampedQuotient(WeightAtMost(cs, y), total, CdfOf(cs, x, total));
    if 0.0 < q <= 1.0 {
      QuantileCdfAdjoint(cs, q, FirstReaching(cs, 0.0, Product(q, total)));
    }
  }
}
