/** The mergeable statistics of crates/tv-engine/src/stats.rs, over exact reals:
    one-pass central moments to order four and their parallel merge. */
module Moments {
  import opened Sums

  lemma DivCancel(a: real, b: real)
    requires b != 0.0
    ensures a * b / b == a
  {
  }

  lemma MeanAlgebra(na: real, nb: real, n: real, ma: real, mb: real, u: real)
    requires n == na + nb && n > 0.0 && mb - ma == u * n
    ensures MergedMean(na, nb, n, ma, mb) == ma + nb * u == mb - na * u
  {
    assert (ma + nb * u) * n == na * ma + nb * mb by {
      assert nb * (u * n) == nb * mb - nb * ma;
      assert (ma + nb * u) * n == ma * n + nb * (u * n);
    }
    DivCancel(ma + nb * u, n);
    assert nb * u + na * u == u * n;
  }

  lemma MeanMerged(xs: seq<real>, ys: seq<real>, n: real)
    requires n == |xs| as real + |ys| as real && n > 0.0
    ensures Mean(xs + ys) == MergedMean(|xs| as real, |ys| as real, n, Mean(xs), Mean(ys))
  {
    assert Sum(xs + ys) == Sum(xs) + Sum(ys) by {
      SumAppend(xs, ys);
    }
    assert |xs| as real * Mean(xs) == Sum(xs) by {
      MeanCancels(xs);
    }
    assert |ys| as real * Mean(ys) == Sum(ys) by {
      MeanCancels(ys);
    }
    assert Mean(xs + ys) == Sum(xs + ys) / n by {
      assert xs + ys != [] && |xs + ys| as real == n;
    }
  }

  lemma SquareNonZero(n: real, v: real)
    requires n != 0.0 && v == n * n
    ensures v != 0.0
  {
    DivCancel(n, n);
    assert v / n == n;
  }

  lemma DivCancelSquare(a: real, n: real)
    requires n != 0.0
    ensures n * n != 0.0 && a * (n * n) / (n * n) == a
  {
    DivCancelNamed(a, n, n * n);
  }

  lemma DivCancelNamed(a: real, n: real, v: real)
    requires n != 0.0 && v == n * n
    ensures v != 0.0 && a * v / v == a
  {
    SquareNonZero(n, v);
    DivCancel(a, v);
  }

  /** The second, third and fourth deviation sums of `n` values after moving the centre `d` below their mean. */
  function Moved2(x2: real, n: real, d: real): real {
    x2 + n * (d * d)
  }

  function Moved3(x3: real, x2: real, n: real, d: real): real {
    x3 + 3.0 * d * x2 + n * (d * (d * d))
  }

  function Moved4(x4: real, x3: real, x2: real, n: real, d: real): real {
    x4 + 4.0 * d * x3 + 6.0 * (d * d) * x2 + n * (d * (d * (d * d)))
  }

  /** Moving the centre away from the mean: the first-order term vanishes. */
  lemma ShiftFromMean2(xs: seq<real>, d: real)
    ensures Dev(xs, Mean(xs) - d, 2) == Moved2(Dev(xs, Mean(xs), 2), |xs| as real, d)
  {
    MeanCancels(xs);
    Shift2(xs, Mean(xs), d);
  }

  lemma ShiftFromMean3(xs: seq<real>, d: real)
    ensures Dev(xs, Mean(xs) - d, 3) == Moved3(Dev(xs, Mean(xs), 3), Dev(xs, Mean(xs), 2), |xs| as real, d)
  {
    MeanCancels(xs);
    Shift3(xs, Mean(xs), d);
    NoFirstOrder3(Dev(xs, Mean(xs), 3), Dev(xs, Mean(xs), 2), |xs| as real, d);
  }

  lemma NoFirstOrder3(x3: real, x2: real, n: real, d: real)
    ensures Shifted3(x3, x2, 0.0, n, d) == Moved3(x3, x2, n, d)
  {
  }

  lemma ShiftFromMean4(xs: seq<real>, d: real)
    ensures Dev(xs, Mean(xs) - d, 4) == Moved4(Dev(xs, Mean(xs), 4), Dev(xs, Mean(xs), 3), Dev(xs, Mean(xs), 2), |xs| as real, d)
  {
    var f3, f2, f1, f0 := 4.0 * d, 6.0 * (d * d), 4.0 * (d * (d * d)), d * (d * (d * d));
    MeanCancels(xs);
    Shift4(xs, Mean(xs), d, f3, f2, f1, f0);
    NoFirstOrder4(Dev(xs, Mean(xs), 4), Dev(xs, Mean(xs), 3), Dev(xs, Mean(xs), 2), |xs| as real, d, f3, f2, f1, f0);
  }

  lemma NoFirstOrder4(x4: real, x3: real, x2: real, n: real, d: real, f3: real, f2: real, f1: real, f0: real)
    requires f3 == 4.0 * d && f2 == 6.0 * (d * d) && f0 == d * (d * (d * d))
    ensures Shifted4(x4, x3, x2, 0.0, n, f3, f2, f1, f0) == Moved4(x4, x3, x2, n, d)
  {
  }

  lemma SecondOrder(na: real, nb: real, n: real, u: real, delta: real)
    requires n == na + nb && n > 0.0 && delta == u * n
    ensures na * ((nb * u) * (nb * u)) + nb * ((na * u) * (na * u)) == delta * delta * na * nb / n
  {
    var w := u * u * na * nb;
    assert delta * delta * na * nb == w * n * n;
    DivCancel(w * n, n);
    assert w * n == w * na + w * nb;
  }

  lemma ThirdOrder(na: real, nb: real, n: real, u: real, delta: real)
    requires n == na + nb && n > 0.0 && delta == u * n
    ensures n * n != 0.0
    ensures nb * ((na * u) * ((na * u) * (na * u))) - na * ((nb * u) * ((nb * u) * (nb * u)))
            == delta * delta * delta * na * nb * (na - nb) / (n * n)
  {
    var w := u * u * u * na * nb;
    var v := w * (na - nb) * n;
    assert delta * delta * delta == u * u * u * (n * n * n);
    assert delta * delta * delta * na * nb * (na - nb) == v * (n * n);
    DivCancelSquare(v, n);
    assert (na - nb) * n == na * na - nb * nb;
    assert v == w * (na * na - nb * nb);
    assert w * (na * na - nb * nb) == w * (na * na) - w * (nb * nb);
    assert w * (na * na) == nb * ((na * u) * ((na * u) * (na * u)));
    assert w * (nb * nb) == na * ((nb * u) * ((nb * u) * (nb * u)));
  }

  lemma ThirdTerm(na: real, nb: real, n: real, u: real, delta: real)
    requires n == na + nb && n > 0.0 && delta == u * n
    ensures nb * ((na * u) * ((na * u) * (na * u))) - na * ((nb * u) * ((nb * u) * (nb * u))) == CubicTerm(na, nb, n, delta)
  {
    ThirdOrder(na, nb, n, u, delta);
  }

  lemma FourthOrder(na: real, nb: real, n: real, u: real, delta: real)
    requires n == na + nb && n > 0.0 && delta == u * n
    ensures na * ((nb * u) * ((nb * u) * ((nb * u) * (nb * u)))) + nb * ((na * u) * ((na * u) * ((na * u) * (na * u))))
            == QuarticTerm(na, nb, n, delta)
  {
    var w := u * u * (u * u) * na * nb;
    var p := na * na - na * nb + nb * nb;
    var v := w * p * n;
    assert delta * delta == u * u * (n * n);
    assert delta * delta * (delta * delta) == u * u * (u * u) * (n * (n * n * n)) by {
      assert (u * u * (n * n)) * (u * u * (n * n)) == u * u * (u * u) * (n * (n * n * n));
    }
    assert delta * delta * (delta * delta) * na * nb * p == v * (n * n * n) by {
      Regroup(u * u * (u * u), n, n * n * n, na, nb, p);
    }
    assert n * n * n != 0.0;
    DivCancel(v, n * n * n);
    assert p * n == na * na * na + nb * nb * nb;
    assert v == w * (na * na * na) + w * (nb * nb * nb) by {
      assert v == w * (p * n);
    }
    assert w * (na * na * na) == nb * ((na * u) * ((na * u) * ((na * u) * (na * u))));
    assert w * (nb * nb * nb) == na * ((nb * u) * ((nb * u) * ((nb * u) * (nb * u))));
  }

  lemma Regroup(q: real, n: real, n3: real, na: real, nb: real, p: real)
    ensures q * (n * n3) * na * nb * p == q * na * nb * p * n * n3
  {
  }

  lemma FirstOrder(k: real, na: real, nb: real, n: real, u: real, delta: real, x: real, y: real)
    requires n > 0.0 && delta == u * n
    ensures k * (na * u) * y - k * (nb * u) * x == LinearTerm(k, na, nb, n, delta, x, y)
  {
    var w := k * u * (na * y - nb * x);
    assert k * delta * (na * y - nb * x) == w * n;
    DivCancel(w, n);
  }

  lemma SquareOrder(na: real, nb: real, n: real, u: real, delta: real, x: real, y: real)
    requires n > 0.0 && delta == u * n
    ensures n * n != 0.0
    ensures 6.0 * ((na * u) * (na * u)) * y + 6.0 * ((nb * u) * (nb * u)) * x
            == 6.0 * (delta * delta) * (na * na * y + nb * nb * x) / (n * n)
  {
    var w := 6.0 * (u * u) * (na * na * y + nb * nb * x);
    assert delta * delta == u * u * (n * n);
    assert 6.0 * (delta * delta) * (na * na * y + nb * nb * x) == w * (n * n);
    DivCancelSquare(w, n);
  }

  lemma SquareTerm(na: real, nb: real, n: real, u: real, delta: real, x: real, y: real)
    requires n > 0.0 && delta == u * n
    ensures 6.0 * ((na * u) * (na * u)) * y + 6.0 * ((nb * u) * (nb * u)) * x == QuadraticTerm(na, nb, n, delta, x, y)
  {
    SquareOrder(na, nb, n, u, delta, x, y);
  }

  /** The moment fields of `BatchAcc`. */
  datatype MomentState = MomentState(n: nat, mean: real, m2: real, m3: real, m4: real)

  /** What an accumulator that has seen exactly `xs` must hold. */
  function MomentsOf(xs: seq<real>): MomentState {
    var m := Mean(xs);
    MomentState(|xs|, m, Dev(xs, m, 2), Dev(xs, m, 3), Dev(xs, m, 4))
  }

  /** The right-hand sides of `BatchAcc::merge`, for parts of `na` and `nb` values whose means differ by `delta`. */
  function MergedMean(na: real, nb: real, n: real, ma: real, mb: real): real
    requires n > 0.0
  {
    (na * ma + nb * mb) / n
  }

  function MergedSecond(na: real, nb: real, n: real, delta: real, x2: real, y2: real): real
    requires n > 0.0
  {
    x2 + (y2 + delta * delta * na * nb / n)
  }

  function MergedThird(na: real, nb: real, n: real, delta: real, x2: real, y2: real, x3: real, y3: real): real
    requires n > 0.0
  {
    x3 + (y3 + CubicTerm(na, nb, n, delta) + LinearTerm(3.0, na, nb, n, delta, x2, y2))
  }

  function MergedFourth(na: real, nb: real, n: real, delta: real,
                        x2: real, y2: real, x3: real, y3: real, x4: real, y4: real): real
    requires n > 0.0
  {
    x4 + (y4 + QuarticTerm(na, nb, n, delta) + QuadraticTerm(na, nb, n, delta, x2, y2) + LinearTerm(4.0, na, nb, n, delta, x3, y3))
  }

  function LinearTerm(k: real, na: real, nb: real, n: real, delta: real, x: real, y: real): real
    requires n > 0.0
  {
    k * delta * (na * y - nb * x) / n
  }

  function QuadraticTerm(na: real, nb: real, n: real, delta: real, x: real, y: real): real
    requires n > 0.0
  {
    SquareNonZero(n, n * n);
    6.0 * (delta * delta) * (na * na * y + nb * nb * x) / (n * n)
  }

  function CubicTerm(na: real, nb: real, n: real, delta: real): real
    requires n > 0.0
  {
    SquareNonZero(n, n * n);
    delta * delta * delta * na * nb * (na - nb) / (n * n)
  }

  function QuarticTerm(na: real, nb: real, n: real, delta: real): real
    requires n > 0.0
  {
    delta * delta * (delta * delta) * na * nb * (na * na - na * nb + nb * nb) / (n * n * n)
  }

  /** The assignments of `BatchAcc::merge`. */
  function Merged(a: MomentState, b: MomentState): MomentState {
    var na, nb := a.n as real, b.n as real;
    var n := na + nb;
    if n > 0.0 then
      var delta := b.mean - a.mean;
      MomentState(
        a.n + b.n,
        MergedMean(na, nb, n, a.mean, b.mean),
        MergedSecond(na, nb, n, delta, a.m2, b.m2),
        MergedThird(na, nb, n, delta, a.m2, b.m2, a.m3, b.m3),
        MergedFourth(na, nb, n, delta, a.m2, b.m2, a.m3, b.m3, a.m4, b.m4))
    else a
  }

  /** The assignments of `BatchAcc::update_moments`. */
  function Updated(a: MomentState, v: real): MomentState {
    var n1 := a.n as real;
    var n := n1 + 1.0;
    var delta := v - a.mean;
    var deltaN := delta / n;
    MomentState(
      a.n + 1,
      a.mean + deltaN,
      UpdatedSecond(n1, delta, deltaN, a.m2),
      UpdatedThird(n1, delta, deltaN, a.m2, a.m3),
      UpdatedFourth(n1, delta, deltaN, a.m2, a.m3, a.m4))
  }

  lemma SecondAlgebra(na: real, nb: real, n: real, u: real, delta: real, x2: real, y2: real)
    requires n == na + nb && n > 0.0 && delta == u * n
    ensures Moved2(x2, na, -(nb * u)) + Moved2(y2, nb, na * u) == MergedSecond(na, nb, n, delta, x2, y2)
  {
    SecondOrder(na, nb, n, u, delta);
    NegatedPowers(na, nb * u, 0.0, 0.0);
  }

  lemma ThirdAlgebra(na: real, nb: real, n: real, u: real, delta: real, x2: real, y2: real, x3: real, y3: real)
    requires n == na + nb && n > 0.0 && delta == u * n
    ensures Moved3(x3, x2, na, -(nb * u)) + Moved3(y3, y2, nb, na * u) == MergedThird(na, nb, n, delta, x2, y2, x3, y3)
  {
    SquareNonZero(n, n * n);
    var a, b := 3.0 * (nb * u) * x2, na * ((nb * u) * ((nb * u) * (nb * u)));
    var c, d := 3.0 * (na * u) * y2, nb * ((na * u) * ((na * u) * (na * u)));
    var t := CubicTerm(na, nb, n, delta);
    var f := LinearTerm(3.0, na, nb, n, delta, x2, y2);
    assert d - b == t by { ThirdTerm(na, nb, n, u, delta); }
    assert c - a == f by { FirstOrder(3.0, na, nb, n, u, delta, x2, y2); }
    assert x3 - a - b + (y3 + c + d) == x3 + (y3 + t + f);
    assert Moved3(x3, x2, na, -(nb * u)) == x3 - a - b by { NegatedPowers(na, nb * u, x2, x3); }
  }

  lemma FourthAlgebra(na: real, nb: real, n: real, u: real, delta: real, x2: real, y2: real, x3: real, y3: real, x4: real, y4: real)
    requires n == na + nb && n > 0.0 && delta == u * n
    ensures Moved4(x4, x3, x2, na, -(nb * u)) + Moved4(y4, y3, y2, nb, na * u)
            == MergedFourth(na, nb, n, delta, x2, y2, x3, y3, x4, y4)
  {
    SquareNonZero(n, n * n);
    var p, q := nb * u, na * u;
    var a, b, e := 4.0 * (nb * u) * x3, 6.0 * ((nb * u) * (nb * u)) * x2, na * ((nb * u) * ((nb * u) * ((nb * u) * (nb * u))));
    var c, d, g := 4.0 * (na * u) * y3, 6.0 * ((na * u) * (na * u)) * y2, nb * ((na * u) * ((na * u) * ((na * u) * (na * u))));
    var t := QuarticTerm(na, nb, n, delta);
    var s := QuadraticTerm(na, nb, n, delta, x2, y2);
    var f := LinearTerm(4.0, na, nb, n, delta, x3, y3);
    assert e + g == t by { FourthOrder(na, nb, n, u, delta); }
    assert d + b == s by { SquareTerm(na, nb, n, u, delta, x2, y2); }
    assert c - a == f by { FirstOrder(4.0, na, nb, n, u, delta, x3, y3); }
    assert Moved4(x4, x3, x2, na, -(nb * u)) == x4 - a + b + e by { MovedBack4(x4, x3, x2, na, nb * u); }
    assert Moved4(y4, y3, y2, nb, na * u) == y4 + c + d + g;
    assert x4 - a + b + e + (y4 + c + d + g) == x4 + (y4 + t + s + f);
    assert MergedFourth(na, nb, n, delta, x2, y2, x3, y3, x4, y4) == x4 + (y4 + t + s + f);
  }

  lemma MovedBack4(x4: real, x3: real, x2: real, na: real, p: real)
    ensures Moved4(x4, x3, x2, na, -p) == x4 - 4.0 * p * x3 + 6.0 * (p * p) * x2 + na * (p * (p * (p * p)))
  {
    NegatedPowers(na, p, x2, x3);
  }

  lemma NegatedPowers(na: real, p: real, x2: real, x3: real)
    ensures na * ((-p) * (-p)) == na * (p * p)
    ensures na * ((-p) * ((-p) * (-p))) == -(na * (p * (p * p)))
    ensures na * ((-p) * ((-p) * ((-p) * (-p)))) == na * (p * (p * (p * p)))
    ensures 3.0 * (-p) * x2 == -(3.0 * p * x2)
    ensures 6.0 * ((-p) * (-p)) * x2 == 6.0 * (p * p) * x2
    ensures 4.0 * (-p) * x3 == -(4.0 * p * x3)
  {
  }

  /** The concatenation's deviation sums about `m`, from those of the parts about their own means. */
  lemma CentredSums(xs: seq<real>, ys: seq<real>, m: real, d: real, e: real)
    requires m == Mean(xs) - d && m == Mean(ys) - e
    ensures var (na, nb, a, b) := (|xs| as real, |ys| as real, MomentsOf(xs), MomentsOf(ys));
            && Dev(xs + ys, m, 2) == Moved2(a.m2, na, d) + Moved2(b.m2, nb, e)
            && Dev(xs + ys, m, 3) == Moved3(a.m3, a.m2, na, d) + Moved3(b.m3, b.m2, nb, e)
            && Dev(xs + ys, m, 4) == Moved4(a.m4, a.m3, a.m2, na, d) + Moved4(b.m4, b.m3, b.m2, nb, e)
  {
    DevAppend(xs, ys, m, 2);
    DevAppend(xs, ys, m, 3);
    DevAppend(xs, ys, m, 4);
    ShiftFromMean2(xs, d);
    ShiftFromMean2(ys, e);
    ShiftFromMean3(xs, d);
    ShiftFromMean3(ys, e);
    ShiftFromMean4(xs, d);
    ShiftFromMean4(ys, e);
  }

  lemma MergedParts(xs: seq<real>, ys: seq<real>, n: real, delta: real)
    requires n == |xs| as real + |ys| as real && n > 0.0 && delta == Mean(ys) - Mean(xs)
    ensures var (na, nb, a, b, c) := (|xs| as real, |ys| as real, MomentsOf(xs), MomentsOf(ys), MomentsOf(xs + ys));
            && c.m2 == MergedSecond(na, nb, n, delta, a.m2, b.m2)
            && c.m3 == MergedThird(na, nb, n, delta, a.m2, b.m2, a.m3, b.m3)
            && c.m4 == MergedFourth(na, nb, n, delta, a.m2, b.m2, a.m3, b.m3, a.m4, b.m4)
  {
    var na, nb, a, b := |xs| as real, |ys| as real, MomentsOf(xs), MomentsOf(ys);
    var m, u := Mean(xs + ys), delta / n;
    var d, e := -(nb * u), na * u;
    assert delta == u * n;
    assert m == Mean(xs) - d && m == Mean(ys) - e by {
      MeanMerged(xs, ys, n);
      MeanAlgebra(na, nb, n, Mean(xs), Mean(ys), u);
    }
    CentredSums(xs, ys, m, d, e);
    assert Moved2(a.m2, na, d) + Moved2(b.m2, nb, e) == MergedSecond(na, nb, n, delta, a.m2, b.m2) by {
      SecondAlgebra(na, nb, n, u, delta, a.m2, b.m2);
    }
    assert Moved3(a.m3, a.m2, na, d) + Moved3(b.m3, b.m2, nb, e) == MergedThird(na, nb, n, delta, a.m2, b.m2, a.m3, b.m3) by {
      ThirdAlgebra(na, nb, n, u, delta, a.m2, b.m2, a.m3, b.m3);
    }
    assert Moved4(a.m4, a.m3, a.m2, na, d) + Moved4(b.m4, b.m3, b.m2, nb, e)
           == MergedFourth(na, nb, n, delta, a.m2, b.m2, a.m3, b.m3, a.m4, b.m4) by {
      FourthAlgebra(na, nb, n, u, delta, a.m2, b.m2, a.m3, b.m3, a.m4, b.m4);
    }
  }

  /** Merging the accumulators of two parts gives the accumulator of the whole, to the fourth moment. */
  lemma MergeIsExact(xs: seq<real>, ys: seq<real>)
    ensures Merged(MomentsOf(xs), MomentsOf(ys)) == MomentsOf(xs + ys)
  {
    var n, delta := |xs| as real + |ys| as real, Mean(ys) - Mean(xs);
    if |xs| + |ys| == 0 {
      assert xs + ys == xs;
    } else {
      MeanMerged(xs, ys, n);
      MergedParts(xs, ys, n, delta);
    }
  }

  lemma MomentsOfOne(v: real)
    ensures MomentsOf([v]) == MomentState(1, v, 0.0, 0.0, 0.0)
  {
    assert [v][1..] == [];
    assert Sum([v]) == v && |[v]| as real == 1.0;
    assert Mean([v]) == v / 1.0;
    assert v - v == 0.0;
    PowSmall(0.0);
    assert forall k: nat :: Dev([v], v, k) == Pow(v - v, k) + Dev([], v, k);
  }

  /** The right-hand sides of `BatchAcc::update_moments`, in terms of the step `u = delta / n`. */
  function UpdatedSecond(n1: real, delta: real, u: real, x2: real): real {
    x2 + delta * u * n1
  }

  function UpdatedThird(n1: real, delta: real, u: real, x2: real, x3: real): real {
    x3 + (delta * u * n1 * u * (n1 - 1.0) - 3.0 * u * x2)
  }

  function UpdatedFourth(n1: real, delta: real, u: real, x2: real, x3: real, x4: real): real {
    x4 + (delta * u * n1 * (u * u) * (n1 * n1 - n1 + 1.0) + 6.0 * (u * u) * x2 - 4.0 * u * x3)
  }

  lemma UpdateSecond(n1: real, n: real, delta: real, u: real, x2: real)
    requires n == n1 + 1.0 && n > 0.0 && delta == u * n
    ensures UpdatedSecond(n1, delta, u, x2) == MergedSecond(n1, 1.0, n, delta, x2, 0.0)
  {
    assert delta * delta * n1 * 1.0 == delta * u * n1 * n;
    DivCancel(delta * u * n1, n);
  }

  lemma UpdateThird(n1: real, n: real, delta: real, u: real, x2: real, x3: real)
    requires n == n1 + 1.0 && n > 0.0 && delta == u * n
    ensures UpdatedThird(n1, delta, u, x2, x3) == MergedThird(n1, 1.0, n, delta, x2, 0.0, x3, 0.0)
  {
    SquareNonZero(n, n * n);
    var t := delta * u * n1 * u * (n1 - 1.0);
    assert delta * delta * delta * n1 * 1.0 * (n1 - 1.0) == t * (n * n) by {
      assert delta * delta == delta * u * n;
      assert delta * delta * delta == delta * u * u * (n * n);
    }
    DivCancelSquare(t, n);
    assert 3.0 * delta * (n1 * 0.0 - 1.0 * x2) == -(3.0 * u * x2) * n;
    DivCancel(-(3.0 * u * x2), n);
  }

  lemma UpdateFourth(n1: real, n: real, delta: real, u: real, x2: real, x3: real, x4: real)
    requires n == n1 + 1.0 && n > 0.0 && delta == u * n
    ensures UpdatedFourth(n1, delta, u, x2, x3, x4) == MergedFourth(n1, 1.0, n, delta, x2, 0.0, x3, 0.0, x4, 0.0)
  {
    SquareNonZero(n, n * n);
    var p := n1 * n1 - n1 + 1.0;
    var t := delta * u * n1 * (u * u) * p;
    assert QuarticTerm(n1, 1.0, n, delta) == t by { UpdateQuartic(n1, n, delta, u, p); }
    var s := 6.0 * (u * u) * x2;
    assert QuadraticTerm(n1, 1.0, n, delta, x2, 0.0) == s by {
      assert 6.0 * (delta * delta) * (n1 * n1 * 0.0 + 1.0 * 1.0 * x2) == s * (n * n) by {
        assert delta * delta == u * u * (n * n);
      }
      DivCancelSquare(s, n);
    }
    assert LinearTerm(4.0, n1, 1.0, n, delta, x3, 0.0) == -(4.0 * u * x3) by {
      assert 4.0 * delta * (n1 * 0.0 - 1.0 * x3) == -(4.0 * u * x3) * n;
      DivCancel(-(4.0 * u * x3), n);
    }
    assert UpdatedFourth(n1, delta, u, x2, x3, x4) == x4 + (t + s - 4.0 * u * x3);
    assert MergedFourth(n1, 1.0, n, delta, x2, 0.0, x3, 0.0, x4, 0.0) == x4 + (0.0 + t + s - 4.0 * u * x3);
  }

  lemma UpdateQuartic(n1: real, n: real, delta: real, u: real, p: real)
    requires n > 0.0 && delta == u * n && p == n1 * n1 - n1 + 1.0
    ensures QuarticTerm(n1, 1.0, n, delta) == delta * u * n1 * (u * u) * p
  {
    var q := delta * u * (u * u);
    assert delta * delta == u * u * (n * n);
    assert delta * delta * (delta * delta) == q * (n * n * n) by {
      assert delta * delta * (delta * delta) == delta * delta * (u * u * (n * n));
      assert delta * delta == delta * u * n;
    }
    assert n1 * n1 - n1 * 1.0 + 1.0 * 1.0 == p;
    assert delta * delta * (delta * delta) * n1 * 1.0 * p == (q * n1 * p) * (n * n * n);
    assert QuarticTerm(n1, 1.0, n, delta) == q * n1 * p by {
      DivCancel(q * n1 * p, n * n * n);
    }
    assert q * n1 * p == delta * u * n1 * (u * u) * p;
  }

  /** The one-pass update is the merge with a one-value accumulator. */
  lemma UpdatedIsMerged(a: MomentState, v: real)
    ensures Updated(a, v) == Merged(a, MomentState(1, v, 0.0, 0.0, 0.0))
  {
    var n1, delta := a.n as real, v - a.mean;
    var n := n1 + 1.0;
    var u := delta / n;
    assert delta == u * n;
    assert MergedMean(n1, 1.0, n, a.mean, v) == a.mean + u by {
      MeanAlgebra(n1, 1.0, n, a.mean, v, u);
    }
    UpdateSecond(n1, n, delta, u, a.m2);
    UpdateThird(n1, n, delta, u, a.m2, a.m3);
    UpdateFourth(n1, n, delta, u, a.m2, a.m3, a.m4);
    assert 1 as real == 1.0 && n > 0.0;
  }

  /** Hence it is exact as well. */
  lemma UpdateIsExact(xs: seq<real>, v: real)
    ensures Updated(MomentsOf(xs), v) == MomentsOf(xs + [v])
  {
    MomentsOfOne(v);
    MergeIsExact(xs, [v]);
    UpdatedIsMerged(MomentsOf(xs), v);
  }

  /** How a column's values reached the final accumulator: batches folded one value
      at a time, and partial accumulators merged pairwise in any shape. */
  datatype Plan<T> = Batch(values: seq<T>) | Join(left: Plan<T>, right: Plan<T>)

  function DataOf<T>(plan: Plan<T>): seq<T> {
    match plan
    case Batch(values) => values
    case Join(left, right) => DataOf(left) + DataOf(right)
  }

  class BatchAcc {
    var sum: real
    var count: nat
    var momentN: nat
    var momentMean: real
    var m2: real
    var m3: real
    var m4: real

    ghost function State(): MomentState
      reads this
    {
      MomentState(momentN, momentMean, m2, m3, m4)
    }

    constructor ()
      ensures State() == MomentsOf([]) && sum == 0.0 && count == 0
    {
      sum, count := 0.0, 0;
      momentN, momentMean, m2, m3, m4 := 0, 0.0, 0.0, 0.0, 0.0;
    }

    /** One more value: exact moments of `xs` become those of `xs + [v]`. */
    method UpdateMoments(v: real, ghost xs: seq<real>)
      requires State() == MomentsOf(xs)
      modifies this
      ensures State() == MomentsOf(xs + [v])
      ensures sum == old(sum) && count == old(count)
    {
      UpdateIsExact(xs, v);
      var n1 := momentN as real;
      var n := n1 + 1.0;
      var delta := v - momentMean;
      var deltaN := delta / n;
      m4 := UpdatedFourth(n1, delta, deltaN, m2, m3, m4);
      m3 := UpdatedThird(n1, delta, deltaN, m2, m3);
      m2 := UpdatedSecond(n1, delta, deltaN, m2);
      momentMean := momentMean + deltaN;
      momentN := momentN + 1;
    }

    /** The parts' exact moments become those of the whole. */
    method Merge(other: BatchAcc, ghost xs: seq<real>, ghost ys: seq<real>)
      requires other != this && State() == MomentsOf(xs) && other.State() == MomentsOf(ys)
      modifies this
      ensures State() == MomentsOf(xs + ys)
      ensures sum == old(sum) + other.sum && count == old(count) + other.count
    {
      MergeIsExact(xs, ys);
      sum := sum + other.sum;
      count := count + other.count;
      var na, nb := momentN as real, other.momentN as real;
      var n := na + nb;
      if n > 0.0 {
        var delta := other.momentMean - momentMean;
        m4 := MergedFourth(na, nb, n, delta, m2, other.m2, m3, other.m3, m4, other.m4);
        m3 := MergedThird(na, nb, n, delta, m2, other.m2, m3, other.m3);
        m2 := MergedSecond(na, nb, n, delta, m2, other.m2);
        momentMean := MergedMean(na, nb, n, momentMean, other.momentMean);
        momentN := momentN + other.momentN;
      }
    }
  }

  /** Any tree of updates and merges over any split of the data ends in the exact
      sum, count, mean and central power sums of the whole column. */
  method Accumulate(plan: Plan<real>) returns (acc: BatchAcc)
    ensures fresh(acc)
    ensures acc.State() == MomentsOf(DataOf(plan))
    ensures acc.sum == Sum(DataOf(plan)) && acc.count == |DataOf(plan)|
  {
    match plan {
      case Batch(values) =>
        acc := new BatchAcc();
        for i := 0 to |values|
          invariant fresh(acc)
          invariant acc.State() == MomentsOf(values[..i]) && acc.sum == Sum(values[..i]) && acc.count == i
        {
          assert values[..i + 1] == values[..i] + [values[i]];
          SumAppend(values[..i], [values[i]]);
          MomentsOfOne(values[i]);
          acc.sum := acc.sum + values[i];
          acc.count := acc.count + 1;
          acc.UpdateMoments(values[i], values[..i]);
        }
        assert values[..|values|] == values;
      case Join(left, right) =>
        acc := Accumulate(left);
        var other := Accumulate(right);
        acc.Merge(other, DataOf(left), DataOf(right));
        SumAppend(DataOf(left), DataOf(right));
    }
  }
}
