/** Welford's pairwise covariance (`WelfordPair` in crates/tv-engine/src/stats.rs), over exact reals. */
module Covariance {
  import opened Sums
  import opened Moments

  type Pair = (real, real)

  function Xs(ps: seq<Pair>): (xs: seq<real>)
    ensures |xs| == |ps|
  {
    seq(|ps|, i requires 0 <= i < |ps| => ps[i].0)
  }

  function Ys(ps: seq<Pair>): (ys: seq<real>)
    ensures |ys| == |ps|
  {
    seq(|ps|, i requires 0 <= i < |ps| => ps[i].1)
  }

  function Times(a: real, b: real): real {
    a * b
  }

  /** The sum of `(x - cx) * (y - cy)`. */
  function CoDev(ps: seq<Pair>, cx: real, cy: real): real {
    if ps == [] then 0.0 else Times(ps[0].0 - cx, ps[0].1 - cy) + CoDev(ps[1..], cx, cy)
  }

  datatype PairState = PairState(n: nat, meanX: real, meanY: real, m2X: real, m2Y: real, coMoment: real)

  /** What the accumulator must hold after seeing exactly `ps`. */
  function CentredSumsOf(ps: seq<Pair>): PairState {
    var mx, my := Mean(Xs(ps)), Mean(Ys(ps));
    PairState(|ps|, mx, my, Dev(Xs(ps), mx, 2), Dev(Ys(ps), my, 2), CoDev(ps, mx, my))
  }

  lemma {:induction false} CoDevAppend(a: seq<Pair>, p: Pair, cx: real, cy: real)
    ensures CoDev(a + [p], cx, cy) == CoDev(a, cx, cy) + Times(p.0 - cx, p.1 - cy)
  {
    if a == [] {
      assert (a + [p])[1..] == [];
    } else {
      assert (a + [p])[1..] == a[1..] + [p];
      CoDevAppend(a[1..], p, cx, cy);
    }
  }

  /** One term, and the whole sum, after moving both centres up by `u` and `w`. */
  function CoShifted(c: real, sx: real, sy: real, n: real, u: real, w: real): real {
    c - w * sx - u * sy + n * (u * w)
  }

  lemma CoShiftedSum(c: real, sx: real, sy: real, n: real, c': real, sx': real, sy': real, n': real, u: real, w: real)
    ensures CoShifted(c, sx, sy, n, u, w) + CoShifted(c', sx', sy', n', u, w) == CoShifted(c + c', sx + sx', sy + sy', n + n', u, w)
  {
  }

  lemma CoShiftedOne(x: real, y: real, u: real, w: real)
    ensures Times(x - u, y - w) == CoShifted(Times(x, y), x, y, 1.0, u, w)
  {
  }

  lemma {:induction false} CoShift(ps: seq<Pair>, cx: real, cy: real, u: real, w: real)
    ensures CoDev(ps, cx + u, cy + w) == CoShifted(CoDev(ps, cx, cy), Dev(Xs(ps), cx, 1), Dev(Ys(ps), cy, 1), |ps| as real, u, w)
  {
    if ps != [] {
      var rest, x, y := ps[1..], ps[0].0 - cx, ps[0].1 - cy;
      CoShift(rest, cx, cy, u, w);
      assert Xs(ps)[1..] == Xs(rest) && Ys(ps)[1..] == Ys(rest);
      assert Dev(Xs(ps), cx, 1) == x + Dev(Xs(rest), cx, 1) by { PowSmall(x); }
      assert Dev(Ys(ps), cy, 1) == y + Dev(Ys(rest), cy, 1) by { PowSmall(y); }
      assert ps[0].0 - (cx + u) == x - u && ps[0].1 - (cy + w) == y - w;
      CoShiftedOne(x, y, u, w);
      CoShiftedSum(Times(x, y), x, y, 1.0, CoDev(rest, cx, cy), Dev(Xs(rest), cx, 1), Dev(Ys(rest), cy, 1), |rest| as real, u, w);
      assert |ps| as real == 1.0 + |rest| as real;
    }
  }

  /** The assignments of `WelfordPair::update`. */
  function PairUpdated(s: PairState, x: real, y: real): PairState {
    var n := (s.n + 1) as real;
    var dx, dy := x - s.meanX, y - s.meanY;
    var mx, my := s.meanX + dx / n, s.meanY + dy / n;
    PairState(s.n + 1, mx, my, Stepped(s.m2X, dx, x - mx), Stepped(s.m2Y, dy, y - my), Stepped(s.coMoment, dx, y - my))
  }

  function Stepped(m: real, d: real, e: real): real {
    m + Times(d, e)
  }

  lemma SteppedSecond(xs: seq<real>, x: real, n: real)
    requires n == |xs| as real + 1.0
    ensures var mx := Mean(xs) + (x - Mean(xs)) / n;
            && Mean(xs + [x]) == mx
            && Dev(xs + [x], mx, 2) == Stepped(Dev(xs, Mean(xs), 2), x - Mean(xs), x - mx)
  {
    UpdateIsExact(xs, x);
    var n1, d := |xs| as real, x - Mean(xs);
    var u := d / n;
    assert Mean(xs + [x]) == Mean(xs) + u;
    StepAlgebra(Dev(xs, Mean(xs), 2), d, u, n1, n, x - (Mean(xs) + u));
  }

  lemma StepAlgebra(m: real, d: real, u: real, n1: real, n: real, e: real)
    requires n == n1 + 1.0 && n > 0.0 && u == d / n && e == d - u
    ensures UpdatedSecond(n1, d, u, m) == Stepped(m, d, e)
  {
    assert d == u * n;
    assert e == u * n1;
  }

  lemma CoStepAlgebra(c: real, n1: real, n: real, dx: real, dy: real, u: real, w: real)
    requires n == n1 + 1.0 && n > 0.0 && u == dx / n && w == dy / n
    ensures CoShifted(c, 0.0, 0.0, n1, u, w) + Times(dx - u, dy - w) == Stepped(c, dx, dy - w)
  {
    assert dx == u * n && dy == w * n;
    assert dx - u == u * n1 && dy - w == w * n1;
    assert n1 * (u * w) + (u * n1) * (w * n1) == (u * n) * (w * n1) by {
      var z := u * w;
      assert (u * n1) * (w * n1) == z * (n1 * n1);
      assert (u * n) * (w * n1) == z * (n * n1);
      assert z * (n * n1) == z * (n1 * n1) + z * n1;
    }
  }

  /** One Welford step on exact centred sums gives exact centred sums of the longer list. */
  lemma PairUpdateIsExact(ps: seq<Pair>, p: Pair)
    ensures PairUpdated(CentredSumsOf(ps), p.0, p.1) == CentredSumsOf(ps + [p])
  {
    var s, n := CentredSumsOf(ps), (|ps| + 1) as real;
    var dx, dy := p.0 - s.meanX, p.1 - s.meanY;
    var u, w := dx / n, dy / n;
    assert Xs(ps + [p]) == Xs(ps) + [p.0] && Ys(ps + [p]) == Ys(ps) + [p.1];
    SteppedSecond(Xs(ps), p.0, n);
    SteppedSecond(Ys(ps), p.1, n);
    var mx, my := s.meanX + u, s.meanY + w;
    MeanCancels(Xs(ps));
    MeanCancels(Ys(ps));
    CoShift(ps, s.meanX, s.meanY, u, w);
    CoDevAppend(ps, p, mx, my);
    assert p.0 - mx == dx - u && p.1 - my == dy - w;
    CoStepAlgebra(s.coMoment, |ps| as real, n, dx, dy, u, w);
  }

  class WelfordPair {
    var n: nat
    var meanX: real
    var meanY: real
    var m2X: real
    var m2Y: real
    var coMoment: real

    ghost function State(): PairState
      reads this
    {
      PairState(n, meanX, meanY, m2X, m2Y, coMoment)
    }

    constructor ()
      ensures State() == CentredSumsOf([])
    {
      n, meanX, meanY, m2X, m2Y, coMoment := 0, 0.0, 0.0, 0.0, 0.0, 0.0;
    }

    method Update(x: real, y: real)
      modifies this
      ensures State() == PairUpdated(old(State()), x, y)
    {
      n := n + 1;
      var nr := n as real;
      var dx, dy := x - meanX, y - meanY;
      meanX := meanX + dx / nr;
      meanY := meanY + dy / nr;
      m2X := Stepped(m2X, dx, x - meanX);
      m2Y := Stepped(m2Y, dy, y - meanY);
      coMoment := Stepped(coMoment, dx, y - meanY);
    }
  }

  /** Feeding any list of pairs leaves the exact centred sums, and the squared co-moment never
      exceeds the product it is divided by, so the clamp in `correlation` never acts. */
  method Correlate(ps: seq<Pair>) returns (acc: WelfordPair)
    ensures fresh(acc) && acc.State() == CentredSumsOf(ps)
    ensures WithinProduct(acc.coMoment, acc.m2X, acc.m2Y)
  {
    acc := new WelfordPair();
    for i := 0 to |ps|
      invariant fresh(acc) && acc.State() == CentredSumsOf(ps[..i])
    {
      assert ps[..i + 1] == ps[..i] + [ps[i]];
      PairUpdateIsExact(ps[..i], ps[i]);
      acc.Update(ps[i].0, ps[i].1);
    }
    assert ps[..|ps|] == ps;
    CauchySchwarz(ps, Mean(Xs(ps)), Mean(Ys(ps)));
  }

  /** `c^2 <= p * q` with both factors non-negative. */
  ghost predicate WithinProduct(c: real, p: real, q: real) {
    p >= 0.0 && q >= 0.0 && c * c <= p * q
  }

  /** The Cauchy-Schwarz inequality about any pair of centres. */
  lemma {:induction false} CauchySchwarz(ps: seq<Pair>, cx: real, cy: real)
    ensures WithinProduct(CoDev(ps, cx, cy), Dev(Xs(ps), cx, 2), Dev(Ys(ps), cy, 2))
  {
    if ps != [] {
      var rest, x, y := ps[1..], ps[0].0 - cx, ps[0].1 - cy;
      CauchySchwarz(rest, cx, cy);
      assert Xs(ps)[1..] == Xs(rest) && Ys(ps)[1..] == Ys(rest);
      assert Pow(x, 2) == Times(x, x) by { PowSmall(x); }
      assert Pow(y, 2) == Times(y, y) by { PowSmall(y); }
      CauchyStep(CoDev(rest, cx, cy), Dev(Xs(rest), cx, 2), Dev(Ys(rest), cy, 2), x, y);
    }
  }

  lemma CauchyStep(a: real, p: real, q: real, x: real, y: real)
    requires WithinProduct(a, p, q)
    ensures WithinProduct(Times(x, y) + a, Times(x, x) + p, Times(y, y) + q)
  {
    var s, t := p * (y * y), q * (x * x);
    assert x * x >= 0.0 && y * y >= 0.0;
    assert s >= 0.0 && t >= 0.0;
    var m := a * x * y;
    assert m * m <= s * t by {
      var z := (x * x) * (y * y);
      assert z >= 0.0;
      assert m * m == (a * a) * z;
      assert s * t == (p * q) * z;
    }
    TwiceBelowSum(m, s, t);
    assert (x * y + a) * (x * y + a) == (x * x) * (y * y) + 2.0 * m + a * a;
    assert (x * x + p) * (y * y + q) == (x * x) * (y * y) + t + s + p * q;
  }

  lemma SquareGrows(a: real, b: real)
    requires a > b >= 0.0
    ensures a * a > b * b
  {
    var d := a - b;
    assert d * d > 0.0 && d * b >= 0.0;
    assert a * a == b * b + 2.0 * (d * b) + d * d;
  }

  lemma TwiceBelowSum(m: real, s: real, t: real)
    requires s >= 0.0 && t >= 0.0 && m * m <= s * t
    ensures 2.0 * m <= s + t
  {
    var a, b := 2.0 * m, s + t;
    assert b * b - 4.0 * (s * t) == (s - t) * (s - t);
    assert (s - t) * (s - t) >= 0.0;
    assert a * a == 4.0 * (m * m);
    assert a * a <= b * b;
    if a > b {
      SquareGrows(a, b);
    }
  }
}
