/** Sums over a list of real values: the plain sum and the sums of powers of
    deviations from a centre, with the identities that move the centre. */
module Sums {

  function Sum(xs: seq<real>): real {
    if xs == [] then 0.0 else xs[0] + Sum(xs[1..])
  }

  function Pow(x: real, k: nat): real {
    if k == 0 then 1.0 else x * Pow(x, k - 1)
  }

  /** The sum of `(x - c)^k` over `xs`. */
  function Dev(xs: seq<real>, c: real, k: nat): real {
    if xs == [] then 0.0 else Pow(xs[0] - c, k) + Dev(xs[1..], c, k)
  }

  /** The arithmetic mean; an empty list has mean zero, as a fresh accumulator does. */
  function Mean(xs: seq<real>): real {
    if xs == [] then 0.0 else Sum(xs) / |xs| as real
  }

  lemma {:induction false} SumAppend(a: seq<real>, b: seq<real>)
    ensures Sum(a + b) == Sum(a) + Sum(b)
  {
    if a == [] {
      assert a + b == b;
    } else {
      assert (a + b)[1..] == a[1..] + b;
      SumAppend(a[1..], b);
    }
  }

  lemma {:induction false} DevAppend(a: seq<real>, b: seq<real>, c: real, k: nat)
    ensures Dev(a + b, c, k) == Dev(a, c, k) + Dev(b, c, k)
  {
    if a == [] {
      assert a + b == b;
    } else {
      assert (a + b)[1..] == a[1..] + b;
      DevAppend(a[1..], b, c, k);
    }
  }

  lemma {:induction false} Dev1Sum(xs: seq<real>, c: real)
    ensures Dev(xs, c, 1) == Sum(xs) - |xs| as real * c
  {
    if xs != [] {
      Dev1Sum(xs[1..], c);
      assert Pow(xs[0] - c, 1) == xs[0] - c;
      assert |xs| as real == 1.0 + |xs[1..]| as real;
    }
  }

  /** The mean is the centre about which the deviations cancel. */
  lemma MeanCancels(xs: seq<real>)
    ensures |xs| as real * Mean(xs) == Sum(xs)
    ensures Dev(xs, Mean(xs), 1) == 0.0
  {
    Dev1Sum(xs, Mean(xs));
  }

  lemma PowSmall(y: real)
    ensures Pow(y, 0) == 1.0 && Pow(y, 1) == y && Pow(y, 2) == y * y && Pow(y, 3) == y * (y * y)
    ensures Pow(y, 4) == y * (y * (y * y))
  {
    assert Pow(y, 0) == 1.0;
    assert Pow(y, 1) == y;
    assert Pow(y, 2) == y * Pow(y, 1);
    assert Pow(y, 3) == y * Pow(y, 2);
    assert Pow(y, 4) == y * Pow(y, 3);
  }

  lemma Binomial2(y: real, d: real)
    ensures Pow(y + d, 2) == Pow(y, 2) + 2.0 * d * Pow(y, 1) + d * d
  {
    PowSmall(y);
    PowSmall(y + d);
  }

  lemma Binomial3(y: real, d: real)
    ensures Pow(y + d, 3) == Pow(y, 3) + 3.0 * d * Pow(y, 2) + 3.0 * (d * d) * Pow(y, 1) + d * (d * d)
  {
    PowSmall(y);
    PowSmall(y + d);
  }

  lemma Binomial4(y: real, d: real)
    ensures Pow(y + d, 4) == Pow(y, 4) + 4.0 * d * Pow(y, 3) + 6.0 * (d * d) * Pow(y, 2)
                             + 4.0 * (d * (d * d)) * Pow(y, 1) + d * (d * (d * d))
  {
    PowSmall(y);
    PowSmall(y + d);
  }

  /** The second to fourth deviation sums of `n` values after moving the centre from `c` to `c - d`,
      given those about `c`; the fourth is written over its binomial coefficients `f3..f0`. */
  function Shifted2(x2: real, x1: real, n: real, d: real): real {
    x2 + 2.0 * d * x1 + n * (d * d)
  }

  function Shifted3(x3: real, x2: real, x1: real, n: real, d: real): real {
    x3 + 3.0 * d * x2 + 3.0 * (d * d) * x1 + n * (d * (d * d))
  }

  function Shifted4(x4: real, x3: real, x2: real, x1: real, n: real, f3: real, f2: real, f1: real, f0: real): real {
    x4 + f3 * x3 + f2 * x2 + f1 * x1 + n * f0
  }

  lemma ShiftedOne(y: real, d: real)
    ensures Pow(y + d, 2) == Shifted2(Pow(y, 2), Pow(y, 1), 1.0, d)
    ensures Pow(y + d, 3) == Shifted3(Pow(y, 3), Pow(y, 2), Pow(y, 1), 1.0, d)
  {
    Binomial2(y, d);
    Binomial3(y, d);
  }

  lemma ShiftedSum2(x2: real, x1: real, n: real, y2: real, y1: real, m: real, d: real)
    ensures Shifted2(x2, x1, n, d) + Shifted2(y2, y1, m, d) == Shifted2(x2 + y2, x1 + y1, n + m, d)
  {
  }

  lemma ShiftedSum3(x3: real, x2: real, x1: real, n: real, y3: real, y2: real, y1: real, m: real, d: real)
    ensures Shifted3(x3, x2, x1, n, d) + Shifted3(y3, y2, y1, m, d) == Shifted3(x3 + y3, x2 + y2, x1 + y1, n + m, d)
  {
  }

  lemma {:induction false} Shift2(xs: seq<real>, c: real, d: real)
    ensures Dev(xs, c - d, 2) == Shifted2(Dev(xs, c, 2), Dev(xs, c, 1), |xs| as real, d)
  {
    if xs != [] {
      var y, rest := xs[0] - c, xs[1..];
      Shift2(rest, c, d);
      assert xs[0] - (c - d) == y + d;
      ShiftedOne(y, d);
      assert |xs| as real == 1.0 + |rest| as real;
      ShiftedSum2(Pow(y, 2), Pow(y, 1), 1.0, Dev(rest, c, 2), Dev(rest, c, 1), |rest| as real, d);
    }
  }

  lemma {:induction false} Shift3(xs: seq<real>, c: real, d: real)
    ensures Dev(xs, c - d, 3) == Shifted3(Dev(xs, c, 3), Dev(xs, c, 2), Dev(xs, c, 1), |xs| as real, d)
  {
    if xs != [] {
      var y, rest := xs[0] - c, xs[1..];
      Shift3(rest, c, d);
      assert xs[0] - (c - d) == y + d;
      ShiftedOne(y, d);
      assert |xs| as real == 1.0 + |rest| as real;
      ShiftedSum3(Pow(y, 3), Pow(y, 2), Pow(y, 1), 1.0, Dev(rest, c, 3), Dev(rest, c, 2), Dev(rest, c, 1), |rest| as real, d);
    }
  }

  lemma {:induction false} Shift4(xs: seq<real>, c: real, d: real, f3: real, f2: real, f1: real, f0: real)
    requires f3 == 4.0 * d && f2 == 6.0 * (d * d) && f1 == 4.0 * (d * (d * d)) && f0 == d * (d * (d * d))
    ensures Dev(xs, c - d, 4) == Shifted4(Dev(xs, c, 4), Dev(xs, c, 3), Dev(xs, c, 2), Dev(xs, c, 1), |xs| as real, f3, f2, f1, f0)
  {
    if xs != [] {
      var y, rest := xs[0] - c, xs[1..];
      Shift4(rest, c, d, f3, f2, f1, f0);
      assert Pow(xs[0] - (c - d), 4) == Shifted4(Pow(y, 4), Pow(y, 3), Pow(y, 2), Pow(y, 1), 1.0, f3, f2, f1, f0) by {
        assert xs[0] - (c - d) == y + d;
        Binomial4(y, d);
      }
      assert |xs| as real == 1.0 + |rest| as real;
      ShiftedSum4(Pow(y, 4), Pow(y, 3), Pow(y, 2), Pow(y, 1), 1.0,
                  Dev(rest, c, 4), Dev(rest, c, 3), Dev(rest, c, 2), Dev(rest, c, 1), |rest| as real, f3, f2, f1, f0);
    }
  }

  lemma ShiftedSum4(x4: real, x3: real, x2: real, x1: real, n: real, y4: real, y3: real, y2: real, y1: real, m: real,
                    f3: real, f2: real, f1: real, f0: real)
    ensures Shifted4(x4, x3, x2, x1, n, f3, f2, f1, f0) + Shifted4(y4, y3, y2, y1, m, f3, f2, f1, f0)
         == Shifted4(x4 + y4, x3 + y3, x2 + y2, x1 + y1, n + m, f3, f2, f1, f0)
  {
    Linear(f3, x3, y3);
    Linear(f2, x2, y2);
    Linear(f1, x1, y1);
    Linear(f0, n, m);
  }

  lemma Linear(f: real, a: real, b: real)
    ensures f * (a + b) == f * a + f * b
  {
  }
}
