/**
  Population statistics over a window of real-valued samples, and the
  z-score comparison used by the detector.

  Samples are mathematical reals: floating-point rounding and summation
  order are not modelled. The standard deviation is never computed; the
  test |z| > t is decided on squares, which `ZScoreComparison` shows to be
  the same test for every standard deviation s > 0 with s * s == variance.
*/
module Stats {

  function Sq(x: real): real
  {
    x * x
  }

  /** Products of non-negative factors grow strictly when both factors do. */
  lemma MulStrictMonotone(a: real, b: real, c: real, d: real)
    requires a > b >= 0.0 && c > d >= 0.0
    ensures a * c > b * d
  {
  }

  /** A square is non-negative, and zero only at zero. */
  lemma SqSign(x: real)
    ensures Sq(x) >= 0.0
    ensures Sq(x) == 0.0 <==> x == 0.0
  {
    if x > 0.0 {
      MulStrictMonotone(x, 0.0, x, 0.0);
    } else if x < 0.0 {
      MulStrictMonotone(-x, 0.0, -x, 0.0);
      assert Sq(-x) == Sq(x);
    }
  }

  /** Sum of the samples, folded from the right so that appending one sample adds it. */
  function Sum(s: seq<real>): real
  {
    if |s| == 0 then 0.0 else Sum(s[..|s| - 1]) + s[|s| - 1]
  }

  /** Arithmetic mean; an empty window has no positions to test, so its mean is irrelevant and set to 0. */
  function Mean(w: seq<real>): real
  {
    if |w| == 0 then 0.0 else Sum(w) / (|w| as real)
  }

  /** If every sample lies in [lo, hi], the sum of n samples lies in [n * lo, n * hi]. */
  lemma {:induction false} SumBounds(w: seq<real>, lo: real, hi: real)
    requires forall j :: 0 <= j < |w| ==> lo <= w[j] <= hi
    ensures (|w| as real) * lo <= Sum(w) <= (|w| as real) * hi
  {
    if |w| > 0 {
      var p := w[..|w| - 1];
      assert forall j :: 0 <= j < |p| ==> p[j] == w[j];
      SumBounds(p, lo, hi);
    }
  }

  /** The mean of a non-empty window lies between any lower and upper bound of its samples. */
  lemma MeanBounds(w: seq<real>, lo: real, hi: real)
    requires |w| > 0
    requires forall j :: 0 <= j < |w| ==> lo <= w[j] <= hi
    ensures lo <= Mean(w) <= hi
  {
    var n := |w| as real;
    SumBounds(w, lo, hi);
    assert Sum(w) == Mean(w) * n;
    if Mean(w) < lo {
      ScaleComparison(lo, Mean(w), n);
    }
    if Mean(w) > hi {
      ScaleComparison(Mean(w), hi, n);
    }
  }

  /** Sum of squared deviations of the samples from `m`. */
  function SumSqDev(w: seq<real>, m: real): (r: real)
    ensures r >= 0.0
    ensures r == 0.0 ==> forall j :: 0 <= j < |w| ==> w[j] == m
  {
    if |w| == 0 then 0.0
    else
      var rest := SumSqDev(w[..|w| - 1], m);
      assert forall j :: 0 <= j < |w| - 1 ==> w[..|w| - 1][j] == w[j];
      SqSign(w[|w| - 1] - m);
      rest + Sq(w[|w| - 1] - m)
  }

  /** Population variance (divides by N, as scipy's `zscore` does with its default ddof = 0). */
  function Variance(w: seq<real>): (v: real)
    ensures v >= 0.0
  {
    if |w| == 0 then 0.0 else SumSqDev(w, Mean(w)) / (|w| as real)
  }

  /** Every sample of the window is the same value. */
  predicate Constant(w: seq<real>)
  {
    forall i, j :: 0 <= i < |w| && 0 <= j < |w| ==> w[i] == w[j]
  }

  /**
    The detector's test on one sample: its deviation `d` from the window
    mean exceeds `t` population standard deviations of a window whose
    variance is `v`. A zero variance makes the z-score NaN, and NaN never
    compares greater than the threshold, so nothing exceeds it then.
  */
  predicate Exceeds(d: real, v: real, t: real)
  {
    v > 0.0 && (t < 0.0 || Sq(d) > Sq(t) * v)
  }

  function Abs(x: real): real
  {
    if x < 0.0 then -x else x
  }

  /** For a positive standard deviation s, |d / s| > t is exactly `Exceeds(d, s * s, t)`. */
  lemma ZScoreComparison(d: real, s: real, t: real)
    requires s > 0.0
    ensures Abs(d / s) > t <==> Exceeds(d, s * s, t)
  {
    var z := d / s;
    assert d == z * s;
    assert Sq(d) == Sq(z) * (s * s);
    if t >= 0.0 {
      SquareMonotone(Abs(z), t);
      assert Sq(Abs(z)) == Sq(z);
      MulStrictMonotone(s, 0.0, s, 0.0);
      ScaleComparison(Sq(z), Sq(t), s * s);
    }
  }

  /** For non-negative a and b, a > b exactly when a * a > b * b. */
  lemma SquareMonotone(a: real, b: real)
    requires a >= 0.0 && b >= 0.0
    ensures a > b <==> Sq(a) > Sq(b)
  {
    if a > b {
      MulStrictMonotone(a, b, a, b);
    } else if b > a {
      MulStrictMonotone(b, a, b, a);
    }
  }

  /** Multiplying both sides by a positive c keeps a strict comparison. */
  lemma ScaleComparison(a: real, b: real, c: real)
    requires c > 0.0
    ensures a > b <==> a * c > b * c
  {
  }

  /** A larger threshold flags fewer samples: exceeding t2 implies exceeding any t1 <= t2. */
  lemma ExceedsAntitone(d: real, v: real, t1: real, t2: real)
    requires t1 <= t2
    requires Exceeds(d, v, t2)
    ensures Exceeds(d, v, t1)
  {
    if t1 >= 0.0 {
      assert Sq(t1) <= Sq(t2) by {
        if t1 < t2 {
          SquareMonotone(t2, t1);
        }
      }
      assert Sq(t1) * v <= Sq(t2) * v;
    }
  }

  /** The sum of n copies of c is n * c. */
  lemma {:induction false} SumConstant(w: seq<real>, c: real)
    requires forall j :: 0 <= j < |w| ==> w[j] == c
    ensures Sum(w) == (|w| as real) * c
  {
    if |w| > 0 {
      var p := w[..|w| - 1];
      assert forall j :: 0 <= j < |p| ==> p[j] == c;
      SumConstant(p, c);
    }
  }

  /** n samples that all equal c have squared deviation n * (c - m)^2 from m. */
  lemma {:induction false} SumSqDevConstant(w: seq<real>, c: real, m: real)
    requires forall j :: 0 <= j < |w| ==> w[j] == c
    ensures SumSqDev(w, m) == (|w| as real) * Sq(c - m)
  {
    if |w| > 0 {
      var p := w[..|w| - 1];
      assert forall j :: 0 <= j < |p| ==> p[j] == c;
      SumSqDevConstant(p, c, m);
    }
  }

  /** A window has zero population variance exactly when all its samples are equal. */
  lemma VarianceZeroIffConstant(w: seq<real>)
    ensures Variance(w) == 0.0 <==> Constant(w)
  {
    if |w| > 0 {
      var n := |w| as real;
      if Constant(w) {
        assert forall j :: 0 <= j < |w| ==> w[j] == w[0];
        SumConstant(w, w[0]);
        assert Mean(w) == w[0];
        SumSqDevConstant(w, w[0], w[0]);
      }
      if Variance(w) == 0.0 {
        assert SumSqDev(w, Mean(w)) == Variance(w) * n;
      }
    }
  }
}
