/**
 * Weighted means: a list of values weighted position by position, the bounds of the weighted
 * mean, and Chebyshev's sum inequality for decreasing weights (on values sorted high to low the
 * weighted mean is at least the plain mean).
 */
module WeightedMeans {
  import opened Sorting
  import opened Numbers

  /** The total of the first `n` weights of `w`. */
  function WeightTotal(n: nat, w: nat -> real): real {
    if n == 0 then 0.0 else WeightTotal(n - 1, w) + w(n - 1)
  }

  /** The sum of the values, the `i`-th multiplied by the weight `w(i)`. */
  function WeightedSum(xs: seq<real>, w: nat -> real): real {
    if xs == [] then 0.0 else WeightedSum(xs[..|xs| - 1], w) + w(|xs| - 1) * xs[|xs| - 1]
  }

  ghost predicate PositiveWeights(w: nat -> real) {
    forall i :: w(i) > 0.0
  }

  ghost predicate DecreasingWeights(w: nat -> real) {
    forall i, j :: i <= j ==> w(j) <= w(i)
  }

  lemma {:induction false} WeightTotalPositive(n: nat, w: nat -> real)
    requires PositiveWeights(w) && n > 0
    ensures WeightTotal(n, w) > 0.0
    decreases n
  {
    if n > 1 {
      WeightTotalPositive(n - 1, w);
    }
  }

  lemma {:induction false} BoundsStep(t: real, t1: real, ws: real, ws1: real, v: real, x: real, lo: real, hi: real)
    requires t * lo <= ws <= t * hi && lo <= x <= hi && v >= 0.0
    requires t1 == t + v && ws1 == ws + v * x
    ensures t1 * lo <= ws1 <= t1 * hi
  {
    assert v * (x - lo) >= 0.0 && v * (hi - x) >= 0.0;
  }

  lemma {:induction false} WeightedSumBounds(xs: seq<real>, w: nat -> real, lo: real, hi: real)
    requires PositiveWeights(w)
    requires forall i :: 0 <= i < |xs| ==> lo <= xs[i] <= hi
    ensures WeightTotal(|xs|, w) * lo <= WeightedSum(xs, w) <= WeightTotal(|xs|, w) * hi
    decreases |xs|
  {
    if xs == [] {
      ZeroBounds(WeightTotal(|xs|, w), WeightedSum(xs, w), lo, hi);
    } else {
      WeightedSumBounds(xs[..|xs| - 1], w, lo, hi);
      BoundsSnoc(xs, w, lo, hi);
    }
  }

  lemma {:induction false} ZeroBounds(t: real, ws: real, lo: real, hi: real)
    requires t == 0.0 && ws == 0.0
    ensures t * lo <= ws <= t * hi
  {
  }

  /** The bounds carry over from all but the last value to all values. */
  lemma {:induction false} BoundsSnoc(xs: seq<real>, w: nat -> real, lo: real, hi: real)
    requires xs != [] && lo <= xs[|xs| - 1] <= hi && w(|xs| - 1) > 0.0
    requires WeightTotal(|xs[..|xs| - 1]|, w) * lo <= WeightedSum(xs[..|xs| - 1], w)
               <= WeightTotal(|xs[..|xs| - 1]|, w) * hi
    ensures WeightTotal(|xs|, w) * lo <= WeightedSum(xs, w) <= WeightTotal(|xs|, w) * hi
  {
    SnocParts(xs, w);
    BoundsStep(WeightTotal(|xs[..|xs| - 1]|, w), WeightTotal(|xs|, w),
               WeightedSum(xs[..|xs| - 1], w), WeightedSum(xs, w), w(|xs| - 1), xs[|xs| - 1], lo, hi);
  }

  /** How the weighted sum, the weight total and the sum grow by the last value. */
  lemma {:induction false} SnocParts(xs: seq<real>, w: nat -> real)
    requires xs != []
    ensures WeightedSum(xs, w) == WeightedSum(xs[..|xs| - 1], w) + w(|xs| - 1) * xs[|xs| - 1]
    ensures WeightTotal(|xs|, w) == WeightTotal(|xs[..|xs| - 1]|, w) + w(|xs| - 1)
  {
  }

  lemma {:induction false} DivBounds(t: real, ws: real, lo: real, hi: real)
    requires t > 0.0 && t * lo <= ws <= t * hi
    ensures lo <= ws / t <= hi
  {
    assert lo == (t * lo) / t && hi == (t * hi) / t;
  }

  /** Sorting keeps the sum. */
  lemma {:induction false} SortBySum(s: seq<real>, le: (real, real) -> bool)
    ensures Sum(SortBy(s, le)) == Sum(s)
    decreases |s|
  {
    if s != [] {
      var init := s[..|s| - 1];
      SortBySum(init, le);
      InsertSum(SortBy(init, le), s[|s| - 1], le);
    }
  }

  lemma {:induction false} InsertSum(t: seq<real>, x: real, le: (real, real) -> bool)
    ensures Sum(Insert(t, x, le)) == Sum(t) + x
    decreases |t|
  {
    if t != [] && !le(t[|t| - 1], x) {
      var init := t[..|t| - 1];
      InsertSum(init, x, le);
      var r := Insert(init, x, le) + [t[|t| - 1]];
      assert r[..|r| - 1] == Insert(init, x, le);
    } else if t != [] {
      var r := t + [x];
      assert r[..|r| - 1] == t;
    }
  }

  /** The weighted mean of values within bounds is within the same bounds. */
  lemma {:induction false} WeightedMeanWithin(xs: seq<real>, w: nat -> real, lo: real, hi: real)
    requires PositiveWeights(w) && xs != []
    requires forall i :: 0 <= i < |xs| ==> lo <= xs[i] <= hi
    ensures WeightTotal(|xs|, w) > 0.0
    ensures lo <= WeightedSum(xs, w) / WeightTotal(|xs|, w) <= hi
  {
    WeightedSumBounds(xs, w, lo, hi);
    WeightTotalPositive(|xs|, w);
    DivBounds(WeightTotal(|xs|, w), WeightedSum(xs, w), lo, hi);
  }

  ghost predicate NonIncreasing(xs: seq<real>) {
    forall i, j :: 0 <= i < j < |xs| ==> xs[j] <= xs[i]
  }

  /** The weighted deviation of the values from `x`: the sum of `w(i) * (ys[i] - x)`. */
  function Deviation(ys: seq<real>, w: nat -> real, x: real): real {
    if ys == [] then 0.0 else Deviation(ys[..|ys| - 1], w, x) + w(|ys| - 1) * (ys[|ys| - 1] - x)
  }

  /** The plain deviation of the values from `x`: the sum of `ys[i] - x`. */
  function Excess(ys: seq<real>, x: real): real {
    if ys == [] then 0.0 else Excess(ys[..|ys| - 1], x) + (ys[|ys| - 1] - x)
  }

  /** When a weight `v` separates the weights as `x` separates the values (weights at least
      `v` go with values at least `x`, weights at most `v` with values at most `x`), the
      weighted deviation is at least `v` times the plain deviation. */
  lemma {:induction false} DeviationAtLeast(ys: seq<real>, w: nat -> real, v: real, x: real)
    requires forall i :: 0 <= i < |ys| ==> (x <= ys[i] && v <= w(i)) || (ys[i] <= x && w(i) <= v)
    ensures Deviation(ys, w, x) >= v * Excess(ys, x)
    decreases |ys|
  {
    if ys == [] {
      ZeroAtLeast(Deviation(ys, w, x), Excess(ys, x), v);
    } else {
      DeviationAtLeast(ys[..|ys| - 1], w, v, x);
      DeviationAtLeastSnoc(ys, w, v, x);
    }
  }

  lemma {:induction false} ZeroAtLeast(d: real, e: real, v: real)
    requires d == 0.0 && e == 0.0
    ensures d >= v * e
  {
  }

  lemma {:induction false} DeviationAtLeastSnoc(ys: seq<real>, w: nat -> real, v: real, x: real)
    requires ys != []
    requires (x <= ys[|ys| - 1] && v <= w(|ys| - 1)) || (ys[|ys| - 1] <= x && w(|ys| - 1) <= v)
    requires Deviation(ys[..|ys| - 1], w, x) >= v * Excess(ys[..|ys| - 1], x)
    ensures Deviation(ys, w, x) >= v * Excess(ys, x)
  {
    SameSignProduct(w(|ys| - 1) - v, ys[|ys| - 1] - x);
    DeviationStep(Deviation(ys[..|ys| - 1], w, x), Deviation(ys, w, x),
                  Excess(ys[..|ys| - 1], x), Excess(ys, x), w(|ys| - 1), ys[|ys| - 1] - x, v);
  }

  lemma {:induction false} DeviationStep(d: real, d1: real, e: real, e1: real, wn: real, t: real, v: real)
    requires d >= v * e && (wn - v) * t >= 0.0
    requires d1 == d + wn * t && e1 == e + t
    ensures d1 >= v * e1
  {
    assert d1 - v * e1 == (d - v * e) + (wn - v) * t;
  }

  /** The weighted deviation in terms of the weighted sum and the weight total. */
  lemma {:induction false} DeviationExpands(ys: seq<real>, w: nat -> real, x: real)
    ensures Deviation(ys, w, x) == WeightedSum(ys, w) - WeightTotal(|ys|, w) * x
    decreases |ys|
  {
    if ys == [] {
      ZeroScaled(Deviation(ys, w, x), WeightedSum(ys, w), WeightTotal(|ys|, w), x);
    } else {
      DeviationExpands(ys[..|ys| - 1], w, x);
      DeviationExpandsSnoc(ys, w, x);
    }
  }

  lemma {:induction false} ZeroScaled(a: real, b: real, c: real, x: real)
    requires a == 0.0 && b == 0.0 && c == 0.0
    ensures a == b - c * x
  {
  }

  lemma {:induction false} DeviationExpandsSnoc(ys: seq<real>, w: nat -> real, x: real)
    requires ys != []
    requires Deviation(ys[..|ys| - 1], w, x) ==
               WeightedSum(ys[..|ys| - 1], w) - WeightTotal(|ys[..|ys| - 1]|, w) * x
    ensures Deviation(ys, w, x) == WeightedSum(ys, w) - WeightTotal(|ys|, w) * x
  {
    SnocParts(ys, w);
    ExpandStep(Deviation(ys[..|ys| - 1], w, x), Deviation(ys, w, x),
               WeightedSum(ys[..|ys| - 1], w), WeightedSum(ys, w),
               WeightTotal(|ys[..|ys| - 1]|, w), WeightTotal(|ys|, w), w(|ys| - 1), ys[|ys| - 1], x);
  }

  /** One step of a deviation `sum(c(i) * (y(i) - x))` against `sum(c(i) * y(i))` and
      `sum(c(i))`. */
  lemma {:induction false} ExpandStep(d: real, d1: real, s: real, s1: real, t: real, t1: real,
                                      c: real, y: real, x: real)
    requires d == s - t * x
    requires d1 == d + c * (y - x) && s1 == s + c * y && t1 == t + c
    ensures d1 == s1 - t1 * x
  {
    assert t1 * x == t * x + c * x;
  }

  /** The plain deviation in terms of the sum and the count. */
  lemma {:induction false} ExcessExpands(ys: seq<real>, x: real)
    ensures Excess(ys, x) == Sum(ys) - |ys| as real * x
    decreases |ys|
  {
    if ys == [] {
      ZeroScaled(Excess(ys, x), Sum(ys), |ys| as real, x);
    } else {
      ExcessExpands(ys[..|ys| - 1], x);
      ExcessExpandsSnoc(ys, x);
    }
  }

  lemma {:induction false} ExcessExpandsSnoc(ys: seq<real>, x: real)
    requires ys != []
    requires Excess(ys[..|ys| - 1], x) == Sum(ys[..|ys| - 1]) - |ys[..|ys| - 1]| as real * x
    ensures Excess(ys, x) == Sum(ys) - |ys| as real * x
  {
    ExpandStep(Excess(ys[..|ys| - 1], x), Excess(ys, x), Sum(ys[..|ys| - 1]), Sum(ys),
               |ys[..|ys| - 1]| as real, |ys| as real, 1.0, ys[|ys| - 1], x);
  }

  lemma {:induction false} SameSignProduct(a: real, b: real)
    requires (a >= 0.0 && b >= 0.0) || (a <= 0.0 && b <= 0.0)
    ensures a * b >= 0.0
  {
  }

  /** The number of leading values at or above `x`. */
  function LeadingAtLeast(xs: seq<real>, x: real): (k: nat)
    ensures k <= |xs|
    ensures forall i :: 0 <= i < k ==> x <= xs[i]
    ensures k < |xs| ==> xs[k] < x
  {
    if xs == [] || xs[0] < x then 0 else 1 + LeadingAtLeast(xs[1..], x)
  }

  /** On values sorted high to low, the weight at the first value below the mean separates the
      weights as the mean separates the values. */
  lemma {:induction false} PivotSeparates(xs: seq<real>, w: nat -> real, x: real)
    requires DecreasingWeights(w) && NonIncreasing(xs)
    ensures var v := w(LeadingAtLeast(xs, x));
      forall i :: 0 <= i < |xs| ==> (x <= xs[i] && v <= w(i)) || (xs[i] <= x && w(i) <= v)
  {
    var k := LeadingAtLeast(xs, x);
    forall i | 0 <= i < |xs| ensures (x <= xs[i] && w(k) <= w(i)) || (xs[i] <= x && w(i) <= w(k)) {
      if i >= k {
        assert xs[i] <= xs[k];
      }
    }
  }

  lemma {:induction false} MeanCancels(d: real, e: real, ws: real, wt: real, s: real, n: real,
                                       v: real, mu: real)
    requires d >= v * e && d == ws - wt * mu && e == s - n * mu
    requires n > 0.0 && wt > 0.0 && mu == s / n
    ensures ws / wt >= mu
  {
    assert n * mu == s;
    assert v * e == 0.0;
    assert (wt * mu) / wt == mu;
  }

  /** With a weight `v` that separates the weights as the mean separates the values, the
      weighted mean is at least the mean. */
  lemma {:induction false} WeightedAtLeastPivot(xs: seq<real>, w: nat -> real, v: real, mu: real)
    requires xs != [] && PositiveWeights(w) && mu == Mean(xs)
    requires forall i :: 0 <= i < |xs| ==> (mu <= xs[i] && v <= w(i)) || (xs[i] <= mu && w(i) <= v)
    ensures WeightTotal(|xs|, w) > 0.0
    ensures WeightedSum(xs, w) / WeightTotal(|xs|, w) >= mu
  {
    DeviationAtLeast(xs, w, v, mu);
    DeviationExpands(xs, w, mu);
    ExcessExpands(xs, mu);
    WeightTotalPositive(|xs|, w);
    MeanCancels(Deviation(xs, w, mu), Excess(xs, mu), WeightedSum(xs, w), WeightTotal(|xs|, w),
                Sum(xs), |xs| as real, v, mu);
  }

  /** Chebyshev's sum inequality for decreasing weights: on values sorted high to low the
      weighted mean is at least the plain mean. */
  lemma {:induction false} WeightedAtLeastMean(xs: seq<real>, w: nat -> real)
    requires xs != [] && PositiveWeights(w) && DecreasingWeights(w) && NonIncreasing(xs)
    ensures WeightTotal(|xs|, w) > 0.0
    ensures WeightedSum(xs, w) / WeightTotal(|xs|, w) >= Mean(xs)
  {
    PivotSeparates(xs, w, Mean(xs));
    WeightedAtLeastPivot(xs, w, w(LeadingAtLeast(xs, Mean(xs))), Mean(xs));
  }
}
