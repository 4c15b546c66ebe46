/** Sums and arithmetic means over exact reals, as Python's `sum(xs) / len(xs)`. */
module Numbers {

  /** `sum(xs)`, accumulated from the left as a loop does. */
  function Sum(xs: seq<real>): real {
    if xs == [] then 0.0 else Sum(xs[..|xs| - 1]) + xs[|xs| - 1]
  }

  /** `sum(xs) / len(xs) if xs else 0.0` */
  function Mean(xs: seq<real>): real {
    if xs == [] then 0.0 else Sum(xs) / |xs| as real
  }

  lemma {:induction false} SumBounds(xs: seq<real>, lo: real, hi: real)
    requires forall i :: 0 <= i < |xs| ==> lo <= xs[i] <= hi
    ensures |xs| as real * lo <= Sum(xs) <= |xs| as real * hi
    decreases |xs|
  {
    if xs != [] {
      SumBounds(xs[..|xs| - 1], lo, hi);
    }
  }

  /** A mean lies between the smallest and the largest value. */
  lemma MeanBounds(xs: seq<real>, lo: real, hi: real)
    requires xs != []
    requires forall i :: 0 <= i < |xs| ==> lo <= xs[i] <= hi
    ensures lo <= Mean(xs) <= hi
  {
    SumBounds(xs, lo, hi);
    var n := |xs| as real;
    assert n * lo <= Sum(xs) <= n * hi;
    assert lo == (n * lo) / n && hi == (n * hi) / n;
  }

  lemma {:induction false} SumAppend(xs: seq<real>, ys: seq<real>)
    ensures Sum(xs + ys) == Sum(xs) + Sum(ys)
    decreases |ys|
  {
    if ys != [] {
      var zs := xs + ys;
      assert zs[..|zs| - 1] == xs + ys[..|ys| - 1];
      SumAppend(xs, ys[..|ys| - 1]);
    } else {
      assert xs + ys == xs;
    }
  }

  lemma {:induction false} SumAbove(xs: seq<real>, lo: real)
    requires xs != []
    requires forall i :: 0 <= i < |xs| ==> lo < xs[i]
    ensures |xs| as real * lo < Sum(xs)
    decreases |xs|
  {
    var init := xs[..|xs| - 1];
    if init != [] {
      SumAbove(init, lo);
    }
  }

  /** A mean of values all above `lo` is above `lo`. */
  lemma MeanAbove(xs: seq<real>, lo: real)
    requires xs != []
    requires forall i :: 0 <= i < |xs| ==> lo < xs[i]
    ensures lo < Mean(xs)
  {
    SumAbove(xs, lo);
    var n := |xs| as real;
    assert lo == (n * lo) / n;
  }
}
