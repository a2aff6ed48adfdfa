module Wrappers {

  /** The `None`-or-value result that the Python helpers return. */
  datatype Option<+T> = None | Some(value: T)
}

/**
  Folds over sequences of reals shared by every statistics routine of the
  repository: the beam-dump target distribution and the two Channel Access
  summary-statistics helpers. Each fold peels the LAST element, matching the
  left-to-right order in which Python's `sum`, `min` and `max` walk a list.
 */
module Numeric {

  /** Python's `sum(xs)`: a left fold starting at zero. */
  function Sum(s: seq<real>): real
    decreases |s|
  {
    if |s| == 0 then 0.0 else Sum(s[..|s| - 1]) + s[|s| - 1]
  }

  /** The sum of `v * v` over the sequence. */
  function SumSquares(s: seq<real>): real
    decreases |s|
  {
    if |s| == 0 then 0.0 else SumSquares(s[..|s| - 1]) + s[|s| - 1] * s[|s| - 1]
  }

  /** The sum of `(v - c) ** 2` over the sequence. */
  function SumSquaredDeviations(s: seq<real>, c: real): real
    decreases |s|
  {
    if |s| == 0 then 0.0
    else SumSquaredDeviations(s[..|s| - 1], c) + (s[|s| - 1] - c) * (s[|s| - 1] - c)
  }

  /** Python's `max(xs)` on a non-empty list: the running maximum only moves on a strictly larger item. */
  function Max(s: seq<real>): (r: real)
    requires |s| > 0
    ensures forall i :: 0 <= i < |s| ==> s[i] <= r
    ensures exists i :: 0 <= i < |s| && s[i] == r
    decreases |s|
  {
    if |s| == 1 then s[0]
    else
      var m := Max(s[..|s| - 1]);
      assert forall i :: 0 <= i < |s| - 1 ==> s[..|s| - 1][i] == s[i];
      if s[|s| - 1] > m then s[|s| - 1] else m
  }

  /** Python's `min(xs)` on a non-empty list. */
  function Min(s: seq<real>): (r: real)
    requires |s| > 0
    ensures forall i :: 0 <= i < |s| ==> r <= s[i]
    ensures exists i :: 0 <= i < |s| && s[i] == r
    decreases |s|
  {
    if |s| == 1 then s[0]
    else
      var m := Min(s[..|s| - 1]);
      assert forall i :: 0 <= i < |s| - 1 ==> s[..|s| - 1][i] == s[i];
      if s[|s| - 1] < m then s[|s| - 1] else m
  }

  /** The arithmetic mean `sum(xs) / len(xs)`: the value whose `len(xs)`-fold is the sum. */
  function Mean(s: seq<real>): (m: real)
    requires |s| > 0
    ensures m * (|s| as real) == Sum(s)
  {
    var n := |s| as real;
    DivMulCancel(Sum(s), n);
    Sum(s) / n
  }

  /** A sum of `n` items each at least `c` is at least `n * c`. */
  lemma {:induction false} SumAtLeast(s: seq<real>, c: real)
    requires forall i :: 0 <= i < |s| ==> c <= s[i]
    ensures (|s| as real) * c <= Sum(s)
    decreases |s|
  {
    if |s| > 0 {
      var p := s[..|s| - 1];
      assert forall i :: 0 <= i < |p| ==> p[i] == s[i];
      SumAtLeast(p, c);
      var k := |p| as real;
      assert (|s| as real) == k + 1.0;
      assert (k + 1.0) * c == k * c + c;
    }
  }

  /** A sum of `n` items each at most `c` is at most `n * c`. */
  lemma {:induction false} SumAtMost(s: seq<real>, c: real)
    requires forall i :: 0 <= i < |s| ==> s[i] <= c
    ensures Sum(s) <= (|s| as real) * c
    decreases |s|
  {
    if |s| > 0 {
      var p := s[..|s| - 1];
      assert forall i :: 0 <= i < |p| ==> p[i] == s[i];
      SumAtMost(p, c);
      var k := |p| as real;
      assert (|s| as real) == k + 1.0;
      assert (k + 1.0) * c == k * c + c;
    }
  }

  /** The mean lies between the minimum and the maximum. */
  lemma MeanBetweenMinAndMax(s: seq<real>)
    requires |s| > 0
    ensures Min(s) <= Mean(s) <= Max(s)
  {
    MeanAtLeast(s, Min(s));
    MeanAtMost(s, Max(s));
  }

  lemma MeanAtLeast(s: seq<real>, c: real)
    requires |s| > 0
    requires forall i :: 0 <= i < |s| ==> c <= s[i]
    ensures c <= Mean(s)
  {
    SumAtLeast(s, c);
    QuotientBounds(Sum(s), |s| as real, c, Sum(s) / (|s| as real));
  }

  lemma MeanAtMost(s: seq<real>, c: real)
    requires |s| > 0
    requires forall i :: 0 <= i < |s| ==> s[i] <= c
    ensures Mean(s) <= c
  {
    SumAtMost(s, c);
    QuotientBounds(Sum(s), |s| as real, Sum(s) / (|s| as real), c);
  }

  /** From `n*lo <= sum <= n*hi` with `n > 0` to `lo <= sum/n <= hi`. */
  lemma QuotientBounds(sum: real, n: real, lo: real, hi: real)
    requires n > 0.0 && n * lo <= sum <= n * hi
    ensures lo <= sum / n <= hi
  {
    DivideBounds(n * lo, sum, n * hi, n);
    MulDivCancel(lo, n);
    MulDivCancel(hi, n);
  }

  lemma MulDivCancel(a: real, n: real)
    requires n > 0.0
    ensures n * a / n == a
  {
  }

  lemma DivMulCancel(a: real, n: real)
    requires n > 0.0
    ensures a / n * n == a
  {
  }

  /** Dividing `a <= b <= c` by a positive `n`. */
  lemma DivideBounds(a: real, b: real, c: real, n: real)
    requires n > 0.0 && a <= b <= c
    ensures a / n <= b / n <= c / n
  {
  }

  /** A sum of squares is never negative. */
  lemma {:induction false} SumSquaredDeviationsNonNegative(s: seq<real>, c: real)
    ensures SumSquaredDeviations(s, c) >= 0.0
    decreases |s|
  {
    if |s| > 0 {
      SumSquaredDeviationsNonNegative(s[..|s| - 1], c);
      var d := s[|s| - 1] - c;
      assert d * d >= 0.0;
    }
  }

  /** Expanding the square: `sum((v - c)^2) == sum(v^2) - 2c sum(v) + n c^2`. */
  lemma {:induction false} SumSquaredDeviationsExpand(s: seq<real>, c: real)
    ensures SumSquaredDeviations(s, c) == SumSquares(s) - 2.0 * c * Sum(s) + (|s| as real) * c * c
    decreases |s|
  {
    if |s| > 0 {
      var p := s[..|s| - 1];
      var v := s[|s| - 1];
      SumSquaredDeviationsExpand(p, c);
      assert (v - c) * (v - c) == v * v - 2.0 * c * v + c * c;
      assert (|s| as real) * c * c == (|p| as real) * c * c + c * c;
    }
  }

  /** The population variance: squared deviations from the mean, divided by `n` (not `n - 1`). */
  function Variance(s: seq<real>): real
    requires |s| > 0
  {
    SumSquaredDeviations(s, Mean(s)) / (|s| as real)
  }

  /** The mean of the squares. */
  function MeanSquare(s: seq<real>): real
    requires |s| > 0
  {
    SumSquares(s) / (|s| as real)
  }

  /** The variance equals the mean of the squares minus the square of the mean. */
  lemma VarianceIsMeanSquareMinusSquaredMean(s: seq<real>)
    requires |s| > 0
    ensures Variance(s) == MeanSquare(s) - Mean(s) * Mean(s)
  {
    VarianceIdentityAt(s, |s| as real, Variance(s), SumSquares(s), Mean(s));
  }

  /*
    The same identity with the length, the variance, the sum of squares and the
    mean passed in as plain reals: keeping the integer-to-real conversion and
    the folds out of the nonlinear goal keeps the solver fast.
   */
  lemma VarianceIdentityAt(s: seq<real>, n: real, v: real, sq: real, m: real)
    requires |s| > 0 && n == |s| as real && v == Variance(s) && sq == SumSquares(s) && m == Mean(s)
    ensures v == sq / n - m * m
  {
    var ssd, sum := SumSquaredDeviations(s, m), Sum(s);
    ExpandedAt(s, n, m, ssd, sq, sum);
    VarianceAlgebra(ssd, sq, sum, n, m);
  }

  /** The expansion with every fold named by a plain real. */
  lemma ExpandedAt(s: seq<real>, n: real, m: real, ssd: real, sq: real, sum: real)
    requires n == |s| as real && ssd == SumSquaredDeviations(s, m) && sq == SumSquares(s) && sum == Sum(s)
    ensures ssd == sq - 2.0 * m * sum + n * m * m
  {
    SumSquaredDeviationsExpand(s, m);
  }

  /** The variance is never negative. */
  lemma VarianceNonNegative(s: seq<real>)
    requires |s| > 0
    ensures Variance(s) >= 0.0
  {
    SumSquaredDeviationsNonNegative(s, Mean(s));
    NonNegativeQuotient(SumSquaredDeviations(s, Mean(s)), |s| as real);
  }

  lemma NonNegativeQuotient(a: real, n: real)
    requires a >= 0.0 && n > 0.0
    ensures a / n >= 0.0
  {
  }

  /** The real-arithmetic step of the variance identity, kept apart from the folds. */
  lemma VarianceAlgebra(ssd: real, sq: real, sum: real, n: real, m: real)
    requires n > 0.0 && m == sum / n
    requires ssd == sq - 2.0 * m * sum + n * m * m
    ensures ssd / n == sq / n - m * m
  {
    assert sum == m * n;
    assert ssd == sq - n * (m * m);
  }
}
