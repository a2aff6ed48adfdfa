/**
  `TargetDistribution.update` of the beam dump (beam_dump/main.py): summary
  statistics recomputed from the whole particle buffer every frame.

  `math.sqrt` is not modelled: the record keeps the two variances and the
  squared RMS radius, whose square roots are the source's `std_x`, `std_y`
  and `rms_radius`.
 */
module Distribution {
  import opened Numeric

  /** One particle of the buffer: the tuple `(px, py, z, distance)`. */
  datatype Particle = Particle(x: real, y: real, z: real, deviation: real)

  /** The dataclass `TargetDistribution`, with squared spreads in place of `std_x`, `std_y`, `rms_radius`. */
  datatype TargetDistribution = TargetDistribution(
    meanX: real,
    meanY: real,
    varX: real,
    varY: real,
    rmsRadiusSquared: real,
    maxDeviation: real,
    totalParticles: nat)

  /** The dataclass defaults: every field zero. */
  const InitialDistribution := TargetDistribution(0.0, 0.0, 0.0, 0.0, 0.0, 0.0, 0)

  function Xs(ps: seq<Particle>): (r: seq<real>)
    ensures |r| == |ps| && forall i :: 0 <= i < |ps| ==> r[i] == ps[i].x
  {
    seq(|ps|, i requires 0 <= i < |ps| => ps[i].x)
  }

  function Ys(ps: seq<Particle>): (r: seq<real>)
    ensures |r| == |ps| && forall i :: 0 <= i < |ps| ==> r[i] == ps[i].y
  {
    seq(|ps|, i requires 0 <= i < |ps| => ps[i].y)
  }

  function Deviations(ps: seq<Particle>): (r: seq<real>)
    ensures |r| == |ps| && forall i :: 0 <= i < |ps| ==> r[i] == ps[i].deviation
  {
    seq(|ps|, i requires 0 <= i < |ps| => ps[i].deviation)
  }

  /** The per-particle `x**2 + y**2`. */
  function RadiiSquared(ps: seq<Particle>): (r: seq<real>)
    ensures |r| == |ps| && forall i :: 0 <= i < |ps| ==> r[i] == ps[i].x * ps[i].x + ps[i].y * ps[i].y
  {
    seq(|ps|, i requires 0 <= i < |ps| => ps[i].x * ps[i].x + ps[i].y * ps[i].y)
  }

  /**
    `update(particles)`. An empty buffer leaves every field as it was;
    otherwise every field is recomputed from the buffer alone.
   */
  function Update(d: TargetDistribution, ps: seq<Particle>): (r: TargetDistribution)
    ensures |ps| == 0 ==> r == d
    ensures |ps| > 0 ==> r.totalParticles == |ps| && Describes(r, ps)
  {
    if |ps| == 0 then d
    else
      var xs, ys, rs, devs := Xs(ps), Ys(ps), RadiiSquared(ps), Deviations(ps);
      SumRadiiSquared(ps);
      var r := TargetDistribution(Mean(xs), Mean(ys), Variance(xs), Variance(ys), Mean(rs), Max(devs), |ps|);
      RecomputedDescribes(xs, ys, rs, devs, r);
      r
  }

  /**
    What the recomputed record says about a non-empty buffer: the means are
    the arithmetic means and lie within the coordinate ranges, the variances
    are non-negative and equal the mean square minus the squared mean, the
    squared RMS radius is the sum of the two second moments, and the maximum
    deviation bounds every particle's and is attained by one of them.
   */
  predicate Describes(r: TargetDistribution, ps: seq<Particle>)
    requires |ps| > 0
  {
    DescribesSamples(r, Xs(ps), Ys(ps), Deviations(ps))
  }

  /** `Describes` over the coordinate and deviation columns of the buffer. */
  predicate DescribesSamples(r: TargetDistribution, xs: seq<real>, ys: seq<real>, devs: seq<real>)
    requires |xs| > 0 && |ys| > 0
  {
    && CentresDescribe(r.meanX, r.meanY, xs, ys)
    && SpreadsDescribe(r, xs, ys)
    && MaximumDescribes(r.maxDeviation, devs)
  }

  /** The means are the arithmetic means and lie within the coordinate ranges. */
  predicate CentresDescribe(mx: real, my: real, xs: seq<real>, ys: seq<real>)
    requires |xs| > 0 && |ys| > 0
  {
    && mx == Mean(xs) && my == Mean(ys)
    && Min(xs) <= mx <= Max(xs)
    && Min(ys) <= my <= Max(ys)
  }

  /**
    The variances are non-negative and equal the mean square minus the squared
    mean; the squared RMS radius is the sum of the two second moments.
   */
  predicate SpreadsDescribe(r: TargetDistribution, xs: seq<real>, ys: seq<real>)
    requires |xs| > 0 && |ys| > 0
  {
    SecondMoments(r.varX, r.varY, r.meanX, r.meanY, MeanSquare(xs), MeanSquare(ys), r.rmsRadiusSquared)
  }

  /** The spread facts on the moments themselves: `v = E[x^2] - E[x]^2` per axis, and `rms^2 = E[x^2] + E[y^2]`. */
  predicate SecondMoments(vx: real, vy: real, mx: real, my: real, sx: real, sy: real, rms: real)
  {
    && vx >= 0.0 && vy >= 0.0
    && vx == sx - mx * mx
    && vy == sy - my * my
    && rms == vx + mx * mx + vy + my * my
  }

  /** The maximum bounds every deviation and is attained by one of them. */
  predicate MaximumDescribes(m: real, devs: seq<real>)
  {
    && (forall i :: 0 <= i < |devs| ==> devs[i] <= m)
    && (exists i :: 0 <= i < |devs| && devs[i] == m)
  }

  lemma RecomputedDescribes(xs: seq<real>, ys: seq<real>, rs: seq<real>, devs: seq<real>, r: TargetDistribution)
    requires |xs| > 0 && |ys| == |xs| && |rs| == |xs| && |devs| == |xs|
    requires Sum(rs) == SumSquares(xs) + SumSquares(ys)
    requires r == TargetDistribution(Mean(xs), Mean(ys), Variance(xs), Variance(ys), Mean(rs), Max(devs), |xs|)
    ensures DescribesSamples(r, xs, ys, devs)
  {
    CentresRecomputed(xs, ys, r.meanX, r.meanY);
    SpreadsRecomputed(xs, ys, rs, r.varX, r.varY, r.meanX, r.meanY, r.rmsRadiusSquared);
  }

  lemma CentresRecomputed(xs: seq<real>, ys: seq<real>, mx: real, my: real)
    requires |xs| > 0 && |ys| > 0 && mx == Mean(xs) && my == Mean(ys)
    ensures CentresDescribe(mx, my, xs, ys)
  {
    MeanBetweenMinAndMax(xs);
    MeanBetweenMinAndMax(ys);
  }

  /*
    The moment facts with every field passed in as a plain real: keeping the
    record selectors and the length conversion out of one combined nonlinear
    goal keeps the solver fast.
   */
  lemma SpreadsRecomputed(xs: seq<real>, ys: seq<real>, rs: seq<real>, vx: real, vy: real, mx: real, my: real, rms: real)
    requires |xs| > 0 && |ys| == |xs| && |rs| == |xs|
    requires Sum(rs) == SumSquares(xs) + SumSquares(ys)
    requires mx == Mean(xs) && my == Mean(ys) && vx == Variance(xs) && vy == Variance(ys)
    requires rms == Mean(rs)
    ensures SecondMoments(vx, vy, mx, my, MeanSquare(xs), MeanSquare(ys), rms)
  {
    SecondMoment(xs, vx, mx);
    SecondMoment(ys, vy, my);
    MeanOfSumAt(rs, xs, ys, |xs| as real, rms, Sum(rs), SumSquares(xs), SumSquares(ys));
  }

  /** A variance and its mean, as plain reals: non-negative, and the mean square minus the squared mean. */
  lemma SecondMoment(xs: seq<real>, v: real, m: real)
    requires |xs| > 0 && v == Variance(xs) && m == Mean(xs)
    ensures v >= 0.0 && v == MeanSquare(xs) - m * m
  {
    VarianceNonNegative(xs);
    VarianceIsMeanSquareMinusSquaredMean(xs);
  }

  /** The mean of a pointwise sum of squares is the sum of the two mean squares. */
  lemma MeanOfSumAt(rs: seq<real>, xs: seq<real>, ys: seq<real>, n: real, mr: real, t: real, a: real, b: real)
    requires |xs| > 0 && |ys| == |xs| && |rs| == |xs| && n == |xs| as real
    requires t == Sum(rs) && a == SumSquares(xs) && b == SumSquares(ys)
    requires t == a + b && mr == Mean(rs)
    ensures mr == MeanSquare(xs) + MeanSquare(ys)
  {
    QuotientOfSum(t, a, b, n);
  }

  /** The squared radii sum to the squares of the two coordinates. */
  lemma SumRadiiSquared(ps: seq<Particle>)
    ensures Sum(RadiiSquared(ps)) == SumSquares(Xs(ps)) + SumSquares(Ys(ps))
  {
    SumOfSquaredNorms(RadiiSquared(ps), Xs(ps), Ys(ps));
  }

  /** Summing `x*x + y*y` pointwise is summing the squares of each column. */
  lemma {:induction false} SumOfSquaredNorms(rs: seq<real>, xs: seq<real>, ys: seq<real>)
    requires |rs| == |xs| == |ys|
    requires forall i :: 0 <= i < |rs| ==> rs[i] == xs[i] * xs[i] + ys[i] * ys[i]
    ensures Sum(rs) == SumSquares(xs) + SumSquares(ys)
    decreases |rs|
  {
    if |rs| > 0 {
      var n := |rs| - 1;
      assert forall i :: 0 <= i < n ==> rs[..n][i] == rs[i] && xs[..n][i] == xs[i] && ys[..n][i] == ys[i];
      SumOfSquaredNorms(rs[..n], xs[..n], ys[..n]);
    }
  }

  lemma QuotientOfSum(total: real, a: real, b: real, n: real)
    requires n > 0.0 && total == a + b
    ensures total / n == a / n + b / n
  {
  }

  /** Recomputing twice on an unchanged buffer gives the same record as recomputing once. */
  lemma UpdateIdempotent(d: TargetDistribution, ps: seq<Particle>)
    ensures Update(Update(d, ps), ps) == Update(d, ps)
  {
  }

  /** On a non-empty buffer the previous record is irrelevant. */
  lemma UpdateForgetsPrevious(d: TargetDistribution, d': TargetDistribution, ps: seq<Particle>)
    requires |ps| > 0
    ensures Update(d, ps) == Update(d', ps)
  {
  }

  /**
    A worked example: particles at (1, 0), (0, 1) and (-1, 0), each at
    distance 1, give mean (0, 1/3), RMS radius 1 and maximum deviation 1.
   */
  lemma ThreeParticleExample(d: TargetDistribution)
    ensures var r := Update(d, [Particle(1.0, 0.0, 60.0, 1.0), Particle(0.0, 1.0, 60.0, 1.0), Particle(-1.0, 0.0, 60.0, 1.0)]);
      r.meanX == 0.0 && r.meanY == 1.0 / 3.0 && r.rmsRadiusSquared == 1.0 && r.maxDeviation == 1.0 && r.totalParticles == 3
  {
    var ps := [Particle(1.0, 0.0, 60.0, 1.0), Particle(0.0, 1.0, 60.0, 1.0), Particle(-1.0, 0.0, 60.0, 1.0)];
    var xs, ys := Xs(ps), Ys(ps);
    assert xs == [1.0, 0.0, -1.0];
    assert ys == [0.0, 1.0, 0.0];
    assert xs[..2] == [1.0, 0.0] && xs[..2][..1] == [1.0];
    assert ys[..2] == [0.0, 1.0] && ys[..2][..1] == [0.0];
    assert Sum(xs[..2][..1]) == 1.0;
    assert Sum(xs[..2]) == 1.0;
    assert Sum(xs) == 0.0;
    assert Sum(ys[..2][..1]) == 0.0;
    assert Sum(ys[..2]) == 1.0;
    assert Sum(ys) == 1.0;
    var rs := RadiiSquared(ps);
    assert rs == [1.0, 1.0, 1.0];
    assert rs[..2] == [1.0, 1.0] && rs[..2][..1] == [1.0];
    assert Sum(rs[..2][..1]) == 1.0;
    assert Sum(rs[..2]) == 2.0;
    assert Sum(rs) == 3.0;
    var devs := Deviations(ps);
    assert forall i :: 0 <= i < 3 ==> devs[i] == 1.0;
  }
}
