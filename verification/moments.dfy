/**
  The running statistics KeyboardAnalyzer keeps for every feature of a word:
  updateMean and updateVar, and what they compute over a whole series of
  observations of that feature.
 */
module Moments {

  /**
    updateMean: the average after one more sample x, from the average `mean`
    of `count` earlier samples.
   */
  function UpdateMean(mean: real, x: real, count: nat): (m: real)
    ensures count == 0 ==> m == x
    ensures mean <= x ==> mean <= m <= x
    ensures x <= mean ==> x <= m <= mean
  {
    mean + (x - mean) / (count + 1) as real
  }

  /**
    The new average times the new count is the old total plus x, so the first
    sample is its own average, and the average moves towards x without
    passing it.
   */
  lemma MeanStep(mean: real, x: real, count: nat)
    ensures UpdateMean(mean, x, count) * (count as real + 1.0) == mean * count as real + x
    ensures count == 0 ==> UpdateMean(mean, x, count) == x
    ensures mean <= x ==> mean <= UpdateMean(mean, x, count) <= x
    ensures x <= mean ==> x <= UpdateMean(mean, x, count) <= mean
  {
  }

  /**
    updateVar: the variance after one more sample x, from the variance and
    average of `count` earlier samples.
   */
  function UpdateVar(variance: real, mean: real, x: real, count: nat): (v: real)
    requires 1 <= count
    ensures 0.0 <= variance ==> 0.0 <= v
    ensures count == 1 ==> v == (x - mean) * (x - mean) / 2.0
  {
    (count - 1) as real / count as real * variance + (x - mean) * (x - mean) / (count + 1) as real
  }

  /** updateVar never turns a non-negative variance negative. */
  lemma VarianceStaysNonNegative(variance: real, mean: real, x: real, count: nat)
    requires 1 <= count && 0.0 <= variance
    ensures 0.0 <= UpdateVar(variance, mean, x, count)
  {
  }

  /**
    Scaled by count, updateVar is the textbook running sum of squares: the
    old sum plus (x - mean)^2 * count / (count + 1).
   */
  lemma VarianceStep(variance: real, mean: real, x: real, count: nat)
    requires 1 <= count
    ensures UpdateVar(variance, mean, x, count) * count as real * (count as real + 1.0)
         == variance * (count as real - 1.0) * (count as real + 1.0) + (x - mean) * (x - mean) * count as real
  {
  }

  /** What a profile holds for one feature: the number of samples, their average and variance. */
  datatype Stats = Stats(count: nat, mean: real, variance: real)

  /**
    The statistics of one feature after observing xs in order: the first
    observation is stored as (1, x, 0) and every later one is merged with
    updateMean and updateVar using the count before the merge.
   */
  function Accumulate(xs: seq<real>): (s: Stats)
    requires 1 <= |xs|
    ensures s.count == |xs|
    ensures 0.0 <= s.variance
  {
    if |xs| == 1 then Stats(1, xs[0], 0.0)
    else
      var p := Accumulate(xs[..|xs| - 1]);
      var x := xs[|xs| - 1];
      VarianceStaysNonNegative(p.variance, p.mean, x, p.count);
      Stats(p.count + 1, UpdateMean(p.mean, x, p.count), UpdateVar(p.variance, p.mean, x, p.count))
  }

  function Sum(xs: seq<real>): real
  {
    if xs == [] then 0.0 else Sum(xs[..|xs| - 1]) + xs[|xs| - 1]
  }

  function SumOfSquares(xs: seq<real>): real
  {
    if xs == [] then 0.0 else SumOfSquares(xs[..|xs| - 1]) + xs[|xs| - 1] * xs[|xs| - 1]
  }

  /** The sum of the squared deviations of xs from m. */
  function SquaredDeviations(xs: seq<real>, m: real): real
  {
    if xs == [] then 0.0
    else SquaredDeviations(xs[..|xs| - 1], m) + (xs[|xs| - 1] - m) * (xs[|xs| - 1] - m)
  }

  /**
    Stats s describes samples with the given sum and sum of squares: scaled
    by the count n, the mean is the sum, and scaled by n(n - 1) the variance
    is n * sumSq - sum^2.
   */
  ghost predicate Centred(s: Stats, sum: real, sumSq: real)
  {
    && s.mean * s.count as real == sum
    && s.variance * (s.count as real - 1.0) * s.count as real == s.count as real * sumSq - sum * sum
  }

  lemma CancelFactor(a: real, b: real, c: real)
    requires c != 0.0 && a * c == b * c
    ensures a == b
  {
  }

  lemma DivideBack(a: real, b: real, c: real)
    requires b != 0.0 && a * b == c
    ensures a == c / b
  {
  }

  // The algebra of one merge, from c samples of sum s and sum of squares q
  // to n = c + 1 samples of sum s' = s + x and sum of squares q' = q + x^2.
  // Each step is its own lemma so that every proof has only a few obligations.

  lemma ShiftCount(y: real, c: real, n: real)
    requires n == c + 1.0
    ensures y * n == y * (c + 1.0)
    ensures y * (n - 1.0) * n * c == y * c * (c + 1.0) * c
  {
  }

  lemma MeanMerge(c: real, s: real, x: real, m: real, m': real, n: real, s': real)
    requires n == c + 1.0 && s' == s + x
    requires m * c == s
    requires m' * (c + 1.0) == m * c + x
    ensures m' * n == s'
  {
    ShiftCount(m', c, n);
  }

  lemma ScaleBy(y: real, c: real, rhs: real)
    requires y * c * (c + 1.0) == rhs
    ensures y * c * (c + 1.0) * c == rhs * c
  {
  }

  lemma Substitute(c: real, s: real, q: real, x: real, m: real, v: real)
    requires m * c == s
    requires v * (c - 1.0) * c == c * q - s * s
    ensures (v * (c - 1.0) * (c + 1.0) + (x - m) * (x - m) * c) * c
        == (c + 1.0) * (c * q - s * s) + (x * c - s) * (x * c - s)
  {
    assert (x - m) * c == x * c - s;
    assert (x - m) * (x - m) * c * c == (x * c - s) * (x * c - s);
    assert v * (c - 1.0) * (c + 1.0) * c == (c + 1.0) * (v * (c - 1.0) * c);
  }

  lemma Regroup(c: real, s: real, q: real, x: real, n: real, s': real, q': real)
    requires n == c + 1.0 && s' == s + x && q' == q + x * x
    ensures (c + 1.0) * (c * q - s * s) + (x * c - s) * (x * c - s) == (n * q' - s' * s') * c
  {
  }

  lemma VarianceMergeLeft(c: real, v': real, n: real, rhs: real)
    requires n == c + 1.0
    requires v' * c * (c + 1.0) == rhs
    ensures v' * (n - 1.0) * n * c == rhs * c
  {
    ShiftCount(v', c, n);
    ScaleBy(v', c, rhs);
  }

  lemma VarianceMergeRight(c: real, s: real, q: real, x: real, m: real, v: real, n: real, s': real, q': real)
    requires n == c + 1.0 && s' == s + x && q' == q + x * x
    requires m * c == s
    requires v * (c - 1.0) * c == c * q - s * s
    ensures (v * (c - 1.0) * (c + 1.0) + (x - m) * (x - m) * c) * c == (n * q' - s' * s') * c
  {
    Substitute(c, s, q, x, m, v);
    Regroup(c, s, q, x, n, s', q');
  }

  lemma VarianceMergeScaled(c: real, s: real, q: real, x: real, m: real, v: real, v': real, n: real, s': real, q': real)
    requires n == c + 1.0 && s' == s + x && q' == q + x * x
    requires m * c == s
    requires v * (c - 1.0) * c == c * q - s * s
    requires v' * c * (c + 1.0) == v * (c - 1.0) * (c + 1.0) + (x - m) * (x - m) * c
    ensures v' * (n - 1.0) * n * c == (n * q' - s' * s') * c
  {
    VarianceMergeLeft(c, v', n, v * (c - 1.0) * (c + 1.0) + (x - m) * (x - m) * c);
    VarianceMergeRight(c, s, q, x, m, v, n, s', q');
  }

  lemma VarianceMerge(c: real, s: real, q: real, x: real, m: real, v: real, v': real, n: real, s': real, q': real)
    requires 1.0 <= c && n == c + 1.0 && s' == s + x && q' == q + x * x
    requires m * c == s
    requires v * (c - 1.0) * c == c * q - s * s
    requires v' * c * (c + 1.0) == v * (c - 1.0) * (c + 1.0) + (x - m) * (x - m) * c
    ensures v' * (n - 1.0) * n == n * q' - s' * s'
  {
    VarianceMergeScaled(c, s, q, x, m, v, v', n, s', q');
    CancelFactor(v' * (n - 1.0) * n, n * q' - s' * s', c);
  }

  /**
    r is a merged with one more sample x: one more count, and the mean and
    variance related to a's as updateMean and updateVar relate them.
   */
  ghost predicate MergedFrom(a: Stats, x: real, r: Stats)
  {
    && r.count == a.count + 1
    && r.mean * (a.count as real + 1.0) == a.mean * a.count as real + x
    && r.variance * a.count as real * (a.count as real + 1.0)
       == a.variance * (a.count as real - 1.0) * (a.count as real + 1.0) + (x - a.mean) * (x - a.mean) * a.count as real
  }

  lemma MergeIsMergedFrom(a: Stats, x: real)
    requires 1 <= a.count
    ensures MergedFrom(a, x, Stats(a.count + 1, UpdateMean(a.mean, x, a.count), UpdateVar(a.variance, a.mean, x, a.count)))
  {
    MeanStep(a.mean, x, a.count);
    VarianceStep(a.variance, a.mean, x, a.count);
  }

  /** Each later observation merges into the statistics of the ones before it. */
  lemma AccumulateMerges(xs: seq<real>, p: seq<real>, x: real)
    requires 2 <= |xs| && p == xs[..|xs| - 1] && x == xs[|xs| - 1]
    ensures MergedFrom(Accumulate(p), x, Accumulate(xs))
  {
    var a := Accumulate(p);
    MergeIsMergedFrom(a, x);
    assert Accumulate(xs) == Stats(a.count + 1, UpdateMean(a.mean, x, a.count), UpdateVar(a.variance, a.mean, x, a.count));
  }

  lemma MergeMean(a: Stats, sum: real, sumSq: real, x: real, r: Stats, sum': real)
    requires 1 <= a.count && Centred(a, sum, sumSq) && MergedFrom(a, x, r) && sum' == sum + x
    ensures r.mean * r.count as real == sum'
  {
    MeanMerge(a.count as real, sum, x, a.mean, r.mean, r.count as real, sum');
  }

  lemma MergeVariance(a: Stats, sum: real, sumSq: real, x: real, r: Stats, sum': real, sumSq': real)
    requires 1 <= a.count && Centred(a, sum, sumSq) && MergedFrom(a, x, r)
    requires sum' == sum + x && sumSq' == sumSq + x * x
    ensures r.variance * (r.count as real - 1.0) * r.count as real == r.count as real * sumSq' - sum' * sum'
  {
    VarianceMerge(a.count as real, sum, sumSq, x, a.mean, a.variance, r.variance, r.count as real, sum', sumSq');
  }

  /** Merging one more sample x keeps the statistics centred on the extended sums. */
  lemma MergeKeepsCentred(a: Stats, sum: real, sumSq: real, x: real, r: Stats, sum': real, sumSq': real)
    requires 1 <= a.count && Centred(a, sum, sumSq) && MergedFrom(a, x, r)
    requires sum' == sum + x && sumSq' == sumSq + x * x
    ensures Centred(r, sum', sumSq')
  {
    MergeMean(a, sum, sumSq, x, r, sum');
    MergeVariance(a, sum, sumSq, x, r, sum', sumSq');
  }

  lemma SumExtends(xs: seq<real>, p: seq<real>, x: real)
    requires 1 <= |xs| && p == xs[..|xs| - 1] && x == xs[|xs| - 1]
    ensures Sum(xs) == Sum(p) + x
  {
  }

  lemma SumOfSquaresExtends(xs: seq<real>, p: seq<real>, x: real)
    requires 1 <= |xs| && p == xs[..|xs| - 1] && x == xs[|xs| - 1]
    ensures SumOfSquares(xs) == SumOfSquares(p) + x * x
  {
  }

  lemma SumsExtend(xs: seq<real>, p: seq<real>, x: real)
    requires 1 <= |xs| && p == xs[..|xs| - 1] && x == xs[|xs| - 1]
    ensures Sum(xs) == Sum(p) + x
    ensures SumOfSquares(xs) == SumOfSquares(p) + x * x
  {
    SumExtends(xs, p, x);
    SumOfSquaresExtends(xs, p, x);
  }

  lemma AccumulateStep(xs: seq<real>, p: seq<real>, x: real)
    requires 2 <= |xs| && p == xs[..|xs| - 1] && x == xs[|xs| - 1]
    requires Centred(Accumulate(p), Sum(p), SumOfSquares(p))
    ensures Centred(Accumulate(xs), Sum(xs), SumOfSquares(xs))
  {
    AccumulateMerges(xs, p, x);
    SumsExtend(xs, p, x);
    MergeKeepsCentred(Accumulate(p), Sum(p), SumOfSquares(p), x, Accumulate(xs), Sum(xs), SumOfSquares(xs));
  }

  /** Accumulating a series of samples gives statistics centred on their sums. */
  lemma {:induction false} AccumulateCentred(xs: seq<real>)
    requires 1 <= |xs|
    ensures Centred(Accumulate(xs), Sum(xs), SumOfSquares(xs))
  {
    if |xs| == 1 {
      assert xs[..0] == [];
    } else {
      AccumulateCentred(xs[..|xs| - 1]);
      AccumulateStep(xs, xs[..|xs| - 1], xs[|xs| - 1]);
    }
  }

  lemma CentredMean(st: Stats, sum: real, sumSq: real)
    requires 1 <= st.count && Centred(st, sum, sumSq)
    ensures st.mean == sum / st.count as real
  {
    DivideBack(st.mean, st.count as real, sum);
  }

  /** The running mean is exactly the arithmetic mean of the samples seen so far. */
  lemma MeanIsAverage(xs: seq<real>)
    requires 1 <= |xs|
    ensures Accumulate(xs).mean == Sum(xs) / |xs| as real
  {
    AccumulateCentred(xs);
    CentredMean(Accumulate(xs), Sum(xs), SumOfSquares(xs));
  }

  /** d is the sum of squared deviations from m of n samples with the given sum and sum of squares. */
  ghost predicate Expanded(d: real, sumSq: real, sum: real, n: nat, m: real)
  {
    d == sumSq - 2.0 * m * sum + n as real * m * m
  }

  lemma ExpandStep(d: real, sumSq: real, sum: real, n: nat, m: real, x: real, d': real, sumSq': real, sum': real)
    requires Expanded(d, sumSq, sum, n, m)
    requires d' == d + (x - m) * (x - m) && sumSq' == sumSq + x * x && sum' == sum + x
    ensures Expanded(d', sumSq', sum', n + 1, m)
  {
    assert (n + 1) as real * m * m == n as real * m * m + m * m;
  }

  lemma DeviationsExtend(xs: seq<real>, m: real, p: seq<real>, x: real)
    requires 1 <= |xs| && p == xs[..|xs| - 1] && x == xs[|xs| - 1]
    ensures SquaredDeviations(xs, m) == SquaredDeviations(p, m) + (x - m) * (x - m)
    ensures |xs| == |p| + 1
  {
  }

  lemma {:induction false} SquaredDeviationsExpand(xs: seq<real>, m: real)
    ensures Expanded(SquaredDeviations(xs, m), SumOfSquares(xs), Sum(xs), |xs|, m)
  {
    if xs != [] {
      var p, x := xs[..|xs| - 1], xs[|xs| - 1];
      SquaredDeviationsExpand(p, m);
      DeviationsExtend(xs, m, p, x);
      SumsExtend(xs, p, x);
      ExpandStep(SquaredDeviations(p, m), SumOfSquares(p), Sum(p), |p|, m, x,
        SquaredDeviations(xs, m), SumOfSquares(xs), Sum(xs));
    }
  }

  lemma CentredDeviationsScaled(st: Stats, sum: real, sumSq: real, d: real)
    requires Centred(st, sum, sumSq) && Expanded(d, sumSq, sum, st.count, st.mean)
    ensures st.variance * (st.count as real - 1.0) * st.count as real == d * st.count as real
  {
    var n, m := st.count as real, st.mean;
    assert d * n == n * sumSq - 2.0 * (m * n) * sum + (m * n) * (m * n);
  }

  /**
    The closing algebra of SampleVariance: statistics centred on the sums of
    n >= 2 samples whose squared deviations from the mean add up to d.
   */
  lemma CentredVariance(st: Stats, sum: real, sumSq: real, d: real)
    requires 2 <= st.count && Centred(st, sum, sumSq) && Expanded(d, sumSq, sum, st.count, st.mean)
    ensures st.variance == d / (st.count as real - 1.0)
  {
    CentredDeviationsScaled(st, sum, sumSq, d);
    CancelFactor(st.variance * (st.count as real - 1.0), d, st.count as real);
    DivideBack(st.variance, st.count as real - 1.0, d);
  }

  /**
    After n >= 2 samples the running variance is the unbiased sample variance:
    the squared deviations from the mean, summed and divided by n - 1.
   */
  lemma SampleVariance(xs: seq<real>)
    requires 2 <= |xs|
    ensures Accumulate(xs).variance == SquaredDeviations(xs, Accumulate(xs).mean) / (|xs| as real - 1.0)
  {
    AccumulateCentred(xs);
    SquaredDeviationsExpand(xs, Accumulate(xs).mean);
    CentredVariance(Accumulate(xs), Sum(xs), SumOfSquares(xs), SquaredDeviations(xs, Accumulate(xs).mean));
  }
}
