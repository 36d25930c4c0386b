/**
  checkWordUpdateScore's judgement of a typed word: each timing passes when
  it lies within two standard deviations of the stored average, and the word
  is consistent when enough of its 2L - 1 timings pass.
 */
module Consistency {

  /** STDDEV_THRESHOLD: a timing passes when it is closer than this many standard deviations. */
  const StdDevThreshold: real := 2.0

  function Abs(r: real): (a: real)
    ensures 0.0 <= a && (a == r || a == -r)
  {
    if r < 0.0 then -r else r
  }

  /**
    A timing x passes against a feature with average avg and variance
    `variance`, stated without the square root: (x - avg)^2 < 4 * variance.
   */
  predicate Passes(x: real, avg: real, variance: real)
  {
    (x - avg) * (x - avg) < StdDevThreshold * StdDevThreshold * variance
  }

  lemma ProductNonNegative(x: real, y: real)
    requires 0.0 <= x && 0.0 <= y
    ensures 0.0 <= x * y
  {
  }

  lemma ProductPositive(x: real, y: real)
    requires 0.0 < x && 0.0 < y
    ensures 0.0 < x * y
  {
  }

  /** For non-negative a and b, a < b exactly when a^2 < b^2. */
  lemma SquaresOrdered(a: real, b: real)
    requires 0.0 <= a && 0.0 <= b
    ensures a < b <==> a * a < b * b
  {
    if a < b {
      ProductNonNegative(b - a, a);
      ProductPositive(b - a, b);
      assert b * b - a * a == (b - a) * a + (b - a) * b;
    } else {
      ProductNonNegative(a - b, a);
      ProductNonNegative(a - b, b);
      assert a * a - b * b == (a - b) * a + (a - b) * b;
    }
  }

  /**
    The pass test as the source writes it, |x - avg| < 2 * sqrt(variance),
    agrees with Passes whenever sd is the exact square root of the variance.
   */
  lemma PassesWithinStdDevs(x: real, avg: real, variance: real, sd: real)
    requires 0.0 <= sd && sd * sd == variance
    ensures Passes(x, avg, variance) <==> Abs(x - avg) < StdDevThreshold * sd
  {
    var d := Abs(x - avg);
    assert d * d == (x - avg) * (x - avg);
    assert (StdDevThreshold * sd) * (StdDevThreshold * sd) == StdDevThreshold * StdDevThreshold * variance;
    SquaresOrdered(d, StdDevThreshold * sd);
  }

  /** A negative variance (whose square root would be NaN in the source) never lets a timing pass. */
  lemma NegativeVarianceNeverPasses(x: real, avg: real, variance: real)
    requires variance < 0.0
    ensures !Passes(x, avg, variance)
  {
    assert 0.0 <= (x - avg) * (x - avg);
  }

  /**
    miniScore: how many of the timings x pass against the stored features,
    feature k having average t[2k] and variance t[2k + 1].
   */
  function PassCount(x: seq<int>, t: seq<real>): (n: nat)
    requires 2 * |x| <= |t|
    ensures n <= |x|
  {
    if x == [] then 0
    else
      var k := |x| - 1;
      PassCount(x[..k], t) + if Passes(x[k] as real, t[2 * k], t[2 * k + 1]) then 1 else 0
  }

  /** Counting one timing further adds one exactly when timing k passes. */
  lemma PassCountSnoc(x: seq<int>, t: seq<real>, k: nat)
    requires k < |x| && 2 * |x| <= |t|
    ensures PassCount(x[..k + 1], t) == PassCount(x[..k], t) + if Passes(x[k] as real, t[2 * k], t[2 * k + 1]) then 1 else 0
  {
    assert x[..k + 1][..k] == x[..k];
  }

  /**
    Math.sqrt(r), Math.sqrt being supplied as the function sqrt. Every use
    goes through Root, so that the same application is one term wherever it
    is evaluated.
   */
  function Root(sqrt: real -> real, r: real): real
  {
    sqrt(r)
  }

  /** sqrt is an exact square root on the non-negative reals. */
  ghost predicate SquareRoot(sqrt: real -> real)
  {
    forall r: real {:trigger Root(sqrt, r)} :: 0.0 <= r ==> 0.0 <= Root(sqrt, r) && Root(sqrt, r) * Root(sqrt, r) == r
  }

  /**
    miniScore as checkWordUpdateScore computes it: how many timings x[k]
    lie closer than 2 * sqrt(t[2k + 1]) to t[2k], sqrt being Math.sqrt.
   */
  function StdDevPassCount(x: seq<int>, t: seq<real>, sqrt: real -> real): (n: nat)
    requires 2 * |x| <= |t|
    ensures n <= |x|
  {
    if x == [] then 0
    else
      var k := |x| - 1;
      StdDevPassCount(x[..k], t, sqrt) + if Abs(x[k] as real - t[2 * k]) < StdDevThreshold * Root(sqrt, t[2 * k + 1]) then 1 else 0
  }

  /** Counting one timing further adds one exactly when timing k is within two standard deviations. */
  lemma StdDevPassCountSnoc(x: seq<int>, t: seq<real>, sqrt: real -> real, k: nat)
    requires k < |x| && 2 * |x| <= |t|
    ensures StdDevPassCount(x[..k + 1], t, sqrt)
         == StdDevPassCount(x[..k], t, sqrt) + if Abs(x[k] as real - t[2 * k]) < StdDevThreshold * Root(sqrt, t[2 * k + 1]) then 1 else 0
  {
    assert x[..k + 1][..k] == x[..k];
  }

  /**
    With an exact square root and no negative variance, the count of
    checkWordUpdateScore is the count of timings passing the squared test.
   */
  lemma {:induction false} StdDevPassCountIsPassCount(x: seq<int>, t: seq<real>, sqrt: real -> real)
    requires 2 * |x| <= |t|
    requires forall k :: 0 <= k < |x| ==> 0.0 <= Root(sqrt, t[2 * k + 1]) && Root(sqrt, t[2 * k + 1]) * Root(sqrt, t[2 * k + 1]) == t[2 * k + 1]
    ensures StdDevPassCount(x, t, sqrt) == PassCount(x, t)
  {
    if x != [] {
      var k := |x| - 1;
      StdDevPassCountIsPassCount(x[..k], t, sqrt);
      PassesWithinStdDevs(x[k] as real, t[2 * k], t[2 * k + 1], Root(sqrt, t[2 * k + 1]));
    }
  }

  /** The same for Math.sqrt modelled as an exact square root on every non-negative variance. */
  lemma ExactStdDevPassCount(x: seq<int>, t: seq<real>, sqrt: real -> real)
    requires 2 * |x| <= |t| && SquareRoot(sqrt)
    requires forall k :: 0 <= k < |x| ==> 0.0 <= t[2 * k + 1]
    ensures StdDevPassCount(x, t, sqrt) == PassCount(x, t)
  {
    StdDevPassCountIsPassCount(x, t, sqrt);
  }

  /** Every timing passes: the count is the number of timings. */
  lemma {:induction false} AllPass(x: seq<int>, t: seq<real>)
    requires 2 * |x| <= |t|
    requires forall k :: 0 <= k < |x| ==> Passes(x[k] as real, t[2 * k], t[2 * k + 1])
    ensures PassCount(x, t) == |x|
  {
    if x != [] {
      var k := |x| - 1;
      assert forall j :: 0 <= j < k ==> x[..k][j] == x[j];
      AllPass(x[..k], t);
    }
  }

  /** No timing passes: the count is zero. */
  lemma {:induction false} NonePass(x: seq<int>, t: seq<real>)
    requires 2 * |x| <= |t|
    requires forall k :: 0 <= k < |x| ==> !Passes(x[k] as real, t[2 * k], t[2 * k + 1])
    ensures PassCount(x, t) == 0
  {
    if x != [] {
      var k := |x| - 1;
      assert forall j :: 0 <= j < k ==> x[..k][j] == x[j];
      NonePass(x[..k], t);
    }
  }

  /** The (num, dom) pair of checkWordUpdateScore: a word needs num/dom of its timings to pass. */
  function Ratio(length: int): (r: (int, int))
    ensures 0 < r.0 <= r.1
  {
    if length == 1 then (1, 1) else if length == 2 then (2, 3) else (3, 4)
  }

  /** The word is consistent when dom * passes is at least num * (2L - 1). */
  predicate Consistent(length: int, passes: int)
    ensures length == 1 ==> (Consistent(length, passes) <==> passes >= 1)
    ensures length == 2 ==> (Consistent(length, passes) <==> passes >= 2)
  {
    Ratio(length).1 * passes >= Ratio(length).0 * (2 * length - 1)
  }

  /**
    How many timings must pass, computed independently: all of a one-letter
    word's single timing, two of a two-letter word's three, and floor(3L/2)
    of the 2L - 1 timings of a longer word.
   */
  function Needed(length: nat): (n: nat)
  {
    if length == 1 then 1 else if length == 2 then 2 else 3 * length / 2
  }

  /** The ratio test is exactly "at least Needed(length) timings pass". */
  lemma ConsistentIffEnoughPass(length: nat, passes: int)
    requires 1 <= length
    ensures Consistent(length, passes) <==> passes >= Needed(length)
  {
    if length >= 3 {
      var h := length / 2;
      if length % 2 == 0 {
        assert length == 2 * h && 3 * length / 2 == 3 * h;
      } else {
        assert length == 2 * h + 1 && 3 * length / 2 == 3 * h + 1;
      }
    }
  }

  /** A word of at least two letters tolerates one timing out of range; a one-letter word tolerates none. */
  lemma OneMissTolerance(length: nat)
    requires 1 <= length
    ensures Consistent(length, 2 * length - 2) <==> length >= 2
  {
  }

  /** A word whose timings all pass is consistent, and one whose timings all fail is not. */
  lemma Extremes(length: nat)
    requires 1 <= length
    ensures Consistent(length, 2 * length - 1)
    ensures !Consistent(length, 0)
  {
  }

  /** More passing timings never turn a consistent word inconsistent. */
  lemma ConsistentMonotone(length: nat, p: int, q: int)
    requires 1 <= length && p <= q && Consistent(length, p)
    ensures Consistent(length, q)
  {
  }
}
