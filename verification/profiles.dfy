/**
  A word's row in the profiles table, as KeyboardAnalyzer reads and writes
  it: the occurrence count and one (average, variance) pair per feature,
  stored under the column names of ColumnNames.
 */
module Profiles {
  import opened ColumnNames
  import opened Moments

  /** The running average and variance of one feature. */
  datatype Feature = Feature(avg: real, variance: real)

  /** A row of the profiles table: the count column and the REAL columns by name. */
  datatype Row = Row(count: int, cols: map<Column, real>)

  /**
    The columns a row gets when the features are put one after the other,
    feature k under AvgColumn(k) and VarColumn(k).
   */
  function Columns(fs: seq<Feature>): (cols: map<Column, real>)
    ensures cols.Keys == FeatureColumns(|fs|)
  {
    if fs == [] then map[]
    else
      var n := |fs| - 1;
      Columns(fs[..n])[AvgColumn(n) := fs[n].avg][VarColumn(n) := fs[n].variance]
  }

  /** Feature k's columns hold feature k's average and variance. */
  lemma {:induction false} ColumnsAt(fs: seq<Feature>, k: nat)
    requires k < |fs|
    ensures AvgColumn(k) in Columns(fs) && VarColumn(k) in Columns(fs)
    ensures Columns(fs)[AvgColumn(k)] == fs[k].avg && Columns(fs)[VarColumn(k)] == fs[k].variance
  {
    var n := |fs| - 1;
    ColumnsDistinct(k, n);
    ColumnsDistinct(n, k);
    if k < n {
      ColumnsAt(fs[..n], k);
      assert fs[..n][k] == fs[k];
    }
  }

  /** Storing one more feature adds its two columns to those of the features before it. */
  lemma ColumnsSnoc(fs: seq<Feature>, j: nat)
    requires j < |fs|
    ensures Columns(fs[..j + 1]) == Columns(fs[..j])[AvgColumn(j) := fs[j].avg][VarColumn(j) := fs[j].variance]
  {
    assert fs[..j + 1][..j] == fs[..j];
  }

  /**
    The step i = 2k of updateWord's and insertWord's loops: feature k goes to
    the d<i/4> columns when k is even and to the l<i/4> columns when k is
    odd, which extends the columns of the first k features by feature k's.
   */
  lemma ColumnsStep(fs: seq<Feature>, k: nat, i: nat)
    requires k < |fs| && i == 2 * k
    ensures i / 2 == k
    ensures k % 2 == 0 ==> (Columns(fs[..k + 1])
      == Columns(fs[..k])[Column(Hold, i / 4, Avg) := fs[k].avg][Column(Hold, i / 4, Var) := fs[k].variance])
    ensures k % 2 == 1 ==> (Columns(fs[..k + 1])
      == Columns(fs[..k])[Column(Latency, i / 4, Avg) := fs[k].avg][Column(Latency, i / 4, Var) := fs[k].variance])
  {
    StepColumns(i);
    ColumnsSnoc(fs, k);
  }

  /**
    extractTimings: the values of a row's first n features in feature order,
    each average followed by its variance.
   */
  function Flatten(cols: map<Column, real>, n: nat): (t: seq<real>)
    requires FeatureColumns(n) <= cols.Keys
    ensures |t| == 2 * n
  {
    if n == 0 then []
    else
      Flatten(cols, n - 1) + [cols[AvgColumn(n - 1)], cols[VarColumn(n - 1)]]
  }

  /**
    Reading one hold and the latency after it: the flattened timings of
    2i + 2 features are those of 2i features followed by the d<i> and l<i>
    columns.
   */
  lemma FlattenHoldLatency(cols: map<Column, real>, i: nat)
    requires FeatureColumns(2 * i + 2) <= cols.Keys
    ensures FeatureColumns(2 * i) <= cols.Keys
    ensures Column(Hold, i, Avg) in cols && Column(Hold, i, Var) in cols
    ensures Column(Latency, i, Avg) in cols && Column(Latency, i, Var) in cols
    ensures Flatten(cols, 2 * i + 2) == Flatten(cols, 2 * i)
      + [cols[Column(Hold, i, Avg)], cols[Column(Hold, i, Var)], cols[Column(Latency, i, Avg)], cols[Column(Latency, i, Var)]]
  {
    HoldColumnName(i);
    LatencyColumnName(i);
    FeatureColumnsGrow(2 * i, 2 * i + 2);
    FeatureColumnsMembers(2 * i + 2, 2 * i);
    FeatureColumnsMembers(2 * i + 2, 2 * i + 1);
  }

  /**
    The same step of extractTimings' loop, for a row holding the columns of
    n >= 2i + 2 features.
   */
  lemma FlattenStep(cols: map<Column, real>, i: nat, n: nat)
    requires FeatureColumns(n) <= cols.Keys && 2 * i + 2 <= n
    ensures FeatureColumns(2 * i) <= cols.Keys && FeatureColumns(2 * i + 2) <= cols.Keys
    ensures Column(Hold, i, Avg) in cols && Column(Hold, i, Var) in cols
    ensures Column(Latency, i, Avg) in cols && Column(Latency, i, Var) in cols
    ensures Flatten(cols, 2 * i + 2) == Flatten(cols, 2 * i)
      + [cols[Column(Hold, i, Avg)], cols[Column(Hold, i, Var)], cols[Column(Latency, i, Avg)], cols[Column(Latency, i, Var)]]
  {
    FeatureColumnsGrow(2 * i + 2, n);
    assert FeatureColumns(2 * i + 2) <= cols.Keys;
    FlattenHoldLatency(cols, i);
  }

  /** Reading the last hold: the flattened timings of 2i + 1 features end with the d<i> columns. */
  lemma FlattenLastHold(cols: map<Column, real>, i: nat)
    requires FeatureColumns(2 * i + 1) <= cols.Keys
    ensures FeatureColumns(2 * i) <= cols.Keys
    ensures Column(Hold, i, Avg) in cols && Column(Hold, i, Var) in cols
    ensures Flatten(cols, 2 * i + 1) == Flatten(cols, 2 * i) + [cols[Column(Hold, i, Avg)], cols[Column(Hold, i, Var)]]
  {
    HoldColumnName(i);
    FeatureColumnsGrow(2 * i, 2 * i + 1);
    FeatureColumnsMembers(2 * i + 1, 2 * i);
  }

  /** Positions 2k and 2k + 1 of the flattened timings are feature k's average and variance. */
  lemma {:induction false} FlattenAt(cols: map<Column, real>, n: nat, k: nat)
    requires FeatureColumns(n) <= cols.Keys && k < n
    ensures AvgColumn(k) in cols && VarColumn(k) in cols
    ensures Flatten(cols, n)[2 * k] == cols[AvgColumn(k)] && Flatten(cols, n)[2 * k + 1] == cols[VarColumn(k)]
  {
    FeatureColumnsMembers(n, k);
    var prev := Flatten(cols, n - 1);
    assert Flatten(cols, n) == prev + [cols[AvgColumn(n - 1)], cols[VarColumn(n - 1)]];
    if k < n - 1 {
      FlattenAt(cols, n - 1, k);
    }
  }

  /** The features of a flattened list of timings: pairs (t[2k], t[2k + 1]). */
  function Unflatten(t: seq<real>): (fs: seq<Feature>)
    ensures |fs| == |t| / 2
    ensures forall k :: 0 <= k < |fs| ==> fs[k] == Feature(t[2 * k], t[2 * k + 1])
  {
    seq(|t| / 2, k requires 0 <= k < |t| / 2 => Feature(t[2 * k], t[2 * k + 1]))
  }

  /** Reading back the features just stored gives them again. */
  lemma ExtractStored(fs: seq<Feature>)
    ensures Unflatten(Flatten(Columns(fs), |fs|)) == fs
  {
    var t := Flatten(Columns(fs), |fs|);
    forall k | 0 <= k < |fs| ensures Unflatten(t)[k] == fs[k] {
      ColumnsAt(fs, k);
      FlattenAt(Columns(fs), |fs|, k);
    }
  }

  /** Storing what was read from a row of exactly n features rebuilds the row's columns. */
  lemma StoreExtracted(cols: map<Column, real>, n: nat)
    requires cols.Keys == FeatureColumns(n)
    ensures Columns(Unflatten(Flatten(cols, n))) == cols
  {
    var fs := Unflatten(Flatten(cols, n));
    var back := Columns(fs);
    assert |fs| == n;
    assert back.Keys == cols.Keys;
    forall c | c in cols ensures back[c] == cols[c] {
      var k := FeatureColumnIndex(n, c);
      FlattenAt(cols, n, k);
      ColumnsAt(fs, k);
    }
  }

  /** insertWord's features: every timing becomes an average with variance 0. */
  function Initial(x: seq<int>): (fs: seq<Feature>)
    ensures |fs| == |x|
    ensures forall k :: 0 <= k < |x| ==> fs[k] == Feature(x[k] as real, 0.0)
  {
    seq(|x|, k requires 0 <= k < |x| => Feature(x[k] as real, 0.0))
  }

  /** insertWord: the row of a word seen for the first time, with count 1. */
  function Inserted(x: seq<int>): (row: Row)
    ensures row.count == 1
    ensures row.cols.Keys == FeatureColumns(|x|)
  {
    Row(1, Columns(Initial(x)))
  }

  /**
    updateWord's features: feature k's average and variance updated with the
    new timing x[k], count being the number of samples before this one.
   */
  function Updated(t: seq<real>, x: seq<int>, count: nat): (fs: seq<Feature>)
    requires 1 <= count && 2 * |x| <= |t|
    ensures |fs| == |x|
    ensures forall k :: 0 <= k < |x| ==>
      fs[k] == Feature(UpdateMean(t[2 * k], x[k] as real, count), UpdateVar(t[2 * k + 1], t[2 * k], x[k] as real, count))
    ensures forall k :: 0 <= k < |x| && 0.0 <= t[2 * k + 1] ==> 0.0 <= fs[k].variance
  {
    seq(|x|, k requires 0 <= k < |x| =>
      Feature(UpdateMean(t[2 * k], x[k] as real, count), UpdateVar(t[2 * k + 1], t[2 * k], x[k] as real, count)))
  }

  /** Feature k of Updated, for the step i = 2k of updateWord's loop that reads avg, variance and value. */
  lemma UpdatedAt(t: seq<real>, x: seq<int>, count: nat, k: nat, i: nat, avg: real, variance: real, value: int)
    requires 1 <= count && 2 * |x| <= |t| && k < |x| && i == 2 * k
    requires avg == t[i] && variance == t[i + 1] && value == x[k]
    ensures Updated(t, x, count)[k] == Feature(UpdateMean(avg, value as real, count), UpdateVar(variance, avg, value as real, count))
  {
  }

  /**
    updateWord: the row after merging the word's new timings x, its features
    overwritten and its count one higher.
   */
  function Merged(row: Row, x: seq<int>): (r: Row)
    requires 1 <= row.count && FeatureColumns(|x|) <= row.cols.Keys
    ensures r.count == row.count + 1
    ensures r.cols.Keys == row.cols.Keys
  {
    Row(row.count + 1, row.cols + Columns(Updated(Flatten(row.cols, |x|), x, row.count)))
  }

  /** updateWord's row, for the timings extractTimings read from it. */
  lemma MergedWith(row: Row, x: seq<int>, t: seq<real>, count: int)
    requires count == row.count && 1 <= count && FeatureColumns(|x|) <= row.cols.Keys && t == Flatten(row.cols, |x|)
    ensures Merged(row, x) == Row(count + 1, row.cols + Columns(Updated(t, x, count)))
  {
  }

  /** Feature k of a merged row: its old average and variance updated with the new timing x[k]. */
  lemma MergedAt(row: Row, x: seq<int>, k: nat)
    requires 1 <= row.count && FeatureColumns(|x|) <= row.cols.Keys && k < |x|
    ensures AvgColumn(k) in row.cols && VarColumn(k) in row.cols
    ensures Merged(row, x).cols[AvgColumn(k)] == UpdateMean(row.cols[AvgColumn(k)], x[k] as real, row.count)
    ensures Merged(row, x).cols[VarColumn(k)]
         == UpdateVar(row.cols[VarColumn(k)], row.cols[AvgColumn(k)], x[k] as real, row.count)
  {
    var t := Flatten(row.cols, |x|);
    var fs := Updated(t, x, row.count);
    FlattenAt(row.cols, |x|, k);
    ColumnsAt(fs, k);
  }

  /** A row holding n features: a positive count, exactly their columns, no negative variance. */
  ghost predicate WellFormed(row: Row, n: nat)
  {
    && 1 <= row.count
    && row.cols.Keys == FeatureColumns(n)
    && forall k :: 0 <= k < n ==> VarColumn(k) in row.cols && 0.0 <= row.cols[VarColumn(k)]
  }

  /** The variances read back from a well-formed row are never negative. */
  lemma FlattenedVariances(row: Row, n: nat)
    requires WellFormed(row, n)
    ensures forall k :: 0 <= k < n ==> 0.0 <= Flatten(row.cols, n)[2 * k + 1]
  {
    forall k | 0 <= k < n ensures 0.0 <= Flatten(row.cols, n)[2 * k + 1] {
      FlattenAt(row.cols, n, k);
    }
  }

  /** A first row is well formed. */
  lemma InsertedWellFormed(x: seq<int>)
    ensures WellFormed(Inserted(x), |x|)
  {
    forall k | 0 <= k < |x| ensures VarColumn(k) in Inserted(x).cols && 0.0 <= Inserted(x).cols[VarColumn(k)] {
      ColumnsAt(Initial(x), k);
    }
  }

  /** Merging keeps a row well formed: in particular no variance ever becomes negative. */
  lemma MergedWellFormed(row: Row, x: seq<int>)
    requires WellFormed(row, |x|)
    ensures WellFormed(Merged(row, x), |x|)
  {
    forall k | 0 <= k < |x| ensures VarColumn(k) in Merged(row, x).cols && 0.0 <= Merged(row, x).cols[VarColumn(k)] {
      MergedAt(row, x, k);
      VarianceStaysNonNegative(row.cols[VarColumn(k)], row.cols[AvgColumn(k)], x[k] as real, row.count);
    }
  }

  /** Feature k of a row, with the row's count. */
  function StatsOf(row: Row, k: nat): (s: Stats)
    requires 1 <= row.count && AvgColumn(k) in row.cols && VarColumn(k) in row.cols
    ensures s.count == row.count && s.mean == row.cols[AvgColumn(k)] && s.variance == row.cols[VarColumn(k)]
  {
    Stats(row.count, row.cols[AvgColumn(k)], row.cols[VarColumn(k)])
  }

  /**
    The row summarises the sample histories hist: feature k's count, average
    and variance are what Accumulate gives for hist[k].
   */
  ghost predicate Summarises(row: Row, hist: seq<seq<real>>)
  {
    && 1 <= row.count
    && FeatureColumns(|hist|) <= row.cols.Keys
    && forall k :: 0 <= k < |hist| ==>
         && AvgColumn(k) in row.cols && VarColumn(k) in row.cols && 1 <= |hist[k]|
         && StatsOf(row, k) == Accumulate(hist[k])
  }

  /** Each feature's history extended by this word's timing for it. */
  function Extend(hist: seq<seq<real>>, x: seq<int>): (h: seq<seq<real>>)
    requires |hist| == |x|
    ensures |h| == |x|
    ensures forall k :: 0 <= k < |x| ==> h[k] == hist[k] + [x[k] as real]
  {
    seq(|x|, k requires 0 <= k < |x| => hist[k] + [x[k] as real])
  }

  /** A first row summarises the one-sample histories of the word's timings. */
  lemma InsertedSummarises(x: seq<int>)
    ensures Summarises(Inserted(x), Extend(seq(|x|, k => []), x))
  {
    var row := Inserted(x);
    var h := Extend(seq(|x|, k => []), x);
    forall k | 0 <= k < |x|
      ensures AvgColumn(k) in row.cols && VarColumn(k) in row.cols && 1 <= |h[k]|
      ensures StatsOf(row, k) == Accumulate(h[k])
    {
      ColumnsAt(Initial(x), k);
      assert h[k] == [x[k] as real];
    }
  }

  /** Accumulating one more sample is one updateMean/updateVar step. */
  lemma AccumulateSnoc(h: seq<real>, y: real)
    requires 1 <= |h|
    ensures Accumulate(h + [y])
         == Stats(|h| + 1, UpdateMean(Accumulate(h).mean, y, |h|), UpdateVar(Accumulate(h).variance, Accumulate(h).mean, y, |h|))
  {
    assert (h + [y])[..|h|] == h;
  }

  /**
    updateWord keeps the profile exact: if the row summarised the earlier
    samples of every feature, the merged row summarises them with this
    word's timings appended, so each average stays the mean of all samples
    (Moments.MeanIsAverage) and each variance their sample variance
    (Moments.SampleVariance).
   */
  lemma MergedSummarises(row: Row, x: seq<int>, hist: seq<seq<real>>)
    requires |hist| == |x| && Summarises(row, hist)
    requires forall k :: 0 <= k < |x| ==> |hist[k]| == row.count
    ensures Summarises(Merged(row, x), Extend(hist, x))
  {
    var r := Merged(row, x);
    var h := Extend(hist, x);
    forall k | 0 <= k < |x|
      ensures AvgColumn(k) in r.cols && VarColumn(k) in r.cols && 1 <= |h[k]|
      ensures StatsOf(r, k) == Accumulate(h[k])
    {
      MergedAt(row, x, k);
      AccumulateSnoc(hist[k], x[k] as real);
    }
  }
}
