// The two hand-written scalers of src/preprocess.py. `fit` stores the
// column statistics in fields of the scaler object; `transform` and
// `inverse_transform` apply an affine map per column, read from those
// fields. Arithmetic is over exact reals.

module Scalers {

  /** A numeric frame: a sequence of rows. */
  type Matrix = seq<seq<real>>

  /** Every row has `n` columns. */
  predicate Rectangular(x: Matrix, n: nat)
  {
    forall i :: 0 <= i < |x| ==> |x[i]| == n
  }

  /** Column `j` of a frame. */
  function Column(x: Matrix, j: nat): (c: seq<real>)
    requires forall i :: 0 <= i < |x| ==> j < |x[i]|
    ensures |c| == |x| && forall i :: 0 <= i < |x| ==> c[i] == x[i][j]
  {
    seq(|x|, i requires 0 <= i < |x| => x[i][j])
  }

  /** The smallest entry of a non-empty column (`X.min(axis=0)`). */
  function Min(c: seq<real>): (m: real)
    requires |c| > 0
    ensures forall i :: 0 <= i < |c| ==> m <= c[i]
    ensures exists i :: 0 <= i < |c| && c[i] == m
  {
    if |c| == 1 then c[0]
    else
      var rest := Min(c[1..]);
      assert forall i :: 1 <= i < |c| ==> c[i] == c[1..][i - 1];
      if c[0] <= rest then c[0] else rest
  }

  /** The largest entry of a non-empty column (`X.max(axis=0)`). */
  function Max(c: seq<real>): (m: real)
    requires |c| > 0
    ensures forall i :: 0 <= i < |c| ==> c[i] <= m
    ensures exists i :: 0 <= i < |c| && c[i] == m
  {
    if |c| == 1 then c[0]
    else
      var rest := Max(c[1..]);
      assert forall i :: 1 <= i < |c| ==> c[i] == c[1..][i - 1];
      if c[0] >= rest then c[0] else rest
  }

  /** A lower bound that is attained is the minimum. */
  lemma MinIs(c: seq<real>, m: real, at: nat)
    requires at < |c| && c[at] == m
    requires forall i :: 0 <= i < |c| ==> m <= c[i]
    ensures Min(c) == m
  {
  }

  /** An upper bound that is attained is the maximum. */
  lemma MaxIs(c: seq<real>, m: real, at: nat)
    requires at < |c| && c[at] == m
    requires forall i :: 0 <= i < |c| ==> c[i] <= m
    ensures Max(c) == m
  {
  }

  function Sum(c: seq<real>): real
  {
    if c == [] then 0.0 else c[0] + Sum(c[1..])
  }

  /** `X.mean(axis=0)` for one column, in exact arithmetic. */
  function Mean(c: seq<real>): real
    requires |c| > 0
  {
    Sum(c) / |c| as real
  }

  /** Subtracting `m` from every entry subtracts `m` once per entry from
      the sum. */
  lemma {:induction false} SumShifted(c: seq<real>, m: real)
    ensures Sum(seq(|c|, i requires 0 <= i < |c| => c[i] - m)) == Sum(c) - m * |c| as real
  {
    var d := seq(|c|, i requires 0 <= i < |c| => c[i] - m);
    if c != [] {
      SumShifted(c[1..], m);
      var e := seq(|c[1..]|, i requires 0 <= i < |c[1..]| => c[1..][i] - m);
      assert forall i :: 0 <= i < |e| ==> d[1..][i] == e[i];
      assert d[1..] == e;
      assert m * |c| as real == m + m * |c[1..]| as real;
    }
  }

  // ----- the affine maps, one value at a time -----

  /** `(x - data_min_) / data_range_ * (max - min) + min`. */
  function MinMaxScale(x: real, dataMin: real, dataRange: real, lo: real, hi: real): real
    requires dataRange != 0.0
  {
    (x - dataMin) / dataRange * (hi - lo) + lo
  }

  /** `(x - min) / (max - min) * data_range_ + data_min_`. */
  function MinMaxUnscale(y: real, dataMin: real, dataRange: real, lo: real, hi: real): real
    requires hi != lo
  {
    (y - lo) / (hi - lo) * dataRange + dataMin
  }

  /** `MinMaxScaler.inverse_transform` undoes `transform` and the other way
      round, whenever neither map divides by zero. */
  lemma MinMaxRoundTrip(x: real, dataMin: real, dataRange: real, lo: real, hi: real)
    requires dataRange != 0.0 && hi != lo
    ensures MinMaxUnscale(MinMaxScale(x, dataMin, dataRange, lo, hi), dataMin, dataRange, lo, hi) == x
    ensures MinMaxScale(MinMaxUnscale(x, dataMin, dataRange, lo, hi), dataMin, dataRange, lo, hi) == x
  {
    var t := (x - dataMin) / dataRange;
    assert t * dataRange == x - dataMin;
    assert (t * (hi - lo) + lo - lo) / (hi - lo) == t;
    var u := (x - lo) / (hi - lo);
    assert u * (hi - lo) == x - lo;
    assert (u * dataRange + dataMin - dataMin) / dataRange == u;
  }

  /** A value between the column's minimum and maximum is scaled into the
      feature range; the minimum goes to its lower end and the maximum to
      its upper end. */
  lemma MinMaxScaleBounds(x: real, dataMin: real, dataMax: real, lo: real, hi: real)
    requires dataMin <= x <= dataMax && dataMin < dataMax
    ensures lo <= hi ==> lo <= MinMaxScale(x, dataMin, dataMax - dataMin, lo, hi) <= hi
    ensures x == dataMin ==> MinMaxScale(x, dataMin, dataMax - dataMin, lo, hi) == lo
    ensures x == dataMax ==> MinMaxScale(x, dataMin, dataMax - dataMin, lo, hi) == hi
  {
    var d := dataMax - dataMin;
    var t := (x - dataMin) / d;
    assert 0.0 <= t <= 1.0 by {
      assert t * d == x - dataMin;
    }
    if lo <= hi {
      assert 0.0 <= t * (hi - lo) <= hi - lo by {
        assert (1.0 - t) * (hi - lo) >= 0.0;
      }
    }
  }

  /** `(x - mean_) / scale_`. */
  function StandardScale(x: real, mean: real, scale: real): real
    requires scale != 0.0
  {
    (x - mean) / scale
  }

  /** `x * scale_ + mean_`. */
  function StandardUnscale(y: real, mean: real, scale: real): real
  {
    y * scale + mean
  }

  /** `StandardScaler.inverse_transform` undoes `transform` and the other
      way round, whenever the scale is not zero. */
  lemma StandardRoundTrip(x: real, mean: real, scale: real)
    requires scale != 0.0
    ensures StandardUnscale(StandardScale(x, mean, scale), mean, scale) == x
    ensures StandardScale(StandardUnscale(x, mean, scale), mean, scale) == x
  {
    assert (x - mean) / scale * scale == x - mean;
    assert (x * scale + mean - mean) / scale == x;
  }

  /** The deviations of a column from its mean sum to 0. */
  lemma DeviationsSumZero(c: seq<real>)
    requires |c| > 0
    ensures Sum(seq(|c|, i requires 0 <= i < |c| => c[i] - Mean(c))) == 0.0
  {
    var m := Mean(c);
    var d := seq(|c|, i requires 0 <= i < |c| => c[i] - m);
    SumShifted(c, m);
    assert Sum(c) == m * |c| as real;
  }

  /** Dividing every entry by `scale` divides the sum by `scale`. */
  lemma {:induction false} SumDivided(d: seq<real>, scale: real)
    requires scale != 0.0
    ensures Sum(seq(|d|, i requires 0 <= i < |d| => d[i] / scale)) == Sum(d) / scale
  {
    var q := seq(|d|, i requires 0 <= i < |d| => d[i] / scale);
    if d != [] {
      SumDivided(d[1..], scale);
      var e := seq(|d[1..]|, i requires 0 <= i < |d[1..]| => d[1..][i] / scale);
      assert forall i :: 0 <= i < |e| ==> q[1..][i] == e[i];
      assert q[1..] == e;
      assert d[0] / scale + Sum(d[1..]) / scale == (d[0] + Sum(d[1..])) / scale;
    }
  }

  /** Standardising a column with its own mean gives a column of mean 0. */
  lemma StandardizedMeanZero(c: seq<real>, scale: real)
    requires |c| > 0 && scale != 0.0
    ensures Mean(seq(|c|, i requires 0 <= i < |c| => StandardScale(c[i], Mean(c), scale))) == 0.0
  {
    var m := Mean(c);
    var d := seq(|c|, i requires 0 <= i < |c| => c[i] - m);
    var z := seq(|c|, i requires 0 <= i < |c| => StandardScale(c[i], m, scale));
    assert z == seq(|d|, i requires 0 <= i < |d| => d[i] / scale);
    DeviationsSumZero(c);
    SumDivided(d, scale);
  }

  // ----- the scaler objects -----

  /** The column-wise map of `MinMaxScaler.transform`. */
  function MinMaxScaleAll(x: Matrix, dataMin: seq<real>, dataRange: seq<real>, lo: real, hi: real): (r: Matrix)
    requires |dataMin| == |dataRange| && Rectangular(x, |dataMin|)
    requires forall j :: 0 <= j < |dataRange| ==> dataRange[j] != 0.0
    ensures |r| == |x| && Rectangular(r, |dataMin|)
    ensures forall i, j :: 0 <= i < |x| && 0 <= j < |dataMin| ==>
      r[i][j] == MinMaxScale(x[i][j], dataMin[j], dataRange[j], lo, hi)
  {
    seq(|x|, i requires 0 <= i < |x| =>
      seq(|dataMin|, j requires 0 <= j < |dataMin| => MinMaxScale(x[i][j], dataMin[j], dataRange[j], lo, hi)))
  }

  /** The column-wise map of `MinMaxScaler.inverse_transform`. */
  function MinMaxUnscaleAll(x: Matrix, dataMin: seq<real>, dataRange: seq<real>, lo: real, hi: real): (r: Matrix)
    requires |dataMin| == |dataRange| && Rectangular(x, |dataMin|) && hi != lo
    ensures |r| == |x| && Rectangular(r, |dataMin|)
    ensures forall i, j :: 0 <= i < |x| && 0 <= j < |dataMin| ==>
      r[i][j] == MinMaxUnscale(x[i][j], dataMin[j], dataRange[j], lo, hi)
  {
    seq(|x|, i requires 0 <= i < |x| =>
      seq(|dataMin|, j requires 0 <= j < |dataMin| => MinMaxUnscale(x[i][j], dataMin[j], dataRange[j], lo, hi)))
  }

  /** Column minima of a non-empty rectangular frame. */
  function ColumnMins(x: Matrix, n: nat): (m: seq<real>)
    requires |x| > 0 && Rectangular(x, n)
    ensures |m| == n
  {
    seq(n, j requires 0 <= j < n => Min(Column(x, j)))
  }

  /** Column maxima of a non-empty rectangular frame. */
  function ColumnMaxs(x: Matrix, n: nat): (m: seq<real>)
    requires |x| > 0 && Rectangular(x, n)
    ensures |m| == n
  {
    seq(n, j requires 0 <= j < n => Max(Column(x, j)))
  }

  /** Column means of a non-empty rectangular frame. */
  function ColumnMeans(x: Matrix, n: nat): (m: seq<real>)
    requires |x| > 0 && Rectangular(x, n)
    ensures |m| == n
  {
    seq(n, j requires 0 <= j < n => Mean(Column(x, j)))
  }

  class MinMaxScaler {
    // feature_range
    var featureMin: real
    var featureMax: real
    // set by fit
    var fitted: bool
    var dataMin: seq<real>
    var dataMax: seq<real>
    var dataRange: seq<real>
    var nSamplesSeen: nat
    var nFeaturesIn: nat
    // set by fit_transform
    var xStd: Matrix

    /** `MinMaxScaler(feature_range=(0, 1))`. */
    constructor (lo: real := 0.0, hi: real := 1.0)
      ensures featureMin == lo && featureMax == hi && !fitted
    {
      featureMin, featureMax := lo, hi;
      fitted := false;
      dataMin, dataMax, dataRange := [], [], [];
      nSamplesSeen, nFeaturesIn := 0, 0;
      xStd := [];
    }

    /** The fields `fit` sets are present and consistent. */
    predicate Fitted()
      reads this
    {
      fitted && |dataMin| == nFeaturesIn && |dataMax| == nFeaturesIn && |dataRange| == nFeaturesIn &&
      forall j :: 0 <= j < nFeaturesIn ==> dataRange[j] == dataMax[j] - dataMin[j]
    }

    /** No column was constant, so `transform` divides by no zero range. */
    predicate NonDegenerate()
      reads this
      requires Fitted()
    {
      forall j :: 0 <= j < nFeaturesIn ==> dataRange[j] != 0.0
    }

    /** `fit`: record the column minima, maxima and ranges and the shape. */
    method Fit(x: Matrix)
      requires |x| > 0 && Rectangular(x, |x[0]|)
      modifies this
      ensures Fitted()
      ensures nSamplesSeen == |x| && nFeaturesIn == |x[0]|
      ensures dataMin == ColumnMins(x, |x[0]|) && dataMax == ColumnMaxs(x, |x[0]|)
      ensures dataRange == ColumnRanges(x, |x[0]|)
      ensures featureMin == old(featureMin) && featureMax == old(featureMax) && xStd == old(xStd)
    {
      var n := |x[0]|;
      dataMin, dataMax := ColumnMins(x, n), ColumnMaxs(x, n);
      dataRange := ColumnRanges(x, n);
      nSamplesSeen, nFeaturesIn := |x|, n;
      fitted := true;
    }

    /** `transform`. */
    function Transform(x: Matrix): (r: Matrix)
      reads this
      requires Fitted() && NonDegenerate() && Rectangular(x, nFeaturesIn)
      ensures |r| == |x| && Rectangular(r, nFeaturesIn)
    {
      MinMaxScaleAll(x, dataMin, dataRange, featureMin, featureMax)
    }

    /** `inverse_transform`. */
    function InverseTransform(x: Matrix): (r: Matrix)
      reads this
      requires Fitted() && featureMax != featureMin && Rectangular(x, nFeaturesIn)
      ensures |r| == |x| && Rectangular(r, nFeaturesIn)
    {
      MinMaxUnscaleAll(x, dataMin, dataRange, featureMin, featureMax)
    }

    /** `inverse_transform(transform(X)) == X` and the other way round. */
    lemma RoundTrip(x: Matrix)
      requires Fitted() && NonDegenerate() && featureMax != featureMin && Rectangular(x, nFeaturesIn)
      ensures InverseTransform(Transform(x)) == x
      ensures Transform(InverseTransform(x)) == x
    {
      var there := InverseTransform(Transform(x));
      var back := Transform(InverseTransform(x));
      forall i | 0 <= i < |x| ensures there[i] == x[i] && back[i] == x[i] {
        forall j | 0 <= j < nFeaturesIn ensures there[i][j] == x[i][j] && back[i][j] == x[i][j] {
          MinMaxRoundTrip(x[i][j], dataMin[j], dataRange[j], featureMin, featureMax);
        }
      }
    }

    /** `fit_transform`: fit, then scale the same data. Each column's
        minimum is sent to the lower end of the feature range, its maximum
        to the upper end, and every value lands in the range. */
    method FitTransform(x: Matrix) returns (scaled: Matrix)
      requires |x| > 0 && Rectangular(x, |x[0]|)
      requires forall j :: 0 <= j < |x[0]| ==> Min(Column(x, j)) != Max(Column(x, j))
      modifies this
      ensures Fitted() && NonDegenerate()
      ensures nSamplesSeen == |x| && nFeaturesIn == |x[0]|
      ensures dataMin == ColumnMins(x, |x[0]|) && dataMax == ColumnMaxs(x, |x[0]|)
      ensures featureMin == old(featureMin) && featureMax == old(featureMax)
      ensures xStd == MinMaxScaleAll(x, dataMin, dataRange, 0.0, 1.0)
      ensures scaled == Transform(x)
      ensures forall i, j :: 0 <= i < |x| && 0 <= j < nFeaturesIn && x[i][j] == dataMin[j] ==>
        scaled[i][j] == featureMin
      ensures forall i, j :: 0 <= i < |x| && 0 <= j < nFeaturesIn && x[i][j] == dataMax[j] ==>
        scaled[i][j] == featureMax
      ensures featureMin <= featureMax ==> forall i, j :: 0 <= i < |x| && 0 <= j < nFeaturesIn ==>
        featureMin <= scaled[i][j] <= featureMax
    {
      Fit(x);
      MinMaxScaleAllBounds(x, featureMin, featureMax);
      xStd := MinMaxScaleAll(x, dataMin, dataRange, 0.0, 1.0);
      // X_std * (max - min) + min, which is transform(X)
      scaled := MinMaxScaleAll(x, dataMin, dataRange, featureMin, featureMax);
    }
  }

  /** The ranges `data_max_ - data_min_` of a frame's columns. */
  function ColumnRanges(x: Matrix, n: nat): (r: seq<real>)
    requires |x| > 0 && Rectangular(x, n)
    ensures |r| == n
  {
    seq(n, j requires 0 <= j < n => Max(Column(x, j)) - Min(Column(x, j)))
  }

  /** Scaling a frame by its own column statistics: no range is zero when
      no column is constant, and then the minimum goes to `lo`, the maximum
      to `hi` and every value into `[lo, hi]`. */
  lemma MinMaxScaleAllBounds(x: Matrix, lo: real, hi: real)
    requires |x| > 0 && Rectangular(x, |x[0]|)
    requires forall j :: 0 <= j < |x[0]| ==> Min(Column(x, j)) != Max(Column(x, j))
    ensures forall j :: 0 <= j < |x[0]| ==> ColumnRanges(x, |x[0]|)[j] != 0.0
    ensures var n := |x[0]|; var mins := ColumnMins(x, n); var maxs := ColumnMaxs(x, n);
      var s := MinMaxScaleAll(x, mins, ColumnRanges(x, n), lo, hi);
      (forall i, j :: 0 <= i < |x| && 0 <= j < n && x[i][j] == mins[j] ==> s[i][j] == lo) &&
      (forall i, j :: 0 <= i < |x| && 0 <= j < n && x[i][j] == maxs[j] ==> s[i][j] == hi) &&
      (lo <= hi ==> forall i, j :: 0 <= i < |x| && 0 <= j < n ==> lo <= s[i][j] <= hi)
  {
    var n := |x[0]|;
    var mins, maxs, ranges := ColumnMins(x, n), ColumnMaxs(x, n), ColumnRanges(x, n);
    forall j | 0 <= j < n ensures ranges[j] != 0.0 && mins[j] < maxs[j] {
      var c := Column(x, j);
      assert c[0] == x[0][j];
    }
    var s := MinMaxScaleAll(x, mins, ranges, lo, hi);
    forall i, j | 0 <= i < |x| && 0 <= j < n
      ensures lo <= hi ==> lo <= s[i][j] <= hi
      ensures x[i][j] == mins[j] ==> s[i][j] == lo
      ensures x[i][j] == maxs[j] ==> s[i][j] == hi
    {
      var c := Column(x, j);
      assert c[i] == x[i][j];
      MinMaxScaleBounds(x[i][j], mins[j], maxs[j], lo, hi);
    }
  }

  /** After `fit_transform` with `min <= max` on a frame without constant
      columns, every scaled column's minimum is exactly `min` and its
      maximum exactly `max`. */
  lemma MinMaxFitTransformExtremes(x: Matrix, lo: real, hi: real)
    requires |x| > 0 && Rectangular(x, |x[0]|)
    requires forall j :: 0 <= j < |x[0]| ==> Min(Column(x, j)) != Max(Column(x, j))
    requires lo <= hi
    ensures forall j :: 0 <= j < |x[0]| ==> ColumnRanges(x, |x[0]|)[j] != 0.0
    ensures var n := |x[0]|;
      var s := MinMaxScaleAll(x, ColumnMins(x, n), ColumnRanges(x, n), lo, hi);
      forall j :: 0 <= j < n ==> Min(Column(s, j)) == lo && Max(Column(s, j)) == hi
  {
    var n := |x[0]|;
    MinMaxScaleAllBounds(x, lo, hi);
    var s := MinMaxScaleAll(x, ColumnMins(x, n), ColumnRanges(x, n), lo, hi);
    var mins, maxs := ColumnMins(x, n), ColumnMaxs(x, n);
    forall j | 0 <= j < n ensures Min(Column(s, j)) == lo && Max(Column(s, j)) == hi {
      assert mins[j] == Min(Column(x, j)) && maxs[j] == Max(Column(x, j));
      assert forall i :: 0 <= i < |x| ==> lo <= s[i][j] <= hi;
      assert forall i :: 0 <= i < |x| && x[i][j] == mins[j] ==> s[i][j] == lo;
      assert forall i :: 0 <= i < |x| && x[i][j] == maxs[j] ==> s[i][j] == hi;
      ScaledColumnExtremes(x, s, j, lo, hi);
    }
  }

  /** One column of the above: the rows holding the column's minimum and
      maximum attain `lo` and `hi`, which bound the scaled column. */
  lemma ScaledColumnExtremes(x: Matrix, s: Matrix, j: nat, lo: real, hi: real)
    requires |x| > 0 && Rectangular(x, |x[0]|) && j < |x[0]|
    requires |s| == |x| && Rectangular(s, |x[0]|)
    requires forall i :: 0 <= i < |x| ==> lo <= s[i][j] <= hi
    requires forall i :: 0 <= i < |x| && x[i][j] == Min(Column(x, j)) ==> s[i][j] == lo
    requires forall i :: 0 <= i < |x| && x[i][j] == Max(Column(x, j)) ==> s[i][j] == hi
    ensures Min(Column(s, j)) == lo && Max(Column(s, j)) == hi
  {
    var c, d := Column(x, j), Column(s, j);
    var a :| 0 <= a < |c| && c[a] == Min(c);
    var b :| 0 <= b < |c| && c[b] == Max(c);
    assert x[a][j] == c[a] && x[b][j] == c[b];
    MinIs(d, lo, a);
    MaxIs(d, hi, b);
  }

  /** The column-wise map of `StandardScaler.transform`. */
  function StandardScaleAll(x: Matrix, mean: seq<real>, scale: seq<real>): (r: Matrix)
    requires |mean| == |scale| && Rectangular(x, |mean|)
    requires forall j :: 0 <= j < |scale| ==> scale[j] != 0.0
    ensures |r| == |x| && Rectangular(r, |mean|)
    ensures forall i, j :: 0 <= i < |x| && 0 <= j < |mean| ==> r[i][j] == StandardScale(x[i][j], mean[j], scale[j])
  {
    seq(|x|, i requires 0 <= i < |x| =>
      seq(|mean|, j requires 0 <= j < |mean| => StandardScale(x[i][j], mean[j], scale[j])))
  }

  /** The column-wise map of `StandardScaler.inverse_transform`. */
  function StandardUnscaleAll(x: Matrix, mean: seq<real>, scale: seq<real>): (r: Matrix)
    requires |mean| == |scale| && Rectangular(x, |mean|)
    ensures |r| == |x| && Rectangular(r, |mean|)
    ensures forall i, j :: 0 <= i < |x| && 0 <= j < |mean| ==> r[i][j] == StandardUnscale(x[i][j], mean[j], scale[j])
  {
    seq(|x|, i requires 0 <= i < |x| =>
      seq(|mean|, j requires 0 <= j < |mean| => StandardUnscale(x[i][j], mean[j], scale[j])))
  }

  /** Column `j` of a frame standardised by its own column means has mean 0. */
  lemma StandardScaleAllMeanZero(x: Matrix, scale: seq<real>, j: nat)
    requires |x| > 0 && Rectangular(x, |x[0]|) && |scale| == |x[0]| && j < |x[0]|
    requires forall k :: 0 <= k < |scale| ==> scale[k] != 0.0
    ensures Mean(Column(StandardScaleAll(x, ColumnMeans(x, |x[0]|), scale), j)) == 0.0
  {
    var means := ColumnMeans(x, |x[0]|);
    var c := Column(x, j);
    var s := scale[j];
    assert means[j] == Mean(c);
    StandardizedMeanZero(c, s);
    assert Column(StandardScaleAll(x, means, scale), j) ==
      seq(|c|, i requires 0 <= i < |c| => StandardScale(c[i], Mean(c), s));
  }

  class StandardScaler {
    // set by fit
    var fitted: bool
    var mean: seq<real>
    var scale: seq<real>
    var nSamplesSeen: nat
    var nFeaturesIn: nat

    constructor ()
      ensures !fitted
    {
      fitted := false;
      mean, scale := [], [];
      nSamplesSeen, nFeaturesIn := 0, 0;
    }

    predicate Fitted()
      reads this
    {
      fitted && |mean| == nFeaturesIn && |scale| == nFeaturesIn
    }

    /** `fit`: the column means, and the column scales `sqrt(var)`, which
        the caller supplies (the variance and square root are floating
        point and not modelled). */
    method Fit(x: Matrix, columnScale: seq<real>)
      requires |x| > 0 && Rectangular(x, |x[0]|) && |columnScale| == |x[0]|
      modifies this
      ensures Fitted()
      ensures nSamplesSeen == |x| && nFeaturesIn == |x[0]|
      ensures mean == ColumnMeans(x, |x[0]|) && scale == columnScale
    {
      mean := ColumnMeans(x, |x[0]|);
      scale := columnScale;
      nSamplesSeen, nFeaturesIn := |x|, |x[0]|;
      fitted := true;
    }

    /** `transform`. */
    function Transform(x: Matrix): (r: Matrix)
      reads this
      requires Fitted() && Rectangular(x, nFeaturesIn)
      requires forall j :: 0 <= j < nFeaturesIn ==> scale[j] != 0.0
      ensures |r| == |x| && Rectangular(r, nFeaturesIn)
    {
      StandardScaleAll(x, mean, scale)
    }

    /** `inverse_transform`. */
    function InverseTransform(x: Matrix): (r: Matrix)
      reads this
      requires Fitted() && Rectangular(x, nFeaturesIn)
      ensures |r| == |x| && Rectangular(r, nFeaturesIn)
    {
      StandardUnscaleAll(x, mean, scale)
    }

    /** `inverse_transform(transform(X)) == X` and the other way round. */
    lemma RoundTrip(x: Matrix)
      requires Fitted() && Rectangular(x, nFeaturesIn)
      requires forall j :: 0 <= j < nFeaturesIn ==> scale[j] != 0.0
      ensures InverseTransform(Transform(x)) == x
      ensures Transform(InverseTransform(x)) == x
    {
      var there := InverseTransform(Transform(x));
      var back := Transform(InverseTransform(x));
      forall i | 0 <= i < |x| ensures there[i] == x[i] && back[i] == x[i] {
        forall j | 0 <= j < nFeaturesIn ensures there[i][j] == x[i][j] && back[i][j] == x[i][j] {
          StandardRoundTrip(x[i][j], mean[j], scale[j]);
        }
      }
    }

    /** `fit_transform`: fit, then standardise the same data; every column
        of the result has mean 0. */
    method FitTransform(x: Matrix, columnScale: seq<real>) returns (scaled: Matrix)
      requires |x| > 0 && Rectangular(x, |x[0]|) && |columnScale| == |x[0]|
      requires forall j :: 0 <= j < |columnScale| ==> columnScale[j] != 0.0
      modifies this
      ensures Fitted()
      ensures nSamplesSeen == |x| && nFeaturesIn == |x[0]|
      ensures mean == ColumnMeans(x, |x[0]|) && scale == columnScale
      ensures scaled == Transform(x)
      ensures forall j :: 0 <= j < nFeaturesIn ==> Mean(Column(scaled, j)) == 0.0
    {
      Fit(x, columnScale);
      scaled := StandardScaleAll(x, mean, scale);
      forall j | 0 <= j < nFeaturesIn ensures Mean(Column(scaled, j)) == 0.0 {
        StandardScaleAllMeanZero(x, columnScale, j);
      }
    }
  }
}
