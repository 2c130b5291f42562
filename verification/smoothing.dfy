/** The chart query of `get_data`: every reading, in timestamp order, with
    its raw temperature and humidity and their averages over the window
    frame `ROWS BETWEEN k PRECEDING AND k FOLLOWING`. The frame of the row
    at position i holds the rows max(0, i-k) .. min(N-1, i+k): it is
    clipped at both ends of the series, never padded (section 7.11 of
    ISO/IEC 9075-2). */
module Smoothing {
  import opened Store

  /** First position of the frame of row i (inclusive). */
  function WindowStart(i: nat, k: nat): nat
  {
    if i < k then 0 else i - k
  }

  /** One past the last position of the frame of row i in a series of n rows. */
  function WindowEnd(n: nat, i: nat, k: nat): nat
  {
    if i + k + 1 < n then i + k + 1 else n
  }

  /** `avg(x) OVER (ORDER BY timestamp ROWS BETWEEN k PRECEDING AND k FOLLOWING)`
      for every row of the column `values`. */
  function Smooth(values: seq<real>, k: nat): (r: seq<real>)
    ensures |r| == |values|
  {
    seq(|values|, i requires 0 <= i < |values| => FrameMean(values, k, i))
  }

  /** The average over the frame of row i. */
  function FrameMean(values: seq<real>, k: nat, i: nat): real
    requires i < |values|
  {
    Mean(values[WindowStart(i, k)..WindowEnd(|values|, i, k)])
  }

  /** One row of the data frame that `get_data` returns. */
  datatype SmoothedRow = SmoothedRow(
    timestamp: int,
    temperature: real,
    wtemperature: real,
    humidity: real,
    whumidity: real)

  /** The result of the chart query over the store `rs` with half-window `k`:
      one row per reading, in the store's order, each carrying the raw
      values unchanged beside the windowed averages of both columns. */
  function SmoothSeries(rs: seq<Reading>, k: nat): (rows: seq<SmoothedRow>)
    ensures |rows| == |rs|
    ensures forall i :: 0 <= i < |rs| ==>
      rows[i].timestamp == rs[i].timestamp &&
      rows[i].temperature == rs[i].temperature &&
      rows[i].humidity == rs[i].humidity
  {
    var wt, wh := Smooth(Column(rs, Temperature), k), Smooth(Column(rs, Humidity), k);
    seq(|rs|, i requires 0 <= i < |rs| =>
      SmoothedRow(rs[i].timestamp, rs[i].temperature, wt[i], rs[i].humidity, wh[i]))
  }

  /** The smoothed value at position i is the mean of the clipped frame
      max(0, i-k) .. min(N-1, i+k), which holds min(i, k) + min(N-1-i, k) + 1
      samples. */
  lemma SmoothAt(values: seq<real>, k: nat, i: nat)
    requires i < |values|
    ensures var n := |values|;
      var lo := if i < k then 0 else i - k;
      var hi := if i + k < n - 1 then i + k else n - 1;
      var width := (if i < k then i else k) + (if n - 1 - i < k then n - 1 - i else k) + 1;
      hi - lo + 1 == width &&
      Smooth(values, k)[i] == Sum(values[lo..hi + 1]) / (width as real)
  {
    FrameMeanOfSum(values, k, i);
    assert Smooth(values, k)[i] == FrameMean(values, k, i);
  }

  /** At interior points the frame is the full 2k+1 samples centred on i. */
  lemma SmoothInterior(values: seq<real>, k: nat, i: nat)
    requires k <= i && i + k < |values|
    ensures Smooth(values, k)[i] == Sum(values[i - k..i + k + 1]) / ((2 * k + 1) as real)
  {
  }

  /** With k = 0 the frame is the row itself: smoothing is the identity. */
  lemma SmoothIdentity(values: seq<real>)
    ensures Smooth(values, 0) == values
  {
    forall i | 0 <= i < |values|
      ensures Smooth(values, 0)[i] == values[i]
    {
      var w := values[WindowStart(i, 0)..WindowEnd(|values|, i, 0)];
      assert w == [values[i]];
      assert w[..0] == [];
      assert Sum(w) == values[i];
    }
  }

  /** Once k >= N-1 every frame is the whole series. */
  lemma SmoothWholeSeries(values: seq<real>, k: nat, i: nat)
    requires i < |values| && |values| - 1 <= k
    ensures Smooth(values, k)[i] == Mean(values)
  {
    assert values[WindowStart(i, k)..WindowEnd(|values|, i, k)] == values;
  }

  /** Every smoothed value lies between the least and the greatest value of
      the series. */
  lemma SmoothWithinRange(values: seq<real>, k: nat, i: nat)
    requires i < |values|
    ensures MinOf(values).value <= Smooth(values, k)[i] <= MaxOf(values).value
  {
    var w := values[WindowStart(i, k)..WindowEnd(|values|, i, k)];
    MeanBetween(w);
    assert forall x :: x in w ==> x in values;
  }

  /** A constant series is left unchanged by any window. */
  lemma SmoothConstant(values: seq<real>, k: nat, v: real)
    requires forall i :: 0 <= i < |values| ==> values[i] == v
    ensures Smooth(values, k) == values
  {
    forall i | 0 <= i < |values|
      ensures Smooth(values, k)[i] == values[i]
    {
      FrameMeanConstant(values, k, v, i);
    }
  }

  lemma FrameMeanConstant(values: seq<real>, k: nat, v: real, i: nat)
    requires forall i :: 0 <= i < |values| ==> values[i] == v
    requires i < |values|
    ensures FrameMean(values, k, i) == v
  {
    var w := values[WindowStart(i, k)..WindowEnd(|values|, i, k)];
    assert forall j :: 0 <= j < |w| ==> w[j] == values[WindowStart(i, k) + j];
    SumConstant(w, v);
    ScaledQuotient(|w| as real, v);
  }

  lemma ScaledQuotient(n: real, v: real)
    requires n > 0.0
    ensures (n * v) / n == v
  {
  }

  /** Rows come out in ascending timestamp order when the store is. */
  lemma SmoothSeriesSorted(rs: seq<Reading>, k: nat)
    requires Sorted(rs)
    ensures var rows := SmoothSeries(rs, k);
      forall i, j :: 0 <= i < j < |rows| ==> rows[i].timestamp <= rows[j].timestamp
  {
  }

  /** Each row's smoothed columns are the windowed means of the store's
      columns at the same position. */
  lemma SmoothSeriesAt(rs: seq<Reading>, k: nat, i: nat)
    requires i < |rs|
    ensures SmoothSeries(rs, k)[i].wtemperature == Smooth(Column(rs, Temperature), k)[i]
    ensures SmoothSeries(rs, k)[i].whumidity == Smooth(Column(rs, Humidity), k)[i]
  {
  }

  /** The single-pass running-sum algorithm: the frame sum is kept up to
      date by adding the sample that enters and subtracting the one that
      leaves, so the cost is O(N + k) whatever k is. */
  method SmoothRunning(values: seq<real>, k: nat) returns (out: seq<real>)
    ensures out == Smooth(values, k)
  {
    var n := |values|;
    out := [];
    if n == 0 {
      return;
    }
    // The frame of row 0.
    var hi := 0;
    var sum := 0.0;
    var end0 := WindowEnd(n, 0, k);
    while hi < end0
      invariant 0 <= hi <= end0
      invariant sum == Sum(values[0..hi])
    {
      SumSliceExtend(values, 0, hi);
      sum := sum + values[hi];
      hi := hi + 1;
    }
    var lo := 0;
    var i := 0;
    while i < n
      invariant 0 <= i <= n
      invariant |out| == i
      invariant FrameMeansUpTo(out, values, k)
      invariant i < n ==> lo == WindowStart(i, k) && hi == WindowEnd(n, i, k)
      invariant i < n ==> sum == FrameSum(values, k, i)
    {
      FrameMeanOfSum(values, k, i);
      AppendFrameMean(out, values, k, sum / ((hi - lo) as real));
      out := out + [sum / ((hi - lo) as real)];
      if i + 1 < n {
        FrameStep(values, k, i);
        if hi < n {
          sum := sum + values[hi];
          hi := hi + 1;
        }
        if k <= i {
          sum := sum - values[lo];
          lo := lo + 1;
        }
      }
      i := i + 1;
    }
  }

  /** `out` holds the frame means of the first |out| rows. */
  predicate FrameMeansUpTo(out: seq<real>, values: seq<real>, k: nat)
  {
    |out| <= |values| && forall j :: 0 <= j < |out| ==> out[j] == FrameMean(values, k, j)
  }

  /** Appending the next row's frame mean keeps the prefix property. */
  lemma AppendFrameMean(out: seq<real>, values: seq<real>, k: nat, x: real)
    requires FrameMeansUpTo(out, values, k) && |out| < |values|
    requires x == FrameMean(values, k, |out|)
    ensures FrameMeansUpTo(out + [x], values, k)
  {
  }

  /** The sum over the frame of row i. */
  function FrameSum(values: seq<real>, k: nat, i: nat): real
    requires i < |values|
  {
    Sum(values[WindowStart(i, k)..WindowEnd(|values|, i, k)])
  }

  /** The frame mean is the frame sum over the frame width. */
  lemma FrameMeanOfSum(values: seq<real>, k: nat, i: nat)
    requires i < |values|
    ensures WindowStart(i, k) < WindowEnd(|values|, i, k) <= |values|
    ensures FrameMean(values, k, i) ==
      FrameSum(values, k, i) / ((WindowEnd(|values|, i, k) - WindowStart(i, k)) as real)
  {
  }

  /** From row i to row i+1 the frame gains the sample at its old end,
      if any is left, and loses the sample at its old start once i >= k. */
  lemma FrameStep(values: seq<real>, k: nat, i: nat)
    requires i + 1 < |values|
    ensures var n, lo, hi := |values|, WindowStart(i, k), WindowEnd(|values|, i, k);
      var lo', hi' := WindowStart(i + 1, k), WindowEnd(n, i + 1, k);
      lo <= i < hi <= n &&
      hi' == (if hi < n then hi + 1 else hi) &&
      lo' == (if k <= i then lo + 1 else lo) &&
      FrameSum(values, k, i + 1) ==
        FrameSum(values, k, i) + (if hi < n then values[hi] else 0.0) - (if k <= i then values[lo] else 0.0)
  {
    var n, lo, hi := |values|, WindowStart(i, k), WindowEnd(|values|, i, k);
    FrameAdvance(n, i, k);
    var hi' := if hi < n then hi + 1 else hi;
    if hi < n {
      SumSliceExtend(values, lo, hi);
    }
    assert Sum(values[lo..hi']) == Sum(values[lo..hi]) + (if hi < n then values[hi] else 0.0);
    if k <= i {
      SumSliceDrop(values, lo, hi');
    }
  }

  /** How the frame bounds move from row i to row i+1. */
  lemma FrameAdvance(n: nat, i: nat, k: nat)
    requires i + 1 < n
    ensures WindowEnd(n, i + 1, k) ==
      if WindowEnd(n, i, k) < n then WindowEnd(n, i, k) + 1 else n
    ensures WindowStart(i + 1, k) ==
      if k <= i then WindowStart(i, k) + 1 else WindowStart(i, k)
  {
  }
}
