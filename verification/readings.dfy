/** The `reading` table of the sensor database and the arithmetic that the
    SQL aggregates (avg, max, min) perform over one of its columns.
    Temperatures and humidities are `real`: exact stand-ins for the floats
    the database stores. */
module Store {

  /** SQL NULL is `None`. */
  datatype Option<+T> = None | Some(value: T)

  /** One row of the `reading` table. */
  datatype Reading = Reading(timestamp: int, temperature: real, humidity: real)

  /** The two measured columns. */
  datatype Field = Temperature | Humidity

  function Value(r: Reading, f: Field): real
  {
    match f
    case Temperature => r.temperature
    case Humidity => r.humidity
  }

  /** The column `f` of the rows `rs`, in row order. */
  function Column(rs: seq<Reading>, f: Field): (c: seq<real>)
    ensures |c| == |rs|
    ensures forall i :: 0 <= i < |rs| ==> c[i] == Value(rs[i], f)
  {
    seq(|rs|, i requires 0 <= i < |rs| => Value(rs[i], f))
  }

  /** Rows in `ORDER BY timestamp` order. */
  predicate Sorted(rs: seq<Reading>)
  {
    forall i, j :: 0 <= i < j < |rs| ==> rs[i].timestamp <= rs[j].timestamp
  }

  function Sum(xs: seq<real>): real
  {
    if xs == [] then 0.0 else Sum(xs[..|xs| - 1]) + xs[|xs| - 1]
  }

  /** SQL `avg` over a non-empty column. */
  function Mean(xs: seq<real>): real
    requires xs != []
  {
    Sum(xs) / (|xs| as real)
  }

  /** SQL `max`: NULL exactly on an empty column, otherwise an element
      that no element exceeds. */
  function MaxOf(xs: seq<real>): (m: Option<real>)
    ensures m.None? <==> xs == []
    ensures m.Some? ==> m.value in xs && forall x :: x in xs ==> x <= m.value
  {
    if xs == [] then None
    else
      assert xs == [xs[0]] + xs[1..];
      match MaxOf(xs[1..])
      case None => Some(xs[0])
      case Some(rest) => Some(if rest < xs[0] then xs[0] else rest)
  }

  /** SQL `min`: NULL exactly on an empty column, otherwise an element
      that exceeds no element. */
  function MinOf(xs: seq<real>): (m: Option<real>)
    ensures m.None? <==> xs == []
    ensures m.Some? ==> m.value in xs && forall x :: x in xs ==> m.value <= x
  {
    if xs == [] then None
    else
      assert xs == [xs[0]] + xs[1..];
      match MinOf(xs[1..])
      case None => Some(xs[0])
      case Some(rest) => Some(if xs[0] < rest then xs[0] else rest)
  }

  /** Removing the first element of a sum. */
  lemma {:induction false} SumCons(x: real, ys: seq<real>)
    ensures Sum([x] + ys) == x + Sum(ys)
  {
    if ys != [] {
      assert ([x] + ys)[..|ys|] == [x] + ys[..|ys| - 1];
      SumCons(x, ys[..|ys| - 1]);
    } else {
      assert ([x] + ys)[..0] == [];
    }
  }

  /** Extending a slice by one element on the right. */
  lemma SumSliceExtend(s: seq<real>, lo: int, hi: int)
    requires 0 <= lo <= hi < |s|
    ensures Sum(s[lo..hi + 1]) == Sum(s[lo..hi]) + s[hi]
  {
    assert s[lo..hi + 1][..hi - lo] == s[lo..hi];
  }

  /** Shrinking a non-empty slice by one element on the left. */
  lemma SumSliceDrop(s: seq<real>, lo: int, hi: int)
    requires 0 <= lo < hi <= |s|
    ensures Sum(s[lo..hi]) == s[lo] + Sum(s[lo + 1..hi])
  {
    assert s[lo..hi] == [s[lo]] + s[lo + 1..hi];
    SumCons(s[lo], s[lo + 1..hi]);
  }

  /** A column whose elements lie in [lo, hi] sums to between n*lo and n*hi. */
  lemma {:induction false} SumBounds(xs: seq<real>, lo: real, hi: real)
    requires forall x :: x in xs ==> lo <= x <= hi
    ensures (|xs| as real) * lo <= Sum(xs) <= (|xs| as real) * hi
  {
    if xs != [] {
      var init := xs[..|xs| - 1];
      assert forall x :: x in init ==> x in xs;
      SumBounds(init, lo, hi);
      assert xs[|xs| - 1] in xs;
      var m := |init| as real;
      assert (|xs| as real) == m + 1.0;
      assert (m + 1.0) * lo == m * lo + lo;
      assert (m + 1.0) * hi == m * hi + hi;
      assert Sum(xs) == Sum(init) + xs[|xs| - 1];
    }
  }

  /** The average of a non-empty column lies between its minimum and its
      maximum. */
  lemma MeanBetween(xs: seq<real>)
    requires xs != []
    ensures MinOf(xs).value <= Mean(xs) <= MaxOf(xs).value
  {
    var lo, hi := MinOf(xs).value, MaxOf(xs).value;
    SumBounds(xs, lo, hi);
    QuotientBetween(Sum(xs), |xs| as real, lo, hi);
  }

  /** n*lo <= a <= n*hi bounds a/n by lo and hi when n is positive. */
  lemma QuotientBetween(a: real, n: real, lo: real, hi: real)
    requires n > 0.0 && n * lo <= a <= n * hi
    ensures lo <= a / n <= hi
  {
    assert a == (a / n) * n;
  }

  /** The average of a column of one repeated value is that value. */
  lemma {:induction false} SumConstant(xs: seq<real>, v: real)
    requires forall i :: 0 <= i < |xs| ==> xs[i] == v
    ensures Sum(xs) == (|xs| as real) * v
  {
    if xs != [] {
      SumConstant(xs[..|xs| - 1], v);
    }
  }
}
