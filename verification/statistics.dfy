/** What the statistics query and the freshness query return, by the
    standard semantics of the SQL they send: the BETWEEN filter (section 8.3
    of ISO/IEC 9075-2, inclusive at both ends), the aggregates avg, max and
    min, which are NULL over an empty set of rows (section 10.9), and
    MAX(timestamp). */
module Statistics {
  import opened Store
  import Query = StatisticsQuery

  /** Whether a row with timestamp t survives the query's filter: the
      BETWEEN clause is only added when both bounds are given. */
  predicate InRange(t: int, l1: Option<int>, l2: Option<int>)
  {
    l1.Some? && l2.Some? ==> l1.value <= t <= l2.value
  }

  /** The rows of `rs` the query aggregates over, in store order. */
  function Selected(rs: seq<Reading>, l1: Option<int>, l2: Option<int>): (sel: seq<Reading>)
    ensures |sel| <= |rs|
    ensures forall r :: r in sel <==> r in rs && InRange(r.timestamp, l1, l2)
  {
    if rs == [] then []
    else
      var init, r := rs[..|rs| - 1], rs[|rs| - 1];
      assert rs == init + [r];
      var rest := Selected(init, l1, l2);
      if InRange(r.timestamp, l1, l2) then rest + [r] else rest
  }

  /** The filter keeps every matching row as many times as the store holds
      it, and no other row: the aggregates see the rows as a bag. */
  lemma {:induction false} SelectedMultiplicity(rs: seq<Reading>, l1: Option<int>, l2: Option<int>)
    ensures forall r ::
      multiset(Selected(rs, l1, l2))[r] == if InRange(r.timestamp, l1, l2) then multiset(rs)[r] else 0
  {
    if rs != [] {
      var init, last := rs[..|rs| - 1], rs[|rs| - 1];
      assert rs == init + [last];
      SelectedMultiplicity(init, l1, l2);
    }
  }

  /** `round(avg(f),1), round(max(f),1), round(min(f),1)` for one field,
      without the rounding. */
  datatype FieldSummary = FieldSummary(avg: Option<real>, max: Option<real>, min: Option<real>)

  /** The three aggregates over one column: all NULL on no rows, and
      otherwise min <= avg <= max. */
  function Summarize(xs: seq<real>): (s: FieldSummary)
    ensures s.avg.None? <==> xs == []
    ensures s.max == MaxOf(xs) && s.min == MinOf(xs)
    ensures xs != [] ==> s.avg == Some(Mean(xs)) && s.min.value <= s.avg.value <= s.max.value
  {
    if xs == [] then FieldSummary(None, None, None)
    else
      MeanBetween(xs);
      FieldSummary(Some(Mean(xs)), MaxOf(xs), MinOf(xs))
  }

  /** The one result row of the statistics query: a summary per requested
      field, in the order of `fields`. */
  function Stats(rs: seq<Reading>, l1: Option<int>, l2: Option<int>, fields: seq<Field>): (t: seq<FieldSummary>)
    ensures |t| == |fields|
  {
    var sel := Selected(rs, l1, l2);
    seq(|fields|, j requires 0 <= j < |fields| => Summarize(Column(sel, fields[j])))
  }

  /** The column name of a field in the `reading` table. */
  function FieldName(f: Field): string
  {
    match f
    case Temperature => "temperature"
    case Humidity => "humidity"
  }

  /** The names `get_statistics` receives in its `fields` list. */
  function FieldNames(fields: seq<Field>): (names: seq<string>)
    ensures |names| == |fields|
    ensures forall i :: 0 <= i < |fields| ==> names[i] == FieldName(fields[i])
  {
    seq(|fields|, i requires 0 <= i < |fields| => FieldName(fields[i]))
  }

  /** What `pd.read_sql_query` gives back: the result row, or an error
      when the database rejects the query text. */
  datatype QueryResult = Table(rows: seq<FieldSummary>) | Rejected

  /** `get_statistics`: the query the loops write is sent to the database,
      which rejects it when its select list is malformed; otherwise the
      answer is the one result row. */
  function GetStatistics(rs: seq<Reading>, l1: Option<int>, l2: Option<int>, fields: seq<Field>): (res: QueryResult)
    ensures res.Rejected? <==> fields == [] || fields[|fields| - 1] in fields[..|fields| - 1]
    ensures res.Table? ==> |res.rows| == |fields| && res.rows == Stats(rs, l1, l2, fields)
  {
    MalformedNames(fields);
    if Query.MalformedSelect(FieldNames(fields)) then Rejected else Table(Stats(rs, l1, l2, fields))
  }

  /** The field names hold no line break, and distinct fields have distinct
      names, so the select list is malformed exactly when there is no
      field or the last one is repeated. */
  lemma MalformedNames(fields: seq<Field>)
    ensures Query.MalformedSelect(FieldNames(fields)) <==>
      fields == [] || fields[|fields| - 1] in fields[..|fields| - 1]
  {
    var names := FieldNames(fields);
    forall i | 0 <= i < |names|
      ensures '\n' !in names[i]
    {
      NoLineBreak(fields[i]);
    }
    Query.MalformedIffEmptyOrRepeatedLast(names);
    var n := |fields|;
    if n == 0 {
      assert names == [];
    } else {
      RepeatedName(fields);
      assert names != [];
      assert (names[n - 1] in names[..n - 1]) == (fields[n - 1] in fields[..n - 1]);
    }
  }

  lemma NoLineBreak(f: Field)
    ensures '\n' !in FieldName(f)
  {
    var name := FieldName(f);
    forall i | 0 <= i < |name|
      ensures name[i] != '\n'
    {
    }
  }

  /** The last name repeats an earlier one exactly when the last field does. */
  lemma RepeatedName(fields: seq<Field>)
    requires fields != []
    ensures var names, n := FieldNames(fields), |fields|;
      names[n - 1] in names[..n - 1] <==> fields[n - 1] in fields[..n - 1]
  {
    var names, n := FieldNames(fields), |fields|;
    if fields[n - 1] in fields[..n - 1] {
      var p :| 0 <= p < n - 1 && fields[..n - 1][p] == fields[n - 1];
      assert names[..n - 1][p] == names[n - 1];
    }
    if names[n - 1] in names[..n - 1] {
      var p :| 0 <= p < n - 1 && names[..n - 1][p] == names[n - 1];
      assert FieldName(fields[p]) == FieldName(fields[n - 1]);
      assert fields[..n - 1][p] == fields[n - 1];
    }
  }

  /** Some reading of the store falls in the range. */
  predicate AnyInRange(rs: seq<Reading>, l1: Option<int>, l2: Option<int>)
  {
    exists i :: 0 <= i < |rs| && InRange(rs[i].timestamp, l1, l2)
  }

  /** Every statistic is NULL exactly when no reading matches; otherwise
      none is. */
  lemma StatsNullIffNoMatch(rs: seq<Reading>, l1: Option<int>, l2: Option<int>, fields: seq<Field>, j: nat)
    requires j < |fields|
    ensures var s := Stats(rs, l1, l2, fields)[j];
      (s.avg.None? <==> !AnyInRange(rs, l1, l2)) &&
      (s.max.None? <==> !AnyInRange(rs, l1, l2)) &&
      (s.min.None? <==> !AnyInRange(rs, l1, l2))
  {
    var sel := Selected(rs, l1, l2);
    if AnyInRange(rs, l1, l2) {
      var i :| 0 <= i < |rs| && InRange(rs[i].timestamp, l1, l2);
      assert rs[i] in sel;
    }
  }

  /** An inverted range (l1 > l2) matches nothing: every statistic is NULL. */
  lemma InvertedRangeAllNull(rs: seq<Reading>, a: int, b: int, fields: seq<Field>, j: nat)
    requires a > b && j < |fields|
    ensures Stats(rs, Some(a), Some(b), fields)[j] == FieldSummary(None, None, None)
  {
    StatsNullIffNoMatch(rs, Some(a), Some(b), fields, j);
  }

  /** Without both bounds the query has no WHERE clause and aggregates the
      whole store. */
  lemma {:induction false} UnboundedSelectsAll(rs: seq<Reading>, l1: Option<int>, l2: Option<int>)
    requires l1.None? || l2.None?
    ensures Selected(rs, l1, l2) == rs
  {
    if rs != [] {
      UnboundedSelectsAll(rs[..|rs| - 1], l1, l2);
    }
  }

  /** Over the rows that match, max bounds every value and is one of them,
      min likewise from below, and min <= avg <= max. */
  lemma StatsOfMatches(rs: seq<Reading>, l1: Option<int>, l2: Option<int>, fields: seq<Field>, j: nat)
    requires j < |fields| && AnyInRange(rs, l1, l2)
    ensures var s := Stats(rs, l1, l2, fields)[j];
      s.avg.Some? && s.max.Some? && s.min.Some? &&
      s.min.value <= s.avg.value <= s.max.value
    ensures var s := Stats(rs, l1, l2, fields)[j];
      forall i :: 0 <= i < |rs| && InRange(rs[i].timestamp, l1, l2) ==>
        s.min.value <= Value(rs[i], fields[j]) <= s.max.value
    ensures var s := Stats(rs, l1, l2, fields)[j];
      (exists i :: 0 <= i < |rs| && InRange(rs[i].timestamp, l1, l2) && Value(rs[i], fields[j]) == s.max.value) &&
      (exists i :: 0 <= i < |rs| && InRange(rs[i].timestamp, l1, l2) && Value(rs[i], fields[j]) == s.min.value)
  {
    StatsNullIffNoMatch(rs, l1, l2, fields, j);
    var sel := Selected(rs, l1, l2);
    var col := Column(sel, fields[j]);
    var s := Stats(rs, l1, l2, fields)[j];
    assert s == Summarize(col);
    MeanBetween(col);
    forall i | 0 <= i < |rs| && InRange(rs[i].timestamp, l1, l2)
      ensures s.min.value <= Value(rs[i], fields[j]) <= s.max.value
    {
      assert rs[i] in sel;
      var p :| 0 <= p < |sel| && sel[p] == rs[i];
      assert col[p] in col;
    }
    ColumnWitness(rs, l1, l2, fields[j], s.max.value);
    ColumnWitness(rs, l1, l2, fields[j], s.min.value);
  }

  /** A value of the filtered column comes from a matching reading. */
  lemma ColumnWitness(rs: seq<Reading>, l1: Option<int>, l2: Option<int>, f: Field, v: real)
    requires v in Column(Selected(rs, l1, l2), f)
    ensures exists i :: 0 <= i < |rs| && InRange(rs[i].timestamp, l1, l2) && Value(rs[i], f) == v
  {
    var sel := Selected(rs, l1, l2);
    var col := Column(sel, f);
    var p :| 0 <= p < |col| && col[p] == v;
    assert sel[p] in sel;
    var i :| 0 <= i < |rs| && rs[i] == sel[p];
  }

  /** The worked example: three readings, no range. */
  lemma StatsExample(t1: int, t2: int, t3: int)
    ensures var rs := [Reading(t1, 20.0, 50.0), Reading(t2, 22.0, 55.0), Reading(t3, 18.0, 60.0)];
      Stats(rs, None, None, [Temperature, Humidity]) ==
        [FieldSummary(Some(20.0), Some(22.0), Some(18.0)),
         FieldSummary(Some(55.0), Some(60.0), Some(50.0))]
  {
    var rs := [Reading(t1, 20.0, 50.0), Reading(t2, 22.0, 55.0), Reading(t3, 18.0, 60.0)];
    UnboundedSelectsAll(rs, None, None);
    ExampleColumns(t1, t2, t3);
    ExampleTemperature();
    ExampleHumidity();
    TwoFieldStats(rs, None, None);
  }

  /** The statistics of both default fields, as one summary per column of
      the selected rows. */
  lemma TwoFieldStats(rs: seq<Reading>, l1: Option<int>, l2: Option<int>)
    ensures var sel := Selected(rs, l1, l2);
      Stats(rs, l1, l2, [Temperature, Humidity]) ==
        [Summarize(Column(sel, Temperature)), Summarize(Column(sel, Humidity))]
  {
  }

  lemma ExampleColumns(t1: int, t2: int, t3: int)
    ensures var rs := [Reading(t1, 20.0, 50.0), Reading(t2, 22.0, 55.0), Reading(t3, 18.0, 60.0)];
      Column(rs, Temperature) == [20.0, 22.0, 18.0] && Column(rs, Humidity) == [50.0, 55.0, 60.0]
  {
  }

  lemma ExampleTemperature()
    ensures Summarize([20.0, 22.0, 18.0]) == FieldSummary(Some(20.0), Some(22.0), Some(18.0))
  {
    SummarizeThree(20.0, 22.0, 18.0);
  }

  lemma ExampleHumidity()
    ensures Summarize([50.0, 55.0, 60.0]) == FieldSummary(Some(55.0), Some(60.0), Some(50.0))
  {
    SummarizeThree(50.0, 55.0, 60.0);
  }

  /** The summary of a three-element column. */
  lemma SummarizeThree(a: real, b: real, c: real)
    ensures Summarize([a, b, c]).avg == Some((a + b + c) / 3.0)
    ensures Summarize([a, b, c]).max == MaxOf([a, b, c])
    ensures Summarize([a, b, c]).min == MinOf([a, b, c])
    ensures MaxOf([a, b, c]).value == if a >= b && a >= c then a else if b >= c then b else c
    ensures MinOf([a, b, c]).value == if a <= b && a <= c then a else if b <= c then b else c
  {
    var xs := [a, b, c];
    assert xs[..2] == [a, b] && xs[..2][..1] == [a] && xs[..2][..1][..0] == [];
    assert Sum([a]) == a by {
      assert [a][..0] == [];
    }
    assert Sum([a, b]) == a + b by {
      assert [a, b][..1] == [a];
    }
    assert Sum(xs) == a + b + c;
    assert xs[1..] == [b, c] && xs[1..][1..] == [c] && xs[1..][1..][1..] == [];
  }

  // ---------------------------------------------------------------------
  // Freshness: `SELECT MAX(timestamp) FROM reading`.

  /** The last update: NULL on an empty store, otherwise a stored timestamp
      that no stored timestamp exceeds. */
  function LastUpdate(rs: seq<Reading>): (t: Option<int>)
    ensures t.None? <==> rs == []
    ensures t.Some? ==> exists i :: 0 <= i < |rs| && rs[i].timestamp == t.value
    ensures t.Some? ==> forall i :: 0 <= i < |rs| ==> rs[i].timestamp <= t.value
  {
    if rs == [] then None
    else
      var init, last := rs[..|rs| - 1], rs[|rs| - 1].timestamp;
      match LastUpdate(init)
      case None => Some(last)
      case Some(m) => Some(if m < last then last else m)
  }

  /** In a sorted store the last update is the last reading's timestamp. */
  lemma LastUpdateOfSorted(rs: seq<Reading>)
    requires Sorted(rs) && rs != []
    ensures LastUpdate(rs) == Some(rs[|rs| - 1].timestamp)
  {
  }

  /** Appending a reading no older than any stored one makes its timestamp
      the last update; on an empty store that is the only reading. */
  lemma LastUpdateAfterAppend(rs: seq<Reading>, r: Reading)
    requires forall i :: 0 <= i < |rs| ==> rs[i].timestamp <= r.timestamp
    ensures LastUpdate(rs + [r]) == Some(r.timestamp)
  {
    assert (rs + [r])[..|rs|] == rs;
  }
}
