/** The SQL text that `get_statistics` assembles: a select list of
    `round(<stat>(<field>),1) as <stat>_<field>` items, field by field with
    the aggregates in the order avg, max, min, separated by ",\n"; then
    "\nFROM reading"; then a BETWEEN filter bound to [l1, l2] only when both
    bounds are given. */
module StatisticsQuery {
  import opened Store

  /** The aggregates, in the order the inner loop visits them. */
  const Stats: seq<string> := ["avg", "max", "min"]

  const Separator: string := ",\n"
  const Header: string := "SELECT\n"
  const FromClause: string := "\nFROM reading"
  const WhereClause: string := "\nWHERE (timestamp BETWEEN ? AND ?);"

  /** One select-list item. */
  function Item(s: string, f: string): string
  {
    "round(" + s + "(" + f + "),1) as " + s + "_" + f
  }

  predicate StartsWith(s: string, prefix: string)
  {
    |prefix| <= |s| && s[..|prefix|] == prefix
  }

  predicate EndsWith(s: string, suffix: string)
  {
    |suffix| <= |s| && s[|s| - |suffix|..] == suffix
  }

  predicate Distinct(xs: seq<string>)
  {
    forall i, j :: 0 <= i < j < |xs| ==> xs[i] != xs[j]
  }

  /** Python's `list.index`: the position of the first occurrence. */
  function IndexOf(xs: seq<string>, x: string): (i: nat)
    requires x in xs
    ensures i < |xs| && xs[i] == x
    ensures forall j :: 0 <= j < i ==> xs[j] != x
  {
    if xs[0] == x then 0 else 1 + IndexOf(xs[1..], x)
  }

  // ---------------------------------------------------------------------
  // The text as the nested loops write it.

  /** The text after the inner loop, started on `prefix`, has visited the
      first m aggregates of field f: each item is followed by ",\n" unless
      `stat.index(s)` is the last index. */
  function AfterStats(prefix: string, f: string, m: nat): string
    requires m <= |Stats|
  {
    if m == 0 then prefix
    else
      var s := Stats[m - 1];
      var q := AfterStats(prefix, f, m - 1) + Item(s, f);
      if IndexOf(Stats, s) != |Stats| - 1 then q + Separator else q
  }

  /** The text after the outer loop has visited the first n fields: each
      field's items are followed by ",\n" unless `fields.index(f)` is the
      last index. */
  function AfterFields(fields: seq<string>, n: nat): string
    requires n <= |fields|
  {
    if n == 0 then Header
    else
      var f := fields[n - 1];
      var q := AfterStats(AfterFields(fields, n - 1), f, |Stats|);
      if IndexOf(fields, f) != |fields| - 1 then q + Separator else q
  }

  function QueryTail(l1: Option<int>, l2: Option<int>): string
  {
    if l1.Some? && l2.Some? then WhereClause else ";"
  }

  /** The query text as `get_statistics` writes it. */
  function QueryText(l1: Option<int>, l2: Option<int>, fields: seq<string>): string
  {
    var q := AfterFields(fields, |fields|) + FromClause;
    if l1.Some? && l2.Some? then q + WhereClause else q + ";"
  }

  // ---------------------------------------------------------------------
  // The intended select list: the items, field-major, joined.

  /** The items joined by sep, with a separator between neighbours only. */
  function Join(items: seq<string>, sep: string): string
  {
    if |items| == 0 then ""
    else if |items| == 1 then items[0]
    else Join(items[..|items| - 1], sep) + sep + items[|items| - 1]
  }

  /** The select-list items: three per field, field-major, aggregates in
      the order avg, max, min. */
  function SelectItems(fields: seq<string>): (items: seq<string>)
    ensures |items| == |Stats| * |fields|
    ensures forall p :: 0 <= p < |items| ==> items[p] == Item(Stats[p % 3], fields[p / 3])
  {
    if fields == [] then []
    else
      var f := fields[|fields| - 1];
      var items := SelectItems(fields[..|fields| - 1]) + [Item("avg", f), Item("max", f), Item("min", f)];
      assert forall p :: 3 * (|fields| - 1) <= p < |items| ==> p / 3 == |fields| - 1;
      items
  }

  /** Sum of the lengths of the items. */
  function TotalLength(items: seq<string>): nat
  {
    if items == [] then 0 else TotalLength(items[..|items| - 1]) + |items[|items| - 1]|
  }

  /** `get_statistics` up to the database call: the query text, built by
      nested loops with `+=`, and its parameter list. */
  method BuildQuery(l1: Option<int>, l2: Option<int>, fields: seq<string>)
    returns (query: string, params: seq<int>)
    ensures query == QueryText(l1, l2, fields)
    ensures Distinct(fields) ==>
      query == Header + Join(SelectItems(fields), Separator) + FromClause + QueryTail(l1, l2)
    ensures StartsWith(query, Header) && EndsWith(query, ";")
    ensures EndsWith(query, WhereClause) <==> l1.Some? && l2.Some?
    ensures params == if l1.Some? && l2.Some? then [l1.value, l2.value] else []
  {
    query := Header;
    for j := 0 to |fields|
      invariant query == AfterFields(fields, j)
    {
      var f := fields[j];
      query := AppendFieldItems(query, f);
      if IndexOf(fields, f) != |fields| - 1 {
        query := query + Separator;
      }
    }
    query := query + FromClause;
    params := [];
    if l1.Some? && l2.Some? {
      query := query + WhereClause;
      params := [l1.value, l2.value];
    } else {
      query := query + ";";
    }
    QueryTextShape(l1, l2, fields);
  }

  /** The inner loop of `get_statistics`: appends the items of field f,
      one per aggregate, each followed by ",\n" unless `stat.index(s)` is
      the last index. */
  method AppendFieldItems(prefix: string, f: string) returns (query: string)
    ensures query == AfterStats(prefix, f, |Stats|)
    ensures query == prefix + Join([Item("avg", f), Item("max", f), Item("min", f)], Separator)
  {
    query := prefix;
    for m := 0 to |Stats|
      invariant query == AfterStats(prefix, f, m)
    {
      var s := Stats[m];
      query := query + Item(s, f);
      if IndexOf(Stats, s) != |Stats| - 1 {
        query := query + Separator;
      }
    }
    AfterStatsJoined(prefix, f);
  }

  /** The query starts with "SELECT\n", ends with ";", carries the WHERE
      clause exactly when both bounds are given, and, for distinct fields,
      holds the joined select-list items between "SELECT\n" and
      "\nFROM reading". */
  lemma QueryTextShape(l1: Option<int>, l2: Option<int>, fields: seq<string>)
    ensures var q := QueryText(l1, l2, fields);
      StartsWith(q, Header) && EndsWith(q, ";") &&
      (EndsWith(q, WhereClause) <==> l1.Some? && l2.Some?)
    ensures Distinct(fields) ==>
      QueryText(l1, l2, fields) == Header + Join(SelectItems(fields), Separator) + FromClause + QueryTail(l1, l2)
  {
    var select := AfterFields(fields, |fields|);
    var front := select + FromClause;
    assert front[|front| - |FromClause|..] == FromClause;
    QueryEnds(front, l1, l2);
    assert QueryText(l1, l2, fields) == front + QueryTail(l1, l2);
    AfterFieldsExtends(fields, |fields|);
    assert QueryText(l1, l2, fields)[..|Header|] == select[..|Header|];
    if Distinct(fields) {
      DistinctSelectList(fields);
    }
  }

  /** The text after the select list ends with the WHERE clause exactly
      when both bounds are given, and always ends with ";". */
  lemma QueryEnds(front: string, l1: Option<int>, l2: Option<int>)
    requires EndsWith(front, FromClause)
    ensures EndsWith(front + QueryTail(l1, l2), ";")
    ensures EndsWith(front + QueryTail(l1, l2), WhereClause) <==> l1.Some? && l2.Some?
  {
    var q := front + QueryTail(l1, l2);
    if !(l1.Some? && l2.Some?) {
      // q ends with "g;" and the WHERE clause with ");".
      assert front[|front| - |FromClause|..][|FromClause| - 1] == 'g';
      assert q[|q| - 2] == 'g';
      assert WhereClause[|WhereClause| - 2] == ')';
      if |WhereClause| <= |q| {
        assert q[|q| - |WhereClause|..][|WhereClause| - 2] == 'g';
      }
    }
  }

  // ---------------------------------------------------------------------
  // Properties of the select list.

  /** The loops only ever append: the header stays in front. */
  lemma {:induction false} AfterStatsExtends(prefix: string, f: string, m: nat)
    requires m <= |Stats|
    ensures prefix <= AfterStats(prefix, f, m)
  {
    if m > 0 {
      AfterStatsExtends(prefix, f, m - 1);
    }
  }

  lemma {:induction false} AfterFieldsExtends(fields: seq<string>, n: nat)
    requires n <= |fields|
    ensures Header <= AfterFields(fields, n)
  {
    if n > 0 {
      AfterFieldsExtends(fields, n - 1);
      var f := fields[n - 1];
      AfterStatsExtends(AfterFields(fields, n - 1), f, |Stats|);
    }
  }

  /** Every aggregate name is the first occurrence of itself. */
  lemma StatsIndex(m: nat)
    requires m < |Stats|
    ensures IndexOf(Stats, Stats[m]) == m
  {
  }

  /** One pass of the inner loop. */
  lemma AfterStatsStep(prefix: string, f: string, m: nat)
    requires m < |Stats|
    ensures AfterStats(prefix, f, m + 1) ==
      AfterStats(prefix, f, m) + Item(Stats[m], f) + (if m < |Stats| - 1 then Separator else "")
  {
    StatsIndex(m);
  }

  /** The inner loop appends the three items of f joined, with no separator
      after the last. */
  lemma AfterStatsJoined(prefix: string, f: string)
    ensures AfterStats(prefix, f, |Stats|) ==
      prefix + Join([Item("avg", f), Item("max", f), Item("min", f)], Separator)
  {
    AfterStatsStep(prefix, f, 0);
    AfterStatsStep(prefix, f, 1);
    AfterStatsStep(prefix, f, 2);
    JoinThree(prefix, Item("avg", f), Item("max", f), Item("min", f), Separator);
  }

  lemma JoinThree(p: string, a: string, b: string, c: string, sep: string)
    ensures p + Join([a, b, c], sep) == p + a + sep + b + sep + c
  {
    assert [a, b, c][..2] == [a, b];
    assert [a, b][..1] == [a];
    assert Join([a, b], sep) == a + sep + b;
    assert Join([a, b, c], sep) == a + sep + b + sep + c;
  }

  /** Regrouping a concatenation. */
  lemma Regroup(h: string, j: string, s: string, t: string, e: string)
    ensures h + j + s + t + e == h + (j + s + t) + e
  {
  }

  /** Joining two non-empty lists puts one separator between the halves. */
  lemma {:induction false} JoinAppend(xs: seq<string>, ys: seq<string>, sep: string)
    requires xs != [] && ys != []
    ensures Join(xs + ys, sep) == Join(xs, sep) + sep + Join(ys, sep)
  {
    if |ys| == 1 {
      assert (xs + ys)[..|xs + ys| - 1] == xs;
    } else {
      var ys' := ys[..|ys| - 1];
      assert (xs + ys)[..|xs + ys| - 1] == xs + ys';
      JoinAppend(xs, ys', sep);
    }
  }

  /** With distinct field names the first occurrence of each field is its
      own position. */
  lemma DistinctIndex(fields: seq<string>, j: nat)
    requires Distinct(fields) && j < |fields|
    ensures IndexOf(fields, fields[j]) == j
  {
  }

  /** With distinct field names, the first n outer iterations have written
      the header and the first 3n items joined, plus a separator unless
      field n is the last. */
  lemma {:induction false} AfterFieldsPrefix(fields: seq<string>, n: nat)
    requires Distinct(fields) && 0 < n <= |fields|
    ensures AfterFields(fields, n) ==
      Header + Join(SelectItems(fields[..n]), Separator) + (if n < |fields| then Separator else "")
  {
    var f := fields[n - 1];
    var three := [Item("avg", f), Item("max", f), Item("min", f)];
    var before := AfterFields(fields, n - 1);
    var e: string := if n < |fields| then Separator else "";
    DistinctIndex(fields, n - 1);
    AfterStatsJoined(before, f);
    assert AfterFields(fields, n) == before + Join(three, Separator) + e;
    SelectItemsPrefix(fields, n);
    if n == 1 {
      assert SelectItems(fields[..0]) == [];
      assert SelectItems(fields[..n]) == three;
    } else {
      AfterFieldsPrefix(fields, n - 1);
      JoinAppend(SelectItems(fields[..n - 1]), three, Separator);
      Regroup(Header, Join(SelectItems(fields[..n - 1]), Separator), Separator, Join(three, Separator), e);
    }
  }

  /** The items of the first n fields extend those of the first n-1 by
      the three items of field n-1. */
  lemma SelectItemsPrefix(fields: seq<string>, n: nat)
    requires 0 < n <= |fields|
    ensures var f := fields[n - 1];
      SelectItems(fields[..n]) == SelectItems(fields[..n - 1]) + [Item("avg", f), Item("max", f), Item("min", f)]
  {
    var g := fields[..n];
    assert g[..|g| - 1] == fields[..n - 1];
    assert g[|g| - 1] == fields[n - 1];
  }

  /** With distinct field names the loops write exactly the header and the
      joined items: 3·|fields| items, field-major, no trailing separator. */
  lemma DistinctSelectList(fields: seq<string>)
    requires Distinct(fields)
    ensures AfterFields(fields, |fields|) == Header + Join(SelectItems(fields), Separator)
  {
    if |fields| > 0 {
      AfterFieldsPrefix(fields, |fields|);
      assert fields[..|fields|] == fields;
    }
  }

  /** One pass of the outer loop appends the field's three items joined,
      then ",\n" unless `fields.index(f)` is the last index. */
  lemma AfterFieldsStep(fields: seq<string>, n: nat)
    requires 0 < n <= |fields|
    ensures var f := fields[n - 1];
      AfterFields(fields, n) ==
        AfterFields(fields, n - 1) + Join([Item("avg", f), Item("max", f), Item("min", f)], Separator) +
        (if IndexOf(fields, f) != |fields| - 1 then Separator else "")
  {
    AfterStatsJoined(AfterFields(fields, n - 1), fields[n - 1]);
  }

  /** As written, the separator after the last field's items is emitted
      exactly when that field name also occurs earlier in the list, since
      `fields.index(f)` finds the earlier occurrence. */
  lemma TrailingSeparator(fields: seq<string>)
    requires fields != []
    ensures var last := fields[|fields| - 1];
      AfterFields(fields, |fields|) ==
        AfterFields(fields, |fields| - 1) + Join([Item("avg", last), Item("max", last), Item("min", last)], Separator) +
        (if last in fields[..|fields| - 1] then Separator else "")
  {
    var n := |fields|;
    var last := fields[n - 1];
    AfterFieldsStep(fields, n);
    LastIndex(fields);
  }

  /** The select list the loops wrote is not valid SQL: it holds no item
      at all, or it ends with a dangling ",\n" right before
      "\nFROM reading". The database rejects either query. */
  predicate MalformedSelect(fields: seq<string>)
  {
    var select := AfterFields(fields, |fields|);
    select == Header || EndsWith(select, Separator)
  }

  /** As written, the select list is malformed exactly when there is no
      field or the last field name also occurs earlier in the list. */
  lemma MalformedIffEmptyOrRepeatedLast(fields: seq<string>)
    requires forall i :: 0 <= i < |fields| ==> '\n' !in fields[i]
    ensures MalformedSelect(fields) <==> fields == [] || fields[|fields| - 1] in fields[..|fields| - 1]
  {
    var n := |fields|;
    if n > 0 {
      var last := fields[n - 1];
      var three := [Item("avg", last), Item("max", last), Item("min", last)];
      var j := Join(three, Separator);
      var a := AfterFields(fields, n - 1) + j;
      var e: string := if last in fields[..n - 1] then Separator else "";
      TrailingSeparator(fields);
      assert AfterFields(fields, n) == a + e;
      AfterFieldsExtends(fields, n - 1);
      JoinEndsWithLast(three, Separator);
      ItemEnd("min", last);
      assert j[|j| - 1] != '\n' by {
        var item := Item("min", last);
        assert j[|j| - |item|..][|item| - 1] == item[|item| - 1];
      }
      assert a[|a| - 1] == j[|j| - 1];
      assert Separator[|Separator| - 1] == '\n';
      DanglingSeparator(a, e, Separator, Header);
    }
  }

  /** A text that is longer than the header and does not end with the
      separator's last character becomes "the header or ending with the
      separator" exactly when the separator is appended. */
  lemma DanglingSeparator(a: string, e: string, sep: string, header: string)
    requires sep != [] && (e == sep || e == [])
    requires |a| > |header| && a[|a| - 1] != sep[|sep| - 1]
    ensures (a + e == header || EndsWith(a + e, sep)) <==> e == sep
  {
    var s := a + e;
    if e == sep {
      assert s[|s| - |sep|..] == sep;
    } else {
      assert s == a;
      if |sep| <= |s| {
        assert s[|s| - |sep|..][|sep| - 1] == a[|a| - 1];
      }
    }
  }

  /** A select-list item is never empty and, for a field name without a
      line break, never ends with one. */
  lemma ItemEnd(s: string, f: string)
    requires '\n' !in f
    ensures var item := Item(s, f); |item| > 0 && item[|item| - 1] != '\n'
  {
    var item := Item(s, f);
    var front := "round(" + s + "(" + f + "),1) as " + s + "_";
    assert item == front + f;
    if f == [] {
      assert item[|item| - 1] == '_';
    } else {
      assert item[|item| - 1] == f[|f| - 1];
      assert f[|f| - 1] in f;
    }
  }

  /** The first occurrence of the last field is an earlier position exactly
      when the field also occurs earlier. */
  lemma LastIndex(fields: seq<string>)
    requires fields != []
    ensures var last := fields[|fields| - 1];
      IndexOf(fields, last) != |fields| - 1 <==> last in fields[..|fields| - 1]
  {
    var n := |fields|;
    var last := fields[n - 1];
    if last in fields[..n - 1] {
      var p :| 0 <= p < n - 1 && fields[..n - 1][p] == last;
      assert fields[p] == last;
    }
  }

  /** A joined list has exactly one separator fewer than it has items. */
  lemma {:induction false} JoinLength(items: seq<string>, sep: string)
    requires items != []
    ensures |Join(items, sep)| == TotalLength(items) + (|items| - 1) * |sep|
  {
    if |items| > 1 {
      JoinLength(items[..|items| - 1], sep);
    } else {
      assert items[..0] == [];
    }
  }

  /** A joined non-empty list ends with its last item, not a separator. */
  lemma {:induction false} JoinEndsWithLast(items: seq<string>, sep: string)
    requires items != []
    ensures EndsWith(Join(items, sep), items[|items| - 1])
  {
    var j := Join(items, sep);
    var last := items[|items| - 1];
    if |items| > 1 {
      assert j == (Join(items[..|items| - 1], sep) + sep) + last;
    }
    assert j[|j| - |last|..] == last;
  }
}
