/** The dashboard's three callbacks: which views each input event
    refreshes, and with what query parameters. Dash hands every callback the
    current value of each of its inputs, whichever one fired. */
module Callbacks {
  import opened Store
  import opened Smoothing
  import opened Statistics

  datatype Result<T> = Ok(value: T) | Err(error: CallError)

  /** Why `update_table` produces no table.
      TooManyRangeElements: `get_statistics(*graph_range)` with more than
      two range elements. A third element binds `fields`: Plotly's range
      elements are date strings, so the loops build the select list from
      that string's characters, and the database rejects the query. A
      fourth element is one argument too many. Either way the call fails.
      QueryRejected: the database rejected the query text. */
  datatype CallError = TooManyRangeElements(count: nat) | QueryRejected

  /** The chart's `relayoutData`: `None` before any user interaction, then
      the last event's entries. Only the `xaxis.range` entry is read; other
      events (a box zoom's `xaxis.range[0]`/`xaxis.range[1]`, autosize,
      a reset) carry no such entry. */
  datatype RelayoutData = NoRelayout | Relayout(entries: map<string, seq<int>>)

  const RangeKey: string := "xaxis.range"

  /** The fields `get_statistics` summarises by default. */
  const DefaultFields: seq<Field> := [Temperature, Humidity]

  /** `update_table`'s lookup: `rlData['xaxis.range']`, with `[]` when the
      key is missing (KeyError) or there is no relayout data (TypeError). */
  function GraphRange(rl: RelayoutData): (range: seq<int>)
    ensures rl.NoRelayout? ==> range == []
    ensures rl.Relayout? && RangeKey !in rl.entries ==> range == []
    ensures rl.Relayout? && RangeKey in rl.entries ==> range == rl.entries[RangeKey]
  {
    match rl
    case NoRelayout => []
    case Relayout(entries) => if RangeKey in entries then entries[RangeKey] else []
  }

  /** Binding `get_statistics(*range)`: l1 and l2 default to None. */
  function BoundsOf(range: seq<int>): (b: Result<(Option<int>, Option<int>)>)
    ensures b.Err? <==> |range| > 2
    ensures b.Ok? ==> (b.value.0.Some? <==> |range| >= 1) && (b.value.1.Some? <==> |range| == 2)
    ensures b.Ok? && |range| >= 1 ==> b.value.0 == Some(range[0])
    ensures b.Ok? && |range| == 2 ==> b.value.1 == Some(range[1])
  {
    if |range| == 0 then Ok((None, None))
    else if |range| == 1 then Ok((Some(range[0]), None))
    else if |range| == 2 then Ok((Some(range[0]), Some(range[1])))
    else Err(TooManyRangeElements(|range|))
  }

  /** `update_table`: the statistics shown for the chart's current
      relayout data. The default fields are distinct, so the database never
      rejects the query; the call fails only on a range of more than two
      elements, and otherwise summarises both fields over the bounds the
      range supplies. */
  function StatsTable(rs: seq<Reading>, rl: RelayoutData): (t: Result<seq<FieldSummary>>)
    ensures t.Err? <==> |GraphRange(rl)| > 2
    ensures t.Err? ==> t.error == TooManyRangeElements(|GraphRange(rl)|)
    ensures t.Ok? ==> var b := BoundsOf(GraphRange(rl)).value;
      |t.value| == |DefaultFields| && t.value == Stats(rs, b.0, b.1, DefaultFields)
  {
    match BoundsOf(GraphRange(rl))
    case Err(e) => Err(e)
    case Ok((l1, l2)) =>
      match GetStatistics(rs, l1, l2, DefaultFields)
      case Table(rows) => Ok(rows)
      case Rejected => Err(QueryRejected)
  }

  /** With no relayout data, or none carrying `xaxis.range`, the table
      summarises the whole store. */
  lemma TableWithoutRange(rs: seq<Reading>, rl: RelayoutData)
    requires rl.NoRelayout? || RangeKey !in rl.entries
    ensures StatsTable(rs, rl) == Ok(Stats(rs, None, None, DefaultFields))
    ensures Selected(rs, None, None) == rs
  {
    UnboundedSelectsAll(rs, None, None);
  }

  /** A two-element `xaxis.range` entry [a, b] becomes the inclusive bounds of
      the statistics. */
  lemma TableWithRange(rs: seq<Reading>, rl: RelayoutData, a: int, b: int)
    requires rl.Relayout? && RangeKey in rl.entries && rl.entries[RangeKey] == [a, b]
    ensures StatsTable(rs, rl) == Ok(Stats(rs, Some(a), Some(b), DefaultFields))
    ensures forall r :: r in Selected(rs, Some(a), Some(b)) <==> r in rs && a <= r.timestamp <= b
  {
  }

  /** A one-element range leaves l2 unset, so the statistics are unbounded. */
  lemma TableWithOneBound(rs: seq<Reading>, rl: RelayoutData, a: int)
    requires rl.Relayout? && RangeKey in rl.entries && rl.entries[RangeKey] == [a]
    ensures StatsTable(rs, rl) == Ok(Stats(rs, Some(a), None, DefaultFields))
    ensures Selected(rs, Some(a), None) == rs
  {
    UnboundedSelectsAll(rs, Some(a), None);
  }

  // ---------------------------------------------------------------------
  // Trigger wiring, from the callback decorators.

  /** The component properties the callbacks listen to. */
  datatype Input = RelayoutInput | SliderInput | IntervalInput

  /** The outputs, one per callback. */
  datatype View = TableView | ChartView | LastUpdateView

  const AllViews: set<View> := {TableView, ChartView, LastUpdateView}

  /** The `Input`s of each callback decorator: the interval feeds all
      three, the relayout data only the table, the slider only the chart. */
  function CallbackInputs(v: View): (ins: set<Input>)
    ensures IntervalInput in ins
    ensures RelayoutInput in ins <==> v == TableView
    ensures SliderInput in ins <==> v == ChartView
  {
    match v
    case TableView => {RelayoutInput, IntervalInput}
    case ChartView => {SliderInput, IntervalInput}
    case LastUpdateView => {IntervalInput}
  }

  /** An event: the interval ticks, the slider moves, or the chart is
      zoomed, panned or reset. */
  datatype Trigger = Tick | SliderMoved(value: nat) | ChartRelayout(data: RelayoutData)

  function Source(t: Trigger): Input
  {
    match t
    case Tick => IntervalInput
    case SliderMoved(_) => SliderInput
    case ChartRelayout(_) => RelayoutInput
  }

  /** The views whose callback lists the trigger's input: the tick refreshes
      all three, the slider only the chart, a relayout only the table. */
  function Refreshed(t: Trigger): (vs: set<View>)
    ensures t.Tick? ==> vs == {TableView, ChartView, LastUpdateView}
    ensures t.SliderMoved? ==> vs == {ChartView}
    ensures t.ChartRelayout? ==> vs == {TableView}
  {
    set v | v in AllViews && Source(t) in CallbackInputs(v)
  }

  /** The current value of every callback input. */
  datatype Inputs = Inputs(slider: nat, relayout: RelayoutData, ticks: nat)

  /** The page as it loads: slider at 10, no relayout data, no ticks. */
  const InitialInputs: Inputs := Inputs(10, NoRelayout, 0)

  /** The input values after an event. */
  function Apply(inputs: Inputs, t: Trigger): Inputs
  {
    match t
    case Tick => inputs.(ticks := inputs.ticks + 1)
    case SliderMoved(k) => inputs.(slider := k)
    case ChartRelayout(rl) => inputs.(relayout := rl)
  }

  /** What one event produces: for each view, its new content if its
      callback ran. */
  datatype ViewUpdate = ViewUpdate(
    table: Option<Result<seq<FieldSummary>>>,
    chart: Option<seq<SmoothedRow>>,
    freshness: Option<Option<int>>)

  /** Runs the callbacks an event fires, each on the current input values. */
  function OnTrigger(rs: seq<Reading>, inputs: Inputs, t: Trigger): (u: ViewUpdate)
    ensures u.table.Some? <==> TableView in Refreshed(t)
    ensures u.chart.Some? <==> ChartView in Refreshed(t)
    ensures u.freshness.Some? <==> LastUpdateView in Refreshed(t)
    ensures u.table.Some? ==> u.table.value == StatsTable(rs, Apply(inputs, t).relayout)
    ensures u.chart.Some? ==> u.chart.value == SmoothSeries(rs, Apply(inputs, t).slider)
    ensures u.freshness.Some? ==> u.freshness.value == LastUpdate(rs)
  {
    var now := Apply(inputs, t);
    var vs := Refreshed(t);
    ViewUpdate(
      if TableView in vs then Some(StatsTable(rs, now.relayout)) else None,
      if ChartView in vs then Some(SmoothSeries(rs, now.slider)) else None,
      if LastUpdateView in vs then Some(LastUpdate(rs)) else None)
  }

  /** The input values after a sequence of events. */
  function Run(inputs: Inputs, ts: seq<Trigger>): Inputs
    decreases |ts|
  {
    if ts == [] then inputs else Run(Apply(inputs, ts[0]), ts[1..])
  }

  /** The most recent slider value in the events, or `k` if none moved it. */
  function LatestSlider(ts: seq<Trigger>, k: nat): nat
  {
    if ts == [] then k
    else LatestSlider(ts[1..], if ts[0].SliderMoved? then ts[0].value else k)
  }

  /** The most recent relayout data in the events, or `rl` if none. */
  function LatestRelayout(ts: seq<Trigger>, rl: RelayoutData): RelayoutData
  {
    if ts == [] then rl
    else LatestRelayout(ts[1..], if ts[0].ChartRelayout? then ts[0].data else rl)
  }

  /** After any sequence of events the inputs hold the latest slider value
      and the latest relayout data. */
  lemma {:induction false} RunKeepsLatest(inputs: Inputs, ts: seq<Trigger>)
    ensures Run(inputs, ts).slider == LatestSlider(ts, inputs.slider)
    ensures Run(inputs, ts).relayout == LatestRelayout(ts, inputs.relayout)
    decreases |ts|
  {
    if ts != [] {
      RunKeepsLatest(Apply(inputs, ts[0]), ts[1..]);
    }
  }

  /** Whatever happened before, the next chart refresh smooths with the
      latest slider value and the next table refresh uses the latest
      relayout data (its `xaxis.range` entry, if any). */
  lemma ViewsFollowLatestInputs(rs: seq<Reading>, inputs: Inputs, ts: seq<Trigger>)
    ensures var u := OnTrigger(rs, Run(inputs, ts), Tick);
      u.chart == Some(SmoothSeries(rs, LatestSlider(ts, inputs.slider))) &&
      u.table == Some(StatsTable(rs, LatestRelayout(ts, inputs.relayout))) &&
      u.freshness == Some(LastUpdate(rs))
  {
    RunKeepsLatest(inputs, ts);
  }

  /** The first tick after the page loads: the chart is smoothed with the
      slider's initial value 10 and the table covers the whole store. */
  lemma FirstTick(rs: seq<Reading>)
    ensures OnTrigger(rs, InitialInputs, Tick) ==
      ViewUpdate(Some(Ok(Stats(rs, None, None, DefaultFields))), Some(SmoothSeries(rs, 10)), Some(LastUpdate(rs)))
    ensures Selected(rs, None, None) == rs
  {
    UnboundedSelectsAll(rs, None, None);
  }

  /** Two slider moves: the chart shows the second value's smoothing. */
  lemma SecondSliderMoveWins(rs: seq<Reading>, inputs: Inputs, k1: nat, k2: nat)
    ensures OnTrigger(rs, Apply(inputs, SliderMoved(k1)), SliderMoved(k2)).chart ==
      Some(SmoothSeries(rs, k2))
  {
  }
}
