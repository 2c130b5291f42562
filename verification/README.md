# Temperature/humidity dashboard: verified model of its data queries

The dashboard (`provaDash.py`) reads a SQLite table `reading` of
timestamped temperature and humidity samples and shows three views:

- a chart of both series smoothed by a centred moving average whose
  half-width `k` comes from a slider (`get_data`);
- a table of average, maximum and minimum per field over the range held
  in the `xaxis.range` entry of the chart's latest relayout data, or over
  the whole store when there is no such entry (`get_statistics`, called
  from `update_table`);
- a label with the time of the most recent reading (`get_last_update`).

An interval timer refreshes all three views. Moving the slider refreshes the
chart. A relayout event on the chart (zoom, pan, autosize, reset) refreshes
the table.

This project models these pieces in Dafny:

- The SQL sent to the database is modelled by its standard meaning over a
  sequence of readings in timestamp order.
- The window frame `ROWS BETWEEN k PRECEDING AND k FOLLOWING` follows
  section 7.11 of ISO/IEC 9075-2. The frame of row i is clipped at both ends
  of the series.
- `BETWEEN` follows section 8.3 of ISO/IEC 9075-2 and is inclusive at both
  ends. The filter keeps every matching row, duplicates included.
- `avg`, `max` and `min` are NULL over no rows, per section 10.9 of
  ISO/IEC 9075-2. NULL is modelled as `None`.

The loops that assemble the statistics query string are modelled as loops.
Timestamps are `int`. Temperatures and humidities are `real`, used as exact
stand-ins for the floats.

Files and modules:

- `readings.dfy` (`Store`): readings, columns, and the arithmetic behind
  `avg`/`max`/`min`.
- `smoothing.dfy` (`Smoothing`): the windowed average `Smooth` and the rows
  of `get_data`. It also holds a single-pass running-sum method,
  `SmoothRunning`, proved equal to `Smooth`.
- `statistics_query.dfy` (`StatisticsQuery`): the query text of
  `get_statistics`, built as the source builds it, and its properties.
- `statistics.dfy` (`Statistics`): the meaning of the statistics query and
  of `MAX(timestamp)`.
- `callbacks.dfy` (`Callbacks`): `update_table`'s range extraction and the
  wiring from inputs to the three callbacks.

Modelling choices that follow the code:

- The code has no cancellation and no limit on computations in flight.
  Dash calls each callback with the current value of each of its inputs,
  and the model does the same.
- `k` comes from a slider bounded to 0..100, so the model takes `k: nat`.
- `fields` is a list, and separators are placed by `fields.index(f)`. The
  model keeps a sequence. It proves that an empty list, or a last name that
  also occurs earlier, leaves a malformed select list that the database
  rejects. `GetStatistics` returns `Rejected` in exactly those cases.

## Model

| member | source | states |
|---|---|---|
| Smoothing.Smooth | provaDash.py:24-32 | one windowed average per input value: the result has exactly as many rows as the series |
| Smoothing.SmoothAt | provaDash.py:24-29 | the value at i is the sum over rows max(0,i-k)..min(N-1,i+k) divided by the frame width min(i,k)+min(N-1-i,k)+1: clipped, not padded |
| Smoothing.SmoothInterior | provaDash.py:24-29 | when k <= i <= N-1-k the frame is the full 2k+1 rows centred on i |
| Smoothing.SmoothIdentity | provaDash.py:24-32 | with k = 0 every smoothed value equals the raw value |
| Smoothing.SmoothWholeSeries | provaDash.py:24-32 | with k >= N-1 every position gets the mean of the whole series |
| Smoothing.SmoothWithinRange | provaDash.py:24-29 | every smoothed value lies between the series' minimum and maximum |
| Smoothing.SmoothConstant | provaDash.py:24-29 | a constant series is left unchanged whatever k is |
| Smoothing.SmoothSeries | provaDash.py:21-32 | one row per reading, in store order, carrying the reading's timestamp, temperature and humidity unchanged |
| Smoothing.SmoothSeriesAt | provaDash.py:24-30 | the wtemperature and whumidity of row i are the windowed averages of the two columns at i |
| Smoothing.SmoothSeriesSorted | provaDash.py:31 | rows come out in ascending timestamp order when the store is sorted |
| Smoothing.SmoothRunning | provaDash.py:24-32 | the single-pass running-sum algorithm returns exactly Smooth(values, k) |
| Store.MaxOf | provaDash.py:58 | `max` is NULL exactly on no rows; otherwise it is one of the values and no value exceeds it |
| Store.MinOf | provaDash.py:58 | `min` is NULL exactly on no rows; otherwise it is one of the values and exceeds none |
| Store.MeanBetween | provaDash.py:58 | over a non-empty column, min <= avg <= max |
| StatisticsQuery.IndexOf | provaDash.py:59-61 | `list.index` returns the first position holding the element |
| StatisticsQuery.SelectItems | provaDash.py:55-58 | the select list has 3·\|fields\| items, field-major, with the aggregates in the order avg, max, min |
| StatisticsQuery.AppendFieldItems | provaDash.py:57-60 | the inner loop appends the field's three items, avg, max, min, joined by ",\n", with no separator after the last |
| StatisticsQuery.BuildQuery | provaDash.py:54-70 | the nested loops write the header, the items and the tail. For distinct fields this is "SELECT\n", the items joined by ",\n", "\nFROM reading", then the tail. The query ends with ";". The WHERE clause is present, and params is [l1, l2], exactly when both bounds are given; otherwise params is empty |
| StatisticsQuery.QueryTextShape | provaDash.py:54-70 | the built text starts with "SELECT\n" and ends with ";". It ends with the BETWEEN clause iff both bounds are given. For distinct fields it holds the joined items between the header and "\nFROM reading" |
| StatisticsQuery.QueryEnds | provaDash.py:64-70 | after "\nFROM reading" the text ends with ";", and with the WHERE clause iff l1 and l2 are both non-None |
| StatisticsQuery.AfterStatsJoined | provaDash.py:57-60 | the inner loop appends the field's three items joined by ",\n", with no separator after the last |
| StatisticsQuery.AfterFieldsStep | provaDash.py:56-62 | one outer pass appends the field's joined items, then ",\n" unless `fields.index(f)` is the last index |
| StatisticsQuery.AfterFieldsPrefix | provaDash.py:56-62 | for distinct fields, after n passes the text is the header, the first 3n items joined, and a separator iff more fields follow |
| StatisticsQuery.DistinctSelectList | provaDash.py:54-62 | for distinct fields the loops write exactly the header and the joined items: no trailing separator |
| StatisticsQuery.TrailingSeparator | provaDash.py:61-62 | as written, a ",\n" follows the last field's items exactly when that field name also occurs earlier in the list |
| StatisticsQuery.MalformedIffEmptyOrRepeatedLast | provaDash.py:54-64 | for field names without a line break, the select list before "\nFROM reading" is empty or ends with a dangling ",\n" exactly when there is no field or the last name also occurs earlier |
| StatisticsQuery.LastIndex | provaDash.py:61 | `fields.index` of the last field is not the last index iff that name occurs earlier |
| StatisticsQuery.JoinAppend | provaDash.py:59-62 | joining two non-empty item lists puts exactly one separator between the halves |
| StatisticsQuery.JoinLength | provaDash.py:59-62 | a joined list of n items holds exactly n-1 separators |
| StatisticsQuery.JoinEndsWithLast | provaDash.py:59-62 | a joined list ends with its last item, never with a separator |
| Statistics.Selected | provaDash.py:66-67 | a reading is aggregated iff it is in the store and l1 <= timestamp <= l2; every reading when a bound is missing |
| Statistics.SelectedMultiplicity | provaDash.py:66-67 | the filter keeps each matching reading as many times as the store holds it, and no other reading |
| Statistics.Summarize | provaDash.py:58 | the three aggregates of one column: avg is NULL exactly on no rows; max and min are the column's; otherwise min <= avg <= max |
| Statistics.Stats | provaDash.py:54-71 | the row of a query the database accepts holds one summary per requested field |
| Statistics.GetStatistics | provaDash.py:47-71 | the database rejects the query exactly when `fields` is empty or its last name also occurs earlier; otherwise the result is the summary row |
| Statistics.MalformedNames | provaDash.py:47-62 | for the column names `temperature` and `humidity`, the written select list is malformed exactly when there is no field or the last one repeats |
| Statistics.StatsNullIffNoMatch | provaDash.py:58-67 | avg, max and min are each NULL exactly when no reading falls in the range |
| Statistics.InvertedRangeAllNull | provaDash.py:66-67 | with l1 > l2 every statistic is NULL |
| Statistics.UnboundedSelectsAll | provaDash.py:65-70 | without both bounds the statistics cover the whole store |
| Statistics.StatsOfMatches | provaDash.py:58 | when readings match, min <= avg <= max; min and max bound every matching reading and each is attained by one |
| Statistics.StatsExample | provaDash.py:54-70 | over readings (20,50), (22,55), (18,60) with no range: temperature avg 20, max 22, min 18; humidity avg 55, max 60, min 50 |
| Statistics.LastUpdate | provaDash.py:42-44 | `MAX(timestamp)` is NULL on an empty store; otherwise it is a stored timestamp no stored timestamp exceeds |
| Statistics.LastUpdateOfSorted | provaDash.py:42-44 | in a sorted store the last update is the last reading's timestamp |
| Statistics.LastUpdateAfterAppend | provaDash.py:42-44 | after appending a reading no older than any stored one, the last update is its timestamp; on an empty store, that reading's |
| Callbacks.GraphRange | provaDash.py:197-202 | `rlData['xaxis.range']`, falling back to the empty range on a missing key or a None payload |
| Callbacks.BoundsOf | provaDash.py:47 | spreading the range into `get_statistics`: 0, 1 or 2 elements bind l1 and l2 in order, the rest default to None; more than two is an error |
| Callbacks.StatsTable | provaDash.py:197-205 | `update_table` fails only on a range of more than two elements; otherwise it summarises both default fields over the bounds the range supplies |
| Callbacks.TableWithoutRange | provaDash.py:197-205 | with no relayout data, or relayout data without an `xaxis.range` entry (a box zoom's `xaxis.range[0]`, autosize, reset), the table covers the whole store |
| Callbacks.TableWithRange | provaDash.py:197-205 | a two-element range [a, b] becomes the inclusive bounds: exactly the readings with a <= timestamp <= b are summarised |
| Callbacks.TableWithOneBound | provaDash.py:78 | a one-element range leaves l2 None, so the table covers the whole store |
| Callbacks.CallbackInputs | provaDash.py:192-222 | the interval is an input of all three callbacks; relayoutData only of the table's; the slider only of the chart's |
| Callbacks.Refreshed | provaDash.py:192-224 | the interval tick refreshes table, chart and label; the slider only the chart; relayoutData only the table |
| Callbacks.OnTrigger | provaDash.py:192-224 | an event runs exactly the callbacks that list its input, each on the current input values |
| Callbacks.RunKeepsLatest | provaDash.py:192-224 | after any sequence of events the inputs hold the latest slider value and the latest relayout data |
| Callbacks.ViewsFollowLatestInputs | provaDash.py:192-224 | the next tick smooths with the latest slider value and summarises over the latest relayout data's `xaxis.range` entry |
| Callbacks.FirstTick | provaDash.py:152 | the first tick after page load smooths with the slider's initial value 10 and summarises the whole store |
| Callbacks.SecondSliderMoveWins | provaDash.py:208-217 | after two slider moves the chart is smoothed with the second value |

## Left out

- Database access is left out: sqlite3 connections, `pd.read_sql_query`, and timestamp decoding with `PARSE_DECLTYPES` (provaDash.py:15-19, 32, 36-43, 48-52, 71). These are I/O. The results are modelled by the standard meaning of the SQL.
- `round(…, 1)` and float arithmetic are left out. Averages are exact `real` division, and the running sum is exact too.
- Timestamps are `int`. In the source they are stored timestamps, compared with the date strings Plotly sends. How SQLite compares those values is not modelled.
- Readings with equal timestamps are kept in store order. `ORDER BY timestamp` leaves their order unspecified.
- Plotly figures, the Dash layout, the slider and card widgets, and the table rendering in `create_stats_table` (provaDash.py:77-186) are left out. They are presentation. The model keeps only the argument spread `get_statistics(*graph_range)` (line 78).
- The in-place update of the global `fig1` in `update_smoothing` (provaDash.py:213-217) is left out. The chart view is the fresh row sequence from `get_data`.
- The 30-second interval timer and Dash's callback scheduling are left out. So is any cancellation or last-trigger-wins behaviour, which the source does not implement. Events are modelled as a sequence applied one at a time.
- `app.run` and the calls made at start-up (provaDash.py:46, 112, 139, 170) are left out.
- Callbacks.BoundsOf: a range of more than two elements is reported as an error without modelling how the call fails. A third element binds `fields`. Plotly's range elements are date strings, so the loops build the select list from that string's characters, the query is sent, and the database rejects it. A fourth element is one argument too many. Plotly never sends such a range.
- Slider values are `nat` without the upper bound of 100. No property depends on that bound.
