# GA4 executive dashboard — reporting arithmetic

A Dafny model of the reporting arithmetic inside the dashboard script
`app.py` of ga4-auto-reporter: a Streamlit page that picks a registered site,
requests traffic totals for two adjacent 30-day periods and a detail
breakdown from the GA4 Data API, and shows four KPI cards, three bar charts
and a top-pages chart. Everything around that arithmetic (widgets, Google
clients, the generative summary) is I/O and is not modelled.

The model is pure, as the script is: datatypes and functions over sequences,
with lemmas.

- `Duration` — `format_duration`: "0秒" for zero, otherwise the floor of the
  minutes, "分", the remainder of seconds rounded with Python's `round`
  (ties to even), and "秒". Seconds are real numbers because the script
  passes the float values of the report. A parser (`ParseDuration`) reads a
  label back; every label reads back within half a second of its input, and
  a whole number of seconds reads back exactly, so distinct whole durations
  never share a label. For fractional input the formatter can print
  "0分0秒" (0 < s ≤ 0.5) and "0分60秒" (a remainder such as 59.6 that rounds
  up to 60); `FractionalSecondsExamples` states both. A negative delta is
  printed with negative minutes and non-negative seconds ("-1分30秒" for
  -30 s), exactly as the script does.
- `Kpi` — the current period is the totals report's first row and the
  previous period its second, each replaced by `[0, 0, 0, 0]` when missing;
  count cards show `int()` (truncation toward zero) of the current value and
  of the signed difference, never clamped; the duration card formats index
  3 and the conversions card reads index 2.
- `Breakdown` — `groupby(key)["ユーザー数"].sum()` as a fold that keeps the
  groups in ascending key order (Python string order, code point by code
  point); `nlargest(5)` as a stable sort by descending value followed by the
  first five; `sort_index()` as a sort by key; the top-pages list as the
  first five rows of the report, which was requested in descending views.
- `Window` — dates are day numbers. The current period runs from the
  server's `today-29` to the analytics service's own "today" (the literal
  end date, read in the property's time zone). The previous one is the
  server's `[today-59, today-30]`. The current period has 30 days when the
  two dates agree, and 31 when the service's date is one day ahead.
- `Sites` — the selector offers the registry's names in order, and the
  property used is that of the first registry row with the picked name.
- `Wrappers` — the `Option` type used where the script would raise (a
  missing metric, a name with no registry row) and its top-level handler
  would show an error.

Three behaviours of the code are easy to misread, and the model states
them as written. The device chart keeps `groupby`'s key order and is not
sorted by value (app.py:134). The top-pages list is `head(5)` of the rows in
the order the report returned them (app.py:116). Channel ties go to the
earlier key of the grouped series (app.py:130).

## Model

| member | source | states |
|---|---|---|
| `Duration.FormatDuration` | app.py:54-58 | the label ends in "秒", and it is exactly "0秒" if and only if the seconds are zero |
| `Duration.Minutes` | app.py:56 | `floor(seconds / 60)`: 60·m ≤ seconds < 60·m + 60 |
| `Duration.Remainder` | app.py:57 | `seconds % 60` with the divisor's sign: in [0, 60), and seconds = 60·Minutes + remainder, negative seconds included |
| `Duration.RoundHalfEven` | app.py:57 | Python's `round`: within 0.5 of the input, and an exact tie goes to the even integer |
| `Duration.NatToString` | app.py:58 | the decimal numeral of a natural number: non-empty, all digits, no leading zero |
| `Duration.IntToString` | app.py:58 | `str` of an int in the f-string: a leading '-' exactly for negative numbers, then a non-empty run of digits with no leading zero except for 0 itself |
| `Duration.NatToStringRoundTrip` | app.py:58 | the numeral's digits evaluate back to the number |
| `Duration.IntToStringRoundTrip` | app.py:58 | every integer's numeral parses back to that integer |
| `Duration.ParseLabelParts` | app.py:58 | a label "M分S秒" reads back as 60·M + S |
| `Duration.FormatDurationWithinHalfSecond` | app.py:54-58 | every label reads back, and the number it shows is within half a second of the input seconds |
| `Duration.WholeSecondsRoundTrip` | app.py:54-58 | for whole seconds the label reads back as exactly the same number (so the formatter is injective on whole seconds) |
| `Duration.WholeSecondsLabel` | app.py:56-58 | for non-zero whole seconds k and any m, r with 60·m + r = k and 0 ≤ r < 60, the label is "m分r秒" (negative k included) |
| `Duration.WholeSecondsNeverZeroMinutesZeroSeconds` | app.py:55 | a whole duration is never labelled "0分0秒" |
| `Duration.WholeSecondsExamples` | app.py:54-58 | 0 → "0秒", 125 → "2分5秒", 59 → "0分59秒", -30 → "-1分30秒", 30 → "0分30秒" |
| `Duration.FractionalSecondsExamples` | app.py:56-58 | 0.3 → "0分0秒", 59.6 → "0分60秒", 125.5 → "2分6秒" (the remainder is rounded, not the total) |
| `Kpi.CurrentMetrics` | app.py:98 | the current period's metric vector; its three cases are stated by `Kpi.PeriodsFromRows` |
| `Kpi.PreviousMetrics` | app.py:99 | the previous period's metric vector; its three cases are stated by `Kpi.PeriodsFromRows` |
| `Kpi.PeriodsFromRows` | app.py:98-99 | no rows: both periods are zero vectors; one row: current is that row, previous is zeros; two or more: rows 0 and 1 |
| `Kpi.Trunc` | app.py:121-124 | `int()` of a float truncates toward zero: for x ≥ 0, n ≤ x < n+1; for x < 0, n-1 < x ≤ n |
| `Kpi.TruncOfWhole` | app.py:121-124 | `int()` leaves a whole value unchanged |
| `Kpi.Cards` | app.py:121-124 | the cards exist exactly when both vectors have at least four values (otherwise the script's indexing fails) |
| `Kpi.CardsReadTheirIndices` | app.py:121-124 | cards in screen order read users index 0, sessions 1, duration 3, conversions 2; each count delta is `int(current[i] - previous[i])` and the duration delta formats current[3] - previous[3] |
| `Kpi.CountCardAt` | app.py:121-122 | one count card: `int()` of a value and of its difference; stated by `Kpi.CardsReadTheirIndices`, `Kpi.CountDeltaIsDifference` and `Kpi.CountDeltaSign` |
| `Kpi.DurationCardOf` | app.py:123 | the duration card: `format_duration` of index 3 and of its difference; stated by `Kpi.CardsReadTheirIndices` and `Kpi.DurationDeltaWithinHalfSecond` |
| `Kpi.ReportCards` | app.py:98-99 | the cards of one run, from the totals report's rows; stated by `Kpi.NoRowsGivesZeroCards`, `Kpi.OneRowDeltaEqualsValue` and `Kpi.TwoPeriodExample` |
| `Kpi.CountDeltaIsDifference` | app.py:121-124 | for whole counts, a card's delta is its shown value minus the previous count, and it is negative exactly when the count fell (no clamping) |
| `Kpi.CountDeltaSign` | app.py:121-124 | a difference of at least one in either direction shows a delta of that sign; a smaller difference shows 0 |
| `Kpi.NoRowsGivesZeroCards` | app.py:98-99 | a report with no rows gives cards 0 / 0 and a duration card "0秒" / "0秒" |
| `Kpi.OneRowDeltaEqualsValue` | app.py:99 | with only the current row, each card's delta equals its value |
| `Kpi.DurationDeltaWithinHalfSecond` | app.py:123 | the duration card's delta label reads back within half a second of current[3] - previous[3] |
| `Kpi.TwoPeriodExample` | app.py:121-124 | periods [100,150,10,125] and [80,140,8,95] give deltas 20, 10, 2 and duration "2分5秒" with delta "0分30秒" |
| `Breakdown.Group` | app.py:130 | `groupby(key)["ユーザー数"].sum()`, also at app.py:132 and 134; stated by `Breakdown.GroupSpec` and `Breakdown.GroupSums` |
| `Breakdown.AddSpec` | app.py:130 | adding a row to a key-ordered grouping keeps key order, adds its key, adds its users to its group only and to the total |
| `Breakdown.GroupSpec` | app.py:130 | the grouping is key-ordered, has exactly the rows' keys, and each key's value is the summed users of its rows |
| `Breakdown.GroupSums` | app.py:130-134 | a grouped chart: keys ascending and each once, exactly the keys of the rows, each bar the sum of its rows' users, bars summing to all users, no bars exactly when no rows |
| `Breakdown.SortDesc` | app.py:130 | the stable descending sort inside `nlargest`; its length is kept, and its order, contents and stability are stated by `SortDescSorted`, `SortDescMultiset` and `Breakdown.SortDescStable` |
| `Breakdown.NLargest` | app.py:130 | `nlargest(n)`; stated by `Breakdown.NLargestSpec` |
| `Breakdown.SortDescStable` | app.py:130 | the descending sort keeps the relative order of entries with equal values |
| `Breakdown.NLargestSpec` | app.py:130 | `nlargest(n)`: min(n, size) entries, non-increasing, drawn from the input, none left out larger than one kept, ties kept in input order and earliest first, keys stay distinct |
| `Breakdown.ChannelBreakdown` | app.py:130 | the channel chart has at most five bars; the rest is stated by `Breakdown.ChannelBreakdownSpec` |
| `Breakdown.ChannelBreakdownSpec` | app.py:130 | channel chart: at most 5 channels, pairwise distinct, each with its summed users, non-increasing, no omitted channel with more users than a shown one, equal sums resolved in favour of the earlier key |
| `Breakdown.ChannelBarsAreSums` | app.py:130 | every channel shown occurs in the rows and shows the sum of its rows' users |
| `Breakdown.ChannelOmittedNotLarger` | app.py:130 | every channel of the rows that is not shown has at most the users of each channel shown |
| `Breakdown.ChannelExample` | app.py:130 | rows Direct 50, Organic 30, Direct 10 give [Direct 60, Organic 30] |
| `Breakdown.SortIndex` | app.py:132 | `sort_index()`, a stable sort by ascending key; stated on groupings by `Breakdown.SortIndexOfSorted` |
| `Breakdown.AgeBreakdown` | app.py:132 | the age chart; stated by `Breakdown.AgeBreakdownSpec` |
| `Breakdown.DeviceBreakdown` | app.py:134 | the device chart; stated by `Breakdown.DeviceBreakdownSpec` |
| `Breakdown.SortIndexOfSorted` | app.py:132 | `sort_index()` leaves an already key-ordered grouping unchanged |
| `Breakdown.AgeBreakdownSpec` | app.py:132 | age chart: every age bracket of the rows exactly once, ascending by key, no truncation, each with its summed users |
| `Breakdown.DeviceBreakdownSpec` | app.py:134 | device chart: one bar per device in key order, each its summed users, bars summing to all users |
| `Breakdown.Insights` | app.py:129-137 | the charts are absent exactly when the detail report has no rows |
| `Breakdown.TopPages` | app.py:116 | `head(5)` of the pages report; stated by `Breakdown.TopPagesSpec` |
| `Breakdown.TopPagesSpec` | app.py:115-116 | `head(5)`: the first min(5, n) rows in the order returned; if that order is descending by views, so is the list and no omitted page has more views than a shown one |
| `Window.CurrentWindow` | app.py:84-87 | the current period starts 29 days before the server's date and ends on the service's "today"; it has 30 + (service date - server date) days |
| `Window.PreviousWindow` | app.py:85-88 | the previous period ends 30 days before the server's date and covers 30 days |
| `Window.WindowsAdjacent` | app.py:84-88 | whatever the service's date, the previous period ends the day before the current one starts and they share no day; unless the service's date is more than 30 days behind, together they cover exactly today-59 .. the service's today |
| `Window.ClockSkewExample` | app.py:84-87 | a service date one day ahead of the server's gives a 31-day current period; equal dates give 30 |
| `Sites.SiteOptions` | app.py:71 | the names offered are the registry's names, one per row, in order |
| `Sites.Matching` | app.py:73 | `sites[sites['SiteName'] == name]`: every row kept is a registry row with that name, every registry row with that name is kept, and the first row kept is the first registry row with that name |
| `Sites.SelectProperty` | app.py:73 | a property chosen is that of some registry row with the picked name; `Sites.SelectFirstMatch` and `Sites.SelectNoMatch` say which one and when there is none |
| `Sites.SelectFirstMatch` | app.py:73 | the property chosen is that of the first registry row whose name is the one picked |
| `Sites.SelectNoMatch` | app.py:73 | there is no property exactly when no registry row has the picked name |
| `Sites.OfferedNameHasProperty` | app.py:71-73 | a name offered by the selector always yields a property |

## Left out

- Streamlit layout, cards, charts, spinners and messages (page setup, `metric`, `bar_chart`, the "データなし" placeholders): presentation only; the model stops at the values the widgets receive.
- The thousands separator of the count cards (`:,` in the f-strings): presentation of an integer the model does compute.
- Google client construction, credentials and `st.cache_resource` memoisation: foreign library calls and process-wide caching.
- Building and running the GA4 report requests (`run_ga4_report`, the `properties/{id}` name, the requested dimensions, metrics and order): an external API; its responses are parameters of the model, already numeric.
- Parsing of response text with `float` and `int`: the metric values are given as numbers.
- Floating-point arithmetic: metric values and durations are exact reals, so the rounding error of float division and subtraction is not modelled.
- The Gemini call and the summary text built for it: an external generative API with free-text output.
- `datetime.now`, `relativedelta` and `strftime`, and the service's time-zone lookup for the literal end date "today": dates are day numbers, and both the server's and the service's "today" are parameters.
- The top-level `try`/`except`: error plumbing; the failures it catches inside the modelled code are the `None` results of `Kpi.Cards` and `Sites.SelectProperty`.
- The empty-registry warning and the settings page (registry append and delete): UI and spreadsheet persistence; pages/1_⚙️_Settings.py is not part of this model.
- Sites.Matching: the contract says the kept rows are exactly the registry rows with the name and that the first comes first; it does not state that the later rows keep registry order; the script reads only the first (`iloc[0]`).
- Sites.SelectProperty: `SiteRecord.propertyId` and `SiteRecord.name` are modelled as text. The spreadsheet reader may deliver numeric cells, in either column, as numbers. A numeric SiteName still matches itself, since the picked name comes from the same column, so nothing the model states changes.
- Breakdown.ChannelBreakdownSpec: the tie clause (equal sums kept in key order) states pandas' order when there are more than five channels, where `nlargest` sorts its candidates with a stable mergesort. With five or fewer, pandas calls `sort_values(ascending=False)` with the default quicksort and does not promise an order for ties, so the clause states one order pandas may produce.
