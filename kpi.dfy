/** The four headline cards of the dashboard (app.py, "1. サイトの健康状態"):
    the two period vectors taken from the totals report, with zero defaults,
    and the value and period-over-period delta each card shows. */
module Kpi {
  import opened Wrappers
  import Duration

  /** The metric values of one row of the totals report, in the order the
      report requests them: active users, sessions, conversions, average
      session duration in seconds. */
  type MetricRow = seq<real>

  const ActiveUsers: nat := 0
  const Sessions: nat := 1
  const Conversions: nat := 2
  const AverageDuration: nat := 3

  /** The vector used for a period whose row is missing. */
  const ZeroMetrics: MetricRow := [0.0, 0.0, 0.0, 0.0]

  /** The current period is the report's first row. */
  function CurrentMetrics(rows: seq<MetricRow>): MetricRow {
    if rows != [] then rows[0] else ZeroMetrics
  }

  /** The previous period is the report's second row. */
  function PreviousMetrics(rows: seq<MetricRow>): MetricRow {
    if |rows| > 1 then rows[1] else ZeroMetrics
  }

  /** The two periods: no rows gives two zero vectors, one row gives that row
      and a zero vector, and otherwise the first two rows in order. */
  lemma PeriodsFromRows(rows: seq<MetricRow>)
    ensures rows == [] ==> CurrentMetrics(rows) == PreviousMetrics(rows) == ZeroMetrics
    ensures |rows| == 1 ==> CurrentMetrics(rows) == rows[0] && PreviousMetrics(rows) == ZeroMetrics
    ensures |rows| >= 2 ==> CurrentMetrics(rows) == rows[0] && PreviousMetrics(rows) == rows[1]
  {
  }

  /** Python's `int` of a float: truncation toward zero. */
  function Trunc(x: real): (n: int)
    ensures x >= 0.0 ==> 0 <= n && n as real <= x < n as real + 1.0
    ensures x < 0.0 ==> n <= 0 && n as real - 1.0 < x <= n as real
  {
    if x >= 0.0 then x.Floor else -((-x).Floor)
  }

  lemma TruncOfWhole(k: int)
    ensures Trunc(k as real) == k
  {
  }

  datatype CountCard = CountCard(value: int, delta: int)
  datatype DurationCard = DurationCard(value: string, delta: string)

  /** The cards in their on-screen order: users, sessions, duration,
      conversions (the duration card reads index 3, the conversions card
      index 2). */
  datatype KpiCards = KpiCards(
    users: CountCard,
    sessions: CountCard,
    duration: DurationCard,
    conversions: CountCard)

  /** The signed period-over-period change of metric `i`. */
  function Difference(current: MetricRow, previous: MetricRow, i: nat): real
    requires i < |current| && i < |previous|
  {
    current[i] - previous[i]
  }

  /** A count card: the truncated current value and the truncated signed
      difference to the previous period. */
  function CountCardAt(current: MetricRow, previous: MetricRow, i: nat): CountCard
    requires i < |current| && i < |previous|
  {
    CountCard(Trunc(current[i]), Trunc(Difference(current, previous, i)))
  }

  /** The duration card: the current average and the signed difference to
      the previous period's average, both through the duration formatter. */
  function DurationCardOf(current: MetricRow, previous: MetricRow): DurationCard
    requires AverageDuration < |current| && AverageDuration < |previous|
  {
    DurationCard(
      Duration.FormatDuration(current[AverageDuration]),
      Duration.FormatDuration(Difference(current, previous, AverageDuration)))
  }

  /** The four cards; None when either vector is too short to index, which
      the script reports through its top-level error handler. */
  function Cards(current: MetricRow, previous: MetricRow): (c: Option<KpiCards>)
    ensures c.Some? <==> |current| >= 4 && |previous| >= 4
  {
    if |current| < 4 || |previous| < 4 then None
    else Some(KpiCards(
      CountCardAt(current, previous, ActiveUsers),
      CountCardAt(current, previous, Sessions),
      DurationCardOf(current, previous),
      CountCardAt(current, previous, Conversions)))
  }

  /** Each card reads its own metric: users index 0, sessions index 1, the
      duration card index 3 and the conversions card index 2; every count
      delta is the truncated signed difference at that index. */
  lemma CardsReadTheirIndices(current: MetricRow, previous: MetricRow)
    requires |current| >= 4 && |previous| >= 4
    ensures var c := Cards(current, previous).value;
      && c.users == CountCard(Trunc(current[0]), Trunc(current[0] - previous[0]))
      && c.sessions == CountCard(Trunc(current[1]), Trunc(current[1] - previous[1]))
      && c.conversions == CountCard(Trunc(current[2]), Trunc(current[2] - previous[2]))
      && c.duration == DurationCard(
           Duration.FormatDuration(current[3]),
           Duration.FormatDuration(Difference(current, previous, 3)))
  {
  }

  /** The cards of one report run. */
  function ReportCards(rows: seq<MetricRow>): Option<KpiCards> {
    Cards(CurrentMetrics(rows), PreviousMetrics(rows))
  }

  predicate IsWhole(x: real) {
    x == x.Floor as real
  }

  /** For whole counts, each count card's delta is exactly its shown value
      minus the previous period's value, and it is not clamped: it is
      negative exactly when the count fell. */
  lemma CountDeltaIsDifference(current: MetricRow, previous: MetricRow, i: nat)
    requires i < |current| && i < |previous|
    requires IsWhole(current[i]) && IsWhole(previous[i])
    ensures CountCardAt(current, previous, i).delta == CountCardAt(current, previous, i).value - previous[i].Floor
    ensures CountCardAt(current, previous, i).delta < 0 <==> current[i] < previous[i]
  {
    var a, b := current[i].Floor, previous[i].Floor;
    assert current[i] - previous[i] == (a - b) as real;
    TruncOfWhole(a - b);
    TruncOfWhole(a);
  }

  /** For any values, a count card's delta has the sign of the difference as
      soon as the difference is at least one in magnitude. */
  lemma CountDeltaSign(current: MetricRow, previous: MetricRow, i: nat)
    requires i < |current| && i < |previous|
    ensures current[i] - previous[i] <= -1.0 ==> CountCardAt(current, previous, i).delta < 0
    ensures current[i] - previous[i] >= 1.0 ==> CountCardAt(current, previous, i).delta > 0
    ensures -1.0 < current[i] - previous[i] < 1.0 ==> CountCardAt(current, previous, i).delta == 0
  {
  }

  /** A report without rows shows zero everywhere and "0秒" on both lines of
      the duration card. */
  lemma NoRowsGivesZeroCards()
    ensures ReportCards([]) == Some(KpiCards(
      CountCard(0, 0), CountCard(0, 0), DurationCard("0秒", "0秒"), CountCard(0, 0)))
  {
  }

  /** With only the current period's row, each delta equals the value shown. */
  lemma OneRowDeltaEqualsValue(row: MetricRow)
    requires |row| >= 4
    ensures ReportCards([row]).Some?
    ensures var c := ReportCards([row]).value;
      && c.users.delta == c.users.value
      && c.sessions.delta == c.sessions.value
      && c.conversions.delta == c.conversions.value
      && c.duration.delta == c.duration.value
  {
    assert PreviousMetrics([row]) == ZeroMetrics;
    assert CurrentMetrics([row]) == row;
    assert forall i :: 0 <= i < 4 ==> Difference(row, ZeroMetrics, i) == row[i];
  }

  /** The duration card's delta line reads back as a whole number of seconds
      within half a second of the signed difference of the two averages. */
  lemma DurationDeltaWithinHalfSecond(current: MetricRow, previous: MetricRow)
    requires |current| >= 4 && |previous| >= 4
    ensures var d := Duration.ParseDuration(DurationCardOf(current, previous).delta);
      && d.Some?
      && -0.5 <= d.value as real - (current[AverageDuration] - previous[AverageDuration]) <= 0.5
  {
    Duration.FormatDurationWithinHalfSecond(Difference(current, previous, AverageDuration));
  }

  /** Two periods [100, 150, 10, 125] and [80, 140, 8, 95]: deltas 20, 10, 2
      and a duration card "2分5秒" with delta "0分30秒". */
  lemma TwoPeriodExample()
    ensures ReportCards([[100.0, 150.0, 10.0, 125.0], [80.0, 140.0, 8.0, 95.0]]) == Some(KpiCards(
      CountCard(100, 20), CountCard(150, 10), DurationCard("2分5秒", "0分30秒"), CountCard(10, 2)))
  {
    Duration.WholeSecondsExamples();
    assert 125.0 - 95.0 == 30.0;
    TruncOfWhole(100);
    TruncOfWhole(20);
    TruncOfWhole(150);
    TruncOfWhole(10);
    TruncOfWhole(2);
  }
}
