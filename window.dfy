/** The two reporting periods of a dashboard run (app.py, the date ranges
    built before the reports are requested). Calendar dates are day numbers:
    consecutive days differ by one. */
module Window {

  type Day = int

  /** A range of days, both ends included, as the analytics service reads a
      start date and an end date. */
  datatype DateWindow = DateWindow(start: Day, end: Day)

  predicate Contains(w: DateWindow, d: Day) {
    w.start <= d <= w.end
  }

  function Length(w: DateWindow): int {
    w.end - w.start + 1
  }

  /** From 29 days ago on the server's clock up to the service's own
      "today": the end date is the literal "today", which the analytics
      service reads in the property's reporting time zone, while the start
      date is computed from the server's date. The two dates are the same
      day only when the two clocks show the same date. */
  function CurrentWindow(today: Day, serviceToday: Day): (w: DateWindow)
    ensures w.start == today - 29 && w.end == serviceToday
    ensures Length(w) == 30 + (serviceToday - today)
  {
    DateWindow(today - 29, serviceToday)
  }

  /** From 59 days ago up to 30 days ago, both on the server's clock. */
  function PreviousWindow(today: Day): (w: DateWindow)
    ensures w.end == today - 30 && Length(w) == 30
  {
    DateWindow(today - 59, today - 30)
  }

  /** The previous period ends the day before the current one starts, whatever
      the service's date, since both dates come from the server's clock; the
      two never share a day. While the service's date is not more than thirty
      days behind the server's, together they cover exactly the days from
      today-59 to the service's today (sixty days when the clocks agree). */
  lemma WindowsAdjacent(today: Day, serviceToday: Day)
    ensures PreviousWindow(today).end + 1 == CurrentWindow(today, serviceToday).start
    ensures forall d :: !(Contains(PreviousWindow(today), d) && Contains(CurrentWindow(today, serviceToday), d))
    ensures serviceToday >= today - 30 ==>
      forall d :: today - 59 <= d <= serviceToday <==>
        Contains(PreviousWindow(today), d) || Contains(CurrentWindow(today, serviceToday), d)
  {
  }

  /** A server and a service whose dates differ by one day (a UTC host and a
      property in a time zone ahead of it, shortly after midnight there) give
      a current period of 31 days. */
  lemma ClockSkewExample(today: Day)
    ensures Length(CurrentWindow(today, today + 1)) == 31
    ensures Length(CurrentWindow(today, today)) == 30
  {
  }
}
