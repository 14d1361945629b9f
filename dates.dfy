/**
 * Calendar dates as the sync core handles them: `YYYY-MM-DD` strings parsed
 * with `strptime`, compared, and moved back one day with `timedelta`, and the
 * card feed's timestamps shifted back three hours before taking their date.
 */
module Dates {

  /** A proleptic Gregorian date, as Python's `datetime.date`. */
  datatype Date = Date(year: int, month: int, day: int)

  predicate IsLeapYear(y: int) {
    y % 4 == 0 && (y % 100 != 0 || y % 400 == 0)
  }

  function DaysInMonth(y: int, m: int): (n: int)
    ensures 28 <= n <= 31
    ensures n == 29 <==> m == 2 && IsLeapYear(y)
  {
    if m == 2 then (if IsLeapYear(y) then 29 else 28)
    else if m == 4 || m == 6 || m == 9 || m == 11 then 30
    else 31
  }

  /** A date Python's `datetime` can represent (years 1 to 9999). */
  predicate ValidDate(d: Date) {
    1 <= d.year <= 9999 && 1 <= d.month <= 12 && 1 <= d.day <= DaysInMonth(d.year, d.month)
  }

  /** A date as a feed writes it: always a real calendar day. */
  type CalendarDate = d: Date | ValidDate(d) witness Date(1, 1, 1)

  /** The first date Python can represent; it has no previous day. */
  const MinDate := Date(1, 1, 1)

  /** The last date Python can represent; it has no next day. */
  const MaxDate := Date(9999, 12, 31)

  /** Chronological order of dates, which is also the order of their `YYYY-MM-DD` strings. */
  predicate Before(a: Date, b: Date) {
    a.year < b.year || (a.year == b.year && (a.month < b.month || (a.month == b.month && a.day < b.day)))
  }

  predicate OnOrBefore(a: Date, b: Date) {
    !Before(b, a)
  }

  /** The calendar day after `d` (`d + timedelta(days=1)`). */
  function NextDay(d: Date): (n: Date)
    ensures ValidDate(d) && d != MaxDate ==> ValidDate(n) && Before(d, n)
  {
    if d.day < DaysInMonth(d.year, d.month) then Date(d.year, d.month, d.day + 1)
    else if d.month < 12 then Date(d.year, d.month + 1, 1)
    else Date(d.year + 1, 1, 1)
  }

  /**
   * The calendar day before `d` (`d - timedelta(days=1)`), across month and
   * year boundaries and February 29th; `NextDay` undoes it.
   */
  function PrevDay(d: Date): (p: Date)
    ensures ValidDate(d) && d != MinDate ==> ValidDate(p) && Before(p, d) && NextDay(p) == d
  {
    if d.day > 1 then Date(d.year, d.month, d.day - 1)
    else if d.month > 1 then Date(d.year, d.month - 1, DaysInMonth(d.year, d.month - 1))
    else Date(d.year - 1, 12, 31)
  }

  /** `PrevDay` undoes `NextDay`. */
  lemma PrevDayOfNextDay(d: Date)
    requires ValidDate(d) && d != MaxDate
    ensures PrevDay(NextDay(d)) == d
  {
  }

  /** No valid date lies strictly between `PrevDay(d)` and `d`. */
  lemma PrevDayIsImmediate(d: Date, e: Date)
    requires ValidDate(d) && d != MinDate && ValidDate(e)
    ensures Before(e, d) <==> OnOrBefore(e, PrevDay(d))
  {
  }

  /** An hour of the day, 0 to 23. */
  type Hour = h: int | 0 <= h < 24

  /**
   * A card-feed timestamp reduced to what the core uses: the calendar date
   * written in its first ten characters and the hour of the day.
   */
  datatype CardTime = CardTime(date: CalendarDate, hour: Hour)

  /**
   * The date of the timestamp three hours earlier: the previous day for times
   * before 03:00, otherwise the same day.
   */
  function ShiftedDate(t: CardTime): (d: Date)
    ensures d == t.date <==> t.hour >= 3
    ensures ValidDate(t.date) && t.date != MinDate ==> ValidDate(d) && OnOrBefore(d, t.date)
    ensures ValidDate(t.date) && t.date != MinDate && d != t.date ==> NextDay(d) == t.date
  {
    if t.hour < 3 then PrevDay(t.date) else t.date
  }
}
