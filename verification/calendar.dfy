/** Calendar months: month-start dates, absolute month indices and month arithmetic. */
module Calendar {

  /** A calendar date at midnight (a pandas Timestamp without a time of day). */
  datatype Date = Date(year: int, month: int, day: int)

  /** The first day of a real calendar month: the only dates the monthly series holds. */
  predicate IsMonthStart(d: Date) {
    1 <= d.month <= 12 && d.day == 1
  }

  /** Months since January of year 0: the index `year*12 + (month-1)`. */
  function MonthIndex(year: int, month: int): int {
    year * 12 + (month - 1)
  }

  function Index(d: Date): int {
    MonthIndex(d.year, d.month)
  }

  /** The first day of the month with absolute index `k`. */
  function MonthStartAt(k: int): (d: Date)
    ensures IsMonthStart(d)
    ensures Index(d) == k
  {
    Date(k / 12, k % 12 + 1, 1)
  }

  /** Chronological order of timestamps: by year, then month, then day. */
  predicate DateLess(a: Date, b: Date) {
    a.year < b.year
    || (a.year == b.year && a.month < b.month)
    || (a.year == b.year && a.month == b.month && a.day < b.day)
  }

  /** Adding `pd.offsets.MonthBegin(1)` to a month-start date: the first day of the following month. */
  function NextMonth(d: Date): (n: Date)
    requires IsMonthStart(d)
    ensures IsMonthStart(n)
    ensures Index(n) == Index(d) + 1
    ensures DateLess(d, n)
  {
    if d.month == 12 then Date(d.year + 1, 1, 1) else Date(d.year, d.month + 1, 1)
  }

  /** A month-start date is determined by its month index. */
  lemma {:induction false} MonthStartAtIndex(d: Date)
    requires IsMonthStart(d)
    ensures MonthStartAt(Index(d)) == d
  {
    var k := Index(d);
    assert k == d.year * 12 + (d.month - 1) && 0 <= d.month - 1 < 12;
    assert k / 12 == d.year && k % 12 == d.month - 1;
  }

  /** (year, month) -> month index is injective for months 1..12. */
  lemma {:induction false} MonthIndexInjective(y1: int, m1: int, y2: int, m2: int)
    requires 1 <= m1 <= 12 && 1 <= m2 <= 12
    requires MonthIndex(y1, m1) == MonthIndex(y2, m2)
    ensures y1 == y2 && m1 == m2
  {
    MonthStartAtIndex(Date(y1, m1, 1));
    MonthStartAtIndex(Date(y2, m2, 1));
  }

  /** On month-start dates, chronological order is month-index order. */
  lemma {:induction false} MonthStartOrder(a: Date, b: Date)
    requires IsMonthStart(a) && IsMonthStart(b)
    ensures DateLess(a, b) <==> Index(a) < Index(b)
  {
  }

  /** The month after the last month of a year is January of the next year, and in general
      the next month is the month whose index is one larger. */
  lemma {:induction false} NextMonthRollsOver(d: Date)
    requires IsMonthStart(d)
    ensures NextMonth(d) == MonthStartAt(Index(d) + 1)
    ensures d.month == 12 ==> NextMonth(d) == Date(d.year + 1, 1, 1)
    ensures d.month < 12 ==> NextMonth(d) == Date(d.year, d.month + 1, 1)
  {
    MonthStartAtIndex(NextMonth(d));
  }

  predicate IsLeapYear(year: int) {
    (year % 4 == 0 && year % 100 != 0) || year % 400 == 0
  }

  /** Length of a month in the proleptic Gregorian calendar. */
  function DaysInMonth(year: int, month: int): (n: int)
    requires 1 <= month <= 12
    ensures 28 <= n <= 31
    ensures month == 2 ==> (n == 29 <==> IsLeapYear(year))
  {
    if month == 2 then (if IsLeapYear(year) then 29 else 28)
    else if month == 4 || month == 6 || month == 9 || month == 11 then 30
    else 31
  }
}
