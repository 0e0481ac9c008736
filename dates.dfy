/** java.time.LocalDate restricted to what the engine uses: ordering (isBefore) and
    ChronoUnit.MONTHS / ChronoUnit.YEARS between two dates. */
module Dates {

  datatype YearMonthDay = YearMonthDay(year: int, month: int, day: int)

  predicate IsLeapYear(y: int) {
    y % 4 == 0 && (y % 100 != 0 || y % 400 == 0)
  }

  function DaysInMonth(y: int, m: int): (n: int)
    requires 1 <= m <= 12
    ensures 28 <= n <= 31
  {
    if m == 2 then (if IsLeapYear(y) then 29 else 28)
    else if m == 4 || m == 6 || m == 9 || m == 11 then 30
    else 31
  }

  predicate IsCalendarDate(d: YearMonthDay) {
    1 <= d.month <= 12 && 1 <= d.day <= DaysInMonth(d.year, d.month)
  }

  /** A LocalDate: a proleptic Gregorian calendar date. */
  type Date = d: YearMonthDay | IsCalendarDate(d) witness YearMonthDay(2000, 1, 1)

  /** LocalDate.isBefore: strictly earlier, comparing year, then month, then day. */
  predicate Before(a: Date, b: Date) {
    a.year < b.year
    || (a.year == b.year && a.month < b.month)
    || (a.year == b.year && a.month == b.month && a.day < b.day)
  }

  /** isBefore is a strict total order on dates. */
  lemma BeforeStrictTotal(a: Date, b: Date, c: Date)
    ensures !Before(a, a)
    ensures Before(a, b) ==> !Before(b, a)
    ensures Before(a, b) && Before(b, c) ==> Before(a, c)
    ensures a == b || Before(a, b) || Before(b, a)
  {
  }

  /** LocalDate.isAfter. */
  predicate After(a: Date, b: Date) {
    Before(b, a)
  }

  /** Months counted from year 0, January (LocalDate.getProlepticMonth). */
  function ProlepticMonth(d: Date): int {
    d.year * 12 + d.month - 1
  }

  /** The key LocalDate.monthsUntil compares: month and day packed into one number. */
  function Packed(d: Date): int {
    ProlepticMonth(d) * 32 + d.day
  }

  /** Java's long division, which truncates toward zero. */
  function JavaDiv(a: int, b: int): (q: int)
    requires b > 0
    ensures a >= 0 ==> q == a / b
  {
    if a >= 0 then a / b else -((-a) / b)
  }

  /** ChronoUnit.MONTHS.between(start, end) = start.until(end, MONTHS). */
  function MonthsBetween(start: Date, end: Date): (r: int)
    ensures !Before(end, start) ==> r >= 0
    ensures Before(end, start) ==> r <= 0
  {
    PackedOrder(end, start);
    JavaDiv(Packed(end) - Packed(start), 32)
  }

  /** ChronoUnit.YEARS.between(start, end): the month count divided by 12, truncated. */
  function YearsBetween(start: Date, end: Date): (r: int)
    ensures !Before(end, start) ==> r >= 0
    ensures Before(end, start) ==> r <= 0
  {
    JavaDiv(MonthsBetween(start, end), 12)
  }

  lemma PackedOrder(a: Date, b: Date)
    ensures Before(a, b) <==> Packed(a) < Packed(b)
  {
  }

  /** For an end date not before the start, the month count is the calendar-month
      difference, less one when the end's day of month has not yet reached the start's:
      the number of WHOLE months elapsed. */
  lemma MonthsBetweenCalendar(start: Date, end: Date)
    requires !Before(end, start)
    ensures MonthsBetween(start, end)
            == (ProlepticMonth(end) - ProlepticMonth(start)) - (if end.day < start.day then 1 else 0)
    ensures MonthsBetween(start, end) >= 0
  {
    var dm := ProlepticMonth(end) - ProlepticMonth(start);
    var a := Packed(end) - Packed(start);
    assert a == 32 * dm + (end.day - start.day);
    PackedOrder(end, start);
    if end.day < start.day {
      assert dm >= 1;
      assert 32 * (dm - 1) <= a < 32 * dm;
      DivBetween(a, dm - 1);
    } else {
      assert 32 * dm <= a < 32 * (dm + 1);
      DivBetween(a, dm);
    }
  }

  lemma DivBetween(a: int, q: int)
    requires 32 * q <= a < 32 * (q + 1)
    requires q >= 0
    ensures a / 32 == q
  {
  }

  /** Whole months elapsed: shifting the start by that many months keeps it on or before
      the end, shifting by one more passes the end. */
  lemma MonthsBetweenIsWholeMonths(start: Date, end: Date)
    requires !Before(end, start)
    ensures var m := MonthsBetween(start, end);
            32 * (ProlepticMonth(start) + m) + start.day <= Packed(end)
            < 32 * (ProlepticMonth(start) + m + 1) + start.day
  {
    MonthsBetweenCalendar(start, end);
  }

  /** The year count is the whole months elapsed divided by twelve, so zero under a year. */
  lemma YearsBetweenWholeYears(start: Date, end: Date)
    requires !Before(end, start)
    ensures YearsBetween(start, end) >= 0
    ensures 12 * YearsBetween(start, end) <= MonthsBetween(start, end)
            < 12 * (YearsBetween(start, end) + 1)
  {
    MonthsBetweenCalendar(start, end);
  }

  /** Moving the end date later never decreases the whole months or years elapsed. */
  lemma ElapsedMonotone(start: Date, e1: Date, e2: Date)
    requires !Before(e1, start) && !Before(e2, e1)
    ensures MonthsBetween(start, e1) <= MonthsBetween(start, e2)
    ensures YearsBetween(start, e1) <= YearsBetween(start, e2)
  {
    MonthsBetweenCalendar(start, e1);
    PackedOrder(e2, start);
    PackedOrder(e2, e1);
    PackedOrder(e1, start);
    MonthsBetweenCalendar(start, e2);
    var m1 := MonthsBetween(start, e1);
    var m2 := MonthsBetween(start, e2);
    assert m1 <= m2;
    assert 0 <= m1;
    DivMonotone(m1, m2);
  }

  lemma DivMonotone(a: int, b: int)
    requires 0 <= a <= b
    ensures a / 12 <= b / 12
  {
  }

  /** LocalDate.plusYears: same month and day, the day clamped to the month's length
      (29 February becomes 28 February in a common year). */
  function PlusYears(d: Date, k: int): (r: Date)
    ensures r.year == d.year + k && r.month == d.month
    ensures r.day <= d.day
  {
    var last := DaysInMonth(d.year + k, d.month);
    YearMonthDay(d.year + k, d.month, if d.day <= last then d.day else last)
  }

  /** k anniversaries after the start, exactly k whole years have elapsed, provided the
      anniversary falls on the same day of the month. */
  lemma YearsBetweenAnniversary(start: Date, k: nat)
    requires start.day <= DaysInMonth(start.year + k, start.month)
    ensures !Before(PlusYears(start, k), start)
    ensures MonthsBetween(start, PlusYears(start, k)) == 12 * k
    ensures YearsBetween(start, PlusYears(start, k)) == k
  {
    var e := PlusYears(start, k);
    assert e.day == start.day;
    PackedOrder(e, start);
    MonthsBetweenCalendar(start, e);
  }

  /** The anniversary of a leap-day start in a common year is not yet a whole year:
      from 2020-02-29 to 2021-02-28 Java counts 11 months and 0 years. */
  lemma LeapDayAnniversary()
    ensures PlusYears(YearMonthDay(2020, 2, 29), 1) == YearMonthDay(2021, 2, 28)
    ensures MonthsBetween(YearMonthDay(2020, 2, 29), YearMonthDay(2021, 2, 28)) == 11
    ensures YearsBetween(YearMonthDay(2020, 2, 29), YearMonthDay(2021, 2, 28)) == 0
  {
    MonthsBetweenCalendar(YearMonthDay(2020, 2, 29), YearMonthDay(2021, 2, 28));
  }
}
