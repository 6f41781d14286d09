/** The proleptic Gregorian calendar, counted in days from 1 January 1969: a year before the
    Unix epoch, so that an instant from the epoch on has a day number in every time zone. */
module Calendar {
  const BASE_YEAR := 1969

  /** 1 January 1970. */
  const EPOCH_DAY := 365

  datatype Date = Date(year: int, month: int, day: int)

  predicate IsLeap(y: int) {
    y % 4 == 0 && (y % 100 != 0 || y % 400 == 0)
  }

  function DaysInYear(y: int): int {
    if IsLeap(y) then 366 else 365
  }

  function DaysInMonth(y: int, m: int): int {
    if m == 2 then (if IsLeap(y) then 29 else 28)
    else if m == 4 || m == 6 || m == 9 || m == 11 then 30
    else 31
  }

  predicate IsDate(d: Date) {
    d.year >= BASE_YEAR && 1 <= d.month <= 12 && 1 <= d.day <= DaysInMonth(d.year, d.month)
  }

  function DaysBeforeYear(y: int): (n: nat)
    requires y >= BASE_YEAR
  {
    if y == BASE_YEAR then 0 else DaysBeforeYear(y - 1) + DaysInYear(y - 1)
  }

  function DaysBeforeMonth(y: int, m: int): (n: nat)
    requires 1 <= m <= 13
  {
    if m == 1 then 0 else DaysBeforeMonth(y, m - 1) + DaysInMonth(y, m - 1)
  }

  function DayNumber(d: Date): nat
    requires IsDate(d)
  {
    DaysBeforeYear(d.year) + DaysBeforeMonth(d.year, d.month) + d.day - 1
  }

  function MonthOf(y: int, m: int, n: nat): Date
    requires 1 <= m <= 12
    decreases 13 - m
  {
    if m == 12 || n < DaysInMonth(y, m) then Date(y, m, n + 1) else MonthOf(y, m + 1, n - DaysInMonth(y, m))
  }

  function YearOf(y: int, n: nat): Date
    decreases n
  {
    if n < DaysInYear(y) then MonthOf(y, 1, n) else YearOf(y + 1, n - DaysInYear(y))
  }

  /** The date of a day number. */
  function Civil(n: nat): Date {
    YearOf(BASE_YEAR, n)
  }

  lemma YearLength(y: int)
    ensures DaysBeforeMonth(y, 13) == DaysInYear(y)
  {
    assert DaysBeforeMonth(y, 2) == 31;
    assert DaysBeforeMonth(y, 3) == 31 + DaysInMonth(y, 2);
    assert DaysBeforeMonth(y, 5) == DaysBeforeMonth(y, 3) + 61;
    assert DaysBeforeMonth(y, 7) == DaysBeforeMonth(y, 5) + 61;
    assert DaysBeforeMonth(y, 9) == DaysBeforeMonth(y, 7) + 62;
    assert DaysBeforeMonth(y, 11) == DaysBeforeMonth(y, 9) + 61;
  }

  lemma {:induction false} MonthsGrow(y: int, m: int, k: int)
    requires 1 <= m <= k <= 13
    ensures DaysBeforeMonth(y, m) <= DaysBeforeMonth(y, k)
    decreases k - m
  {
    if m < k { MonthsGrow(y, m, k - 1); }
  }

  /** From month `m` on, the search inverts the count of days before a month. */
  lemma {:induction false} MonthOfDay(y: int, m: int, n: nat)
    requires 1 <= m <= 12 && DaysBeforeMonth(y, m) + n < DaysInYear(y)
    ensures var d := MonthOf(y, m, n);
      && d.year == y && m <= d.month <= 12 && 1 <= d.day <= DaysInMonth(y, d.month)
      && DaysBeforeMonth(y, d.month) + d.day - 1 == DaysBeforeMonth(y, m) + n
    decreases 13 - m
  {
    YearLength(y);
    if m < 12 && n >= DaysInMonth(y, m) { MonthOfDay(y, m + 1, n - DaysInMonth(y, m)); }
  }

  lemma {:induction false} YearOfDay(y: int, n: nat)
    requires y >= BASE_YEAR
    ensures IsDate(YearOf(y, n)) && DayNumber(YearOf(y, n)) == DaysBeforeYear(y) + n
    decreases n
  {
    if n < DaysInYear(y) { MonthOfDay(y, 1, n); } else { YearOfDay(y + 1, n - DaysInYear(y)); }
  }

  /** A day number is recovered from its date. */
  lemma DayNumberOfCivil(n: nat)
    ensures IsDate(Civil(n)) && DayNumber(Civil(n)) == n
  {
    YearOfDay(BASE_YEAR, n);
  }

  lemma {:induction false} YearsGrow(y: int, z: int)
    requires BASE_YEAR <= y < z
    ensures DaysBeforeYear(y) + DaysInYear(y) <= DaysBeforeYear(z)
    decreases z
  {
    if y < z - 1 { YearsGrow(y, z - 1); }
  }

  lemma DayOfYear(d: Date)
    requires IsDate(d)
    ensures DaysBeforeYear(d.year) <= DayNumber(d) < DaysBeforeYear(d.year) + DaysInYear(d.year)
  {
    YearLength(d.year);
    MonthsGrow(d.year, d.month + 1, 13);
  }

  /** No two dates share a day number. */
  lemma DayNumberInjective(d: Date, e: Date)
    requires IsDate(d) && IsDate(e) && DayNumber(d) == DayNumber(e)
    ensures d == e
  {
    DayOfYear(d);
    DayOfYear(e);
    if d.year < e.year { YearsGrow(d.year, e.year); }
    if e.year < d.year { YearsGrow(e.year, d.year); }
    if d.month < e.month { MonthsGrow(d.year, d.month + 1, e.month); }
    if e.month < d.month { MonthsGrow(d.year, e.month + 1, d.month); }
  }

  /** A date is recovered from its day number. */
  lemma CivilOfDayNumber(d: Date)
    requires IsDate(d)
    ensures Civil(DayNumber(d)) == d
  {
    DayNumberOfCivil(DayNumber(d));
    DayNumberInjective(Civil(DayNumber(d)), d);
  }

  // ---- the calendar is the Gregorian one ----

  /** Leap days from the year 1 to the end of year `y`. */
  function LeapDays(y: int): int {
    y / 4 - y / 100 + y / 400
  }

  lemma ByFour(y: int)
    ensures y / 4 == (y - 1) / 4 + if y % 4 == 0 then 1 else 0
  {}

  lemma ByHundred(y: int)
    ensures y / 100 == (y - 1) / 100 + if y % 100 == 0 then 1 else 0
    ensures y % 100 == 0 ==> y % 4 == 0
  {}

  lemma ByFourHundred(y: int)
    ensures y / 400 == (y - 1) / 400 + if y % 400 == 0 then 1 else 0
    ensures y % 400 == 0 ==> y % 100 == 0
  {}

  lemma OneMoreYear(y: int)
    ensures LeapDays(y) == LeapDays(y - 1) + DaysInYear(y) - 365
  {
    ByFour(y);
    ByHundred(y);
    ByFourHundred(y);
  }

  lemma {:induction false} YearsInClosedForm(y: int)
    requires y >= BASE_YEAR
    ensures DaysBeforeYear(y) == 365 * (y - 1969) + LeapDays(y - 1) - 477
    decreases y
  {
    if y > BASE_YEAR {
      YearsInClosedForm(y - 1);
      OneMoreYear(y - 1);
    }
  }

  /** Every 400 years the calendar repeats, after a whole number of weeks. */
  lemma CalendarRepeats(y: int)
    requires y >= BASE_YEAR
    ensures DaysBeforeYear(y + 400) - DaysBeforeYear(y) == 146097 == 7 * 20871
  {
    YearsInClosedForm(y);
    YearsInClosedForm(y + 400);
    LeapDaysRepeat(y - 1);
  }

  lemma LeapDaysRepeat(y: int)
    ensures LeapDays(y + 400) == LeapDays(y) + 97
  {
    assert y + 400 == 4 * (y / 4 + 100) + y % 4;
    assert y + 400 == 100 * (y / 100 + 4) + y % 100;
    assert y + 400 == 400 * (y / 400 + 1) + y % 400;
  }

  /** Thirty days have September, April, June and November; February has 28, or 29 in years of 366 days. */
  lemma MonthLengths(y: int, m: int)
    requires 1 <= m <= 12
    ensures m in {4, 6, 9, 11} ==> DaysInMonth(y, m) == 30
    ensures m in {1, 3, 5, 7, 8, 10, 12} ==> DaysInMonth(y, m) == 31
    ensures DaysInMonth(y, 2) == 28 + DaysInYear(y) - 365
    ensures DaysInYear(y) == 366 <==> y % 400 == 0 || (y % 4 == 0 && y % 100 != 0)
  {
    ByHundred(y);
    ByFourHundred(y);
  }

  /** Dates whose day numbers can be looked up. */
  lemma KnownDays() returns (a: nat, b: nat, c: nat)
    ensures a == 365 && Civil(a) == Date(1970, 1, 1)
    ensures b == 11322 && Civil(b) == Date(2000, 1, 1)
    ensures c == 20147 && Civil(c) == Date(2024, 2, 29)
  {
    a := NewYear(1970);
    b := NewYear(2000);
    c := LeapDay(2024);
  }

  lemma LeapDay(y: int) returns (n: nat)
    requires y >= BASE_YEAR && IsLeap(y)
    ensures n == 365 * (y - 1969) + LeapDays(y - 1) - 477 + 59 && Civil(n) == Date(y, 2, 29)
  {
    YearsInClosedForm(y);
    assert DaysBeforeMonth(y, 2) == 31;
    n := DayNumber(Date(y, 2, 29));
    CivilOfDayNumber(Date(y, 2, 29));
  }

  lemma NewYear(y: int) returns (n: nat)
    requires y >= BASE_YEAR
    ensures n == 365 * (y - 1969) + LeapDays(y - 1) - 477 && Civil(n) == Date(y, 1, 1)
  {
    YearsInClosedForm(y);
    n := DayNumber(Date(y, 1, 1));
    CivilOfDayNumber(Date(y, 1, 1));
  }
}
