/** When snapshot, backup and compose-update policies fire: handlers/lxd_snap_schedule.go and
    handlers/lxd_backups.go. An instant is a whole minute since the epoch; the local clock
    runs at a fixed offset of whole minutes. */
module Cadence {
  import opened Options
  import opened Calendar

  type Offset = o: int | -1440 < o < 1440

  datatype Unit = Minute | Hour | Day | Week | Month | Unknown

  datatype Policy = Policy(
    everyN: int, unit: Unit, hourOfDay: int, minuteOfHour: int, weekday: int, dayOfMonth: int, keepLast: int)

  // ---- the tables of accepted intervals ----

  function SnapIntervals(u: Unit): set<int> {
    match u
    case Minute => {5, 10, 15, 20, 30}
    case Hour => {1, 2, 3, 4, 6, 8, 12}
    case Day => {1, 2, 3, 7, 14}
    case Week => {1, 2, 4}
    case Month => {1, 2, 3, 6, 12}
    case Unknown => {}
  }

  function BackupIntervals(u: Unit): set<int> {
    if u == Minute then {20, 30} else SnapIntervals(u)
  }

  /** Intervals divide the next larger unit, days and weeks apart; backups are not made every few minutes. */
  lemma IntervalTables(n: int)
    ensures n in SnapIntervals(Minute) <==> 5 <= n <= 30 && 60 % n == 0 && n !in {6, 12}
    ensures n in SnapIntervals(Hour) <==> 1 <= n <= 12 && 24 % n == 0
    ensures n in SnapIntervals(Day) <==> n in {1, 2, 3, 7, 14}
    ensures n in SnapIntervals(Week) <==> n in {1, 2, 4}
    ensures n in SnapIntervals(Month) <==> 1 <= n <= 12 && 12 % n == 0 && n != 4
    ensures n !in SnapIntervals(Unknown) && n !in BackupIntervals(Unknown)
    ensures n in BackupIntervals(Minute) <==> n == 20 || n == 30
    ensures forall u | u != Minute :: n in BackupIntervals(u) <==> n in SnapIntervals(u)
  {}

  /** What a saved snapshot policy becomes: refused, or clamped to legal values. */
  function SaveSnap(p: Policy): Option<Policy> {
    if p.everyN !in SnapIntervals(p.unit) then None
    else Some(p.(
      keepLast := if p.keepLast < 1 then 1 else if p.keepLast > 10000 then 10000 else p.keepLast,
      hourOfDay := if p.hourOfDay < 0 || p.hourOfDay > 23 then 0 else p.hourOfDay,
      minuteOfHour := if p.minuteOfHour < 0 || p.minuteOfHour > 59 then 0 else p.minuteOfHour,
      weekday := if p.weekday < 0 || p.weekday > 6 then 0 else p.weekday,
      dayOfMonth := if p.dayOfMonth < 1 || p.dayOfMonth > 31 then 1 else p.dayOfMonth))
  }

  predicate ClockOk(p: Policy) {
    0 <= p.hourOfDay <= 23 && 0 <= p.minuteOfHour <= 59
  }

  predicate Accepted(p: Policy) {
    p.everyN in SnapIntervals(p.unit) && ClockOk(p)
  }

  predicate AcceptedBackup(p: Policy) {
    p.everyN in BackupIntervals(p.unit) && ClockOk(p)
  }

  // ---- the local clock ----

  function LocalMinute(o: Offset, m: nat): int { m + o }

  function MinuteOfHour(o: Offset, m: nat): int { LocalMinute(o, m) % 60 }

  function HourOfDay(o: Offset, m: nat): int { LocalMinute(o, m) / 60 % 24 }

  /** Days since 1 January 1970 on the local calendar; that day was a Thursday. */
  function LocalDay(o: Offset, m: nat): int { LocalMinute(o, m) / 1440 }

  function WeekdayOf(o: Offset, m: nat): int { (LocalDay(o, m) + 4) % 7 }

  function LocalDate(o: Offset, m: nat): Date { Civil(LocalDay(o, m) + EPOCH_DAY) }

  // ---- the due predicates ----

  function NormalizeWeekday(w: int): int {
    if 0 <= w <= 6 then w else 0
  }

  function EffectiveDayOfMonth(dom: int, y: int, m: int): int {
    var want := if dom < 1 || dom > 31 then 1 else dom;
    if want > DaysInMonth(y, m) then DaysInMonth(y, m) else want
  }

  predicate AtClock(p: Policy, o: Offset, m: nat) {
    HourOfDay(o, m) == p.hourOfDay && MinuteOfHour(o, m) == p.minuteOfHour
  }

  /** lxdSnapDue and lxdBackupDue: hour, minute and weekday are local, days and weeks are counted in UTC. */
  predicate Due(p: Policy, o: Offset, m: nat) {
    p.everyN > 0 &&
    match p.unit
    case Minute => MinuteOfHour(o, m) % p.everyN == 0
    case Hour => MinuteOfHour(o, m) == p.minuteOfHour && HourOfDay(o, m) % p.everyN == 0
    case Day => AtClock(p, o, m) && m / 1440 % p.everyN == 0
    case Week => WeekdayOf(o, m) == NormalizeWeekday(p.weekday) && AtClock(p, o, m) && m / 10080 % p.everyN == 0
    case Month =>
      var d := LocalDate(o, m);
      d.day == EffectiveDayOfMonth(p.dayOfMonth, d.year, d.month) && AtClock(p, o, m) && d.month % p.everyN == 1
    case Unknown => false
  }

  // ---- the closed form ----

  /** Minutes of one unit, for the units of fixed length. */
  function UnitMinutes(u: Unit): int {
    match u
    case Minute => 1
    case Hour => 60
    case Day => 1440
    case Week => 10080
    case _ => 0
  }

  function Period(p: Policy): int { p.everyN * UnitMinutes(p.unit) }

  /** A minute of the progression, counted from the epoch; it may lie before it. */
  function Residue(p: Policy, o: Offset): int {
    match p.unit
    case Minute => -o
    case Hour => p.minuteOfHour - o
    case Day => (60 * p.hourOfDay + p.minuteOfHour - o) % 1440
    case Week => ((NormalizeWeekday(p.weekday) - 4) % 7 * 1440 + 60 * p.hourOfDay + p.minuteOfHour - o) % 10080
    case _ => 0
  }

  // ---- division ----

  lemma MulAtLeast(d: int, k: int)
    requires d > 0 && k >= 1
    ensures d * k >= d
  {}

  /** Quotient and remainder are unique. */
  lemma QuotientUnique(x: int, d: int, k: int, r: int)
    requires d > 0 && 0 <= r < d && x == d * k + r
    ensures x / d == k && x % d == r
  {
    var q, s := x / d, x % d;
    assert x == d * q + s;
    assert d * (q - k) == r - s;
    if q > k { MulAtLeast(d, q - k); }
    if q < k { MulAtLeast(d, k - q); }
  }

  /** A multiple of `a` counted in steps of `n` is a multiple of `a * n`. */
  lemma Nested(x: int, a: int, n: int)
    requires a > 0 && n > 0
    ensures a * n > 0
    ensures x / a % n == 0 && x % a == 0 <==> x % (a * n) == 0
  {
    MulAtLeast(a, n);
    var q := x / a;
    if q % n == 0 && x % a == 0 {
      var k := q / n;
      assert x == a * q && q == n * k;
      assert x == (a * n) * k + 0 by { assert a * (n * k) == (a * n) * k; }
      QuotientUnique(x, a * n, k, 0);
    }
    if x % (a * n) == 0 {
      var k := x / (a * n);
      assert x == a * (n * k) + 0 by { assert a * (n * k) == (a * n) * k; }
      QuotientUnique(x, a, n * k, 0);
      QuotientUnique(n * k, n, k, 0);
    }
  }

  /** Moving back by less than one step of `a` from a point at remainder `r` stays in its step. */
  lemma Rebase(x: int, a: int, r: int)
    requires a > 0 && 0 <= r < a
    ensures x % a == r <==> (x - r) % a == 0
    ensures x % a == r ==> (x - r) / a == x / a
  {
    if x % a == r { QuotientUnique(x - r, a, x / a, 0); }
    if (x - r) % a == 0 { QuotientUnique(x, a, (x - r) / a, r); }
  }

  /** The shape all four units share. */
  lemma Steps(x: int, a: int, n: int, r: int)
    requires a > 0 && n > 0 && 0 <= r < a
    ensures a * n > 0
    ensures x % a == r && x / a % n == 0 <==> (x - r) % (a * n) == 0
  {
    Rebase(x, a, r);
    Nested(x - r, a, n);
    if (x - r) % (a * n) == 0 { Rebase(x, a, r); }
  }

  // ---- the progressions ----

  lemma ClockMinute(p: Policy, o: Offset, m: nat)
    requires ClockOk(p)
    ensures AtClock(p, o, m) <==> LocalMinute(o, m) % 1440 == 60 * p.hourOfDay + p.minuteOfHour
  {}

  /** A divisor of a clock unit divides the clock and the whole count alike. */
  lemma ModOfMod(x: int, n: int, c: int)
    requires n > 0 && c > 0
    ensures n * c > 0
    ensures x % (n * c) % n == x % n
  {
    MulAtLeast(n, c);
    var q, s := x / (n * c), x % (n * c);
    assert x == n * (c * q + s / n) + s % n by { assert (n * c) * q == n * (c * q); }
    QuotientUnique(x, n, c * q + s / n, s % n);
  }

  lemma MinuteProgression(p: Policy, o: Offset, m: nat)
    requires Accepted(p) && p.unit == Minute
    ensures Due(p, o, m) <==> (m - Residue(p, o)) % Period(p) == 0
  {
    ModOfMod(m + o, p.everyN, 60 / p.everyN);
  }

  lemma HourProgression(p: Policy, o: Offset, m: nat)
    requires Accepted(p) && p.unit == Hour
    ensures Due(p, o, m) <==> (m - Residue(p, o)) % Period(p) == 0
  {
    ModOfMod((m + o) / 60, p.everyN, 24 / p.everyN);
    Steps(m + o, 60, p.everyN, p.minuteOfHour);
  }

  /** The wall clock names one minute of the UTC day, whatever the offset. */
  lemma DayProgression(p: Policy, o: Offset, m: nat)
    requires Accepted(p) && p.unit == Day
    ensures Due(p, o, m) <==> (m - Residue(p, o)) % Period(p) == 0
  {
    ClockMinute(p, o, m);
    SameRemainder(m, o, 1440, 60 * p.hourOfDay + p.minuteOfHour);
    Steps(m, 1440, p.everyN, Residue(p, o));
  }

  lemma WeekMinute(x: int, day: int, minute: int)
    requires 0 <= day < 7 && 0 <= minute < 1440
    ensures x / 1440 % 7 == day && x % 1440 == minute <==> x % 10080 == day * 1440 + minute
  {}

  /** A clock that runs `o` ahead shows `r` when the count is `r - o`, both modulo `d`. */
  lemma SameRemainder(x: int, o: int, d: int, r: int)
    requires d > 0 && 0 <= r < d
    ensures (x + o) % d == r <==> x % d == (r - o) % d
  {
    var k := (r - o) / d;
    if (x + o) % d == r {
      assert x == d * ((x + o) / d + k) + (r - o) % d;
      QuotientUnique(x, d, (x + o) / d + k, (r - o) % d);
    }
    if x % d == (r - o) % d {
      assert x + o == d * (x / d - k) + r;
      QuotientUnique(x + o, d, x / d - k, r);
    }
  }

  /** Weekday and wall clock name one minute of the UTC week, counted from a Thursday. */
  lemma WeekProgression(p: Policy, o: Offset, m: nat)
    requires Accepted(p) && p.unit == Week
    ensures Due(p, o, m) <==> (m - Residue(p, o)) % Period(p) == 0
  {
    ClockMinute(p, o, m);
    WeekMinute(m + o, (NormalizeWeekday(p.weekday) - 4) % 7, 60 * p.hourOfDay + p.minuteOfHour);
    SameRemainder(LocalDay(o, m), 4, 7, NormalizeWeekday(p.weekday));
    SameRemainder(m, o, 10080, (NormalizeWeekday(p.weekday) - 4) % 7 * 1440 + 60 * p.hourOfDay + p.minuteOfHour);
    Steps(m, 10080, p.everyN, Residue(p, o));
  }

  /** Every accepted minute, hour, day or week policy fires on one arithmetic progression. */
  lemma Progression(p: Policy, o: Offset, m: nat)
    requires Accepted(p) && p.unit != Month
    ensures Due(p, o, m) <==> (m - Residue(p, o)) % Period(p) == 0
  {
    match p.unit
    case Minute => MinuteProgression(p, o, m);
    case Hour => HourProgression(p, o, m);
    case Day => DayProgression(p, o, m);
    case Week => WeekProgression(p, o, m);
  }

  // ---- where the progressions lie ----

  /** A minute policy is due at every full hour of the local clock. */
  lemma MinuteAnchor(p: Policy, o: Offset, m: nat)
    requires Accepted(p) && p.unit == Minute && (m + o) % 60 == 0
    ensures Due(p, o, m)
  {}

  /** An hour policy is due in the hour after local midnight. */
  lemma HourAnchor(p: Policy, o: Offset, m: nat)
    requires Accepted(p) && p.unit == Hour && (m + o) % 1440 == p.minuteOfHour
    ensures Due(p, o, m)
  {}

  /** A day policy is due on the first UTC day, when the local clock shows its hour and minute. */
  lemma DayAnchor(p: Policy, o: Offset, m: nat)
    requires Accepted(p) && p.unit == Day && m < 1440 && (m + o) % 1440 == 60 * p.hourOfDay + p.minuteOfHour
    ensures Due(p, o, m)
  {
    ClockMinute(p, o, m);
  }

  /** A week policy is due in the first UTC week, on the local day with its number, Sunday being 0 and the
      epoch a Thursday, or on Sunday if there is no such day, at its hour and minute. */
  lemma WeekAnchor(p: Policy, o: Offset, m: nat)
    requires Accepted(p) && p.unit == Week && m < 10080 && (m + o) % 1440 == 60 * p.hourOfDay + p.minuteOfHour
    requires ((m + o) / 1440 + 4) % 7 == if 0 <= p.weekday <= 6 then p.weekday else 0
    ensures Due(p, o, m)
  {
    ClockMinute(p, o, m);
  }

  lemma NextDay(x: int)
    ensures ((x + 1440) / 1440 + 4) % 7 == ((x / 1440 + 4) % 7 + 1) % 7
  {
    var day := x / 1440;
    assert (x + 1440) / 1440 == day + 1;
    assert (day + 5) % 7 == ((day + 4) % 7 + 1) % 7;
  }

  /** The day of the week moves on with the local day, and is right for two dates that can be looked up. */
  lemma WeekdayAdvances(o: Offset, m: nat)
    ensures WeekdayOf(o, m + 1440) == (WeekdayOf(o, m) + 1) % 7
    ensures LocalDate(o, m) == Date(1970, 1, 1) ==> WeekdayOf(o, m) == 4
    ensures LocalDate(o, m) == Date(2000, 1, 1) ==> WeekdayOf(o, m) == 6
  {
    NextDay(m + o);
    var a, b, c := KnownDays();
    KnownWeekday(o, m, a);
    KnownWeekday(o, m, b);
  }

  lemma KnownWeekday(o: Offset, m: nat, n: nat)
    ensures LocalDate(o, m) == Civil(n) ==> WeekdayOf(o, m) == (n - 361) % 7
  {
    DateIsCivil(o, m);
    DayNumberOfCivil(n);
  }

  lemma DifferenceOfMultiples(x: int, y: int, d: int)
    requires d > 0 && x % d == 0
    ensures y % d == 0 <==> (y - x) % d == 0
  {
    SameRemainder(y - x, x, d, 0);
    assert 0 - x == d * -(x / d) by { assert x == d * (x / d); }
    QuotientUnique(0 - x, d, -(x / d), 0);
  }

  /** From a due minute, the due ones are those a whole number of periods away. */
  lemma WholePeriodsApart(p: Policy, o: Offset, m: nat, n: nat)
    requires Accepted(p) && p.unit != Month && Due(p, o, m)
    ensures Due(p, o, n) <==> (n - m) % Period(p) == 0
  {
    Progression(p, o, m);
    Progression(p, o, n);
    DifferenceOfMultiples(m - Residue(p, o), n - Residue(p, o), Period(p));
    assert n - Residue(p, o) - (m - Residue(p, o)) == n - m;
  }

  /** A saved policy is one the scheduler can rely on, and a legal one is saved as it stands. */
  lemma SavedPolicyIsAccepted(p: Policy)
    ensures SaveSnap(p).Some? <==> p.everyN in SnapIntervals(p.unit)
    ensures SaveSnap(p).Some? ==>
      var q := SaveSnap(p).value;
      Accepted(q) && 1 <= q.keepLast <= 10000 && q.weekday == NormalizeWeekday(p.weekday) && 1 <= q.dayOfMonth <= 31
    ensures SaveSnap(p).Some? ==>
      var q := SaveSnap(p).value;
      && q.everyN == p.everyN && q.unit == p.unit
      && (p.keepLast < 1 ==> q.keepLast == 1) && (p.keepLast > 10000 ==> q.keepLast == 10000)
      && (1 <= p.keepLast <= 10000 ==> q.keepLast == p.keepLast)
      && q.hourOfDay == (if 0 <= p.hourOfDay < 24 then p.hourOfDay else 0)
      && q.minuteOfHour == (if 0 <= p.minuteOfHour < 60 then p.minuteOfHour else 0)
      && q.weekday == (if 0 <= p.weekday < 7 then p.weekday else 0)
      && q.dayOfMonth == (if 1 <= p.dayOfMonth <= 31 then p.dayOfMonth else 1)
    ensures Accepted(p) && 1 <= p.keepLast <= 10000 && 0 <= p.weekday <= 6 && 1 <= p.dayOfMonth <= 31 ==>
      SaveSnap(p) == Some(p)
  {}

  // ---- the next run ----

  const NS := 60_000_000_000   // nanoseconds in a minute

  const HORIZON := 31 * 1440

  /** The minutes the scan visits for an instant given in nanoseconds. */
  predicate InHorizon(from: nat, t: nat) {
    from / NS < t && t * NS < from + HORIZON * NS
  }

  /** The least due minute in the horizon, or none. */
  ghost predicate IsNextRun(p: Policy, o: Offset, from: nat, r: Option<nat>) {
    match r
    case Some(t) => InHorizon(from, t) && Due(p, o, t) && forall k: nat | from / NS < k < t :: !Due(p, o, k)
    case None => forall k: nat | InHorizon(from, k) :: !Due(p, o, k)
  }

  /** lxdSnapNextRun and lxdBackupNextRun; None is the zero time. */
  method NextRun(p: Policy, o: Offset, from: nat) returns (r: Option<nat>)
    ensures IsNextRun(p, o, from, r)
  {
    var t: nat := from / NS + 1;
    while t * NS < from + HORIZON * NS
      invariant t > from / NS
      invariant forall k: nat | from / NS < k < t :: !Due(p, o, k)
      decreases from + HORIZON * NS - t * NS
    {
      if Due(p, o, t) {
        return Some(t);
      }
      t := t + 1;
    }
    return None;
  }

  /** The scan has one answer. */
  lemma NextRunUnique(p: Policy, o: Offset, from: nat, r: Option<nat>, s: Option<nat>)
    requires IsNextRun(p, o, from, r) && IsNextRun(p, o, from, s)
    ensures r == s
  {}

  /** The least point of a progression from `start` on. */
  lemma FirstPoint(start: int, r: int, d: int)
    requires d > 0
    ensures start <= start + (r - start) % d < start + d
    ensures (start + (r - start) % d - r) % d == 0
  {
    var q := (r - start) / d;
    assert start + (r - start) % d - r == d * -q + 0;
    QuotientUnique(start + (r - start) % d - r, d, -q, 0);
  }

  lemma NoPointBetween(k: int, t: int, r: int, d: int)
    requires d > 0 && t - d < k < t && (t - r) % d == 0
    ensures (k - r) % d != 0
  {
    if (k - r) % d == 0 {
      DifferenceOfMultiples(k - r, t - r, d);
      QuotientUnique(t - k, d, 0, t - k);
    }
  }

  lemma ScanVisits(from: nat, t: nat)
    requires from / NS < t <= from / NS + 40320
    ensures InHorizon(from, t)
  {}

  lemma PeriodFits(p: Policy)
    requires Accepted(p) && p.unit != Month
    ensures 5 <= Period(p) <= 40320
  {}

  /** Minute, hour, day and week policies always have a next run, given by a closed formula. */
  lemma NextRunClosedForm(p: Policy, o: Offset, from: nat, r: Option<nat>)
    requires Accepted(p) && p.unit != Month && IsNextRun(p, o, from, r)
    ensures Period(p) > 0
    ensures var next := from / 60_000_000_000 + 1;
      r == Some(next + (Residue(p, o) - next) % Period(p))
  {
    PeriodFits(p);
    var start := from / NS + 1;
    FirstPoint(start, Residue(p, o), Period(p));
    var t: nat := start + (Residue(p, o) - start) % Period(p);
    Progression(p, o, t);
    ScanVisits(from, t);
    forall k: nat | start <= k < t ensures !Due(p, o, k) {
      NoPointBetween(k, t, Residue(p, o), Period(p));
      Progression(p, o, k);
    }
    NextRunUnique(p, o, from, r, Some(t));
  }

  // ---- months ----

  /** The minute of a calendar month at which a monthly policy is set to fire. */
  function FireMinute(p: Policy, o: Offset, y: int, mo: int): int
    requires y >= BASE_YEAR && 1 <= mo <= 12
  {
    var d := Date(y, mo, EffectiveDayOfMonth(p.dayOfMonth, y, mo));
    (DayNumber(d) - EPOCH_DAY) * 1440 + 60 * p.hourOfDay + p.minuteOfHour - o
  }

  lemma DateIsCivil(o: Offset, m: nat)
    ensures IsDate(LocalDate(o, m)) && DayNumber(LocalDate(o, m)) == LocalDay(o, m) + EPOCH_DAY
  {
    DayNumberOfCivil(LocalDay(o, m) + EPOCH_DAY);
  }

  /** A monthly policy is due in a month at its fire minute, if the month is selected, and then alone. */
  lemma MonthlyDue(p: Policy, o: Offset, m: nat)
    requires Accepted(p) && p.unit == Month
    ensures IsDate(LocalDate(o, m))
    ensures Due(p, o, m) <==>
      var d := LocalDate(o, m);
      d.month % p.everyN == 1 && m == FireMinute(p, o, d.year, d.month)
  {
    DateIsCivil(o, m);
    ClockMinute(p, o, m);
    var d := LocalDate(o, m);
    var e := Date(d.year, d.month, EffectiveDayOfMonth(p.dayOfMonth, d.year, d.month));
    if m == FireMinute(p, o, d.year, d.month) {
      QuotientUnique(m + o, 1440, DayNumber(e) - EPOCH_DAY, 60 * p.hourOfDay + p.minuteOfHour);
      DayNumberInjective(d, e);
    }
  }

  /** When a monthly policy is due, it is the configured day of a selected month, or the last day if the
      month is shorter, at the configured time; a day outside 1 to 31 stands for the first. */
  lemma MonthlyDueDay(p: Policy, o: Offset, m: nat)
    requires Accepted(p) && p.unit == Month && Due(p, o, m)
    ensures var d := LocalDate(o, m);
      && d.month % p.everyN == 1 && (m + o) % 1440 == 60 * p.hourOfDay + p.minuteOfHour
      && (1 <= p.dayOfMonth <= DaysInMonth(d.year, d.month) ==> d.day == p.dayOfMonth)
      && (DaysInMonth(d.year, d.month) < p.dayOfMonth <= 31 ==> d.day == DaysInMonth(d.year, d.month))
      && (!(1 <= p.dayOfMonth <= 31) ==> d.day == 1)
  {
    ClockMinute(p, o, m);
  }

  /** And on that day of every selected month it is due. */
  lemma MonthlyDueExists(p: Policy, o: Offset, y: int, mo: int) returns (m: nat)
    requires Accepted(p) && p.unit == Month && y >= 1971 && 1 <= mo <= 12 && mo % p.everyN == 1
    ensures Due(p, o, m) && LocalDate(o, m).year == y && LocalDate(o, m).month == mo
    ensures (m + o) % 1440 == 60 * p.hourOfDay + p.minuteOfHour
    ensures 1 <= p.dayOfMonth <= DaysInMonth(y, mo) ==> LocalDate(o, m).day == p.dayOfMonth
    ensures DaysInMonth(y, mo) < p.dayOfMonth <= 31 ==> LocalDate(o, m).day == DaysInMonth(y, mo)
    ensures !(1 <= p.dayOfMonth <= 31) ==> LocalDate(o, m).day == 1
  {
    FireMinuteDate(p, o, y, mo);
    m := FireMinute(p, o, y, mo);
    MonthlyDue(p, o, m);
    MonthlyDueDay(p, o, m);
  }

  lemma {:induction false} YearsAfterEpoch(y: int)
    requires y >= 1971
    ensures DaysBeforeYear(y) >= EPOCH_DAY + 365
    decreases y
  {}

  /** The fire minute of a month lies in that month. */
  lemma FireMinuteDate(p: Policy, o: Offset, y: int, mo: int)
    requires ClockOk(p) && y >= 1971 && 1 <= mo <= 12
    ensures FireMinute(p, o, y, mo) >= 0
    ensures LocalDate(o, FireMinute(p, o, y, mo)) == Date(y, mo, EffectiveDayOfMonth(p.dayOfMonth, y, mo))
  {
    var d := Date(y, mo, EffectiveDayOfMonth(p.dayOfMonth, y, mo));
    YearsAfterEpoch(y);
    DayOfYear(d);
    var m := FireMinute(p, o, y, mo);
    QuotientUnique(m + o, 1440, DayNumber(d) - EPOCH_DAY, 60 * p.hourOfDay + p.minuteOfHour);
    CivilOfDayNumber(d);
  }

  /** The fire minutes of the selected months 1, 1 + N, 1 + 2N and so on of one year. */
  function YearFires(p: Policy, o: Offset, y: int): seq<int>
    requires y >= BASE_YEAR && p.everyN in {2, 3, 6, 12}
  {
    seq(12 / p.everyN, i requires 0 <= i < 12 / p.everyN => FireMinute(p, o, y, 1 + i * p.everyN))
  }

  lemma SelectedMonths(n: int, mo: int)
    requires n in {2, 3, 6, 12} && 1 <= mo <= 12
    ensures mo % n == 1 <==> exists i :: 0 <= i < 12 / n && mo == 1 + i * n
  {
    if mo % n == 1 {
      var i := mo / n;
      assert mo == 1 + i * n && 0 <= i < 12 / n;
    }
  }

  /** In every calendar year a monthly policy is due at exactly 12 / N minutes, one in each
      selected month, whatever the day of month and the length of the year. */
  lemma MonthlyYear(p: Policy, o: Offset, y: int)
    requires Accepted(p) && p.unit == Month && p.everyN != 1 && y >= 1971
    ensures |YearFires(p, o, y)| == 12 / p.everyN
    ensures forall i, j | 0 <= i < j < 12 / p.everyN :: YearFires(p, o, y)[i] < YearFires(p, o, y)[j]
    ensures forall m: nat :: Due(p, o, m) && LocalDate(o, m).year == y <==> m in YearFires(p, o, y)
  {
    forall i, j | 0 <= i < j < 12 / p.everyN ensures YearFires(p, o, y)[i] < YearFires(p, o, y)[j] {
      ListedInOrder(p, o, y, i, j);
    }
    forall m: nat ensures Due(p, o, m) && LocalDate(o, m).year == y <==> m in YearFires(p, o, y) { InYear(p, o, y, m); }
  }

  lemma ListedInOrder(p: Policy, o: Offset, y: int, i: nat, j: nat)
    requires Accepted(p) && p.unit == Month && p.everyN != 1 && y >= BASE_YEAR && i < j < 12 / p.everyN
    ensures YearFires(p, o, y)[i] < YearFires(p, o, y)[j]
  {
    FiresGrow(p, o, y, 1 + i * p.everyN, 1 + j * p.everyN);
  }

  lemma InYear(p: Policy, o: Offset, y: int, m: nat)
    requires Accepted(p) && p.unit == Month && p.everyN != 1 && y >= 1971
    ensures Due(p, o, m) && LocalDate(o, m).year == y <==> m in YearFires(p, o, y)
  {
    if Due(p, o, m) && LocalDate(o, m).year == y { DueIsListed(p, o, m); }
    if m in YearFires(p, o, y) {
      var i :| 0 <= i < |YearFires(p, o, y)| && YearFires(p, o, y)[i] == m;
      ListedIsDue(p, o, y, i);
    }
  }

  lemma DueIsListed(p: Policy, o: Offset, m: nat)
    requires Accepted(p) && p.unit == Month && p.everyN != 1 && Due(p, o, m)
    ensures LocalDate(o, m).year >= BASE_YEAR && m in YearFires(p, o, LocalDate(o, m).year)
  {
    MonthlyDue(p, o, m);
    var d := LocalDate(o, m);
    SelectedMonths(p.everyN, d.month);
    var i :| 0 <= i < 12 / p.everyN && d.month == 1 + i * p.everyN;
    assert YearFires(p, o, d.year)[i] == m;
  }

  lemma ListedIsDue(p: Policy, o: Offset, y: int, i: nat)
    requires Accepted(p) && p.unit == Month && p.everyN != 1 && y >= 1971 && i < 12 / p.everyN
    ensures var m := YearFires(p, o, y)[i];
      m >= 0 && Due(p, o, m) && LocalDate(o, m).year == y
  {
    var mo := 1 + i * p.everyN;
    assert mo <= 12;
    SelectedMonths(p.everyN, mo);
    FireMinuteDate(p, o, y, mo);
    MonthlyDue(p, o, FireMinute(p, o, y, mo));
  }

  lemma FiresGrow(p: Policy, o: Offset, y: int, mo: int, mp: int)
    requires ClockOk(p) && y >= BASE_YEAR && 1 <= mo < mp <= 12
    ensures FireMinute(p, o, y, mo) < FireMinute(p, o, y, mp)
  {
    MonthsGrow(y, mo + 1, mp);
  }

  // ---- how far apart ----

  /** The fewest and the most days between one selected month's fire and the next one's. */
  function ShortestGap(n: int): int {
    if n == 2 then 59 else if n == 3 then 89 else if n == 6 then 181 else 365
  }

  function LongestGap(n: int): int {
    if n == 2 then 62 else if n == 3 then 92 else if n == 6 then 184 else 366
  }

  /** The distance from a fire to the next, at the least. */
  function Spacing(p: Policy): int {
    if p.unit == Month then 1440 * ShortestGap(p.everyN) else Period(p)
  }

  function NextYear(y: int, mo: int, n: int): int { if mo + n <= 12 then y else y + 1 }

  function NextMonth(mo: int, n: int): int { if mo + n <= 12 then mo + n else 1 }

  /** Days before the months a policy may select. */
  lemma DaysBefore(y: int)
    ensures DaysBeforeMonth(y, 1) == 0
    ensures var f := DaysInMonth(y, 2);
      && DaysBeforeMonth(y, 3) == 31 + f && DaysBeforeMonth(y, 4) == 62 + f && DaysBeforeMonth(y, 5) == 92 + f
      && DaysBeforeMonth(y, 7) == 153 + f && DaysBeforeMonth(y, 9) == 215 + f && DaysBeforeMonth(y, 10) == 245 + f
      && DaysBeforeMonth(y, 11) == 276 + f && DaysBeforeMonth(y, 13) == 337 + f
  {
    assert DaysBeforeMonth(y, 2) == 31;
    assert DaysBeforeMonth(y, 4) == DaysBeforeMonth(y, 3) + 31;
    assert DaysBeforeMonth(y, 6) == DaysBeforeMonth(y, 5) + 31;
    assert DaysBeforeMonth(y, 8) == DaysBeforeMonth(y, 7) + 31;
    assert DaysBeforeMonth(y, 10) == DaysBeforeMonth(y, 9) + 30;
    assert DaysBeforeMonth(y, 12) == DaysBeforeMonth(y, 11) + 30;
  }

  /** The fires of one selected month and the next are as many days apart as the months and the clamped
      days make them. */
  lemma MonthGap(p: Policy, o: Offset, y: int, mo: int)
    requires Accepted(p) && p.unit == Month && y >= BASE_YEAR && 1 <= mo <= 12 && mo % p.everyN == 1
    ensures NextMonth(mo, p.everyN) % p.everyN == 1
    ensures var gap := FireMinute(p, o, NextYear(y, mo, p.everyN), NextMonth(mo, p.everyN)) - FireMinute(p, o, y, mo);
      1440 * ShortestGap(p.everyN) <= gap <= 1440 * LongestGap(p.everyN)
  {
    var z, mp := NextYear(y, mo, p.everyN), NextMonth(mo, p.everyN);
    NextIsSelected(mo, p.everyN);
    if mo + p.everyN > 12 {
      LastGap(p.dayOfMonth, y, mo, p.everyN);
      assert DaysBeforeYear(z) - DaysBeforeYear(y) == DaysInYear(y) && DaysBeforeMonth(z, mp) == 0;
    } else {
      InnerGap(p.dayOfMonth, y, mo, p.everyN);
    }
    FireDays(p, o, y, mo, z, mp);
  }

  lemma FireDays(p: Policy, o: Offset, y: int, mo: int, z: int, mp: int)
    requires y >= BASE_YEAR && z >= BASE_YEAR && 1 <= mo <= 12 && 1 <= mp <= 12
    ensures FireMinute(p, o, z, mp) - FireMinute(p, o, y, mo) == 1440
      * (DaysBeforeYear(z) - DaysBeforeYear(y) + DaysBeforeMonth(z, mp) - DaysBeforeMonth(y, mo)
         + EffectiveDayOfMonth(p.dayOfMonth, z, mp) - EffectiveDayOfMonth(p.dayOfMonth, y, mo))
  {}

  lemma NextIsSelected(mo: int, n: int)
    requires 1 <= mo <= 12 && n in {2, 3, 6, 12} && mo % n == 1
    ensures NextMonth(mo, n) % n == 1
  {
    if mo + n <= 12 { QuotientUnique(mo + n, n, mo / n + 1, 1); }
  }

  /** From the last selected month of a year to January. */
  lemma LastGap(dom: int, y: int, mo: int, n: int)
    requires y >= BASE_YEAR && 1 <= mo <= 12 < mo + n && n in {2, 3, 6, 12} && mo % n == 1
    ensures var days := DaysInYear(y) - DaysBeforeMonth(y, mo)
        + EffectiveDayOfMonth(dom, y + 1, 1) - EffectiveDayOfMonth(dom, y, mo);
      ShortestGap(n) <= days <= LongestGap(n)
  {
    DaysBefore(y);
  }

  lemma InnerGap(dom: int, y: int, mo: int, n: int)
    requires 1 <= mo < mo + n <= 12 && n in {2, 3, 6, 12} && mo % n == 1
    ensures var days := DaysBeforeMonth(y, mo + n) - DaysBeforeMonth(y, mo)
        + EffectiveDayOfMonth(dom, y, mo + n) - EffectiveDayOfMonth(dom, y, mo);
      ShortestGap(n) <= days <= LongestGap(n)
  {
    DaysBefore(y);
  }

  lemma FiresInOrder(p: Policy, o: Offset, y: int, mo: int, z: int, mp: int)
    requires ClockOk(p) && BASE_YEAR <= y <= z && 1 <= mo <= 12 && 1 <= mp <= 12 && (y < z || mo <= mp)
    ensures FireMinute(p, o, y, mo) <= FireMinute(p, o, z, mp)
  {
    if y < z {
      DayOfYear(Date(y, mo, EffectiveDayOfMonth(p.dayOfMonth, y, mo)));
      DayOfYear(Date(z, mp, EffectiveDayOfMonth(p.dayOfMonth, z, mp)));
      YearsGrow(y, z);
    } else if mo < mp {
      FiresGrow(p, o, y, mo, mp);
    }
  }

  /** A later selected month is at least N months later. */
  lemma SelectedAfter(n: int, mo: int, mp: int)
    requires n in {2, 3, 6, 12} && 1 <= mo < mp <= 12 && mo % n == 1 && mp % n == 1
    ensures mo + n <= mp
  {}

  /** Fires of a monthly policy are 59, 89, 181 or 365 days apart at the least. */
  lemma MonthlyFiresApart(p: Policy, o: Offset, m: nat, n: nat)
    requires Accepted(p) && p.unit == Month && m < n && Due(p, o, m) && Due(p, o, n)
    ensures n - m >= 1440 * ShortestGap(p.everyN)
  {
    MonthlyDue(p, o, m);
    MonthlyDue(p, o, n);
    var d, e := LocalDate(o, m), LocalDate(o, n);
    if e.year < d.year || (e.year == d.year && e.month <= d.month) {
      FiresInOrder(p, o, e.year, e.month, d.year, d.month);
    } else {
      if d.year == e.year { SelectedAfter(p.everyN, d.month, e.month); }
      MonthGap(p, o, d.year, d.month);
      FiresInOrder(p, o, NextYear(d.year, d.month, p.everyN), NextMonth(d.month, p.everyN), e.year, e.month);
    }
  }

  /** Distinct fires are a period apart, for months their shortest gap: at least five minutes, and for
      backups at least twenty. */
  lemma FiresApart(p: Policy, o: Offset, m: nat, n: nat)
    requires Accepted(p) && m < n && Due(p, o, m) && Due(p, o, n)
    ensures n - m >= Spacing(p) >= 5
    ensures AcceptedBackup(p) ==> n - m >= 20
  {
    if p.unit == Month {
      MonthlyFiresApart(p, o, m, n);
    } else {
      WholePeriodsApart(p, o, m, n);
      if n - m < Period(p) { QuotientUnique(n - m, Period(p), 0, n - m); }
    }
  }

  /** The scan for a monthly policy finds its next fire exactly if that is less than 31 days away. */
  lemma MonthlyNextRun(p: Policy, o: Offset, from: nat, n: nat, r: Option<nat>)
    requires Accepted(p) && p.unit == Month && IsNextRun(p, o, from, r)
    requires from / NS < n && Due(p, o, n) && forall k: nat | from / NS < k < n :: !Due(p, o, k)
    ensures r == if n * NS < from + HORIZON * NS then Some(n) else None
  {
    if n * NS < from + HORIZON * NS {
      NextRunUnique(p, o, from, r, Some(n));
    } else {
      forall k: nat | InHorizon(from, k) ensures !Due(p, o, k) {}
      NextRunUnique(p, o, from, r, None);
    }
  }

  /** So it finds none from a fire until 31 days before the next, which is for 28 days at least. */
  lemma NoneShownAfterFire(p: Policy, o: Offset, from: nat, m: nat, n: nat, r: Option<nat>)
    requires Accepted(p) && p.unit == Month && IsNextRun(p, o, from, r)
    requires m < n && Due(p, o, m) && Due(p, o, n) && forall k: nat | m < k < n :: !Due(p, o, k)
    requires m * NS <= from < n * NS
    ensures r == None <==> from <= (n - HORIZON) * NS
    ensures n - HORIZON >= m + 28 * 1440
  {
    MonthlyFiresApart(p, o, m, n);
    MonthlyNextRun(p, o, from, n, r);
  }

  /** Validation accepts "every 1 month", and such a policy never fires. */
  lemma EveryMonthNeverFires(p: Policy, o: Offset, m: nat)
    requires p.unit == Month && p.everyN == 1
    ensures p.everyN in SnapIntervals(p.unit) && !Due(p, o, m)
  {}

  lemma MonthlyFiresAgain(p: Policy, o: Offset, from: nat) returns (m: nat)
    requires Accepted(p) && p.unit == Month && p.everyN != 1
    ensures m > from && Due(p, o, m)
  {
    DateIsCivil(o, from);
    var y := LocalDate(o, from).year + 2;
    FireMinuteDate(p, o, y, 1);
    m := FireMinute(p, o, y, 1);
    MonthlyDue(p, o, m);
    DayOfYear(LocalDate(o, from));
    YearsGrow(y - 2, y);
    YearsGrow(y - 2, y - 1);
    DayOfYear(LocalDate(o, m));
  }

  lemma ProgressionFiresAgain(p: Policy, o: Offset, from: nat) returns (m: nat)
    requires Accepted(p) && p.unit != Month
    ensures m > from && Due(p, o, m)
  {
    PeriodFits(p);
    FirstPoint(from + 1, Residue(p, o), Period(p));
    m := from + 1 + (Residue(p, o) - (from + 1)) % Period(p);
    Progression(p, o, m);
  }

  /** Nor does one without a count or a unit the scheduler knows. */
  lemma UnknownNeverFires(p: Policy, o: Offset, m: nat)
    requires p.everyN <= 0 || p.unit == Unknown
    ensures !Due(p, o, m)
  {}

  /** An accepted policy fires again after every instant, unless it is "every 1 month". */
  lemma FiresAgain(p: Policy, o: Offset, from: nat)
    requires Accepted(p)
    ensures (exists m: nat :: m > from && Due(p, o, m)) <==> !(p.unit == Month && p.everyN == 1)
  {
    if p.unit != Month {
      var m := ProgressionFiresAgain(p, o, from);
    } else if p.everyN != 1 {
      var m := MonthlyFiresAgain(p, o, from);
    } else {
      forall m: nat ensures !Due(p, o, m) { EveryMonthNeverFires(p, o, m); }
    }
  }
}
