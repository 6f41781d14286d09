/** The daily run window of a sync (handlers/extstorage.go). Instants are nanoseconds since the
    epoch; the local clock is a fixed offset from it. */
module RsyncWindow {
  import opened Options
  import opened Text

  const MINUTE: int := 60_000_000_000
  const DAY: int := 1440 * MINUTE

  datatype Window = Window(start: string, end: string)

  /** parseHHMM, as minutes of the day. */
  function ParseHHMM(s: string): (r: Option<int>)
    ensures r.Some? ==> 0 <= r.value < 1440
  {
    match Cut(s, ':')
    case None => None
    case Some((hours, minutes)) =>
      var h := ParseInt(hours);
      var m := ParseInt(minutes);
      if !h.ok || !m.ok || h.value < 0 || h.value > 23 || m.value < 0 || m.value > 59 then None
      else Some(h.value * 60 + m.value)
  }

  function TwoDigits(n: nat): string
    requires n < 100
  {
    [Digit(n / 10), Digit(n % 10)]
  }

  lemma PairValue(a: char, b: char)
    requires IsDigit(a) && IsDigit(b)
    ensures AllDigits([a, b]) && DigitsValue([a, b]) == 10 * DigitValue(a) + DigitValue(b)
  {
    assert [a, b][..1] == [a] && [a][..0] == "";
    assert DigitsValue([a]) == DigitValue(a);
  }

  lemma ParsePair(a: char, b: char)
    requires IsDigit(a) && IsDigit(b)
    ensures AllDigits([a, b]) && ParseInt([a, b]) == Parsed(10 * DigitValue(a) + DigitValue(b), true)
  {
    PairValue(a, b);
    assert Unsigned([a, b]) == [a, b];
  }

  lemma DigitOfValue(d: nat)
    requires d < 10
    ensures IsDigit(Digit(d)) && DigitValue(Digit(d)) == d
  {}

  lemma ParseTwoDigits(n: nat)
    requires n < 100
    ensures AllDigits(TwoDigits(n)) && ParseInt(TwoDigits(n)) == Parsed(n, true)
  {
    DigitOfValue(n / 10);
    DigitOfValue(n % 10);
    ParsePair(Digit(n / 10), Digit(n % 10));
  }

  /** Every time of day can be written as HH:MM and is read back. */
  lemma ParseHHMMOfPrinted(h: nat, m: nat)
    requires h < 24 && m < 60
    ensures ParseHHMM(TwoDigits(h) + [':'] + TwoDigits(m)) == Some(h * 60 + m)
  {
    ParseTwoDigits(h);
    ParseTwoDigits(m);
    ParseHHMMOf(TwoDigits(h), TwoDigits(m), h, m);
  }

  /** Only a text of two numbers about a colon, an hour and a minute, is a time of day. */
  lemma OnlyTimesParse(s: string, a: string, b: string)
    requires ':' !in a && s == a + [':'] + b
    ensures ParseHHMM(s).Some? <==>
      ParseInt(a).ok && ParseInt(b).ok && 0 <= ParseInt(a).value < 24 && 0 <= ParseInt(b).value < 60
    ensures ParseHHMM(s).Some? ==> ParseHHMM(s).value == 60 * ParseInt(a).value + ParseInt(b).value
  {
    CutAt(a, ':', b);
  }

  lemma NoColonNoTime(s: string)
    requires ':' !in s
    ensures ParseHHMM(s) == None
  {}

  lemma ParseHHMMOf(a: string, b: string, h: nat, m: nat)
    requires AllDigits(a) && ParseInt(a) == Parsed(h, true) && ParseInt(b) == Parsed(m, true) && h < 24 && m < 60
    ensures ParseHHMM(a + [':'] + b) == Some(h * 60 + m)
  {
    assert ':' !in a;
    CutAt(a, ':', b);
  }

  /** A valid window, in minutes of the day. */
  type DayMinute = m: int | 0 <= m < 1440
  datatype Bounds = Bounds(start: DayMinute, end: DayMinute)

  /** The window is configured (rsyncWindowConfigured) if both ends are valid. */
  function BoundsOf(w: Window): Option<Bounds> {
    if ParseHHMM(w.start).Some?
      && ParseHHMM(w.end).Some? then Some(Bounds(ParseHHMM(w.start).value, ParseHHMM(w.end).value))
    else None
  }

  /** A window begins at the time it has as its start and ends at the one it has as its end. */
  lemma BoundsOfTimes(w: Window, start: int, end: int)
    requires ParseHHMM(w.start) == Some(start) && ParseHHMM(w.end) == Some(end)
    ensures BoundsOf(w).Some? && BoundsOf(w).value.start == start && BoundsOf(w).value.end == end
  {}

  function Trimmed(w: Window): Window {
    Window(TrimSpace(w.start), TrimSpace(w.end))
  }

  predicate CanSave(t: Window) {
    (t.start == "") == (t.end == "") && (t.start != "" ==> ParseHHMM(t.start).Some? && ParseHHMM(t.end).Some?)
  }

  /** What HandleExtStorageSetRsync makes of a window: refused, or saved without surrounding spaces. */
  function SaveWindow(w: Window): Option<Window> {
    if CanSave(Trimmed(w)) then Some(Trimmed(w)) else None
  }

  lemma EmptyIsNoTime()
    ensures ParseHHMM("").None?
  {}

  lemma CanSaveIff(t: Window)
    ensures CanSave(t) <==> t == Window("", "") || BoundsOf(t).Some?
    ensures BoundsOf(Window("", "")).None?
  {
    EmptyIsNoTime();
  }

  /** A window is saved exactly if, trimmed, it is empty or valid; and a saved one is in force unless it is empty. */
  lemma SavedWindowIsInForce(w: Window)
    ensures var t := Window(TrimSpace(w.start), TrimSpace(w.end));
      && (SaveWindow(w).Some? <==> t == Window("", "") || BoundsOf(t).Some?)
      && (SaveWindow(w).Some? ==> SaveWindow(w).value == t)
    ensures SaveWindow(w).Some? ==> (BoundsOf(SaveWindow(w).value).None? <==> SaveWindow(w).value == Window("", ""))
  {
    CanSaveIff(Trimmed(w));
  }

  function MinuteOfDay(now: int, offset: int): int {
    (now + offset) / MINUTE % 1440
  }

  predicate Open(start: int, end: int, cur: int) {
    if start < end then start <= cur && cur < end
    else cur >= start || cur < end
  }

  /** rsyncInWindow; without a valid window the time is always right. */
  predicate InWindow(w: Option<Bounds>, now: int, offset: int) {
    w.None? || w.value.start == w.value.end || Open(w.value.start, w.value.end, MinuteOfDay(now, offset))
  }

  /** rsyncNextWindowStart of a valid window: the start today, or tomorrow if that is not after now. */
  function NextStart(w: Bounds, now: int, offset: int): int {
    var today := now - (now + offset) % DAY + w.start * MINUTE;
    if today > now then today else today + DAY
  }

  // ---- what the window means ----

  /** Membership in a window is membership in an interval of the 24-hour circle; without a window, and in one
      that ends as it begins, the time is always right. */
  lemma InWindowIsCyclic(w: Bounds, now: int, offset: int)
    ensures w.start != w.end ==>
      (InWindow(Some(w), now, offset)
       <==> (MinuteOfDay(now, offset) - w.start) % 1440 < (w.end - w.start) % 1440)
    ensures w.start == w.end ==> InWindow(Some(w), now, offset)
    ensures InWindow(None, now, offset)
  {}

  function TimeOfDay(now: int, offset: int): int {
    (now + offset) % DAY
  }

  lemma MinuteOfTimeOfDay(now: int, offset: int)
    ensures MinuteOfDay(now, offset) * MINUTE <= TimeOfDay(now, offset) < (MinuteOfDay(now, offset) + 1) * MINUTE
  {}

  lemma Later(now: int, m: int, offset: int)
    requires now <= m < now + DAY
    ensures TimeOfDay(m, offset) ==
      if TimeOfDay(now, offset) + (m - now) < DAY then TimeOfDay(now, offset) + (m - now)
        else TimeOfDay(now, offset) + (m - now) - DAY
  {}

  /** The window in nanoseconds of the day. */
  lemma OpenByTime(w: Bounds, now: int, offset: int)
    ensures Open(w.start, w.end, MinuteOfDay(now, offset))
      <==> Open(w.start * MINUTE, w.end * MINUTE, TimeOfDay(now, offset))
  {
    MinuteOfTimeOfDay(now, offset);
  }

  lemma ClosedUntil(w: Bounds, now: int, offset: int, m: int)
    requires !InWindow(Some(w), now, offset) && now <= m < NextStart(w, now, offset)
    ensures !InWindow(Some(w), m, offset) && NextStart(w, m, offset) == NextStart(w, now, offset)
  {
    OpenByTime(w, now, offset);
    OpenByTime(w, m, offset);
    var t := TimeOfDay(now, offset);
    assert 0 <= t < DAY;
    Later(now, m, offset);
  }

  lemma OpenFrom(w: Bounds, now: int, offset: int, m: int)
    requires NextStart(w, now, offset) <= m < NextStart(w, now, offset) + MINUTE
    ensures InWindow(Some(w), m, offset)
  {}

  /** From an instant outside the window, the next start is in the window for a whole minute, later
      than now and at most a day away; until then the window stays closed and the next start the same. */
  lemma NextStartOpens(w: Bounds, now: int, offset: int)
    requires !InWindow(Some(w), now, offset)
    ensures now < NextStart(w, now, offset) <= now + DAY
    ensures forall m | now <= m < NextStart(w, now, offset) ::
      !InWindow(Some(w), m, offset) && NextStart(w, m, offset) == NextStart(w, now, offset)
    ensures forall m | NextStart(w, now, offset) <= m < NextStart(w, now, offset) + MINUTE ::
      InWindow(Some(w), m, offset)
  {
    var next := NextStart(w, now, offset);
    forall m | now <= m < next
      ensures !InWindow(Some(w), m, offset) && NextStart(w, m, offset) == next
    {
      ClosedUntil(w, now, offset, m);
    }
    forall m | next <= m < next + MINUTE ensures InWindow(Some(w), m, offset) {
      OpenFrom(w, now, offset, m);
    }
  }

  /** Also from an instant in the window the next start is later, at most a day away, and opens it. */
  lemma NextStartIsLater(w: Bounds, now: int, offset: int)
    ensures now < NextStart(w, now, offset) <= now + DAY
    ensures forall m | NextStart(w, now, offset) <= m < NextStart(w, now, offset) + MINUTE ::
      InWindow(Some(w), m, offset)
  {
    forall m | NextStart(w, now, offset) <= m < NextStart(w, now, offset) + MINUTE
      ensures InWindow(Some(w), m, offset) {
      OpenFrom(w, now, offset, m);
    }
  }
}
