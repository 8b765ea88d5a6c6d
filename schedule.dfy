/**
 * The date, weekday and time-of-day window that decides whether a special
 * (`isSpecialValid`, `lib/specials/sheetsSpecialsCsv.ts`) or a ticker message
 * (`isTickerMessageValid`, `lib/ticker-csv.ts`) is shown now; the two are identical.
 *
 * The current wall-clock time in the restaurant's time zone is a parameter with a whole
 * number of seconds, as the locale-formatted string it is rebuilt from carries no
 * milliseconds.
 */
module Schedule {
  import opened Wrappers
  import opened Text

  /** `getDay()` order. */
  const WeekdayNames: seq<string> := ["sun", "mon", "tue", "wed", "thu", "fri", "sat"]

  datatype LocalTime = LocalTime(year: int, month: int, day: int, weekday: int, hour: int, minute: int, second: int)

  predicate ValidTime(t: LocalTime) {
    1 <= t.month <= 12 && 1 <= t.day <= 31 && 0 <= t.weekday < 7
    && 0 <= t.hour < 24 && 0 <= t.minute < 60 && 0 <= t.second < 60
  }

  datatype Date = Date(year: int, month: int, day: int)

  /** The window fields of a special or ticker message. */
  datatype Window = Window(
    startDate: Option<string>,
    endDate: Option<string>,
    daysOfWeek: Option<seq<string>>,
    startTime: Option<string>,
    endTime: Option<string>)

  /** JavaScript truthiness of an optional string. */
  predicate Truthy(s: Option<string>) {
    s.Some? && s.value != ""
  }

  /** Gregorian leap years. */
  predicate IsLeapYear(y: int) {
    y % 4 == 0 && (y % 100 != 0 || y % 400 == 0)
  }

  function DaysInMonth(y: int, m: int): (n: int)
    requires 1 <= m <= 12
    ensures 28 <= n <= 31 && (m == 12 ==> n == 31)
  {
    if m == 2 then (if IsLeapYear(y) then 29 else 28)
    else if m == 4 || m == 6 || m == 9 || m == 11 then 30
    else 31
  }

  /** A date on the calendar. */
  predicate IsCalendarDate(d: Date) {
    1 <= d.month <= 12 && 1 <= d.day <= DaysInMonth(d.year, d.month)
  }

  /** `new Date(s + 'T…')` for a `YYYY-MM-DD` date, as V8 reads it: a month in 1..12 and a
      day in 1..31, where a day past the month's end runs on into the next month (April 31
      is May 1). `None` stands for an invalid date, which makes every comparison with it
      false. */
  function ParseDate(s: string): (r: Option<Date>)
    ensures r.Some? ==> IsCalendarDate(r.value)
  {
    if |s| == 10 && s[4] == '-' && s[7] == '-'
       && AllDigits(s[..4]) && AllDigits(s[5..7]) && AllDigits(s[8..])
       && 1 <= DigitsValue(s[5..7]) <= 12 && 1 <= DigitsValue(s[8..]) <= 31
    then RollOver(DigitsValue(s[..4]), DigitsValue(s[5..7]), DigitsValue(s[8..]))
    else None
  }

  /** The date `day` days into the month, up to 31. */
  function RollOver(year: int, month: int, day: int): (r: Option<Date>)
    requires 1 <= month <= 12 && 1 <= day <= 31
    ensures r.Some? && IsCalendarDate(r.value)
    ensures day <= DaysInMonth(year, month) ==> r.value == Date(year, month, day)
    ensures day > DaysInMonth(year, month) ==>
      r.value == Date(year, month + 1, day - DaysInMonth(year, month))
  {
    var n := DaysInMonth(year, month);
    if day <= n then Some(Date(year, month, day))
    else Some(Date(year, month + 1, day - n))
  }

  /** April 31 is read as May 1. */
  lemma ParseDateRollsOver()
    ensures ParseDate("2024-04-31") == Some(Date(2024, 5, 1))
  {
    var s := "2024-04-31";
    assert s[..4] == "2024" && s[5..7] == "04" && s[8..] == "31";
    Year2024();
    assert DigitsValue("04") == 4 by { assert "04"[..1] == "0"; }
    assert DigitsValue("31") == 31 by { assert "31"[..1] == "3"; }
  }

  /** February 29 is kept in a leap year... */
  lemma ParseDateLeapDay()
    ensures ParseDate("2024-02-29") == Some(Date(2024, 2, 29))
  {
    var s := "2024-02-29";
    assert s[..4] == "2024" && s[5..7] == "02" && s[8..] == "29";
    Year2024();
    Month02Day29();
  }

  /** ...and runs on into March otherwise. */
  lemma ParseDateNoLeapDay()
    ensures ParseDate("2023-02-29") == Some(Date(2023, 3, 1))
  {
    var t := "2023-02-29";
    assert t[..4] == "2023" && t[5..7] == "02" && t[8..] == "29";
    assert DigitsValue("2023") == 2023 by {
      assert "2023"[..3] == "202" && "202"[..2] == "20" && "20"[..1] == "2";
    }
    Month02Day29();
  }

  lemma Month02Day29()
    ensures DigitsValue("02") == 2 && DigitsValue("29") == 29
  {
    assert "02"[..1] == "0" && "29"[..1] == "2";
  }

  lemma Year2024()
    ensures DigitsValue("2024") == 2024
  {
    assert "2024"[..3] == "202" && "202"[..2] == "20" && "20"[..1] == "2";
  }

  /** A position on the time line, in seconds, for a date and a time of day; increasing in
      the date, then in the time. */
  function Seconds(d: Date, hour: int, minute: int, second: int): int {
    ((d.year * 12 + d.month) * 31 + d.day) * 86400 + hour * 3600 + minute * 60 + second
  }

  function NowSeconds(now: LocalTime): int {
    Seconds(Date(now.year, now.month, now.day), now.hour, now.minute, now.second)
  }

  /** `const [h, m] = s.split(':').map(Number); h * 60 + m`, `None` for `NaN` (a missing
      minute part or a piece that is not a number). */
  function ClockMinutes(s: string): Option<int> {
    PiecesMinutes(Split(s, ':'))
  }

  function PiecesMinutes(pieces: seq<string>): Option<int> {
    if |pieces| < 2 then None
    else if NumberValue(pieces[0]).Some? && NumberValue(pieces[1]).Some? then
      Some(NumberValue(pieces[0]).value * 60 + NumberValue(pieces[1]).value)
    else None
  }

  function MinuteOfDay(now: LocalTime): int {
    now.hour * 60 + now.minute
  }

  /** The date checks: not before the start date's midnight, not after the end date's
      23:59:59. */
  predicate WithinDates(w: Window, now: LocalTime) {
    && !(Truthy(w.startDate) && ParseDate(w.startDate.value).Some?
         && NowSeconds(now) < Seconds(ParseDate(w.startDate.value).value, 0, 0, 0))
    && !(Truthy(w.endDate) && ParseDate(w.endDate.value).Some?
         && NowSeconds(now) > Seconds(ParseDate(w.endDate.value).value, 23, 59, 59))
  }

  /** The weekday check, which only a non-empty list imposes. */
  predicate OnAllowedDay(w: Window, now: LocalTime)
    requires 0 <= now.weekday < 7
  {
    !(w.daysOfWeek.Some? && |w.daysOfWeek.value| > 0 && WeekdayNames[now.weekday] !in w.daysOfWeek.value)
  }

  /** The time-of-day checks, inclusive at both ends. */
  predicate WithinHours(w: Window, now: LocalTime) {
    && !(Truthy(w.startTime) && ClockMinutes(w.startTime.value).Some?
         && MinuteOfDay(now) < ClockMinutes(w.startTime.value).value)
    && !(Truthy(w.endTime) && ClockMinutes(w.endTime.value).Some?
         && MinuteOfDay(now) > ClockMinutes(w.endTime.value).value)
  }

  /** `isSpecialValid` / `isTickerMessageValid`: the early returns in order. */
  function IsActiveAt(w: Window, now: LocalTime): (b: bool)
    requires ValidTime(now)
    ensures b <==> WithinDates(w, now) && OnAllowedDay(w, now) && WithinHours(w, now)
  {
    if Truthy(w.startDate) && ParseDate(w.startDate.value).Some?
       && NowSeconds(now) < Seconds(ParseDate(w.startDate.value).value, 0, 0, 0) then false
    else if Truthy(w.endDate) && ParseDate(w.endDate.value).Some?
       && NowSeconds(now) > Seconds(ParseDate(w.endDate.value).value, 23, 59, 59) then false
    else if w.daysOfWeek.Some? && |w.daysOfWeek.value| > 0
       && WeekdayNames[now.weekday] !in w.daysOfWeek.value then false
    else if Truthy(w.startTime) || Truthy(w.endTime) then
      var currentTime := MinuteOfDay(now);
      if Truthy(w.startTime) && ClockMinutes(w.startTime.value).Some?
         && currentTime < ClockMinutes(w.startTime.value).value then false
      else if Truthy(w.endTime) && ClockMinutes(w.endTime.value).Some?
         && currentTime > ClockMinutes(w.endTime.value).value then false
      else true
    else true
  }

  function DateOf(now: LocalTime): Date {
    Date(now.year, now.month, now.day)
  }

  /** Dates in calendar order. */
  predicate DateLeq(a: Date, b: Date) {
    a.year < b.year || (a.year == b.year && (a.month < b.month || (a.month == b.month && a.day <= b.day)))
  }

  lemma {:induction false} SecondsOrder(a: Date, b: Date, h1: int, m1: int, s1: int, h2: int, m2: int, s2: int)
    requires 1 <= a.month <= 12 && 1 <= a.day <= 31 && 1 <= b.month <= 12 && 1 <= b.day <= 31
    requires 0 <= h1 * 3600 + m1 * 60 + s1 < 86400 && 0 <= h2 * 3600 + m2 * 60 + s2 < 86400
    ensures a != b ==> (Seconds(a, h1, m1, s1) < Seconds(b, h2, m2, s2) <==> DateLeq(a, b))
  {
    var ka := (a.year * 12 + a.month) * 31 + a.day;
    var kb := (b.year * 12 + b.month) * 31 + b.day;
    assert DateLeq(a, b) <==> ka <= kb;
    if a != b {
      assert ka != kb;
    }
  }

  /** The date checks keep exactly the days from the start date to the end date, both
      included: the end date's last second is 23:59:59. */
  lemma {:induction false} DatesByDay(start: string, end: string, now: LocalTime)
    requires ValidTime(now)
    requires ParseDate(start).Some? && ParseDate(end).Some?
    ensures WithinDates(Window(Some(start), Some(end), None, None, None), now)
            <==> DateLeq(ParseDate(start).value, DateOf(now)) && DateLeq(DateOf(now), ParseDate(end).value)
  {
    var s := ParseDate(start).value;
    var e := ParseDate(end).value;
    SecondsOrder(DateOf(now), s, now.hour, now.minute, now.second, 0, 0, 0);
    SecondsOrder(e, DateOf(now), 23, 59, 59, now.hour, now.minute, now.second);
    assert start != "" && end != "";
  }

  /** An empty day list restricts nothing. */
  lemma EmptyDayListAllowsAll(w: Window, now: LocalTime)
    requires ValidTime(now)
    ensures IsActiveAt(w.(daysOfWeek := Some([])), now) == IsActiveAt(w.(daysOfWeek := None), now)
  {
  }

  /** With both times readable, the window is inclusive at both ends and does not wrap past
      midnight: a window that closes before it opens never holds. */
  lemma {:induction false} HoursInclusive(w: Window, now: LocalTime)
    requires ValidTime(now)
    requires Truthy(w.startTime) && Truthy(w.endTime)
    requires ClockMinutes(w.startTime.value).Some? && ClockMinutes(w.endTime.value).Some?
    ensures WithinHours(w, now)
            <==> ClockMinutes(w.startTime.value).value <= MinuteOfDay(now) <= ClockMinutes(w.endTime.value).value
    ensures ClockMinutes(w.endTime.value).value < ClockMinutes(w.startTime.value).value ==> !WithinHours(w, now)
  {
  }

  /** A two-digit number reads back as itself. */
  lemma {:induction false} NumberValueOfPad2(n: nat)
    requires n < 100
    ensures NumberValue(Pad2(n)) == Some(n)
    ensures ':' !in Pad2(n)
  {
    var a := Pad2(n);
    var digits := [DigitChar(n / 10), DigitChar(n % 10)];
    if n >= 10 {
      assert NatToString(n / 10) == [DigitChar(n / 10)];
    }
    assert a == digits;
    assert DigitsValue(digits) == DigitsValue([DigitChar(n / 10)]) * 10 + n % 10 by {
      assert digits[..1] == [DigitChar(n / 10)];
    }
    assert DigitsValue([DigitChar(n / 10)]) == n / 10 by {
      assert [DigitChar(n / 10)][..0] == [];
    }
    TrimUnchanged(a);
  }

  lemma {:induction false} ClockMinutesOfParts(a: string, b: string, h: int, m: int)
    requires ':' !in a && ':' !in b
    requires NumberValue(a) == Some(h) && NumberValue(b) == Some(m)
    ensures ClockMinutes(a + ":" + b) == Some(h * 60 + m)
  {
    SplitPair(a, b);
    PiecesMinutesPair(a, b, h, m);
  }

  lemma {:induction false} SplitPair(a: string, b: string)
    requires ':' !in a && ':' !in b
    ensures Split(a + ":" + b, ':') == [a, b]
  {
    assert a + ":" + b == a + [':'] + b;
    SplitAppend(a, b, ':');
    SplitNoSeparator(b, ':');
  }

  lemma {:induction false} PiecesMinutesPair(a: string, b: string, h: int, m: int)
    requires NumberValue(a) == Some(h) && NumberValue(b) == Some(m)
    ensures PiecesMinutes([a, b]) == Some(h * 60 + m)
  {
    var pieces := [a, b];
    assert pieces[0] == a && pieces[1] == b;
  }

  /** An `HH:MM` time reads as its minute of the day. */
  lemma {:induction false} ClockMinutesOfPadded(h: nat, m: nat)
    requires h < 24 && m < 60
    ensures ClockMinutes(Pad2(h) + ":" + Pad2(m)) == Some(h * 60 + m)
  {
    NumberValueOfPad2(h);
    NumberValueOfPad2(m);
    ClockMinutesOfParts(Pad2(h), Pad2(m), h, m);
  }
}
