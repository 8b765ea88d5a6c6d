/**
 * The opening-hours helpers of `lib/hours.ts`: today's hours, whether the restaurant is
 * open, the 12-hour display of an `HH:MM` range, the display of a day name, and the next
 * opening.
 *
 * The clock is a parameter: the weekday index of `getDay()` (Sunday 0) and the hour and
 * minute of the current local time.
 */
module Hours {
  import opened Wrappers
  import opened Text
  import opened Schemas

  // ---------------------------------------------------------------------------
  // Days

  /** `weeklyHours[day]` for a day name. */
  function HoursOf(w: WeeklyHours, day: string): Hours
    requires day in DayNames
  {
    if day == "sunday" then w.sunday
    else if day == "monday" then w.monday
    else if day == "tuesday" then w.tuesday
    else if day == "wednesday" then w.wednesday
    else if day == "thursday" then w.thursday
    else if day == "friday" then w.friday
    else w.saturday
  }

  /** `getTodayHours`: the hours of the day `getDay()` names, Sunday being day 0. */
  function GetTodayHours(w: WeeklyHours, dayIndex: nat): (r: Hours)
    requires dayIndex < 7
    ensures r == HoursOn(w, dayIndex)
  {
    HoursOf(w, DayNames[dayIndex])
  }

  // ---------------------------------------------------------------------------
  // Open now

  /** The current time as `HH:MM`, each part padded to two digits. */
  function ClockString(hour: nat, minute: nat): (r: string)
    ensures hour < 100 && minute < 100 ==> IsClock(r)
  {
    Pad2(hour) + ":" + Pad2(minute)
  }

  /** The value of an `HH:MM` string as the number `HHMM`. */
  function ClockValue(s: string): nat
    requires IsClock(s)
  {
    DigitValue(s[0]) * 1000 + DigitValue(s[1]) * 100 + DigitValue(s[3]) * 10 + DigitValue(s[4])
  }

  /** `isOpenNow`: the current `HH:MM` is at or after today's opening and before today's
      closing, compared as strings. */
  function IsOpenNow(w: WeeklyHours, dayIndex: nat, hour: nat, minute: nat): bool
    requires dayIndex < 7
  {
    var now := ClockString(hour, minute);
    var today := GetTodayHours(w, dayIndex);
    StrLeq(today.open, now) && StrLt(now, today.close)
  }

  lemma {:induction false} DigitOrder(c: char, d: char)
    requires IsDigit(c) && IsDigit(d)
    ensures c < d <==> DigitValue(c) < DigitValue(d)
    ensures c == d <==> DigitValue(c) == DigitValue(d)
  {
  }

  /** On `HH:MM` strings the string order is the order of their values. */
  lemma {:induction false} ClockOrder(a: string, b: string)
    requires IsClock(a) && IsClock(b)
    ensures StrLt(a, b) <==> ClockValue(a) < ClockValue(b)
    ensures a == b <==> ClockValue(a) == ClockValue(b)
  {
    DigitOrder(a[0], b[0]);
    DigitOrder(a[1], b[1]);
    DigitOrder(a[3], b[3]);
    DigitOrder(a[4], b[4]);
    if a[0] == b[0] {
      assert StrLt(a, b) == StrLt(a[1..], b[1..]);
      if a[1] == b[1] {
        assert StrLt(a[1..], b[1..]) == StrLt(a[2..], b[2..]);
        assert StrLt(a[2..], b[2..]) == StrLt(a[3..], b[3..]);
        if a[3] == b[3] {
          assert StrLt(a[3..], b[3..]) == StrLt(a[4..], b[4..]);
          if a[4] == b[4] {
            assert a[4..][1..] == [] && b[4..][1..] == [];
            assert a == b by {
              assert forall k | 0 <= k < 5 :: a[k] == b[k];
            }
            StrLtIrreflexive(a);
          }
        }
      }
    }
  }

  lemma {:induction false} ClockValueOf(hour: nat, minute: nat)
    requires hour < 100 && minute < 100
    ensures ClockValue(ClockString(hour, minute)) == hour * 100 + minute
  {
    var s := ClockString(hour, minute);
    assert s[0] == Pad2(hour)[0] && s[1] == Pad2(hour)[1];
    assert s[3] == Pad2(minute)[0] && s[4] == Pad2(minute)[1];
  }

  /** With today's hours well formed, the restaurant is open exactly when the time, read as
      `HHMM`, is at or after the opening and before the closing. */
  lemma {:induction false} IsOpenNowValue(w: WeeklyHours, dayIndex: nat, hour: nat, minute: nat)
    requires dayIndex < 7 && hour < 24 && minute < 60
    requires IsClock(HoursOn(w, dayIndex).open) && IsClock(HoursOn(w, dayIndex).close)
    ensures IsOpenNow(w, dayIndex, hour, minute)
            <==> ClockValue(HoursOn(w, dayIndex).open) <= hour * 100 + minute < ClockValue(HoursOn(w, dayIndex).close)
  {
    var today := HoursOn(w, dayIndex);
    var now := ClockString(hour, minute);
    ClockValueOf(hour, minute);
    ClockOrder(today.open, now);
    ClockOrder(now, today.close);
  }

  /** A closing time at or before the opening time (as past midnight) is never open. */
  lemma {:induction false} NeverOpenOvernight(w: WeeklyHours, dayIndex: nat, hour: nat, minute: nat)
    requires dayIndex < 7
    requires StrLeq(HoursOn(w, dayIndex).close, HoursOn(w, dayIndex).open)
    ensures !IsOpenNow(w, dayIndex, hour, minute)
  {
    var today := HoursOn(w, dayIndex);
    var now := ClockString(hour, minute);
    if StrLeq(today.open, now) && StrLt(now, today.close) {
      if today.close != today.open {
        StrLtTransitive(now, today.close, today.open);
      }
      if today.open != now {
        StrLtTransitive(now, today.open, now);
      }
      StrLtIrreflexive(now);
    }
  }

  // ---------------------------------------------------------------------------
  // 12-hour display

  function ClockHour(t: string): nat
    requires IsClock(t)
  {
    DigitValue(t[0]) * 10 + DigitValue(t[1])
  }

  function ClockMinute(t: string): nat
    requires IsClock(t)
  {
    DigitValue(t[3]) * 10 + DigitValue(t[4])
  }

  /** `hours % 12 || 12`. */
  function DisplayHour(hours: nat): (d: nat)
    ensures 1 <= d <= 12
  {
    if hours % 12 == 0 then 12 else hours % 12
  }

  function Period(hours: nat): string {
    if hours >= 12 then "PM" else "AM"
  }

  /** `formatTime`: an `HH:MM` time as `H:MM AM` or `H:MM PM`. */
  function FormatTime(t: string): string
    requires IsClock(t)
  {
    var hours := ClockHour(t);
    NatToString(DisplayHour(hours)) + ":" + Pad2(ClockMinute(t)) + " " + Period(hours)
  }

  /** `formatHours`: the opening and the closing time, separated by ` - `. */
  function FormatHours(h: Hours): string
    requires IsClock(h.open) && IsClock(h.close)
  {
    FormatTime(h.open) + " - " + FormatTime(h.close)
  }

  /** Reads a `H:MM AM` / `H:MM PM` time back as the hour of the day and the minute. */
  function ReadTime12(s: string): Option<(nat, nat)> {
    if |s| < 7 || s[|s| - 3] != ' ' then None
    else
      var period := s[|s| - 2..];
      var body := s[..|s| - 3];
      var digits := body[..|body| - 3];
      var minutes := body[|body| - 2..];
      if body[|body| - 3] != ':' || digits == [] || !AllDigits(digits) || !AllDigits(minutes) then None
      else if period != "AM" && period != "PM" then None
      else
        var d := DigitsValue(digits);
        if d < 1 || d > 12 then None
        else Some((d % 12 + (if period == "PM" then 12 else 0), DigitsValue(minutes)))
  }

  lemma {:induction false} TwoDigitsValue(s: string)
    requires |s| == 2 && AllDigits(s)
    ensures DigitsValue(s) == DigitValue(s[0]) * 10 + DigitValue(s[1])
  {
    var p := s[..1];
    assert s[..|s| - 1] == p;
    assert DigitsValue(p) == DigitsValue(p[..0]) * 10 + DigitValue(p[0]);
    assert p[..0] == [];
  }

  /** A display `H:MM AM` / `H:MM PM` reads back as its hour of the day and its minute. */
  lemma {:induction false} ReadTime12Of(d: nat, p: string, period: string)
    requires 1 <= d <= 12 && |p| == 2 && AllDigits(p)
    requires period == "AM" || period == "PM"
    ensures ReadTime12(NatToString(d) + ":" + p + " " + period)
            == Some((d % 12 + (if period == "PM" then 12 else 0), DigitsValue(p)))
  {
    var s := NatToString(d) + ":" + p + " " + period;
    var body := NatToString(d) + ":" + p;
    assert s == body + " " + period;
    assert s[|s| - 2..] == period;
    assert s[..|s| - 3] == body;
    assert body[..|body| - 3] == NatToString(d);
    assert body[|body| - 2..] == p;
    DigitsValueOfNatToString(d);
  }

  /** The 12-hour display names the same time of day: it reads back as the hour and the
      minute of the `HH:MM` time, for every hour of the day. */
  lemma {:induction false} FormatTimeReadsBack(t: string)
    requires IsClock(t) && ClockHour(t) < 24
    ensures ReadTime12(FormatTime(t)) == Some((ClockHour(t), ClockMinute(t)))
  {
    var hours := ClockHour(t);
    var minute := ClockMinute(t);
    var p := Pad2(minute);
    assert FormatTime(t) == NatToString(DisplayHour(hours)) + ":" + p + " " + Period(hours);
    TwoDigitsValue(p);
    ReadTime12Of(DisplayHour(hours), p, Period(hours));
    DisplayHourBack(hours);
  }

  /** `HoursSchema` lets hours 24 to 99 through: they print as the hour mod 12, PM, and read
      back as a different time of day (`25:00` is `1:00 PM`). */
  lemma {:induction false} FormatTimePast24(t: string)
    requires IsClock(t) && 24 <= ClockHour(t)
    ensures ReadTime12(FormatTime(t)) == Some((ClockHour(t) % 12 + 12, ClockMinute(t)))
    ensures ReadTime12(FormatTime(t)) != Some((ClockHour(t), ClockMinute(t)))
  {
    var hours := ClockHour(t);
    var p := Pad2(ClockMinute(t));
    assert FormatTime(t) == NatToString(DisplayHour(hours)) + ":" + p + " " + Period(hours);
    TwoDigitsValue(p);
    ReadTime12Of(DisplayHour(hours), p, Period(hours));
  }

  /** The display hour and the period give back the hour of the day. */
  lemma {:induction false} DisplayHourBack(hours: nat)
    requires hours < 24
    ensures DisplayHour(hours) % 12 + (if Period(hours) == "PM" then 12 else 0) == hours
  {
  }

  /** Reads a `formatHours` range back as its two times. */
  function ReadHours12(s: string): Option<((nat, nat), (nat, nat))> {
    var parts := Split(s, '-');
    if |parts| != 2 || parts[0] == [] || parts[1] == [] then None
    else if parts[0][|parts[0]| - 1] != ' ' || parts[1][0] != ' ' then None
    else
      match (ReadTime12(parts[0][..|parts[0]| - 1]), ReadTime12(parts[1][1..]))
      case (Some(a), Some(b)) => Some((a, b))
      case _ => None
  }

  lemma {:induction false} NoDashInTime(t: string)
    requires IsClock(t)
    ensures '-' !in FormatTime(t)
  {
    var hours := ClockHour(t);
    var n := NatToString(DisplayHour(hours));
    var p := Pad2(ClockMinute(t));
    assert FormatTime(t) == n + ":" + p + " " + Period(hours);
    forall i | 0 <= i < |n| ensures n[i] != '-' {
      assert IsDigit(n[i]);
    }
    forall i | 0 <= i < |p| ensures p[i] != '-' {
      assert IsDigit(p[i]);
    }
    assert '-' !in Period(hours);
  }

  /** The displayed range reads back as the opening and the closing time of the day. */
  lemma {:induction false} FormatHoursReadsBack(h: Hours)
    requires IsClock(h.open) && IsClock(h.close)
    requires ClockHour(h.open) < 24 && ClockHour(h.close) < 24
    ensures ReadHours12(FormatHours(h))
            == Some(((ClockHour(h.open), ClockMinute(h.open)), (ClockHour(h.close), ClockMinute(h.close))))
  {
    var a := FormatTime(h.open);
    var b := FormatTime(h.close);
    NoDashInTime(h.open);
    NoDashInTime(h.close);
    var parts := [a + " ", " " + b];
    assert '-' !in parts[0] && '-' !in parts[1];
    assert Join(parts, "-") == FormatHours(h);
    SplitJoin(parts, '-');
    assert parts[0][..|parts[0]| - 1] == a;
    assert parts[1][1..] == b;
    FormatTimeReadsBack(h.open);
    FormatTimeReadsBack(h.close);
  }

  // ---------------------------------------------------------------------------
  // Day names

  /** `formatDayName`: the first character upper-cased, the rest as it is. */
  function FormatDayName(day: string): (r: string)
    ensures |r| == |day|
  {
    if day == [] then [] else [UpperChar(day[0])] + day[1..]
  }

  /** Only the first character changes, and a lower-case first letter becomes its capital. */
  lemma {:induction false} FormatDayNameShape(day: string)
    requires day != []
    ensures FormatDayName(day)[1..] == day[1..]
    ensures 'a' <= day[0] <= 'z' ==> 'A' <= FormatDayName(day)[0] <= 'Z' && LowerChar(FormatDayName(day)[0]) == day[0]
    ensures !('a' <= day[0] <= 'z') ==> FormatDayName(day)[0] == day[0]
  {
  }

  /** Every day name is spelt in lower-case letters only. */
  lemma {:induction false} DayNameLetters(i: nat)
    requires i < 7
    ensures DayNames[i] != [] && forall k :: 0 <= k < |DayNames[i]| ==> 'a' <= DayNames[i][k] <= 'z'
  {
    if i == 0 { assert DayNames[0] == "sunday"; }
    else if i == 1 { assert DayNames[1] == "monday"; }
    else if i == 2 { assert DayNames[2] == "tuesday"; }
    else if i == 3 { assert DayNames[3] == "wednesday"; }
    else if i == 4 { assert DayNames[4] == "thursday"; }
    else if i == 5 { assert DayNames[5] == "friday"; }
    else { assert DayNames[6] == "saturday"; }
  }

  /** Every day name is displayed capitalised, and lower-casing the display gives the name
      back. */
  lemma {:induction false} FormatDayNameReadsBack(day: string)
    requires day in DayNames
    ensures 'A' <= FormatDayName(day)[0] <= 'Z'
    ensures Lower(FormatDayName(day)) == day
  {
    var i :| 0 <= i < |DayNames| && DayNames[i] == day;
    DayNameLetters(i);
    FormatDayNameShape(day);
    var r := FormatDayName(day);
    LowerUnchanged(r[1..]);
    assert r == [r[0]] + r[1..];
  }

  // ---------------------------------------------------------------------------
  // Next opening

  datatype NextOpening = NextOpening(day: string, hours: Hours)

  /** `getNextEvent`: today, while today's opening is still ahead; tomorrow otherwise. */
  function GetNextEvent(w: WeeklyHours, dayIndex: nat, hour: nat, minute: nat): (r: NextOpening)
    requires dayIndex < 7
    ensures r.day in DayNames && r.hours == HoursOf(w, r.day)
  {
    var today := DayNames[dayIndex];
    var todayHours := HoursOf(w, today);
    if StrLt(ClockString(hour, minute), todayHours.open) then NextOpening(today, todayHours)
    else
      var tomorrow := DayNames[(dayIndex + 1) % 7];
      NextOpening(tomorrow, HoursOf(w, tomorrow))
  }

  lemma {:induction false} DayNamesDistinct(i: nat, j: nat)
    requires i < 7 && j < 7 && i != j
    ensures DayNames[i] != DayNames[j]
  {
    assert DayNames[0][1] == 'u' && DayNames[1][1] == 'o' && DayNames[2][1] == 'u';
    assert DayNames[3][1] == 'e' && DayNames[4][1] == 'h' && DayNames[5][1] == 'r' && DayNames[6][1] == 'a';
    assert DayNames[0][0] == 's' && DayNames[2][0] == 't' && DayNames[6][0] == 's';
    assert DayNames[i][1] != DayNames[j][1] || DayNames[i][0] != DayNames[j][0];
  }

  /** The next opening is today exactly when the current time is before today's opening,
      and the day after today otherwise. */
  lemma {:induction false} NextEventDay(w: WeeklyHours, dayIndex: nat, hour: nat, minute: nat)
    requires dayIndex < 7
    ensures var r := GetNextEvent(w, dayIndex, hour, minute);
      && (r.day == DayNames[dayIndex] <==> StrLt(ClockString(hour, minute), HoursOn(w, dayIndex).open))
      && (r.day != DayNames[dayIndex] ==> r.day == DayNames[(dayIndex + 1) % 7])
      && r.hours == HoursOn(w, if r.day == DayNames[dayIndex] then dayIndex else (dayIndex + 1) % 7)
  {
    DayNamesDistinct(dayIndex, (dayIndex + 1) % 7);
    assert GetTodayHours(w, dayIndex) == HoursOn(w, dayIndex);
    assert GetTodayHours(w, (dayIndex + 1) % 7) == HoursOn(w, (dayIndex + 1) % 7);
  }

  /** While the restaurant is open, the next opening is tomorrow's. */
  lemma {:induction false} OpenMeansTomorrow(w: WeeklyHours, dayIndex: nat, hour: nat, minute: nat)
    requires dayIndex < 7 && IsOpenNow(w, dayIndex, hour, minute)
    ensures GetNextEvent(w, dayIndex, hour, minute).day == DayNames[(dayIndex + 1) % 7]
  {
    var now := ClockString(hour, minute);
    var open := HoursOn(w, dayIndex).open;
    NextEventDay(w, dayIndex, hour, minute);
    StrLtTrichotomy(now, open);
    if open == now {
      StrLtIrreflexive(now);
    }
  }
}
