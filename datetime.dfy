/** Local date-times as a rental records them: the text patterns
    `yyyy-MM-dd HH:mm:ss` (written, and tried first when reading) and
    `yyyy-MM-dd HH:mm` (older records), and the count of seconds between two
    of them on the proleptic Gregorian calendar, without time zones. */
module DateTimes {
  import opened Wrappers
  import opened Text

  datatype DateTime = DateTime(year: int, month: int, day: int, hour: int, minute: int, second: int)

  predicate IsLeapYear(y: int)
  {
    y % 4 == 0 && (y % 100 != 0 || y % 400 == 0)
  }

  function DaysInMonth(y: int, m: int): (r: int)
    requires 1 <= m <= 12
    ensures 28 <= r <= 31
  {
    if m == 2 then (if IsLeapYear(y) then 29 else 28)
    else if m == 4 || m == 6 || m == 9 || m == 11 then 30
    else 31
  }

  /** A calendar date-time whose year has four digits, as the clock of the
      system produces and the patterns write. */
  predicate ValidDateTime(d: DateTime)
  {
    && 1 <= d.year <= 9999
    && 1 <= d.month <= 12
    && 1 <= d.day <= DaysInMonth(d.year, d.month)
    && 0 <= d.hour <= 23
    && 0 <= d.minute <= 59
    && 0 <= d.second <= 59
  }

  type Timestamp = d: DateTime | ValidDateTime(d) witness DateTime(1970, 1, 1, 0, 0, 0)

  // ---------------------------------------------------------------------
  // writing

  /** The legacy pattern `yyyy-MM-dd HH:mm`, which older records hold. */
  function FormatMinutes(t: Timestamp): (r: string)
    ensures |r| == 16
  {
    PadDigits(t.year, 4) + "-" + PadDigits(t.month, 2) + "-" + PadDigits(t.day, 2) + " "
    + PadDigits(t.hour, 2) + ":" + PadDigits(t.minute, 2)
  }

  /** The pattern `yyyy-MM-dd HH:mm:ss`: the legacy pattern and the seconds. */
  function Format(t: Timestamp): (r: string)
    ensures |r| == 19
  {
    FormatMinutes(t) + ":" + PadDigits(t.second, 2)
  }

  // ---------------------------------------------------------------------
  // reading

  /** The fixed-width decimal field `s[from..from + width]`, if it is all
      digits. */
  function Field(s: string, from: nat, width: nat): (r: Option<nat>)
    requires from + width <= |s|
    ensures r.Some? <==> forall i :: from <= i < from + width ==> IsDigit(s[i])
  {
    var f := s[from..from + width];
    if forall i :: 0 <= i < |f| ==> IsDigit(f[i]) then Some(DigitsValue(f)) else None
  }

  /** The pattern `yyyy-MM-dd HH:mm:ss` when `withSeconds`, otherwise
      `yyyy-MM-dd HH:mm` (seconds zero): the whole string must match, every
      field must be digits, and the fields must name a real date-time. */
  function ParsePattern(s: string, withSeconds: bool): (r: Option<Timestamp>)
    ensures r.Some? ==> |s| == (if withSeconds then 19 else 16)
    ensures r.Some? && !withSeconds ==> r.value.second == 0
  {
    if |s| != (if withSeconds then 19 else 16) then None
    else if s[4] != '-' || s[7] != '-' || s[10] != ' ' || s[13] != ':' then None
    else if withSeconds && s[16] != ':' then None
    else
      var year, month, day := Field(s, 0, 4), Field(s, 5, 2), Field(s, 8, 2);
      var hour, minute := Field(s, 11, 2), Field(s, 14, 2);
      var second := if withSeconds then Field(s, 17, 2) else Some(0);
      if year.None? || month.None? || day.None? || hour.None? || minute.None? || second.None? then None
      else
        var d := DateTime(year.value, month.value, day.value, hour.value, minute.value, second.value);
        if ValidDateTime(d) then Some(d) else None
  }

  /** `Rental.parseDateTime`: a missing string means now; otherwise the
      with-seconds pattern is tried first and the minutes pattern second;
      `None` when both fail (the Java code throws). */
  function ParseDateTime(s: Option<string>, now: Timestamp): (r: Option<Timestamp>)
    ensures s.None? ==> r == Some(now)
    ensures s.Some? && ParsePattern(s.value, true).Some? ==> r == ParsePattern(s.value, true)
    ensures s.Some? && ParsePattern(s.value, true).None? ==> r == ParsePattern(s.value, false)
  {
    match s
    case None => Some(now)
    case Some(text) =>
      var withSeconds := ParsePattern(text, true);
      if withSeconds.Some? then withSeconds else ParsePattern(text, false)
  }

  lemma FieldOfPadded(s: string, from: nat, n: nat, width: nat)
    requires n < Pow10(width) && from + width <= |s|
    requires s[from..from + width] == PadDigits(n, width)
    ensures Field(s, from, width) == Some(n)
  {
  }

  /** The date fields and their separators, at the front of any text. */
  lemma {:induction false} FieldsOfDate(t: Timestamp, suffix: string)
    ensures var s := PadDigits(t.year, 4) + "-" + PadDigits(t.month, 2) + "-" + PadDigits(t.day, 2) + suffix;
      s[4] == '-' && s[7] == '-'
      && Field(s, 0, 4) == Some(t.year) && Field(s, 5, 2) == Some(t.month) && Field(s, 8, 2) == Some(t.day)
  {
    var y, mo, d := PadDigits(t.year, 4), PadDigits(t.month, 2), PadDigits(t.day, 2);
    var s := y + "-" + mo + "-" + d + suffix;
    assert s[0..4] == y;
    FieldOfPadded(s, 0, t.year, 4);
    assert s[5..7] == mo;
    FieldOfPadded(s, 5, t.month, 2);
    assert s[8..10] == d;
    FieldOfPadded(s, 8, t.day, 2);
  }

  /** The hour and minute fields and their separators, after any ten
      characters. */
  lemma {:induction false} FieldsOfTime(t: Timestamp, prefix: string, suffix: string)
    requires |prefix| == 10
    ensures var s := prefix + " " + PadDigits(t.hour, 2) + ":" + PadDigits(t.minute, 2) + suffix;
      s[10] == ' ' && s[13] == ':' && Field(s, 11, 2) == Some(t.hour) && Field(s, 14, 2) == Some(t.minute)
  {
    var h, mi := PadDigits(t.hour, 2), PadDigits(t.minute, 2);
    var s := prefix + " " + h + ":" + mi + suffix;
    assert s[11..13] == h;
    FieldOfPadded(s, 11, t.hour, 2);
    assert s[14..16] == mi;
    FieldOfPadded(s, 14, t.minute, 2);
  }

  /** The separators and the five fields of the minutes pattern, at the
      front of any text. */
  lemma {:induction false} FieldsOfMinutes(t: Timestamp, suffix: string)
    ensures var s := FormatMinutes(t) + suffix;
      s[4] == '-' && s[7] == '-' && s[10] == ' ' && s[13] == ':'
      && Field(s, 0, 4) == Some(t.year) && Field(s, 5, 2) == Some(t.month) && Field(s, 8, 2) == Some(t.day)
      && Field(s, 11, 2) == Some(t.hour) && Field(s, 14, 2) == Some(t.minute)
  {
    var date := PadDigits(t.year, 4) + "-" + PadDigits(t.month, 2) + "-" + PadDigits(t.day, 2);
    var time := " " + PadDigits(t.hour, 2) + ":" + PadDigits(t.minute, 2);
    var s := FormatMinutes(t) + suffix;
    assert s == date + (time + suffix);
    FieldsOfDate(t, time + suffix);
    assert s == date + " " + PadDigits(t.hour, 2) + ":" + PadDigits(t.minute, 2) + suffix;
    FieldsOfTime(t, date, suffix);
  }

  /** What `Format` writes, the with-seconds pattern reads back unchanged. */
  lemma {:induction false} ParseFormat(t: Timestamp)
    ensures ParsePattern(Format(t), true) == Some(t)
  {
    var se := PadDigits(t.second, 2);
    var s := Format(t);
    assert s == FormatMinutes(t) + (":" + se);
    FieldsOfMinutes(t, ":" + se);
    assert s[17..19] == se;
    FieldOfPadded(s, 17, t.second, 2);
  }

  /** What `Format` writes, `parseDateTime` reads back unchanged. */
  lemma ParseDateTimeFormat(t: Timestamp, now: Timestamp)
    ensures ParseDateTime(Some(Format(t)), now) == Some(t)
  {
    ParseFormat(t);
  }

  /** A legacy record without seconds fails the first pattern and is read by
      the second, as the same minute with zero seconds. */
  lemma {:induction false} ParseLegacy(t: Timestamp, now: Timestamp)
    ensures ParsePattern(FormatMinutes(t), true).None?
    ensures ParseDateTime(Some(FormatMinutes(t)), now) == Some(t.(second := 0))
  {
    FieldsOfMinutes(t, []);
    assert FormatMinutes(t) + [] == FormatMinutes(t);
  }

  // ---------------------------------------------------------------------
  // elapsed time

  /** Days from 0001-01-01 to the first of January of year `y`. */
  function DaysBeforeYear(y: int): int
    requires y >= 1
  {
    var p := y - 1;
    365 * p + p / 4 - p / 100 + p / 400
  }

  /** Days from the first of January to the first of month `m`. */
  function DaysBeforeMonth(y: int, m: int): int
    requires 1 <= m <= 12
  {
    var common :=
      if m == 1 then 0 else if m == 2 then 31 else if m == 3 then 59 else if m == 4 then 90
      else if m == 5 then 120 else if m == 6 then 151 else if m == 7 then 181 else if m == 8 then 212
      else if m == 9 then 243 else if m == 10 then 273 else if m == 11 then 304 else 334;
    common + (if m > 2 && IsLeapYear(y) then 1 else 0)
  }

  /** The day number of the date of `t`, counting 0001-01-01 as day 0. */
  function DayNumber(t: Timestamp): int
  {
    DaysBeforeYear(t.year) + DaysBeforeMonth(t.year, t.month) + t.day - 1
  }

  /** Seconds since 0001-01-01 00:00:00: `Duration.between(a, b).toSeconds()`
      is `EpochSeconds(b) - EpochSeconds(a)`. */
  function EpochSeconds(t: Timestamp): int
  {
    DayNumber(t) * 86400 + t.hour * 3600 + t.minute * 60 + t.second
  }

  /** `a` comes strictly before `b` on the calendar and the clock. */
  predicate Earlier(a: Timestamp, b: Timestamp)
  {
    || a.year < b.year
    || (a.year == b.year && a.month < b.month)
    || (a.year == b.year && a.month == b.month && a.day < b.day)
    || (a.year == b.year && a.month == b.month && a.day == b.day && a.hour < b.hour)
    || (a.year == b.year && a.month == b.month && a.day == b.day && a.hour == b.hour && a.minute < b.minute)
    || (a.year == b.year && a.month == b.month && a.day == b.day && a.hour == b.hour && a.minute == b.minute
        && a.second < b.second)
  }

  /** A month ends where the next one begins, and December ends the year. */
  lemma MonthEnd(y: int, m: int)
    requires 1 <= m <= 12
    ensures m < 12 ==> DaysBeforeMonth(y, m) + DaysInMonth(y, m) == DaysBeforeMonth(y, m + 1)
    ensures m == 12 ==> DaysBeforeMonth(y, m) + DaysInMonth(y, m) == 365 + (if IsLeapYear(y) then 1 else 0)
  {
  }

  lemma {:induction false} LaterMonthLaterDay(y: int, m: int, k: int)
    requires 1 <= m < k <= 12
    ensures DaysBeforeMonth(y, m) + DaysInMonth(y, m) <= DaysBeforeMonth(y, k)
    decreases k - m
  {
    MonthEnd(y, m);
    if m + 1 < k {
      LaterMonthLaterDay(y, m + 1, k);
    }
  }

  /** Stepping a number by one moves its quotient by `k` up by one exactly
      at the multiples of `k`. */
  lemma QuotientStep(p: int, k: int)
    requires k == 4 || k == 100 || k == 400
    ensures (p + 1) / k == p / k + (if (p + 1) % k == 0 then 1 else 0)
  {
    if k == 4 {
    } else if k == 100 {
    } else {
    }
  }

  lemma YearLength(y: int)
    requires y >= 1
    ensures DaysBeforeYear(y + 1) - DaysBeforeYear(y) == 365 + (if IsLeapYear(y) then 1 else 0)
  {
    var p := y - 1;
    QuotientStep(p, 4);
    QuotientStep(p, 100);
    QuotientStep(p, 400);
  }

  lemma {:induction false} LaterYearLaterDay(a: int, b: int)
    requires 1 <= a < b
    ensures DaysBeforeYear(a) + 365 + (if IsLeapYear(a) then 1 else 0) <= DaysBeforeYear(b)
    decreases b - a
  {
    YearLength(a);
    if a + 1 < b {
      LaterYearLaterDay(a + 1, b);
      YearLength(a + 1);
    }
  }

  /** The second count respects the calendar order, so the time elapsed
      from an earlier to a later date-time is positive. */
  lemma EarlierHasFewerSeconds(a: Timestamp, b: Timestamp)
    requires Earlier(a, b)
    ensures EpochSeconds(a) < EpochSeconds(b)
  {
    if a.year < b.year {
      MonthEnd(a.year, 12);
      if a.month < 12 {
        LaterMonthLaterDay(a.year, a.month, 12);
      }
      LaterYearLaterDay(a.year, b.year);
      assert DayNumber(a) < DayNumber(b);
    } else if a.month < b.month {
      LaterMonthLaterDay(a.year, a.month, b.month);
      assert DayNumber(a) < DayNumber(b);
    }
  }

  /** The second count orders date-times exactly as the calendar does:
      `a` lies fewer seconds from the epoch than `b` if and only if `a` is
      earlier, so the elapsed seconds are positive exactly when the end is
      later than the start. */
  lemma FewerSecondsIffEarlier(a: Timestamp, b: Timestamp)
    ensures EpochSeconds(a) < EpochSeconds(b) <==> Earlier(a, b)
  {
    if Earlier(a, b) {
      EarlierHasFewerSeconds(a, b);
    } else if Earlier(b, a) {
      EarlierHasFewerSeconds(b, a);
    } else {
      assert a == b;
    }
  }
}
