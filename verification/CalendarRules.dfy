/** Which texts are dates and how many milliseconds lie between them, written out by the Gregorian rules. */
module CalendarRules {
  import opened Text
  import opened Digits
  import opened Wrappers
  import opened Calendar
  import opened Shapes

  // Thirty days have April, June, September and November; February has 28, and 29 in a leap year.
  ghost function MonthDays(year: int, month: int): int {
    if month in {4, 6, 9, 11} then 30
    else if month != 2 then 31
    else if year % 400 == 0 || (year % 4 == 0 && year % 100 != 0) then 29
    else 28
  }

  ghost function TwoDigits(s: Utf16): int
    requires |s| == 2
  {
    10 * (s[0] - '0' as int) + (s[1] - '0' as int)
  }

  // Four, two and two digits with hyphens between.
  ghost predicate DateParts(v: Utf16, year: Utf16, month: Utf16, date: Utf16) {
    && v == year + AsciiText("-") + month + AsciiText("-") + date
    && |year| == 4 && |month| == 2 && |date| == 2 && OnlyDigits(year + month + date)
  }

  // The text writes this year, month and date.
  ghost predicate Writes(v: Utf16, year: int, month: int, date: int) {
    exists y, m, d :: DateParts(v, y, m, d)
      && year == 100 * TwoDigits(y[..2]) + TwoDigits(y[2..]) && month == TwoDigits(m) && date == TwoDigits(d)
  }

  lemma TwoRead(s: Utf16)
    requires |s| == 2 && AllDigits(s)
    ensures ReadNat(s) == TwoDigits(s)
  {
    assert s[..1][..0] == [] && s[..1][0] == s[0];
    assert ReadNat(s[..1]) == ReadNat(s[..1][..0]) * 10 + DigitValue(s[0]);
  }

  lemma FourRead(s: Utf16)
    requires |s| == 4 && AllDigits(s)
    ensures ReadNat(s) == 100 * TwoDigits(s[..2]) + TwoDigits(s[2..])
  {
    TwoRead(s[..2]);
    assert s[..3][..2] == s[..2];
    assert ReadNat(s[..3]) == ReadNat(s[..2]) * 10 + DigitValue(s[2]);
    assert ReadNat(s) == ReadNat(s[..3]) * 10 + DigitValue(s[3]);
  }

  lemma WritesIs(v: Utf16, year: int, month: int, date: int)
    ensures Writes(v, year, month, date) <==>
      HasDateShape(v) && year == YearOf(v) && month == MonthOf(v) && date == DateOf(v)
  {
    var hyphen := AsciiText("-");
    assert hyphen == [0x2D];
    if HasDateShape(v) {
      var y, m, d := v[..4], v[5..7], v[8..];
      assert v == y + hyphen + m + hyphen + d;
      assert DateParts(v, y, m, d);
      FourRead(y);
      TwoRead(m);
      TwoRead(d);
    }
    forall y, m, d | DateParts(v, y, m, d)
      ensures HasDateShape(v) && v[..4] == y && v[5..7] == m && v[8..] == d
    {
      PartsShape(v, y, m, d);
    }
  }

  lemma PartsShape(v: Utf16, y: Utf16, m: Utf16, d: Utf16)
    requires DateParts(v, y, m, d)
    ensures HasDateShape(v) && v[..4] == y && v[5..7] == m && v[8..] == d
  {
    var all := y + m + d;
    assert v[..4] == y && v[5..7] == m && v[8..] == d;
    assert forall i :: 0 <= i < 4 ==> y[i] == all[i];
    assert forall i :: 0 <= i < 2 ==> m[i] == all[4 + i] && d[i] == all[6 + i];
  }

  /** A text is a date exactly when it writes one of the years 1 to 9999. */
  lemma AcceptedIs(v: Utf16)
    ensures DateMilliseconds(v).Some? <==>
      exists year, month, date ::
        Writes(v, year, month, date) && 1 <= year && 1 <= month <= 12 && 1 <= date <= MonthDays(year, month)
    ensures ParseCalendarDate(v) == if DateMilliseconds(v).Some? then Some(v) else None
  {
    ParseAcceptsGregorian(v);
    hide Writes, MakeDay, YearFromDay, MonthFromDay, DateFromDay, HasDateShape, ReadNat;
    forall year, month, date
      ensures Writes(v, year, month, date) <==>
        HasDateShape(v) && year == YearOf(v) && month == MonthOf(v) && date == DateOf(v)
    {
      WritesIs(v, year, month, date);
    }
    if HasDateShape(v) { assert Writes(v, YearOf(v), MonthOf(v), DateOf(v)); }
  }

  lemma FirstDay()
    ensures MakeDay(1970, 0, 1) == 0
  {
  }

  lemma TwelveMonths(year: int, month: int, date: int)
    ensures MakeDay(year, month + 12, date) == MakeDay(year + 1, month, date)
  {
    hide DayFromYear, MonthStart, InLeapYear;
    assert (month + 12) / 12 == month / 12 + 1 && (month + 12) % 12 == month % 12;
  }

  lemma MonthDaysAre(year: int, month: int)
    requires 0 <= month < 12
    ensures MonthStart(month + 1, InLeapYear(year)) - MonthStart(month, InLeapYear(year)) == MonthDays(year, month + 1)
  {
    MonthLength(year, month + 1);
    Divisible(year);
  }

  lemma InYear(year: int, month: int, date: int)
    requires 0 <= month < 12
    ensures MakeDay(year, month, date) == DayFromYear(year) + MonthStart(month, InLeapYear(year)) + date - 1
  {
    hide DayFromYear, MonthStart, InLeapYear;
    assert month / 12 == 0 && month % 12 == month;
  }

  lemma AfterDecember(year: int, date: int)
    ensures MakeDay(year, 12, date) == DayFromYear(year) + MonthStart(12, InLeapYear(year)) + date - 1
  {
    TwelveMonths(year, 0, date);
    InYear(year + 1, 0, date);
    YearLength(year);
    MonthFirst(InLeapYear(year + 1));
    hide DayFromYear, MonthStart, InLeapYear, MakeDay;
  }

  lemma NextMonth(year: int, month: int, date: int)
    requires 0 <= month < 12
    ensures MakeDay(year, month + 1, date) == MakeDay(year, month, date) + MonthDays(year, month + 1)
  {
    hide DayFromYear, MonthStart, InLeapYear, MonthDays, MakeDay;
    MonthDaysAre(year, month);
    InYear(year, month, date);
    if month == 11 { AfterDecember(year, date); } else { InYear(year, month + 1, date); }
  }

  /** The days are counted from 1 January 1970, one after another, month by month and year by year. */
  lemma DaysCount(year: int, month: int, date: int)
    ensures MakeDay(1970, 0, 1) == 0
    ensures MakeDay(year, month, date + 1) == MakeDay(year, month, date) + 1
    ensures 0 <= month < 12 ==>
      MakeDay(year, month + 1, date) == MakeDay(year, month, date) + MonthDays(year, month + 1)
    ensures MakeDay(year, month + 12, date) == MakeDay(year + 1, month, date)
  {
    FirstDay();
    TwelveMonths(year, month, date);
    if 0 <= month < 12 { NextMonth(year, month, date); }
    hide DayFromYear, MonthStart, InLeapYear, MonthDays;
  }

  /** A date stands for midnight, 86400000 milliseconds after the day before. */
  lemma MillisecondsAre(v: Utf16, year: int, month: int, date: int)
    requires DateMilliseconds(v).Some? && Writes(v, year, month, date)
    ensures DateMilliseconds(v) == Some(86_400_000 * MakeDay(year, month - 1, date))
  {
    hide MakeDay, DateMilliseconds, HasDateShape;
    WritesIs(v, year, month, date);
    Recognized(v);
  }
}
