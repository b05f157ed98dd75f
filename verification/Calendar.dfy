/** Calendar dates: the source recognises one by letting the host's date arithmetic roll it over
    (section 21.4.1 of ECMA-262) and comparing. */
module Calendar {
  import opened Text
  import opened Wrappers
  import opened Digits

  const HYPHEN: Unit := 0x2D
  const MS_PER_DAY: int := 86400000

  // ---------- The host's date arithmetic, in days since 1970 ----------

  predicate InLeapYear(year: int) {
    year % 4 == 0 && (year % 100 != 0 || year % 400 == 0)
  }

  function DayFromYear(year: int): int {
    365 * (year - 1970) + (year - 1969) / 4 - (year - 1901) / 100 + (year - 1601) / 400
  }

  lemma Quarters(x: int)
    ensures (x + 1) / 4 - x / 4 == if (x + 1) % 4 == 0 then 1 else 0
  {
  }

  lemma Centuries(x: int)
    ensures (x + 1) / 100 - x / 100 == if (x + 1) % 100 == 0 then 1 else 0
    ensures (x + 1) / 400 - x / 400 == if (x + 1) % 400 == 0 then 1 else 0
  {
  }

  lemma FourYears(year: int)
    ensures (year - 1968) % 4 == year % 4
  {
  }

  lemma HundredYears(year: int)
    ensures (year - 1900) % 100 == year % 100
  {
  }

  lemma FourHundredYears(year: int)
    ensures (year - 1600) % 400 == year % 400
  {
  }

  lemma Divisible(year: int)
    ensures year % 400 == 0 ==> year % 100 == 0
    ensures year % 100 == 0 ==> year % 4 == 0
  {
  }

  lemma YearLength(year: int)
    ensures DayFromYear(year + 1) - DayFromYear(year) == MonthStart(12, InLeapYear(year))
  {
    Quarters(year - 1969);
    Centuries(year - 1901);
    Centuries(year - 1601);
    FourYears(year);
    HundredYears(year);
    FourHundredYears(year);
    Divisible(year);
  }

  // The largest year that starts on or before the day, searched upwards.
  function YearFrom(day: int, year: int): (y: int)
    requires DayFromYear(year) <= day
    ensures DayFromYear(y) <= day < DayFromYear(y + 1)
    decreases day - DayFromYear(year)
  {
    YearLength(year);
    if DayFromYear(year + 1) <= day then YearFrom(day, year + 1) else year
  }

  function YearFromDay(day: int): (y: int)
    ensures DayFromYear(y) <= day < DayFromYear(y + 1)
  {
    YearFrom(day, if day >= 0 then 1969 + day / 366 else 1968 + day / 365)
  }

  // Days before month `month` (January is 0) within a year.
  function MonthStart(month: int, leap: bool): nat
    requires 0 <= month <= 12
  {
    var l := if leap then 1 else 0;
    if month == 0 then 0 else if month == 1 then 31 else if month == 2 then 59 + l
    else if month == 3 then 90 + l else if month == 4 then 120 + l else if month == 5 then 151 + l
    else if month == 6 then 181 + l else if month == 7 then 212 + l else if month == 8 then 243 + l
    else if month == 9 then 273 + l else if month == 10 then 304 + l else if month == 11 then 334 + l
    else 365 + l
  }

  function MonthFrom(dayInYear: int, leap: bool, month: nat): (m: nat)
    requires month <= 11 && MonthStart(month, leap) <= dayInYear < MonthStart(12, leap)
    ensures m <= 11 && MonthStart(m, leap) <= dayInYear < MonthStart(m + 1, leap)
    decreases 12 - month
  {
    if MonthStart(month + 1, leap) <= dayInYear then MonthFrom(dayInYear, leap, month + 1) else month
  }

  function MonthFromDay(day: int): (m: int)
    ensures 0 <= m <= 11
  {
    var year := YearFromDay(day);
    YearLength(year);
    MonthFrom(day - DayFromYear(year), InLeapYear(year), 0)
  }

  function DateFromDay(day: int): int {
    var year := YearFromDay(day);
    day - DayFromYear(year) - MonthStart(MonthFromDay(day), InLeapYear(year)) + 1
  }

  // `MakeDay`: months and dates out of range roll over.
  function MakeDay(year: int, month: int, date: int): int {
    var ym := year + month / 12;
    DayFromYear(ym) + MonthStart(month % 12, InLeapYear(ym)) + date - 1
  }

  // ---------- The source ----------

  // The regular expression of four, two and two digits.
  predicate HasDateShape(value: Utf16) {
    && |value| == 10 && value[4] == HYPHEN && value[7] == HYPHEN
    && AllDigits(value[..4]) && AllDigits(value[5..7]) && AllDigits(value[8..])
  }

  function ParseCalendarDate(value: Utf16): Option<Utf16> {
    if !HasDateShape(value) then None
    else
      var year, month, date := ReadNat(value[..4]), ReadNat(value[5..7]), ReadNat(value[8..]);
      if year == 0 then None
      else
        var day := MakeDay(year, month - 1, date);
        if YearFromDay(day) == year && MonthFromDay(day) == month - 1 && DateFromDay(day) == date
        then Some(value) else None
  }

  // `Date.parse` of midnight UTC on a recognised date.
  function DateMilliseconds(value: Utf16): Option<int> {
    match ParseCalendarDate(value)
    case None => None
    case Some(parsed) =>
      Some(MS_PER_DAY * MakeDay(ReadNat(parsed[..4]), ReadNat(parsed[5..7]) - 1, ReadNat(parsed[8..])))
  }

  // The range check of event creation, on milliseconds.
  predicate CreateRangeRejected(start: int, end: int) {
    end < start || end - start >= 366 * MS_PER_DAY
  }

  // The range check of metadata updates: text order, then milliseconds divided down to days.
  predicate MetadataRangeRejected(start: Utf16, end: Utf16)
    requires DateMilliseconds(start).Some? && DateMilliseconds(end).Some?
  {
    Less(end, start) || DateMilliseconds(end).value - DateMilliseconds(start).value >= 366 * MS_PER_DAY
  }

  // ---------- Gregorian dates ----------

  function DaysInMonth(year: int, month: int): nat
    requires 1 <= month <= 12
  {
    if month == 2 then (if InLeapYear(year) then 29 else 28)
    else if month == 4 || month == 6 || month == 9 || month == 11 then 30 else 31
  }

  predicate IsGregorian(year: int, month: int, date: int) {
    1 <= month <= 12 && 1 <= date <= DaysInMonth(year, month)
  }

  function YearOf(value: Utf16): nat
    requires HasDateShape(value)
  {
    ReadNat(value[..4])
  }

  function MonthOf(value: Utf16): nat
    requires HasDateShape(value)
  {
    ReadNat(value[5..7])
  }

  function DateOf(value: Utf16): nat
    requires HasDateShape(value)
  {
    ReadNat(value[8..])
  }

  lemma MonthLength(year: int, month: int)
    requires 1 <= month <= 12
    ensures MonthStart(month, InLeapYear(year)) - MonthStart(month - 1, InLeapYear(year)) == DaysInMonth(year, month)
  {
  }

  lemma {:induction false} YearsIncrease(a: int, b: int)
    requires a <= b
    ensures DayFromYear(a) <= DayFromYear(b)
    decreases b - a
  {
  }

  lemma {:induction false} MonthsIncrease(a: nat, b: nat, leap: bool)
    requires a <= b <= 12
    ensures MonthStart(a, leap) <= MonthStart(b, leap)
    decreases b - a
  {
  }

  lemma YearUnique(day: int, year: int)
    requires DayFromYear(year) <= day < DayFromYear(year + 1)
    ensures YearFromDay(day) == year
  {
    hide DayFromYear;
    var y := YearFromDay(day);
    if y < year { YearsIncrease(y + 1, year); }
    if year < y { YearsIncrease(year + 1, y); }
  }

  lemma MonthUnique(day: int, year: int, month: nat)
    requires DayFromYear(year) <= day < DayFromYear(year + 1) && month <= 11
    requires MonthStart(month, InLeapYear(year)) <= day - DayFromYear(year) < MonthStart(month + 1, InLeapYear(year))
    ensures MonthFromDay(day) == month
  {
    hide DayFromYear, MonthStart, InLeapYear, YearFromDay, MonthFrom;
    YearUnique(day, year);
    var m, leap := MonthFromDay(day), InLeapYear(year);
    if m < month { MonthsIncrease(m + 1, month, leap); }
    if month < m { MonthsIncrease(month + 1, m, leap); }
  }

  lemma MonthFirst(leap: bool)
    ensures MonthStart(0, leap) == 0
  {
  }

  // A real date lies within its year and month, so it does not roll over.
  lemma RealDateStays(year: int, month: int, date: int)
    requires IsGregorian(year, month, date)
    ensures var day := MakeDay(year, month - 1, date);
      && DayFromYear(year) <= day < DayFromYear(year + 1)
      && YearFromDay(day) == year && MonthFromDay(day) == month - 1 && DateFromDay(day) == date
  {
    hide DayFromYear, MonthStart, InLeapYear, YearFromDay, MonthFromDay, DaysInMonth;
    var day, leap := MakeDay(year, month - 1, date), InLeapYear(year);
    MonthLength(year, month);
    MonthsIncrease(month, 12, leap);
    YearLength(year);
    MonthFirst(leap);
    MonthsIncrease(0, month - 1, leap);
    YearUnique(day, year);
    MonthUnique(day, year, month - 1);
  }

  // Whatever rolled over, the date read back is one of its month.
  lemma DateRange(day: int)
    ensures 0 <= MonthFromDay(day) <= 11
    ensures 1 <= DateFromDay(day) <= DaysInMonth(YearFromDay(day), MonthFromDay(day) + 1)
  {
    hide DayFromYear, MonthStart, InLeapYear, DaysInMonth;
    MonthLength(YearFromDay(day), MonthFromDay(day) + 1);
  }

  /** The rollover test accepts exactly the real Gregorian dates of the years 1 to 9999. */
  lemma ParseAcceptsGregorian(value: Utf16)
    ensures ParseCalendarDate(value).Some? <==>
      HasDateShape(value) && YearOf(value) >= 1 && IsGregorian(YearOf(value), MonthOf(value), DateOf(value))
  {
    hide MakeDay, YearFromDay, MonthFromDay, DateFromDay, DaysInMonth, ReadNat, HasDateShape;
    if HasDateShape(value) {
      var year: int, month: int, date: int := YearOf(value), MonthOf(value), DateOf(value);
      if IsGregorian(year, month, date) {
        RealDateStays(year, month, date);
      }
      var day := MakeDay(year, month - 1, date);
      DateRange(day);
    }
  }

  // Dates compare as (year, month, date).
  predicate Earlier(v: Utf16, w: Utf16)
    requires HasDateShape(v) && HasDateShape(w)
  {
    || YearOf(v) < YearOf(w)
    || (YearOf(v) == YearOf(w) &&
      (MonthOf(v) < MonthOf(w) || (MonthOf(v) == MonthOf(w) && DateOf(v) < DateOf(w))))
  }

  lemma TextOrder(v: Utf16, w: Utf16)
    requires HasDateShape(v) && HasDateShape(w)
    ensures Less(v, w) <==> Earlier(v, w)
  {
    DigitOrder(v[..4], w[..4]);
    DigitOrder(v[5..7], w[5..7]);
    DigitOrder(v[8..], w[8..]);
    assert v == v[..5] + (v[5..8] + v[8..]) && w == w[..5] + (w[5..8] + w[8..]);
    LessConcat(v[..5], v[5..8] + v[8..], w[..5], w[5..8] + w[8..]);
    LessConcat(v[5..8], v[8..], w[5..8], w[8..]);
    LessHyphen(v[..4], w[..4]);
    assert v[..5] == v[..4] + [HYPHEN] && w[..5] == w[..4] + [HYPHEN];
    LessHyphen(v[5..7], w[5..7]);
    assert v[5..8] == v[5..7] + [HYPHEN] && w[5..8] == w[5..7] + [HYPHEN];
  }

  lemma LessHyphen(a: Utf16, b: Utf16)
    requires |a| == |b|
    ensures Less(a + [HYPHEN], b + [HYPHEN]) <==> Less(a, b)
    ensures a + [HYPHEN] == b + [HYPHEN] <==> a == b
  {
    LessConcat(a, [HYPHEN], b, [HYPHEN]);
    LessTrichotomy([HYPHEN], [HYPHEN]);
    assert (a + [HYPHEN])[..|a|] == a && (b + [HYPHEN])[..|b|] == b;
  }

  lemma EarlierDay(v: Utf16, w: Utf16)
    requires ParseCalendarDate(v).Some? && ParseCalendarDate(w).Some?
    requires Earlier(v, w)
    ensures MakeDay(YearOf(v), MonthOf(v) - 1, DateOf(v)) < MakeDay(YearOf(w), MonthOf(w) - 1, DateOf(w))
  {
    hide DayFromYear, YearFromDay, MonthStart, InLeapYear, DaysInMonth, ReadNat, ParseCalendarDate, YearOf, MonthOf,
      DateOf;
    ParseAcceptsGregorian(v);
    ParseAcceptsGregorian(w);
    RealDateStays(YearOf(v), MonthOf(v), DateOf(v));
    RealDateStays(YearOf(w), MonthOf(w), DateOf(w));
    if YearOf(v) < YearOf(w) {
      YearsIncrease(YearOf(v) + 1, YearOf(w));
    } else if MonthOf(v) < MonthOf(w) {
      MonthLength(YearOf(v), MonthOf(v));
      MonthsIncrease(MonthOf(v), MonthOf(w) - 1, InLeapYear(YearOf(v)));
    }
  }

  lemma Recognized(v: Utf16)
    requires DateMilliseconds(v).Some?
    ensures HasDateShape(v) && ParseCalendarDate(v).Some?
    ensures DateMilliseconds(v).value == MS_PER_DAY * MakeDay(YearOf(v), MonthOf(v) - 1, DateOf(v))
  {
    hide HasDateShape, MakeDay, ReadNat, DateFromDay;
  }

  /** Milliseconds are strictly monotone in the text order of recognised dates. */
  lemma DaysFollowText(v: Utf16, w: Utf16)
    requires DateMilliseconds(v).Some? && DateMilliseconds(w).Some?
    ensures Less(v, w) <==> DateMilliseconds(v).value < DateMilliseconds(w).value
  {
    hide MakeDay, Less, YearOf, MonthOf, DateOf, HasDateShape, DateMilliseconds, ParseCalendarDate;
    Recognized(v);
    Recognized(w);
    TextOrder(v, w);
    TextOrder(w, v);
    if Earlier(v, w) {
      EarlierDay(v, w);
    } else if Earlier(w, v) {
      EarlierDay(w, v);
    }
  }

  /** So the two range checks of the source accept the same pairs of dates. */
  lemma RangeChecksAgree(start: Utf16, end: Utf16)
    requires DateMilliseconds(start).Some? && DateMilliseconds(end).Some?
    ensures MetadataRangeRejected(start, end) <==>
      CreateRangeRejected(DateMilliseconds(start).value, DateMilliseconds(end).value)
  {
    DaysFollowText(end, start);
  }
}
