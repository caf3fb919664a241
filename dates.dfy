/**
 * The FECHA column: `pd.to_datetime(..., format='%d/%m/%Y')` reads each
 * cell strictly as day/month/year and raises on anything else.  A parsed
 * date is then handled as a day number (the proleptic Gregorian ordinal,
 * 1 January of year 1 being day 1), so that "7 days earlier" is a
 * subtraction and grouping or sorting by date is grouping or sorting by
 * that number.
 */
module Dates {
  import opened Wrappers
  import opened Text

  datatype Date = Date(day: int, month: int, year: int)

  predicate IsLeap(y: int) {
    y % 4 == 0 && (y % 100 != 0 || y % 400 == 0)
  }

  function DaysInYear(y: int): int {
    if IsLeap(y) then 366 else 365
  }

  function DaysInMonth(y: int, m: int): (n: int)
    requires 1 <= m <= 12
    ensures 28 <= n <= 31
  {
    if m == 2 then (if IsLeap(y) then 29 else 28)
    else if m == 4 || m == 6 || m == 9 || m == 11 then 30
    else 31
  }

  /** A date Python's `datetime` accepts: year 1 to 9999, a real month and day. */
  predicate IsValid(d: Date) {
    1 <= d.year <= 9999 && 1 <= d.month <= 12 && 1 <= d.day <= DaysInMonth(d.year, d.month)
  }

  /** Days in the years before `y`. */
  function DaysBeforeYear(y: int): int
    requires y >= 1
  {
    var p := y - 1;
    365 * p + p / 4 - p / 100 + p / 400
  }

  /** Days in the months of year `y` before month `m`. */
  function DaysBeforeMonth(y: int, m: int): int
    requires 1 <= m <= 12
  {
    var common := [0, 31, 59, 90, 120, 151, 181, 212, 243, 273, 304, 334][m - 1];
    if m > 2 && IsLeap(y) then common + 1 else common
  }

  /** The day number of a valid date; `date.toordinal()` in Python. */
  function Ordinal(d: Date): int
    requires IsValid(d)
  {
    DaysBeforeYear(d.year) + DaysBeforeMonth(d.year, d.month) + d.day
  }

  /** Calendar order: earlier year, else earlier month, else earlier day. */
  predicate Earlier(a: Date, b: Date) {
    a.year < b.year
    || (a.year == b.year && a.month < b.month)
    || (a.year == b.year && a.month == b.month && a.day < b.day)
  }

  /** How `(p + 1) / k` moves past `p / k` for the three divisors of the leap-year rule. */
  lemma DivStep(p: nat)
    ensures (p + 1) / 4 == p / 4 + (if (p + 1) % 4 == 0 then 1 else 0)
    ensures (p + 1) / 100 == p / 100 + (if (p + 1) % 100 == 0 then 1 else 0)
    ensures (p + 1) / 400 == p / 400 + (if (p + 1) % 400 == 0 then 1 else 0)
  {
  }

  lemma YearStep(y: int)
    requires y >= 1
    ensures DaysBeforeYear(y + 1) == DaysBeforeYear(y) + DaysInYear(y)
  {
    DivStep(y - 1);
    if y % 100 == 0 {
      CenturyLeap(y);
    }
    if y % 400 == 0 {
      QuadricentennialCentury(y);
    }
  }

  lemma CenturyLeap(y: int)
    requires y % 100 == 0
    ensures y % 4 == 0
  {
    assert y == 4 * (25 * (y / 100));
  }

  lemma QuadricentennialCentury(y: int)
    requires y % 400 == 0
    ensures y % 100 == 0
  {
    assert y == 100 * (4 * (y / 400));
  }

  lemma {:induction false} YearsIncrease(a: int, b: int)
    requires 1 <= a <= b
    ensures DaysBeforeYear(a) <= DaysBeforeYear(b)
    decreases b - a
  {
    if a < b {
      YearStep(a);
      YearsIncrease(a + 1, b);
    }
  }

  lemma MonthStep(y: int, m: int)
    requires 1 <= m <= 12
    ensures m < 12 ==> DaysBeforeMonth(y, m + 1) == DaysBeforeMonth(y, m) + DaysInMonth(y, m)
    ensures m == 12 ==> DaysBeforeMonth(y, m) + DaysInMonth(y, m) == DaysInYear(y)
  {
  }

  lemma {:induction false} MonthsIncrease(y: int, a: int, b: int)
    requires 1 <= a <= b <= 12
    ensures DaysBeforeMonth(y, a) + DaysInMonth(y, a) <= DaysInYear(y)
    ensures a < b ==> DaysBeforeMonth(y, a) + DaysInMonth(y, a) <= DaysBeforeMonth(y, b)
    decreases 12 - a
  {
    MonthStep(y, a);
    if a < 12 {
      MonthStep(y, a + 1);
      MonthsIncrease(y, a + 1, if a < b then b else a + 1);
    }
  }

  /** A date's day number lies within its own year. */
  lemma OrdinalInYear(d: Date)
    requires IsValid(d)
    ensures DaysBeforeYear(d.year) < Ordinal(d) <= DaysBeforeYear(d.year + 1)
  {
    MonthsIncrease(d.year, d.month, d.month);
    YearStep(d.year);
  }

  /** Day numbers follow calendar order. */
  lemma EarlierOrdinal(a: Date, b: Date)
    requires IsValid(a) && IsValid(b) && Earlier(a, b)
    ensures Ordinal(a) < Ordinal(b)
  {
    if a.year < b.year {
      OrdinalInYear(a);
      OrdinalInYear(b);
      YearsIncrease(a.year + 1, b.year);
    } else if a.month < b.month {
      MonthsIncrease(a.year, a.month, b.month);
    }
  }

  /**
   * The day number is faithful to the calendar: it orders two dates as the
   * calendar does, and two dates share a day number only if they are the
   * same date.
   */
  lemma OrdinalOrder(a: Date, b: Date)
    requires IsValid(a) && IsValid(b)
    ensures Ordinal(a) < Ordinal(b) <==> Earlier(a, b)
    ensures Ordinal(a) == Ordinal(b) <==> a == b
  {
    if Earlier(a, b) {
      EarlierOrdinal(a, b);
    } else if Earlier(b, a) {
      EarlierOrdinal(b, a);
    }
  }

  /**
   * pandas stores dates as nanoseconds in a signed 64-bit integer; the
   * midnights it can hold run from 22 September 1677 to 11 April 2262.
   */
  const FirstTimestampDay: int := DaysBeforeYear(1677) + DaysBeforeMonth(1677, 9) + 22
  const LastTimestampDay: int := DaysBeforeYear(2262) + DaysBeforeMonth(2262, 4) + 11

  /** `%d`: "01".."31", "1".."9", or a space and "1".."9". */
  function ParseDayField(f: string): (r: Option<int>)
    ensures r.Some? ==> 1 <= r.value <= 31
  {
    if |f| == 2 && f[0] == ' ' && '1' <= f[1] <= '9' then Some(DigitValue(f[1]))
    else if 1 <= |f| <= 2 && AllDigits(f) && 1 <= DigitsValue(f) <= 31 then Some(DigitsValue(f))
    else None
  }

  /** `%m`: "01".."12" or "1".."9". */
  function ParseMonthField(f: string): (r: Option<int>)
    ensures r.Some? ==> 1 <= r.value <= 12
  {
    if 1 <= |f| <= 2 && AllDigits(f) && 1 <= DigitsValue(f) <= 12 then Some(DigitsValue(f))
    else None
  }

  /** `%Y`: exactly four digits. */
  function ParseYearField(f: string): (r: Option<int>)
    ensures r.Some? ==> 0 <= r.value
  {
    if |f| == 4 && AllDigits(f) then Some(DigitsValue(f)) else None
  }

  /**
   * `%d/%m/%Y` matched against the whole string, then the calendar check
   * `datetime` makes (year 0 and 31 April are rejected).
   */
  function ParseCalendarDate(s: string): (r: Option<Date>)
    ensures r.Some? ==> IsValid(r.value)
  {
    var d := Before(s, '/');
    if |d| == |s| then None
    else
      var rest := s[|d| + 1..];
      var m := Before(rest, '/');
      if |m| == |rest| then None
      else
        var y := rest[|m| + 1..];
        match (ParseDayField(d), ParseMonthField(m), ParseYearField(y))
        case (Some(dd), Some(mm), Some(yy)) =>
          var date := Date(dd, mm, yy);
          if IsValid(date) then Some(date) else None
        case _ => None
  }

  /** `s` is the fields `d`, `m` and `y` joined by slashes, and they read as the day, month and year of `dt`. */
  ghost predicate SlashFields(s: string, d: string, m: string, y: string, dt: Date) {
    s == d + "/" + m + "/" + y
    && ParseDayField(d) == Some(dt.day) && ParseMonthField(m) == Some(dt.month) && ParseYearField(y) == Some(dt.year)
  }

  /** A day or month field that reads as a number holds no slash. */
  lemma FieldNoSlash(f: string)
    requires ParseDayField(f).Some? || ParseMonthField(f).Some?
    ensures '/' !in f
  {
  }

  /** Three fields that read as a real calendar day, joined by slashes, read as that day. */
  lemma ParseCalendarDateComplete(d: string, m: string, y: string, dt: Date)
    requires IsValid(dt) && SlashFields(d + "/" + m + "/" + y, d, m, y, dt)
    ensures ParseCalendarDate(d + "/" + m + "/" + y) == Some(dt)
  {
    FieldNoSlash(d);
    FieldNoSlash(m);
    var rest := m + "/" + y;
    assert d + "/" + m + "/" + y == d + ['/'] + rest;
    SplitAt(d, '/', rest);
    SplitAt(m, '/', y);
  }

  /** A string read as a date is that date's day, month and year fields joined by slashes. */
  lemma ParseCalendarDateSound(s: string)
    requires ParseCalendarDate(s).Some?
    ensures exists d, m, y :: SlashFields(s, d, m, y, ParseCalendarDate(s).value)
  {
    SplitTwice(s, '/');
    var d := Before(s, '/');
    var rest := s[|d| + 1..];
    var m := Before(rest, '/');
    var y := rest[|m| + 1..];
    assert SlashFields(s, d, m, y, ParseCalendarDate(s).value);
  }

  /**
   * `pd.to_datetime(s, format="%d/%m/%Y")` accepts `s` as `dt` exactly
   * when `dt` is a real calendar day and `s` is its day, month and year
   * fields joined by slashes.
   */
  lemma ParseCalendarDateSpec(s: string, dt: Date)
    ensures ParseCalendarDate(s) == Some(dt) <==> IsValid(dt) && exists d, m, y :: SlashFields(s, d, m, y, dt)
  {
    if ParseCalendarDate(s) == Some(dt) {
      ParseCalendarDateSound(s);
    }
    if IsValid(dt) && exists d, m, y :: SlashFields(s, d, m, y, dt) {
      var d, m, y :| SlashFields(s, d, m, y, dt);
      ParseCalendarDateComplete(d, m, y, dt);
    }
  }

  /**
   * One FECHA cell as the day number pandas stores; None where
   * `pd.to_datetime` raises (no match, no such date, or outside the
   * range of a pandas timestamp).
   */
  function ParseFecha(s: string): (r: Option<int>)
    ensures r.Some? ==> FirstTimestampDay <= r.value <= LastTimestampDay
    ensures r.Some? <==> ParseCalendarDate(s).Some?
                         && FirstTimestampDay <= Ordinal(ParseCalendarDate(s).value) <= LastTimestampDay
    ensures r.Some? ==> r.value == Ordinal(ParseCalendarDate(s).value)
  {
    match ParseCalendarDate(s)
    case None => None
    case Some(date) =>
      var n := Ordinal(date);
      if FirstTimestampDay <= n <= LastTimestampDay then Some(n) else None
  }

  /** Two digits, zero-padded: how the published file writes day and month. */
  function Pad2(n: int): (s: string)
    requires 0 <= n <= 99
    ensures |s| == 2 && AllDigits(s) && DigitsValue(s) == n
  {
    var s := [DigitChar(n / 10), DigitChar(n % 10)];
    assert s[..1] == [DigitChar(n / 10)] && s[..1][..0] == [];
    assert DigitsValue(s[..1]) == n / 10;
    s
  }

  function Pad4(n: int): (s: string)
    requires 0 <= n <= 9999
    ensures |s| == 4 && AllDigits(s) && DigitsValue(s) == n
  {
    var s := [DigitChar(n / 1000), DigitChar(n / 100 % 10), DigitChar(n / 10 % 10), DigitChar(n % 10)];
    assert s[..3][..2][..1][..0] == [];
    assert DigitsValue(s[..3][..2][..1]) == n / 1000;
    assert DigitsValue(s[..3][..2]) == n / 100;
    assert DigitsValue(s[..3]) == n / 10;
    s
  }

  /** A date written as the file writes it, "dd/mm/yyyy". */
  function FormatFecha(d: Date): string
    requires IsValid(d)
  {
    Pad2(d.day) + "/" + Pad2(d.month) + "/" + Pad4(d.year)
  }

  /** Every valid date, written as "dd/mm/yyyy", is read back as itself. */
  lemma ParseFormatFecha(d: Date)
    requires IsValid(d)
    ensures ParseCalendarDate(FormatFecha(d)) == Some(d)
  {
    var s := FormatFecha(d);
    var dd, mm, yy := Pad2(d.day), Pad2(d.month), Pad4(d.year);
    assert s == dd + ['/'] + (mm + ['/'] + yy);
    assert Before(s, '/') == dd by {
      assert s[0] == dd[0] && s[1] == dd[1] && s[2] == '/';
    }
    var rest := s[3..];
    assert rest == mm + ['/'] + yy;
    assert Before(rest, '/') == mm by {
      assert rest[0] == mm[0] && rest[1] == mm[1] && rest[2] == '/';
    }
    assert rest[3..] == yy;
  }

  lemma TwoDigits(f: string)
    requires |f| == 2 && AllDigits(f)
    ensures DigitsValue(f) == DigitValue(f[0]) * 10 + DigitValue(f[1])
  {
    var h := f[..1];
    assert h[..0] == [] && h[0] == f[0];
    assert DigitsValue(h) == DigitValue(f[0]);
  }

  lemma FourDigits(f: string)
    requires |f| == 4 && AllDigits(f)
    ensures DigitsValue(f) == DigitsValue(f[..2]) * 100 + DigitValue(f[2]) * 10 + DigitValue(f[3])
  {
    assert f[..3][..2] == f[..2];
  }

  /** The file's own spelling of the first day of the confinement. */
  lemma ParseFechaExample()
    ensures ParseCalendarDate("14/03/2020") == Some(Date(14, 3, 2020))
  {
    var s := "14/03/2020";
    assert s == "14" + ['/'] + ("03" + ['/'] + "2020");
    SplitAt("14", '/', "03" + ['/'] + "2020");
    SplitAt("03", '/', "2020");
    FieldsExample();
  }

  lemma FieldsExample()
    ensures ParseDayField("14") == Some(14) && ParseMonthField("03") == Some(3) && ParseYearField("2020") == Some(2020)
    ensures IsValid(Date(14, 3, 2020))
  {
    TwoDigits("14");
    TwoDigits("03");
    FourDigits("2020");
    TwoDigits("20");
  }

  /** April has 30 days, so "31/04/2020" matches the pattern and is still refused. */
  lemma ParseFechaNoSuchDay()
    ensures ParseCalendarDate("31/04/2020").None?
  {
    var s := "31/04/2020";
    assert s == "31" + ['/'] + ("04" + ['/'] + "2020");
    SplitAt("31", '/', "04" + ['/'] + "2020");
    SplitAt("04", '/', "2020");
    TwoDigits("31");
    TwoDigits("04");
  }

  /** A string without a slash, such as an ISO-style "2020-03-14", does not match day/month/year. */
  lemma ParseFechaWrongPattern(s: string)
    requires '/' !in s
    ensures ParseCalendarDate(s).None?
  {
  }
}
