/**
  Python's `datetime.date` as the snapshot manager uses it: the proleptic Gregorian
  calendar over years 1 to 9999, the day number `toordinal()` (1 for 0001-01-01),
  `date + timedelta(days=n)` (which raises OverflowError outside that range),
  `weekday()` and `%a`, `str(date)` and `strptime(text, '%Y-%m-%d')`.
 */
module Calendar {
  import opened Wrappers
  import opened PyStr

  datatype Date = Date(year: int, month: int, day: int)

  predicate IsLeap(y: int) {
    y % 4 == 0 && (y % 100 != 0 || y % 400 == 0)
  }

  function YearLength(y: int): int {
    if IsLeap(y) then 366 else 365
  }

  function DaysInMonth(y: int, m: int): int
    requires 1 <= m <= 12
  {
    if m == 2 then (if IsLeap(y) then 29 else 28)
    else if m == 4 || m == 6 || m == 9 || m == 11 then 30
    else 31
  }

  /** The dates Python's `date` can represent (`date.min` is 0001-01-01, `date.max` 9999-12-31). */
  predicate ValidDate(d: Date) {
    && 1 <= d.year <= 9999
    && 1 <= d.month <= 12
    && 1 <= d.day <= DaysInMonth(d.year, d.month)
  }

  function DaysBeforeYear(y: int): int
    requires y >= 1
  {
    var p := y - 1;
    365 * p + p / 4 - p / 100 + p / 400
  }

  function DaysBeforeMonth(y: int, m: int): int
    requires 1 <= m <= 12
  {
    [0, 31, 59, 90, 120, 151, 181, 212, 243, 273, 304, 334][m - 1]
      + (if m > 2 && IsLeap(y) then 1 else 0)
  }

  /** `date.max.toordinal()`. */
  const MaxOrdinal: int := 3652059

  /** `date.toordinal()`: the day number, 1 for 0001-01-01. */
  function ToOrdinal(d: Date): (n: int)
    requires ValidDate(d)
    ensures 1 <= n <= MaxOrdinal
  {
    DayOfYearBound(d);
    YearsBefore(d.year, 10000);
    DaysBeforeYear(d.year) + DaysBeforeMonth(d.year, d.month) + d.day
  }

  /** Python's date comparison: years, then months, then days. */
  predicate DateLe(a: Date, b: Date) {
    || a.year < b.year
    || (a.year == b.year && (a.month < b.month || (a.month == b.month && a.day <= b.day)))
  }

  predicate DateLt(a: Date, b: Date) {
    DateLe(a, b) && a != b
  }

  // ---------------------------------------------------------------------------
  // Day numbers back to dates

  function MonthContaining(y: int, k: int, m: int): (r: int)
    requires 1 <= m <= 12 && DaysBeforeMonth(y, m) < k <= YearLength(y)
    ensures m <= r <= 12 && DaysBeforeMonth(y, r) < k <= DaysBeforeMonth(y, r) + DaysInMonth(y, r)
    decreases 12 - m
  {
    if k <= DaysBeforeMonth(y, m) + DaysInMonth(y, m) then m
    else
      assert m < 12;
      MonthContaining(y, k, m + 1)
  }

  /** The date with day number `n`, searching the years from `y` on. */
  function DateFrom(n: int, y: int): (d: Date)
    requires 1 <= y <= 9999 && DaysBeforeYear(y) < n <= MaxOrdinal
    ensures ValidDate(d) && ToOrdinal(d) == n
    decreases 9999 - y
  {
    YearStep(y);
    if n <= DaysBeforeYear(y) + YearLength(y) then
      var m := MonthContaining(y, n - DaysBeforeYear(y), 1);
      Date(y, m, n - DaysBeforeYear(y) - DaysBeforeMonth(y, m))
    else
      assert y < 9999 by {
        YearStep(9999);
      }
      DateFrom(n, y + 1)
  }

  /** `date.fromordinal(n)`: the date whose day number is `n`. */
  function FromOrdinal(n: int): (d: Date)
    requires 1 <= n <= MaxOrdinal
    ensures ValidDate(d) && ToOrdinal(d) == n
  {
    YearsBelow366((n - 1) / 366 + 1);
    DateFrom(n, (n - 1) / 366 + 1)
  }

  /** `d + timedelta(days=n)`, or None where Python raises OverflowError. */
  function AddDays(d: Date, n: int): (r: Option<Date>)
    requires ValidDate(d)
    ensures r.Some? <==> 1 <= ToOrdinal(d) + n <= MaxOrdinal
    ensures r.Some? ==> ValidDate(r.value) && ToOrdinal(r.value) == ToOrdinal(d) + n
  {
    var k := ToOrdinal(d) + n;
    if 1 <= k <= MaxOrdinal then Some(FromOrdinal(k)) else None
  }

  /** `date.weekday()`: 0 for Monday to 6 for Sunday; 0001-01-01 was a Monday. */
  function Weekday(d: Date): (w: int)
    requires ValidDate(d)
    ensures 0 <= w < 7
  {
    (ToOrdinal(d) + 6) % 7
  }

  /** `strftime('%a').lower()` under the en_US (or C) locale, indexed by `weekday()`. */
  const WeekdayNames: seq<string> := ["mon", "tue", "wed", "thu", "fri", "sat", "sun"]

  function WeekdayAbbrev(d: Date): (s: string)
    requires ValidDate(d)
    ensures s in WeekdayNames
  {
    WeekdayNames[Weekday(d)]
  }

  // ---------------------------------------------------------------------------
  // ISO text

  /** `str(d)`, which is `d.isoformat()`: `YYYY-MM-DD`. */
  function FormatIso(d: Date): (s: string)
    requires ValidDate(d)
    ensures |s| == 10 && s[4] == '-' && s[7] == '-'
    ensures ';' !in s && ',' !in s
  {
    PadDecimal(d.year, 4) + "-" + PadDecimal(d.month, 2) + "-" + PadDecimal(d.day, 2)
  }

  /** The text `%m` matches in `strptime`: `1[0-2]|0[1-9]|[1-9]`. */
  predicate MonthField(t: string) {
    || (|t| == 2 && ((t[0] == '1' && '0' <= t[1] <= '2') || (t[0] == '0' && '1' <= t[1] <= '9')))
    || (|t| == 1 && '1' <= t[0] <= '9')
  }

  /** The text `%d` matches in `strptime`: `3[01]|[12]\d|0[1-9]|[1-9]| [1-9]`. */
  predicate DayField(t: string) {
    || (|t| == 2 && (|| (t[0] == '3' && '0' <= t[1] <= '1')
                     || ('1' <= t[0] <= '2' && IsDigit(t[1]))
                     || (t[0] == '0' && '1' <= t[1] <= '9')
                     || (t[0] == ' ' && '1' <= t[1] <= '9')))
    || (|t| == 1 && '1' <= t[0] <= '9')
  }

  /** `int(t)` of a day field; `int` ignores the leading blank of ` 5`. */
  function DayFieldValue(t: string): nat
    requires DayField(t)
  {
    if t[0] == ' ' then DecimalValue(t[1..]) else DecimalValue(t)
  }

  /**
    `datetime.strptime(s, '%Y-%m-%d').date()`, None where it raises ValueError: four digits,
    a dash, a month field, a dash and a day field that together make up all of `s`, naming
    a real date (year 0 and February 30 are refused).
   */
  function ParseIso(s: string): (r: Option<Date>)
    ensures r.Some? ==> ValidDate(r.value)
  {
    if |s| < 5 || !AllDigits(s[..4]) || s[4] != '-' then None
    else
      var fields := Split(s[5..], '-');
      if |fields| != 2 || !MonthField(fields[0]) || !DayField(fields[1]) then None
      else
        var d := Date(DecimalValue(s[..4]), DecimalValue(fields[0]), DayFieldValue(fields[1]));
        if ValidDate(d) then Some(d) else None
  }

  // ---------------------------------------------------------------------------
  // Calendar arithmetic

  lemma YearStep(y: int)
    requires y >= 1
    ensures DaysBeforeYear(y + 1) == DaysBeforeYear(y) + YearLength(y)
  {
    var p := y - 1;
    DivStep4(p);
    DivStep100(p);
    DivStep400(p);
    Divides(y);
    var c4 := if y % 4 == 0 then 1 else 0;
    var c100 := if y % 100 == 0 then 1 else 0;
    var c400 := if y % 400 == 0 then 1 else 0;
    assert DaysBeforeYear(y + 1) == DaysBeforeYear(y) + 365 + c4 - c100 + c400;
    assert YearLength(y) == 365 + c4 - c100 + c400;
  }

  /** A multiple of 400 is one of 100, and a multiple of 100 is one of 4. */
  lemma Divides(y: int)
    ensures y % 400 == 0 ==> y % 100 == 0
    ensures y % 100 == 0 ==> y % 4 == 0
  {
    if y % 400 == 0 {
      assert y == 400 * (y / 400);
      HundredsOf400(y / 400);
    }
    if y % 100 == 0 {
      assert y == 100 * (y / 100);
      FoursOf100(y / 100);
    }
  }

  lemma HundredsOf400(t: int)
    ensures (400 * t) % 100 == 0
  {
    assert 400 * t == 100 * (4 * t);
  }

  lemma FoursOf100(t: int)
    ensures (100 * t) % 4 == 0
  {
    assert 100 * t == 4 * (25 * t);
  }

  lemma DivStep4(p: int)
    ensures (p + 1) / 4 == p / 4 + (if (p + 1) % 4 == 0 then 1 else 0)
  {
  }

  lemma DivStep100(p: int)
    ensures (p + 1) / 100 == p / 100 + (if (p + 1) % 100 == 0 then 1 else 0)
  {
  }

  lemma DivStep400(p: int)
    ensures (p + 1) / 400 == p / 400 + (if (p + 1) % 400 == 0 then 1 else 0)
  {
  }

  /** Between the starts of two years lie at least 365 days per year. */
  lemma {:induction false} YearsBefore(y1: int, y2: int)
    requires 1 <= y1 <= y2
    ensures DaysBeforeYear(y2) >= DaysBeforeYear(y1) + 365 * (y2 - y1)
    ensures y1 < y2 ==> DaysBeforeYear(y2) >= DaysBeforeYear(y1) + YearLength(y1)
    decreases y2 - y1
  {
    if y1 < y2 {
      YearStep(y1);
      YearsBefore(y1 + 1, y2);
    }
  }

  /** No year has more than 366 days, so `(n - 1) / 366 + 1` starts the year search early enough. */
  lemma YearsBelow366(y: int)
    requires y >= 1
    ensures DaysBeforeYear(y) <= 366 * (y - 1)
  {
    var p := y - 1;
    assert p / 400 <= p / 100;
    assert p / 4 <= p;
  }

  lemma DayOfYearBound(d: Date)
    requires ValidDate(d)
    ensures DaysBeforeMonth(d.year, d.month) + d.day <= YearLength(d.year)
  {
  }

  lemma {:induction false} MonthsBefore(y: int, m1: int, m2: int)
    requires 1 <= m1 < m2 <= 12
    ensures DaysBeforeMonth(y, m1) + DaysInMonth(y, m1) <= DaysBeforeMonth(y, m2)
    decreases m2 - m1
  {
    if m1 + 1 < m2 {
      MonthsBefore(y, m1 + 1, m2);
    }
  }

  /** A later date has a larger day number. */
  lemma OrdinalStrictlyIncreasing(a: Date, b: Date)
    requires ValidDate(a) && ValidDate(b) && DateLt(a, b)
    ensures ToOrdinal(a) < ToOrdinal(b)
  {
    if a.year < b.year {
      DayOfYearBound(a);
      YearsBefore(a.year, b.year);
    } else if a.month < b.month {
      MonthsBefore(a.year, a.month, b.month);
    }
  }

  /** Comparing dates is comparing their day numbers. */
  lemma OrdinalOrder(a: Date, b: Date)
    requires ValidDate(a) && ValidDate(b)
    ensures DateLe(a, b) <==> ToOrdinal(a) <= ToOrdinal(b)
    ensures a == b <==> ToOrdinal(a) == ToOrdinal(b)
  {
    if DateLt(a, b) {
      OrdinalStrictlyIncreasing(a, b);
    } else if DateLt(b, a) {
      OrdinalStrictlyIncreasing(b, a);
    }
  }

  /** `date.fromordinal(d.toordinal()) == d`. */
  lemma FromToOrdinal(d: Date)
    requires ValidDate(d)
    ensures FromOrdinal(ToOrdinal(d)) == d
  {
    OrdinalOrder(d, FromOrdinal(ToOrdinal(d)));
  }

  /** Adding no days gives the same date. */
  lemma AddDaysZero(d: Date)
    requires ValidDate(d)
    ensures AddDays(d, 0) == Some(d)
  {
    assert AddDays(d, 0) == Some(FromOrdinal(ToOrdinal(d)));
    FromToOrdinal(d);
  }

  /** Adding `a` days and then `b` days is adding `a + b` days, when the first step stays in range. */
  lemma AddDaysTwice(d: Date, a: int, b: int)
    requires ValidDate(d) && AddDays(d, a).Some?
    ensures AddDays(AddDays(d, a).value, b) == AddDays(d, a + b)
  {
    var x := AddDays(d, a).value;
    assert ToOrdinal(x) + b == ToOrdinal(d) + (a + b);
    if AddDays(d, a + b).Some? {
      OrdinalOrder(AddDays(x, b).value, AddDays(d, a + b).value);
    }
  }

  /** Dates reached from one date compare as the numbers of days added. */
  lemma AddDaysOrder(d: Date, a: int, b: int)
    requires ValidDate(d) && AddDays(d, a).Some? && AddDays(d, b).Some?
    ensures DateLe(AddDays(d, a).value, AddDays(d, b).value) <==> a <= b
  {
    OrdinalOrder(AddDays(d, a).value, AddDays(d, b).value);
  }

  /** The weekday advances by one per day added, modulo seven. */
  lemma WeekdayAfter(d: Date, n: int)
    requires ValidDate(d) && AddDays(d, n).Some?
    ensures Weekday(AddDays(d, n).value) == (Weekday(d) + n) % 7
  {
    WeekdayOfLater(d, AddDays(d, n).value, n);
  }

  lemma WeekdayOfLater(d: Date, e: Date, n: int)
    requires ValidDate(d) && ValidDate(e) && ToOrdinal(e) == ToOrdinal(d) + n
    ensures Weekday(e) == (Weekday(d) + n) % 7
  {
    var k := ToOrdinal(d) + 6;
    assert Weekday(e) == (k + n) % 7;
    assert Weekday(d) == k % 7;
    WeekdayShift(k, n);
  }

  lemma WeekdayShift(k: int, n: int)
    ensures (k + n) % 7 == (k % 7 + n) % 7
  {
    ModShift(k / 7, k % 7 + n);
    assert k + n == 7 * (k / 7) + (k % 7 + n);
  }

  /** A week later it is the same weekday. */
  lemma WeekdayPeriodic(d: Date)
    requires ValidDate(d) && AddDays(d, 7).Some?
    ensures WeekdayAbbrev(AddDays(d, 7).value) == WeekdayAbbrev(d)
  {
    var later := AddDays(d, 7).value;
    var k := ToOrdinal(d) + 6;
    assert ToOrdinal(later) + 6 == 7 * 1 + k;
    ModShift(1, k);
    assert Weekday(later) == Weekday(d);
  }

  lemma ModShift(q: int, x: int)
    ensures (7 * q + x) % 7 == x % 7
  {
    var r := x % 7;
    assert x == 7 * (x / 7) + r;
    assert 7 * q + x == 7 * (q + x / 7) + r;
  }

  // ---------------------------------------------------------------------------
  // ISO text round trip

  lemma PadDigits2(n: nat)
    requires n < 100
    ensures PadDecimal(n, 2) == [DigitChar(n / 10), DigitChar(n % 10)]
    ensures DecimalValue(PadDecimal(n, 2)) == n
  {
    assert (n / 10) / 10 == 0 && (n / 10) % 10 == n / 10;
    assert PadDecimal(n / 10, 1) == [DigitChar(n / 10)];
    DecimalValueOfPad(n, 2);
  }

  lemma FormatIsoParts(d: Date)
    requires ValidDate(d)
    ensures var s := FormatIso(d);
            && s[..4] == PadDecimal(d.year, 4) && s[4] == '-'
            && s[5..] == Join([PadDecimal(d.month, 2), PadDecimal(d.day, 2)], '-')
  {
    var s := FormatIso(d);
    var yt, mt, dt := PadDecimal(d.year, 4), PadDecimal(d.month, 2), PadDecimal(d.day, 2);
    assert s == yt + "-" + mt + "-" + dt;
    assert s[..4] == yt;
    assert s[5..] == mt + "-" + dt;
  }

  /** `strptime(str(d), '%Y-%m-%d').date() == d` for every representable date. */
  lemma ParseFormatIso(d: Date)
    requires ValidDate(d)
    ensures ParseIso(FormatIso(d)) == Some(d)
  {
    var s := FormatIso(d);
    var yt, mt, dt := PadDecimal(d.year, 4), PadDecimal(d.month, 2), PadDecimal(d.day, 2);
    FormatIsoParts(d);
    DecimalValueOfPad(d.year, 4);
    PadDigits2(d.month);
    PadDigits2(d.day);
    SplitOfJoin([mt, dt], '-');
    assert MonthField(mt);
    assert DayField(dt);
  }

  /** Distinct dates have distinct ISO texts. */
  lemma FormatIsoInjective(a: Date, b: Date)
    requires ValidDate(a) && ValidDate(b) && FormatIso(a) == FormatIso(b)
    ensures a == b
  {
    ParseFormatIso(a);
    ParseFormatIso(b);
  }
}
