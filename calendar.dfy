/**
 * Calendar dates as Python's `datetime.date` treats them: the proleptic
 * Gregorian calendar, compared field by field, moved forward by whole days
 * (`date + timedelta(days = n)`), and read from text in the `%Y-%m-%d` form.
 *
 * `Ordinal` is the day number Python's `date.toordinal()` gives (1 for
 * 0001-01-01); it is the independent reference against which `NextDay`,
 * `AddDays` and `Less` are proved.
 */
module Calendar {
  import opened Wrappers

  datatype Date = Date(year: int, month: int, day: int)

  predicate IsLeapYear(y: int) {
    y % 4 == 0 && (y % 100 != 0 || y % 400 == 0)
  }

  function DaysInMonth(y: int, m: int): (n: int)
    requires 1 <= m <= 12
    ensures 28 <= n <= 31
    ensures n == 29 <==> m == 2 && IsLeapYear(y)
  {
    if m == 2 then (if IsLeapYear(y) then 29 else 28)
    else if m == 4 || m == 6 || m == 9 || m == 11 then 30
    else 31
  }

  function DaysInYear(y: int): int {
    if IsLeapYear(y) then 366 else 365
  }

  /** A real calendar day: year 1 or later, month 1..12, day within that month. */
  predicate ValidDate(d: Date) {
    1 <= d.year && 1 <= d.month <= 12 && 1 <= d.day <= DaysInMonth(d.year, d.month)
  }

  /** Python's `<` on dates: lexicographic on (year, month, day). */
  predicate Less(a: Date, b: Date) {
    a.year < b.year
    || (a.year == b.year && a.month < b.month)
    || (a.year == b.year && a.month == b.month && a.day < b.day)
  }

  /** Python's `<=` on dates. */
  predicate LessOrEqual(a: Date, b: Date) {
    !Less(b, a)
  }

  // ---------------------------------------------------------------------------
  // Day numbers (Python's toordinal)
  // ---------------------------------------------------------------------------

  function DaysBeforeYear(y: int): int
    requires 1 <= y
  {
    var p := y - 1;
    p * 365 + p / 4 - p / 100 + p / 400
  }

  function DaysBeforeMonth(y: int, m: int): int
    requires 1 <= m <= 12
  {
    var common :=
      match m
      case 1 => 0
      case 2 => 31
      case 3 => 59
      case 4 => 90
      case 5 => 120
      case 6 => 151
      case 7 => 181
      case 8 => 212
      case 9 => 243
      case 10 => 273
      case 11 => 304
      case _ => 334;
    if m > 2 && IsLeapYear(y) then common + 1 else common
  }

  function Ordinal(d: Date): int
    requires ValidDate(d)
  {
    DaysBeforeYear(d.year) + DaysBeforeMonth(d.year, d.month) + d.day
  }

  /** Number of days from `from` to `to` (negative when `to` is earlier). */
  function DaysBetween(from: Date, to: Date): int
    requires ValidDate(from) && ValidDate(to)
  {
    Ordinal(to) - Ordinal(from)
  }

  lemma DaysBeforeNextYear(y: int)
    requires 1 <= y
    ensures DaysBeforeYear(y + 1) == DaysBeforeYear(y) + DaysInYear(y)
  {
    var p := y - 1;
    assert y / 4 == p / 4 + (if y % 4 == 0 then 1 else 0);
    assert y / 100 == p / 100 + (if y % 100 == 0 then 1 else 0);
    assert y / 400 == p / 400 + (if y % 400 == 0 then 1 else 0);
  }

  lemma DaysBeforeNextMonth(y: int, m: int)
    requires 1 <= m < 12
    ensures DaysBeforeMonth(y, m + 1) == DaysBeforeMonth(y, m) + DaysInMonth(y, m)
  {
  }

  /** A later year starts no earlier than the end of an earlier one. */
  lemma {:induction false} YearsAreOrdered(y1: int, y2: int)
    requires 1 <= y1 < y2
    ensures DaysBeforeYear(y1) + DaysInYear(y1) <= DaysBeforeYear(y2)
    decreases y2 - y1
  {
    DaysBeforeNextYear(y1);
    if y1 + 1 < y2 {
      YearsAreOrdered(y1 + 1, y2);
    }
  }

  /** A later month of the same year starts no earlier than the end of an earlier one. */
  lemma {:induction false} MonthsAreOrdered(y: int, m1: int, m2: int)
    requires 1 <= m1 < m2 <= 12
    ensures DaysBeforeMonth(y, m1) + DaysInMonth(y, m1) <= DaysBeforeMonth(y, m2)
    decreases m2 - m1
  {
    DaysBeforeNextMonth(y, m1);
    if m1 + 1 < m2 {
      MonthsAreOrdered(y, m1 + 1, m2);
    }
  }

  /** Every day of year `y` has a day number inside that year's block. */
  lemma OrdinalWithinYear(d: Date)
    requires ValidDate(d)
    ensures DaysBeforeYear(d.year) < Ordinal(d) <= DaysBeforeYear(d.year) + DaysInYear(d.year)
  {
    if d.month < 12 {
      MonthsAreOrdered(d.year, d.month, 12);
    }
  }

  /** Python's date comparison agrees with comparing day numbers. */
  lemma LessIsOrdinalOrder(a: Date, b: Date)
    requires ValidDate(a) && ValidDate(b)
    ensures Less(a, b) <==> Ordinal(a) < Ordinal(b)
  {
    if Less(a, b) {
      LessHasSmallerOrdinal(a, b);
    } else if a != b {
      LessHasSmallerOrdinal(b, a);
    }
  }

  lemma LessHasSmallerOrdinal(a: Date, b: Date)
    requires ValidDate(a) && ValidDate(b) && Less(a, b)
    ensures Ordinal(a) < Ordinal(b)
  {
    if a.year < b.year {
      OrdinalWithinYear(a);
      OrdinalWithinYear(b);
      YearsAreOrdered(a.year, b.year);
    } else if a.month < b.month {
      MonthsAreOrdered(a.year, a.month, b.month);
    }
  }

  /** Distinct calendar days have distinct day numbers. */
  lemma OrdinalIsInjective(a: Date, b: Date)
    requires ValidDate(a) && ValidDate(b) && Ordinal(a) == Ordinal(b)
    ensures a == b
  {
    if a != b {
      if Less(a, b) {
        LessIsOrdinalOrder(a, b);
      } else {
        LessIsOrdinalOrder(b, a);
      }
    }
  }

  // ---------------------------------------------------------------------------
  // Moving forward by days (Python's date + timedelta(days = n))
  // ---------------------------------------------------------------------------

  /** The calendar day after `d`, rolling over month and year ends. */
  function NextDay(d: Date): Date
    requires ValidDate(d)
  {
    if d.day < DaysInMonth(d.year, d.month) then Date(d.year, d.month, d.day + 1)
    else if d.month < 12 then Date(d.year, d.month + 1, 1)
    else Date(d.year + 1, 1, 1)
  }

  lemma NextDayOrdinal(d: Date)
    requires ValidDate(d)
    ensures ValidDate(NextDay(d))
    ensures Ordinal(NextDay(d)) == Ordinal(d) + 1
  {
    if d.day < DaysInMonth(d.year, d.month) {
    } else if d.month < 12 {
      DaysBeforeNextMonth(d.year, d.month);
    } else {
      DaysBeforeNextYear(d.year);
    }
  }

  /** `NextDay(d)` is the immediate successor of `d`: no valid day lies strictly between them. */
  lemma NextDayIsSuccessor(d: Date, e: Date)
    requires ValidDate(d) && ValidDate(e)
    ensures Less(d, NextDay(d))
    ensures !(Less(d, e) && Less(e, NextDay(d)))
  {
    NextDayOrdinal(d);
    LessIsOrdinalOrder(d, NextDay(d));
    LessIsOrdinalOrder(d, e);
    LessIsOrdinalOrder(e, NextDay(d));
  }

  /** `d + timedelta(days = n)` for `n >= 0`. */
  function AddDays(d: Date, n: nat): Date
    requires ValidDate(d)
    decreases n
  {
    if n == 0 then d
    else
      NextDayOrdinal(d);
      AddDays(NextDay(d), n - 1)
  }

  /** Adding `n` days moves the day number forward by exactly `n`, as Python's date arithmetic does. */
  lemma {:induction false} AddDaysOrdinal(d: Date, n: nat)
    requires ValidDate(d)
    ensures ValidDate(AddDays(d, n))
    ensures Ordinal(AddDays(d, n)) == Ordinal(d) + n
    decreases n
  {
    if n > 0 {
      NextDayOrdinal(d);
      AddDaysOrdinal(NextDay(d), n - 1);
    }
  }

  /** At most one year-end is crossed when adding up to 365 days. */
  lemma AddDaysYearBound(d: Date, n: nat)
    requires ValidDate(d) && n <= 365
    ensures ValidDate(AddDays(d, n))
    ensures AddDays(d, n).year <= d.year + 1
  {
    var e := AddDays(d, n);
    AddDaysOrdinal(d, n);
    if e.year > d.year + 1 {
      OrdinalWithinYear(d);
      OrdinalWithinYear(e);
      DaysBeforeNextYear(d.year);
      YearsAreOrdered(d.year + 1, e.year);
      assert false;
    }
  }

  // ---------------------------------------------------------------------------
  // Text form: strptime(s, "%Y-%m-%d") and its inverse
  // ---------------------------------------------------------------------------

  predicate IsDigit(c: char) {
    '0' <= c <= '9'
  }

  predicate AllDigits(s: string) {
    forall i :: 0 <= i < |s| ==> IsDigit(s[i])
  }

  function DigitValue(c: char): (n: int)
    requires IsDigit(c)
    ensures 0 <= n <= 9
  {
    c as int - '0' as int
  }

  function DigitChar(n: int): (c: char)
    requires 0 <= n <= 9
    ensures IsDigit(c) && DigitValue(c) == n
  {
    (n + '0' as int) as char
  }

  function Pow10(w: nat): (p: nat)
    ensures p >= 1
  {
    if w == 0 then 1 else 10 * Pow10(w - 1)
  }

  /** The value of a decimal digit string, most significant digit first. */
  function Number(s: string): (n: nat)
    requires AllDigits(s)
    ensures n < Pow10(|s|)
  {
    if s == [] then 0
    else 10 * Number(s[..|s| - 1]) + DigitValue(s[|s| - 1])
  }

  /** The last `w` decimal digits of `n`, zero-padded on the left. */
  function Digits(n: nat, w: nat): (s: string)
    ensures |s| == w && AllDigits(s)
  {
    if w == 0 then [] else Digits(n / 10, w - 1) + [DigitChar(n % 10)]
  }

  /** Writing a number in `w` digits and reading it back gives the number, when it fits. */
  lemma {:induction false} NumberOfDigits(n: nat, w: nat)
    requires n < Pow10(w)
    ensures Number(Digits(n, w)) == n
  {
    if w > 0 {
      var s := Digits(n, w);
      assert s[..w - 1] == Digits(n / 10, w - 1);
      NumberOfDigits(n / 10, w - 1);
    }
  }

  /** Reading a digit string and writing it back in as many digits gives the same string. */
  lemma {:induction false} DigitsOfNumber(s: string)
    requires AllDigits(s)
    ensures Digits(Number(s), |s|) == s
  {
    if s != [] {
      var init := s[..|s| - 1];
      var n := Number(s);
      assert n / 10 == Number(init) && n % 10 == DigitValue(s[|s| - 1]);
      DigitsOfNumber(init);
      assert s == init + [s[|s| - 1]];
    }
  }

  /** The shape `DDDD-DD-DD`: ten characters, digits except for the two dashes. */
  predicate WellFormed(s: string) {
    |s| == 10 && s[4] == '-' && s[7] == '-'
    && AllDigits(s[..4]) && AllDigits(s[5..7]) && AllDigits(s[8..])
  }

  /**
   * Reads a `YYYY-MM-DD` text as a date, or gives `None` when the text does
   * not have that shape or names no real day (year 0, month 13, February 30).
   */
  function Parse(s: string): (r: Option<Date>)
    ensures r.Some? ==> WellFormed(s) && ValidDate(r.value) && r.value.year <= 9999
  {
    if !WellFormed(s) then None
    else
      var y, m, d := Number(s[..4]), Number(s[5..7]), Number(s[8..]);
      if 1 <= y && 1 <= m <= 12 && 1 <= d <= DaysInMonth(y, m) then Some(Date(y, m, d)) else None
  }

  /** The `YYYY-MM-DD` text of a date whose year has at most four digits (`date.isoformat()`). */
  function Format(d: Date): (s: string)
    requires ValidDate(d) && d.year <= 9999
    ensures WellFormed(s)
  {
    Digits(d.year, 4) + "-" + Digits(d.month, 2) + "-" + Digits(d.day, 2)
  }

  /** Every date in Python's range reads back from its own text. */
  lemma ParseFormat(d: Date)
    requires ValidDate(d) && d.year <= 9999
    ensures Parse(Format(d)) == Some(d)
  {
    var s := Format(d);
    assert s[..4] == Digits(d.year, 4) && s[5..7] == Digits(d.month, 2) && s[8..] == Digits(d.day, 2);
    NumberOfDigits(d.year, 4);
    NumberOfDigits(d.month, 2);
    NumberOfDigits(d.day, 2);
  }

  /** Every text the parser accepts is the canonical text of the date it yields. */
  lemma FormatParse(s: string)
    requires Parse(s).Some?
    ensures Format(Parse(s).value) == s
  {
    DigitsOfNumber(s[..4]);
    DigitsOfNumber(s[5..7]);
    DigitsOfNumber(s[8..]);
    assert s == s[..4] + "-" + s[5..7] + "-" + s[8..];
  }

  /** Adding a week across a leap February, a common February and a year end. */
  lemma AddWeekExamples()
    ensures AddDays(Date(2024, 2, 25), 7) == Date(2024, 3, 3)
    ensures AddDays(Date(2023, 2, 25), 7) == Date(2023, 3, 4)
    ensures AddDays(Date(2023, 12, 28), 7) == Date(2024, 1, 4)
  {
  }
}
