/**
 * The freshness tag the inventory list gives each row: the expiry text is
 * read as a `YYYY-MM-DD` date and compared with today and with the day one
 * week after today.
 */
module Freshness {
  import opened Wrappers
  import opened Calendar

  /** The display tag of a row; `Untagged` is the empty tag, used for fresh and for unreadable dates alike. */
  datatype Tag = Expired | ExpiringSoon | Untagged

  /** The tag's name as the list's styles know it. */
  function TagName(t: Tag): string {
    match t
    case Expired => "Expired"
    case ExpiringSoon => "ExpiringSoon"
    case Untagged => ""
  }

  /** How many days ahead of today an expiry still counts as "soon". */
  const SoonWindow: nat := 7

  /**
   * The two readings of the clock that tag the list: the first gives today,
   * the second, taken an instant later, the day the one-week window is
   * counted from. Both fall on the same day except when midnight passes
   * between them.
   */
  datatype Clock = Clock(today: Date, later: Date)

  predicate ValidClock(c: Clock) {
    ValidDate(c.today) && ValidDate(c.later)
  }

  /**
   * The tag for an expiry text: Expired before today, ExpiringSoon up to and
   * including one week after the second reading, otherwise (or when the text
   * is not a date) no tag. It never fails.
   */
  function Classify(expiry: string, c: Clock): Tag
    requires ValidClock(c)
  {
    match Parse(expiry)
    case None => Untagged
    case Some(d) =>
      if Less(d, c.today) then Expired
      else if LessOrEqual(d, AddDays(c.later, SoonWindow)) then ExpiringSoon
      else Untagged
  }

  /**
   * The tag depends only on how many days away the expiry date is: fewer
   * than zero days from today gives Expired; otherwise at most seven days
   * from the second reading gives ExpiringSoon and more gives no tag; a text
   * that does not parse gives no tag.
   */
  lemma ClassifyByDaysLeft(expiry: string, c: Clock)
    requires ValidClock(c)
    ensures Parse(expiry).None? ==> Classify(expiry, c) == Untagged
    ensures Parse(expiry).Some? ==>
      var d := Parse(expiry).value;
      && (Classify(expiry, c) == Expired <==> DaysBetween(c.today, d) < 0)
      && (Classify(expiry, c) == ExpiringSoon <==> 0 <= DaysBetween(c.today, d) && DaysBetween(c.later, d) <= SoonWindow)
      && (Classify(expiry, c) == Untagged <==> 0 <= DaysBetween(c.today, d) && SoonWindow < DaysBetween(c.later, d))
  {
    if Parse(expiry).Some? {
      var d := Parse(expiry).value;
      var limit := AddDays(c.later, SoonWindow);
      AddDaysOrdinal(c.later, SoonWindow);
      LessIsOrdinalOrder(d, c.today);
      LessIsOrdinalOrder(limit, d);
    }
  }

  /** The tag of a date written out in the `YYYY-MM-DD` form, by its distance from the two readings. */
  lemma ClassifyDate(d: Date, c: Clock)
    requires ValidDate(d) && d.year <= 9999 && ValidClock(c)
    ensures Classify(Format(d), c) ==
      if DaysBetween(c.today, d) < 0 then Expired
      else if DaysBetween(c.later, d) <= SoonWindow then ExpiringSoon
      else Untagged
  {
    ParseFormat(d);
    ClassifyByDaysLeft(Format(d), c);
  }

  /** A date one day before today is already Expired, whatever the second reading. */
  lemma DayBeforeIsExpired(yesterday: Date, c: Clock)
    requires ValidDate(yesterday) && ValidClock(c) && c.today.year <= 9999
    requires NextDay(yesterday) == c.today
    ensures Classify(Format(yesterday), c) == Expired
  {
    NextDayOrdinal(yesterday);
    ClassifyDate(yesterday, c);
  }

  /**
   * With both readings on the same day the window is closed at both ends: a
   * date `n` days after today (within a year) is ExpiringSoon for every `n`
   * from 0 to 7 inclusive and untagged from `n = 8` on.
   */
  lemma DaysAheadTag(today: Date, n: nat)
    requires ValidDate(today) && today.year < 9999 && n <= 365
    ensures ValidDate(AddDays(today, n)) && AddDays(today, n).year <= 9999
    ensures Classify(Format(AddDays(today, n)), Clock(today, today)) == if n <= SoonWindow then ExpiringSoon else Untagged
  {
    var e := AddDays(today, n);
    AddDaysOrdinal(today, n);
    AddDaysYearBound(today, n);
    ClassifyDate(e, Clock(today, today));
  }

  /**
   * When midnight passes between the two readings the window is one day
   * wider: a date `n` days after the first reading is ExpiringSoon for every
   * `n` from 0 to 8 and untagged from `n = 9` on.
   */
  lemma MidnightWidensWindow(today: Date, n: nat)
    requires ValidDate(today) && today.year < 9999 && n <= 365
    ensures ValidDate(NextDay(today)) && ValidDate(AddDays(today, n)) && AddDays(today, n).year <= 9999
    ensures Classify(Format(AddDays(today, n)), Clock(today, NextDay(today))) == if n <= SoonWindow + 1 then ExpiringSoon else Untagged
  {
    var e := AddDays(today, n);
    NextDayOrdinal(today);
    AddDaysOrdinal(today, n);
    AddDaysYearBound(today, n);
    ClassifyDate(e, Clock(today, NextDay(today)));
  }

  /**
   * Tags on 2024-01-15, both readings on that day: two weeks back is
   * Expired, five and seven days ahead are ExpiringSoon, eight and seventeen
   * days ahead are untagged.
   */
  lemma ClassifyExamples()
    ensures Classify(Format(Date(2024, 1, 1)), Clock(Date(2024, 1, 15), Date(2024, 1, 15))) == Expired
    ensures Classify(Format(Date(2024, 1, 20)), Clock(Date(2024, 1, 15), Date(2024, 1, 15))) == ExpiringSoon
    ensures Classify(Format(Date(2024, 1, 22)), Clock(Date(2024, 1, 15), Date(2024, 1, 15))) == ExpiringSoon
    ensures Classify(Format(Date(2024, 1, 23)), Clock(Date(2024, 1, 15), Date(2024, 1, 15))) == Untagged
    ensures Classify(Format(Date(2024, 2, 1)), Clock(Date(2024, 1, 15), Date(2024, 1, 15))) == Untagged
  {
    var c := Clock(Date(2024, 1, 15), Date(2024, 1, 15));
    ClassifyDate(Date(2024, 1, 1), c);
    ClassifyDate(Date(2024, 1, 20), c);
    ClassifyDate(Date(2024, 1, 22), c);
    ClassifyDate(Date(2024, 1, 23), c);
    ClassifyDate(Date(2024, 2, 1), c);
  }
}
