/**
 * Calendar days. Dates are stored as `YYYY-MM-DD` text; this module holds the
 * shape test shared by every validator, proleptic-Gregorian calendar validity,
 * and `parseLocalIsoDate`, which reads the text as a local calendar day.
 */
module Dates {
  import opened Wrappers
  import opened Numbers

  /** The regular expression `^\d{4}-\d{2}-\d{2}$`. */
  predicate HasIsoShape(s: string)
  {
    && |s| == 10
    && IsDigit(s[0]) && IsDigit(s[1]) && IsDigit(s[2]) && IsDigit(s[3])
    && s[4] == '-'
    && IsDigit(s[5]) && IsDigit(s[6])
    && s[7] == '-'
    && IsDigit(s[8]) && IsDigit(s[9])
  }

  datatype CalendarDate = CalendarDate(year: int, month: int, day: int)

  /** A point in local time: a calendar day and the milliseconds elapsed since its midnight. */
  datatype LocalDateTime = LocalDateTime(date: CalendarDate, millisOfDay: nat)

  predicate IsLeapYear(year: int)
  {
    year % 4 == 0 && (year % 100 != 0 || year % 400 == 0)
  }

  function DaysInMonth(year: int, month: int): (n: int)
    requires 1 <= month <= 12
    ensures 28 <= n <= 31
    ensures month == 2 ==> (n == 29 <==> IsLeapYear(year))
  {
    if month == 2 then (if IsLeapYear(year) then 29 else 28)
    else if month == 4 || month == 6 || month == 9 || month == 11 then 30
    else 31
  }

  /** (year, month, day) names a real day of the proleptic Gregorian calendar. */
  predicate IsCalendarDay(d: CalendarDate)
  {
    1 <= d.month <= 12 && 1 <= d.day <= DaysInMonth(d.year, d.month)
  }

  /** The year, month and day written in a `YYYY-MM-DD` string. */
  function IsoComponents(s: string): (d: CalendarDate)
    requires HasIsoShape(s)
    ensures 0 <= d.year <= 9999 && d.month >= 0 && d.day >= 0
  {
    assert AllDigits(s[..4]) && AllDigits(s[5..7]) && AllDigits(s[8..]);
    ParseNatBound(s[..4]);
    CalendarDate(ParseNat(s[..4]), ParseNat(s[5..7]), ParseNat(s[8..]))
  }

  /** The value of a two-digit string. */
  lemma ParseTwoDigits(s: string)
    requires |s| == 2 && AllDigits(s)
    ensures ParseNat(s) == 10 * DigitValue(s[0]) + DigitValue(s[1])
  {
    assert s[..1][..0] == [] && s[..1][0] == s[0];
    assert ParseNat(s[..1]) == DigitValue(s[0]);
  }

  /**
   * A `YYYY-MM-DD` string that the host date parser accepts: the shape, and a
   * month and day that exist in that year.
   */
  predicate IsValidIsoDate(s: string)
  {
    HasIsoShape(s) && IsCalendarDay(IsoComponents(s))
  }

  /** `a` is a later calendar day than `b`. */
  predicate IsAfter(a: CalendarDate, b: CalendarDate)
  {
    a.year > b.year
    || (a.year == b.year && a.month > b.month)
    || (a.year == b.year && a.month == b.month && a.day > b.day)
  }

  /** `String.prototype.split` with a one-character separator. */
  function Split(s: string, sep: char): (parts: seq<string>)
    ensures |parts| >= 1
    decreases |s|
  {
    var i := IndexOf(s, sep);
    if i == |s| then [s] else [s[..i]] + Split(s[i + 1..], sep)
  }

  /**
   * `Number(text)` where the result is an integer, for the texts read here: ""
   * is 0 and a string of digits is its value; every other text is `None`. This
   * covers every part of a `YYYY-MM-DD`-shaped text, the only kind the date
   * checks pass on.
   */
  function IntegerOf(text: string): Option<int>
  {
    if AllDigits(text) then Some(ParseNat(text)) else None
  }

  /** Years the `Date(year, monthIndex, day)` constructor keeps as they are. */
  const MinLocalYear := 100
  const MaxLocalYear := 275759

  /**
   * `parseLocalIsoDate`: the first three `-`-separated parts must be integers
   * naming a real day, in a year the `Date` constructor does not remap; the result
   * is that day at local midnight.
   */
  function ParseLocalIsoDate(value: string): (r: Option<LocalDateTime>)
    ensures r.Some? ==> r.value.millisOfDay == 0 && IsCalendarDay(r.value.date)
    ensures r.Some? ==> MinLocalYear <= r.value.date.year <= MaxLocalYear
  {
    var parts := Split(value, '-');
    if |parts| < 3 then None
    else
      match (IntegerOf(parts[0]), IntegerOf(parts[1]), IntegerOf(parts[2]))
      case (Some(y), Some(m), Some(d)) =>
        var date := CalendarDate(y, m, d);
        if MinLocalYear <= y <= MaxLocalYear && IsCalendarDay(date)
        then Some(LocalDateTime(date, 0))
        else None
      case _ => None
  }

  /** A `YYYY-MM-DD` string splits at its two dashes. */
  lemma SplitIsoShape(s: string)
    requires HasIsoShape(s)
    ensures Split(s, '-') == [s[..4], s[5..7], s[8..]]
  {
    assert AllDigits(s[..4]) && s[..4] + s[4..] == s;
    IndexOfAfterDigits(s[..4], s[4..], '-');
    assert IndexOf(s, '-') == 4;
    var t := s[5..];
    assert AllDigits(t[..2]) && t[..2] + t[2..] == t;
    IndexOfAfterDigits(t[..2], t[2..], '-');
    assert IndexOf(t, '-') == 2;
    var u := s[8..];
    assert AllDigits(u) && u + [] == u;
    IndexOfAfterDigits(u, [], '-');
    assert IndexOf(u, '-') == |u|;
    assert Split(u, '-') == [u];
    assert t[3..] == u && t[..2] == s[5..7];
    assert Split(t, '-') == [t[..2]] + Split(u, '-');
    assert Split(s, '-') == [s[..4]] + Split(t, '-');
  }

  /**
   * On `YYYY-MM-DD` text, `parseLocalIsoDate` succeeds exactly for a real day in
   * a year from 100 on, and returns the written year, month and day.
   */
  lemma ParseLocalIsoDateOfShaped(s: string)
    requires HasIsoShape(s)
    ensures var c := IsoComponents(s);
      ParseLocalIsoDate(s) ==
        if MinLocalYear <= c.year && IsCalendarDay(c) then Some(LocalDateTime(c, 0)) else None
  {
    SplitIsoShape(s);
    assert AllDigits(s[..4]) && AllDigits(s[5..7]) && AllDigits(s[8..]);
  }

  /** A missing component makes the parse fail. */
  lemma ParseLocalIsoDateMissingDay()
    ensures ParseLocalIsoDate("2024-01") == None
  {
    var s := "2024-01";
    assert AllDigits("2024") && "2024" + "-01" == s;
    IndexOfAfterDigits("2024", "-01", '-');
    assert IndexOf(s, '-') == 4;
    assert AllDigits("01") && "01" + [] == "01";
    IndexOfAfterDigits("01", [], '-');
    assert s[5..] == "01";
    assert Split("01", '-') == ["01"];
    assert Split(s, '-') == ["2024", "01"];
  }

  /** February 29 of a four-digit year from 100 on is a day exactly in leap years. */
  lemma LeapDayAccepted(s: string)
    requires HasIsoShape(s)
    requires IsoComponents(s).month == 2 && IsoComponents(s).day == 29
    requires IsoComponents(s).year >= MinLocalYear
    ensures ParseLocalIsoDate(s).Some? <==> IsLeapYear(IsoComponents(s).year)
  {
    ParseLocalIsoDateOfShaped(s);
  }

  /** A written month outside 1-12, or a day past the end of its month (2024-02-31), gives no date. */
  lemma NonexistentDayRejected(s: string)
    requires HasIsoShape(s)
    requires var c := IsoComponents(s);
      c.month < 1 || c.month > 12 || c.day < 1 || c.day > DaysInMonth(c.year, c.month)
    ensures ParseLocalIsoDate(s) == None
  {
    ParseLocalIsoDateOfShaped(s);
  }
}
