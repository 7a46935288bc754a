/**
 * The date normaliser of the translator (`format_date`): a front-end date
 * `YYYY-MM-DD` becomes the API timestamp `YYYY-MM-DDT00:00:00Z`, moved back
 * one day when it opens a range; the open-range marker `*` is kept as it is.
 */
module Dates {
  import opened Results

  /** A calendar date of the proleptic Gregorian calendar. */
  datatype Date = Date(year: int, month: int, day: int)

  datatype DateError =
    | Malformed(token: string)      // not a `YYYY-MM-DD` calendar date
    | BeforeYearOne(token: string)  // the day before 0001-01-01 has no four-digit year

  /** The marker of an open end of a date range. */
  const OpenEnd: string := "*"

  const FirstDate: Date := Date(1, 1, 1)
  const LastDate: Date := Date(9999, 12, 31)

  predicate IsLeapYear(y: int) {
    y % 4 == 0 && (y % 100 != 0 || y % 400 == 0)
  }

  function DaysInMonth(y: int, m: int): int
    requires 1 <= m <= 12
  {
    if m == 2 then (if IsLeapYear(y) then 29 else 28)
    else if m == 4 || m == 6 || m == 9 || m == 11 then 30
    else 31
  }

  function DaysInYear(y: int): int {
    if IsLeapYear(y) then 366 else 365
  }

  /** A real day with a four-digit year. */
  predicate Valid(d: Date) {
    1 <= d.year <= 9999 && 1 <= d.month <= 12 && 1 <= d.day <= DaysInMonth(d.year, d.month)
  }

  /** Lexicographic order on (year, month, day). */
  predicate Before(a: Date, b: Date) {
    a.year < b.year
    || (a.year == b.year && a.month < b.month)
    || (a.year == b.year && a.month == b.month && a.day < b.day)
  }

  // ---------------------------------------------------------------------------
  // Moving by one day

  /** The day before `d`, across month and year ends and February 29. */
  function PrevDay(d: Date): (r: Date)
    requires Valid(d) && d != FirstDate
    ensures Valid(r) && Before(r, d) && r != LastDate
  {
    if d.day > 1 then Date(d.year, d.month, d.day - 1)
    else if d.month > 1 then Date(d.year, d.month - 1, DaysInMonth(d.year, d.month - 1))
    else Date(d.year - 1, 12, 31)
  }

  /** The day after `d`. */
  function NextDay(d: Date): (r: Date)
    requires Valid(d) && d != LastDate
    ensures Valid(r) && Before(d, r) && r != FirstDate
  {
    if d.day < DaysInMonth(d.year, d.month) then Date(d.year, d.month, d.day + 1)
    else if d.month < 12 then Date(d.year, d.month + 1, 1)
    else Date(d.year + 1, 1, 1)
  }

  lemma NextOfPrev(d: Date)
    requires Valid(d) && d != FirstDate
    ensures NextDay(PrevDay(d)) == d
  {
  }

  lemma PrevOfNext(d: Date)
    requires Valid(d) && d != LastDate
    ensures PrevDay(NextDay(d)) == d
  {
  }

  // ---------------------------------------------------------------------------
  // Day numbers: 0001-01-01 is day 1, and every day is one more than the one before

  function DaysBeforeYear(y: int): nat
    requires y >= 1
  {
    if y == 1 then 0 else DaysBeforeYear(y - 1) + DaysInYear(y - 1)
  }

  function DaysBeforeMonth(y: int, m: int): nat
    requires 1 <= m <= 13
  {
    if m == 1 then 0 else DaysBeforeMonth(y, m - 1) + DaysInMonth(y, m - 1)
  }

  function DayNumber(d: Date): int
    requires Valid(d)
  {
    DaysBeforeYear(d.year) + DaysBeforeMonth(d.year, d.month) + d.day
  }

  /** The twelve months of a year add up to its length. */
  lemma YearLength(y: int)
    ensures DaysBeforeMonth(y, 13) == DaysInYear(y)
  {
    assert DaysBeforeMonth(y, 2) == 31;
    assert DaysBeforeMonth(y, 3) == 31 + DaysInMonth(y, 2);
    assert DaysBeforeMonth(y, 4) == 62 + DaysInMonth(y, 2);
    assert DaysBeforeMonth(y, 5) == 92 + DaysInMonth(y, 2);
    assert DaysBeforeMonth(y, 6) == 123 + DaysInMonth(y, 2);
    assert DaysBeforeMonth(y, 7) == 153 + DaysInMonth(y, 2);
    assert DaysBeforeMonth(y, 8) == 184 + DaysInMonth(y, 2);
    assert DaysBeforeMonth(y, 9) == 215 + DaysInMonth(y, 2);
    assert DaysBeforeMonth(y, 10) == 245 + DaysInMonth(y, 2);
    assert DaysBeforeMonth(y, 11) == 276 + DaysInMonth(y, 2);
    assert DaysBeforeMonth(y, 12) == 306 + DaysInMonth(y, 2);
    assert DaysBeforeMonth(y, 13) == 337 + DaysInMonth(y, 2);
  }

  /** `PrevDay` steps back exactly one day on the day count. */
  lemma PrevDayNumber(d: Date)
    requires Valid(d) && d != FirstDate
    ensures DayNumber(PrevDay(d)) == DayNumber(d) - 1
  {
    if d.day == 1 && d.month == 1 {
      YearLength(d.year - 1);
    }
  }

  lemma {:induction false} MonthsMonotone(y: int, m1: int, m2: int)
    requires 1 <= m1 <= m2 <= 13
    ensures DaysBeforeMonth(y, m1) <= DaysBeforeMonth(y, m2)
    decreases m2
  {
    if m1 < m2 {
      MonthsMonotone(y, m1, m2 - 1);
    }
  }

  lemma {:induction false} YearsMonotone(y1: int, y2: int)
    requires 1 <= y1 <= y2
    ensures DaysBeforeYear(y1) <= DaysBeforeYear(y2)
    decreases y2
  {
    if y1 < y2 {
      YearsMonotone(y1, y2 - 1);
    }
  }

  /** A day's number lies within its year. */
  lemma WithinYear(d: Date)
    requires Valid(d)
    ensures DaysBeforeYear(d.year) < DayNumber(d) <= DaysBeforeYear(d.year + 1)
  {
    MonthsMonotone(d.year, d.month + 1, 13);
    YearLength(d.year);
  }

  /** Day numbers follow the calendar order. */
  lemma DayNumberOrder(a: Date, b: Date)
    requires Valid(a) && Valid(b) && Before(a, b)
    ensures DayNumber(a) < DayNumber(b)
  {
    if a.year < b.year {
      WithinYear(a);
      WithinYear(b);
      YearsMonotone(a.year + 1, b.year);
    } else if a.month < b.month {
      MonthsMonotone(a.year, a.month + 1, b.month);
    }
  }

  /** `PrevDay(d)` is the one valid date whose number is one less than that of `d`. */
  lemma PrevDayUnique(d: Date, e: Date)
    requires Valid(d) && d != FirstDate && Valid(e)
    ensures DayNumber(e) == DayNumber(d) - 1 <==> e == PrevDay(d)
  {
    var p := PrevDay(d);
    PrevDayNumber(d);
    if e != p {
      if Before(e, p) {
        DayNumberOrder(e, p);
      } else {
        assert Before(p, e);
        DayNumberOrder(p, e);
      }
    }
  }

  // ---------------------------------------------------------------------------
  // Text: zero-padded decimal fields

  predicate IsDigit(c: char) {
    '0' <= c <= '9'
  }

  predicate AllDigits(s: string) {
    forall i | 0 <= i < |s| :: IsDigit(s[i])
  }

  function Pow10(w: nat): nat {
    if w == 0 then 1 else 10 * Pow10(w - 1)
  }

  /** The value of a string of decimal digits. */
  function Number(s: string): nat
    requires AllDigits(s)
  {
    if s == [] then 0 else 10 * Number(s[..|s| - 1]) + (s[|s| - 1] as int - '0' as int)
  }

  /** `n` written with exactly `width` decimal digits, zero-padded on the left. */
  function Pad(n: nat, width: nat): (s: string)
    requires n < Pow10(width)
    ensures |s| == width && AllDigits(s)
  {
    if width == 0 then "" else Pad(n / 10, width - 1) + [(48 + n % 10) as char]
  }

  /** Padding keeps the value. */
  lemma {:induction false} NumberPad(n: nat, width: nat)
    requires n < Pow10(width)
    ensures Number(Pad(n, width)) == n
  {
    if width > 0 {
      var s := Pad(n, width);
      assert s[..width - 1] == Pad(n / 10, width - 1);
      NumberPad(n / 10, width - 1);
    }
  }

  /** Reading a digit string and padding it back to its width gives the string again. */
  lemma {:induction false} PadNumber(s: string)
    requires AllDigits(s)
    ensures Number(s) < Pow10(|s|) && Pad(Number(s), |s|) == s
  {
    if s != [] {
      var init := s[..|s| - 1];
      PadNumber(init);
      var n := Number(s);
      var c := s[|s| - 1];
      assert n / 10 == Number(init) && n % 10 == c as int - 48;
      assert s == init + [c];
    }
  }

  /** `YYYY-MM-DD`. */
  function ShowDate(d: Date): (s: string)
    requires Valid(d)
    ensures |s| == 10
  {
    Pad(d.year, 4) + "-" + Pad(d.month, 2) + "-" + Pad(d.day, 2)
  }

  /** The time of day the API's timestamps carry: midnight UTC. */
  const Midnight: string := "T00:00:00Z"

  /** `YYYY-MM-DDT00:00:00Z`: midnight UTC of `d`. */
  function Timestamp(d: Date): (s: string)
    requires Valid(d)
    ensures |s| == 20 && s[..10] == ShowDate(d) && s[10..] == Midnight
  {
    ShowDate(d) + Midnight
  }

  /** Strict reading of `YYYY-MM-DD`: four, two and two digits naming a real day. */
  function ParseDate(s: string): (r: Option<Date>)
    ensures r.Some? ==> Valid(r.value)
  {
    if |s| == 10 && s[4] == '-' && s[7] == '-'
       && AllDigits(s[..4]) && AllDigits(s[5..7]) && AllDigits(s[8..])
    then
      var d := Date(Number(s[..4]), Number(s[5..7]), Number(s[8..]));
      if Valid(d) then Some(d) else None
    else None
  }

  /** A date's text is its year, month and day as zero-padded digit fields, split by `-`. */
  lemma ShowDateFields(d: Date)
    requires Valid(d)
    ensures ShowDate(d)[4] == '-' && ShowDate(d)[7] == '-'
    ensures AllDigits(ShowDate(d)[..4]) && Number(ShowDate(d)[..4]) == d.year
    ensures AllDigits(ShowDate(d)[5..7]) && Number(ShowDate(d)[5..7]) == d.month
    ensures AllDigits(ShowDate(d)[8..]) && Number(ShowDate(d)[8..]) == d.day
  {
    var s := ShowDate(d);
    NumberPad(d.year, 4);
    NumberPad(d.month, 2);
    NumberPad(d.day, 2);
    assert s[..4] == Pad(d.year, 4);
    assert s[5..7] == Pad(d.month, 2);
    assert s[8..] == Pad(d.day, 2);
  }

  /** Every valid date reads back from its text. */
  lemma ParseShowDate(d: Date)
    requires Valid(d)
    ensures ParseDate(ShowDate(d)) == Some(d)
  {
    var s := ShowDate(d);
    NumberPad(d.year, 4);
    NumberPad(d.month, 2);
    NumberPad(d.day, 2);
    assert s[..4] == Pad(d.year, 4);
    assert s[5..7] == Pad(d.month, 2);
    assert s[8..] == Pad(d.day, 2);
  }

  /** Whatever reads as a date is exactly that date's text. */
  lemma ShowParseDate(s: string)
    requires ParseDate(s).Some?
    ensures ShowDate(ParseDate(s).value) == s
  {
    PadNumber(s[..4]);
    PadNumber(s[5..7]);
    PadNumber(s[8..]);
    assert s == s[..4] + "-" + s[5..7] + "-" + s[8..];
  }

  // ---------------------------------------------------------------------------
  // format_date

  /**
   * The API form of a date token: `*` unchanged; otherwise the timestamp of
   * the date, or of the day before it when `start` is set.
   */
  function FormatDate(token: string, start: bool): (r: Result<string, DateError>)
    ensures token == OpenEnd ==> r == Ok(OpenEnd)
    ensures token != OpenEnd && ParseDate(token).None? ==> r == Err(Malformed(token))
    ensures r.Ok? && token != OpenEnd ==> |r.value| == 20 && r.value[10..] == Midnight
  {
    if token == OpenEnd then Ok(token)
    else
      match ParseDate(token)
      case None => Err(Malformed(token))
      case Some(d) =>
        if !start then Ok(Timestamp(d))
        else if d == FirstDate then Err(BeforeYearOne(token))
        else Ok(Timestamp(PrevDay(d)))
  }

  /** The end of a range: the same calendar day, as a timestamp. */
  lemma FormatRangeEnd(d: Date)
    requires Valid(d)
    ensures FormatDate(ShowDate(d), false) == Ok(Timestamp(d))
  {
    ParseShowDate(d);
  }

  /** The start of a range: the calendar day before, as a timestamp. */
  lemma FormatRangeStart(d: Date)
    requires Valid(d) && d != FirstDate
    ensures FormatDate(ShowDate(d), true) == Ok(Timestamp(PrevDay(d)))
    ensures DayNumber(PrevDay(d)) == DayNumber(d) - 1
  {
    ParseShowDate(d);
    PrevDayNumber(d);
  }

  /** A token that formats without error is `*` or a date's own text. */
  lemma FormatAccepts(token: string, start: bool)
    requires FormatDate(token, start).Ok? && token != OpenEnd
    ensures ParseDate(token).Some? && token == ShowDate(ParseDate(token).value)
    ensures start ==> ParseDate(token).value != FirstDate
  {
    ShowParseDate(token);
  }

  /**
   * The tokens `format_date` accepts, independently of how it reads them:
   * `*`, or the text of a date (other than the first one when the range
   * starts there).
   */
  ghost predicate Accepted(token: string, start: bool) {
    token == OpenEnd || exists d | Valid(d) && (start ==> d != FirstDate) :: token == ShowDate(d)
  }

  /** `format_date` succeeds exactly on the accepted tokens. */
  lemma FormatDateAccepts(token: string, start: bool)
    ensures FormatDate(token, start).Ok? <==> Accepted(token, start)
  {
    if FormatDate(token, start).Ok? && token != OpenEnd {
      FormatAccepts(token, start);
      var d := ParseDate(token).value;
      assert Valid(d) && (start ==> d != FirstDate) && token == ShowDate(d);
    }
    if Accepted(token, start) && token != OpenEnd {
      var d :| Valid(d) && (start ==> d != FirstDate) && token == ShowDate(d);
      ParseShowDate(d);
    }
  }
}
