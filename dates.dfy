/**
 * Calendar dates as Go's `time` package formats and parses them with the two
 * layouts the system uses: "02/01/2006" (dd/mm/yyyy, birth dates) and
 * "20060102" (yyyymmdd, the invoice code). Only the date part matters to both.
 */
module Dates {
  import opened Wrappers
  import opened Strconv

  datatype Date = Date(year: int, month: int, day: int)

  predicate IsLeap(year: int) {
    year % 4 == 0 && (year % 100 != 0 || year % 400 == 0)
  }

  /** Go's `daysIn`: the length of a month, with 29 days in a leap-year February. */
  function DaysIn(month: int, year: int): int
    requires 1 <= month <= 12
  {
    if month == 2 then (if IsLeap(year) then 29 else 28)
    else if month in {4, 6, 9, 11} then 30
    else 31
  }

  /** A date both layouts can print: a four-digit year and an existing day of a month. */
  predicate Valid(d: Date) {
    0 <= d.year <= 9999 && 1 <= d.month <= 12 && 1 <= d.day <= DaysIn(d.month, d.year)
  }

  /** `%02d`-style zero padding to two digits. */
  function Pad2(n: int): (s: string)
    requires 0 <= n < 100
    ensures |s| == 2 && AllDigits(s)
  {
    [DigitChar(n / 10), DigitChar(n % 10)]
  }

  /** Zero padding to four digits, as Go prints a year and `%04d` a number below 10000. */
  function Pad4(n: int): (s: string)
    requires 0 <= n < 10000
    ensures |s| == 4 && AllDigits(s)
  {
    Pad2(n / 100) + Pad2(n % 100)
  }

  /** The value of two digit characters. */
  function Value2(a: char, b: char): int
    requires IsDigit(a) && IsDigit(b)
  {
    DigitValue(a) * 10 + DigitValue(b)
  }

  /** The value of four digit characters. */
  function Value4(s: string): int
    requires |s| == 4 && AllDigits(s)
  {
    Value2(s[0], s[1]) * 100 + Value2(s[2], s[3])
  }

  lemma Pad2Value(n: int)
    requires 0 <= n < 100
    ensures Value2(Pad2(n)[0], Pad2(n)[1]) == n
  {
  }

  lemma Pad4Value(n: int)
    requires 0 <= n < 10000
    ensures Value4(Pad4(n)) == n
  {
    Pad2Value(n / 100);
    Pad2Value(n % 100);
  }

  /** `t.Format("02/01/2006")`. */
  function FormatDMY(d: Date): (s: string)
    requires Valid(d)
    ensures |s| == 10
  {
    Pad2(d.day) + "/" + Pad2(d.month) + "/" + Pad4(d.year)
  }

  /** `t.Format("20060102")`. */
  function FormatCompact(d: Date): (s: string)
    requires Valid(d)
    ensures |s| == 8 && AllDigits(s)
  {
    Pad4(d.year) + Pad2(d.month) + Pad2(d.day)
  }

  /** The shape "02/01/2006" accepts: exactly two, two and four digits around two slashes. */
  predicate DMYShape(s: string) {
    |s| == 10 && s[2] == '/' && s[5] == '/' &&
    IsDigit(s[0]) && IsDigit(s[1]) && IsDigit(s[3]) && IsDigit(s[4]) &&
    AllDigits(s[6..])
  }

  /**
   * `time.Parse("02/01/2006", s)`: fixed-width fields, a month in 1..12 and a
   * day that exists in that month of that year; anything else is an error.
   */
  function ParseDMY(s: string): (r: Option<Date>)
    ensures r.Some? ==> Valid(r.value)
  {
    if !DMYShape(s) then None
    else
      var d := Date(Value4(s[6..]), Value2(s[3], s[4]), Value2(s[0], s[1]));
      if 1 <= d.month <= 12 && 1 <= d.day <= DaysIn(d.month, d.year) then Some(d) else None
  }

  /** Every valid date formats to a string that parses back to it. */
  lemma ParseFormatDMY(d: Date)
    requires Valid(d)
    ensures ParseDMY(FormatDMY(d)) == Some(d)
  {
    var s := FormatDMY(d);
    Pad2Value(d.day);
    Pad2Value(d.month);
    Pad4Value(d.year);
    assert s[6..] == Pad4(d.year);
    assert s[0..2] == Pad2(d.day);
    assert s[3..5] == Pad2(d.month);
  }

  /** Every string that parses is the formatting of the date it parses to. */
  lemma FormatParseDMY(s: string)
    requires ParseDMY(s).Some?
    ensures FormatDMY(ParseDMY(s).value) == s
  {
    var d := ParseDMY(s).value;
    var t := FormatDMY(d);
    Pad2Value(d.day);
    Pad2Value(d.month);
    Pad4Value(d.year);
    DigitsDetermined(s[6..], Pad4(d.year));
    assert t[6..] == Pad4(d.year);
    forall i | 0 <= i < 6 ensures t[i] == s[i] {
      if i < 2 { TwoDigitsDetermined(s[0], s[1], Pad2(d.day)[0], Pad2(d.day)[1]); }
      else if 3 <= i < 5 { TwoDigitsDetermined(s[3], s[4], Pad2(d.month)[0], Pad2(d.month)[1]); }
    }
    assert t == t[..6] + t[6..] && s == s[..6] + s[6..];
  }

  lemma TwoDigitsDetermined(a: char, b: char, c: char, d: char)
    requires IsDigit(a) && IsDigit(b) && IsDigit(c) && IsDigit(d)
    requires Value2(a, b) == Value2(c, d)
    ensures a == c && b == d
  {
  }

  lemma DigitsDetermined(s: string, t: string)
    requires |s| == 4 && AllDigits(s) && |t| == 4 && AllDigits(t)
    requires Value4(s) == Value4(t)
    ensures s == t
  {
    TwoDigitsDetermined(s[0], s[1], t[0], t[1]);
    TwoDigitsDetermined(s[2], s[3], t[2], t[3]);
  }
}
