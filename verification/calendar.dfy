/**
  Gregorian calendar dates and their ISO 8601 "YYYY-MM-DD" spelling, the form
  in which the month table hands date ranges to the weather archive.
 */
module Calendar {
  import opened Wrappers

  datatype Date = Date(year: int, month: int, day: int)

  /** Gregorian leap-year rule. */
  predicate IsLeapYear(y: int) {
    y % 4 == 0 && (y % 100 != 0 || y % 400 == 0)
  }

  function DaysInMonth(y: int, m: int): (n: nat)
    requires 1 <= m <= 12
    ensures 28 <= n <= 31
    ensures m == 2 ==> (n == 29 <==> IsLeapYear(y))
  {
    if m == 2 then (if IsLeapYear(y) then 29 else 28)
    else if m == 4 || m == 6 || m == 9 || m == 11 then 30
    else 31
  }

  predicate ValidDate(d: Date) {
    1 <= d.month <= 12 && 1 <= d.day <= DaysInMonth(d.year, d.month)
  }

  /** Chronological order: by year, then month, then day. */
  predicate DateLe(a: Date, b: Date) {
    a.year < b.year ||
    (a.year == b.year && (a.month < b.month || (a.month == b.month && a.day <= b.day)))
  }

  /** The calendar day that follows `d`: the least valid date strictly after it. */
  function NextDay(d: Date): (r: Date)
    requires ValidDate(d)
    ensures ValidDate(r) && DateLe(d, r) && r != d
    ensures forall e :: ValidDate(e) && DateLe(d, e) && e != d ==> DateLe(r, e)
  {
    if d.day < DaysInMonth(d.year, d.month) then Date(d.year, d.month, d.day + 1)
    else if d.month < 12 then Date(d.year, d.month + 1, 1)
    else Date(d.year + 1, 1, 1)
  }

  // Decimal digits

  predicate IsDigit(c: char) {
    '0' <= c <= '9'
  }

  function DigitValue(c: char): (n: nat)
    requires IsDigit(c)
    ensures n < 10
  {
    c as int - '0' as int
  }

  function DigitChar(n: nat): (c: char)
    requires n < 10
    ensures IsDigit(c) && DigitValue(c) == n
  {
    ('0' as int + n) as char
  }

  /** `n` as exactly two decimal digits, with a leading zero below ten. */
  function TwoDigits(n: nat): (s: string)
    requires n < 100
  {
    [DigitChar(n / 10), DigitChar(n % 10)]
  }

  // ISO 8601 calendar dates, "YYYY-MM-DD"

  /** Dates that have a four-digit ISO spelling. */
  predicate Formattable(d: Date) {
    ValidDate(d) && 0 <= d.year < 10000
  }

  /** Ten characters: four digits, '-', two digits, '-', two digits. */
  predicate IsoShape(s: string) {
    |s| == 10 && s[4] == '-' && s[7] == '-' &&
    IsDigit(s[0]) && IsDigit(s[1]) && IsDigit(s[2]) && IsDigit(s[3]) &&
    IsDigit(s[5]) && IsDigit(s[6]) && IsDigit(s[8]) && IsDigit(s[9])
  }

  function FormatDate(d: Date): (s: string)
    requires Formattable(d)
    ensures IsoShape(s)
  {
    [DigitChar(d.year / 1000), DigitChar(d.year / 100 % 10),
     DigitChar(d.year / 10 % 10), DigitChar(d.year % 10), '-',
     DigitChar(d.month / 10), DigitChar(d.month % 10), '-',
     DigitChar(d.day / 10), DigitChar(d.day % 10)]
  }

  /** Reads "YYYY-MM-DD"; None for any other shape or for a day the calendar lacks. */
  function ParseDate(s: string): (r: Option<Date>)
    ensures r.Some? ==> Formattable(r.value) && IsoShape(s)
  {
    if IsoShape(s) then
      var d := Date(
        1000 * DigitValue(s[0]) + 100 * DigitValue(s[1]) + 10 * DigitValue(s[2]) + DigitValue(s[3]),
        10 * DigitValue(s[5]) + DigitValue(s[6]),
        10 * DigitValue(s[8]) + DigitValue(s[9]));
      if ValidDate(d) then Some(d) else None
    else None
  }

  /** The four decimal digits of `y` put back together give `y`. */
  lemma FourDigits(y: int)
    requires 0 <= y < 10000
    ensures 1000 * (y / 1000) + 100 * (y / 100 % 10) + 10 * (y / 10 % 10) + y % 10 == y
  {
    assert y / 100 == (y / 10) / 10;
    assert y / 1000 == (y / 100) / 10;
  }

  lemma ParseFormatDate(d: Date)
    requires Formattable(d)
    ensures ParseDate(FormatDate(d)) == Some(d)
  {
    FourDigits(d.year);
  }

  /** Splitting a four-digit number into digits recovers the digits. */
  lemma SplitFourDigits(a: nat, b: nat, c: nat, e: nat)
    requires a < 10 && b < 10 && c < 10 && e < 10
    ensures var y := 1000 * a + 100 * b + 10 * c + e;
      y / 1000 == a && y / 100 % 10 == b && y / 10 % 10 == c && y % 10 == e
  {
    var y := 1000 * a + 100 * b + 10 * c + e;
    assert y / 10 == 100 * a + 10 * b + c;
    assert y / 100 == 10 * a + b;
  }

  lemma SplitTwoDigits(a: nat, b: nat)
    requires a < 10 && b < 10
    ensures (10 * a + b) / 10 == a && (10 * a + b) % 10 == b
  {
  }

  lemma DigitRoundTrip(c: char)
    requires IsDigit(c)
    ensures DigitChar(DigitValue(c)) == c
  {
  }

  lemma FormatParseDate(s: string)
    requires ParseDate(s).Some?
    ensures FormatDate(ParseDate(s).value) == s
  {
    SplitFourDigits(DigitValue(s[0]), DigitValue(s[1]), DigitValue(s[2]), DigitValue(s[3]));
    SplitTwoDigits(DigitValue(s[5]), DigitValue(s[6]));
    SplitTwoDigits(DigitValue(s[8]), DigitValue(s[9]));
    DigitRoundTrip(s[0]); DigitRoundTrip(s[1]); DigitRoundTrip(s[2]); DigitRoundTrip(s[3]);
    DigitRoundTrip(s[5]); DigitRoundTrip(s[6]); DigitRoundTrip(s[8]); DigitRoundTrip(s[9]);
  }
}
