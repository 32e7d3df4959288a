/**
  The month table of scripts/functions.py and the lookup that turns a
  point's month name into the [start, end] date pair sent to the archive.
 */
module MonthResolver {
  import opened Wrappers
  import opened Calendar

  /** A closed range of dates, both ends spelled "YYYY-MM-DD". */
  datatype DateRange = DateRange(start: string, end: string)

  /** The reference year every range lies in. */
  const Year: int := 2024

  /** What an empty, missing or unknown month name resolves to. */
  const FullYear: DateRange := DateRange("2024-01-01", "2024-12-31")

  /** The table's keys in the order the table lists them. */
  const MonthNames: seq<string> := [
    "january", "february", "march", "april", "may", "june",
    "july", "august", "september", "october", "november", "december"
  ]

  const MonthRanges: map<string, DateRange> := map[
    "january"   := DateRange("2024-01-01", "2024-01-31"),
    "february"  := DateRange("2024-02-01", "2024-02-29"),
    "march"     := DateRange("2024-03-01", "2024-03-31"),
    "april"     := DateRange("2024-04-01", "2024-04-30"),
    "may"       := DateRange("2024-05-01", "2024-05-31"),
    "june"      := DateRange("2024-06-01", "2024-06-30"),
    "july"      := DateRange("2024-07-01", "2024-07-31"),
    "august"    := DateRange("2024-08-01", "2024-08-31"),
    "september" := DateRange("2024-09-01", "2024-09-30"),
    "october"   := DateRange("2024-10-01", "2024-10-31"),
    "november"  := DateRange("2024-11-01", "2024-11-30"),
    "december"  := DateRange("2024-12-01", "2024-12-31")
  ]

  /** The table entry of month number `m` (1 = January). */
  function MonthEntry(m: int): DateRange
    requires 1 <= m <= 12
  {
    assert MonthNames[m - 1] in MonthRanges by {
      assert m == 1 || m == 2 || m == 3 || m == 4 || m == 5 || m == 6 ||
             m == 7 || m == 8 || m == 9 || m == 10 || m == 11 || m == 12;
    }
    MonthRanges[MonthNames[m - 1]]
  }

  // ASCII lower-casing, as `str.lower` does on ASCII text

  predicate IsUpper(c: char) {
    'A' <= c <= 'Z'
  }

  function LowerChar(c: char): char {
    if IsUpper(c) then (c as int + 32) as char else c
  }

  predicate HasNoUpper(s: string) {
    forall i :: 0 <= i < |s| ==> !IsUpper(s[i])
  }

  /** `s` with every ASCII capital replaced by its small letter; all else kept. */
  function Lower(s: string): (r: string)
    ensures |r| == |s| && HasNoUpper(r)
    ensures forall i :: 0 <= i < |s| && !IsUpper(s[i]) ==> r[i] == s[i]
    ensures forall i :: 0 <= i < |s| && IsUpper(s[i]) ==> r[i] as int == s[i] as int + 32
  {
    if s == [] then [] else [LowerChar(s[0])] + Lower(s[1..])
  }

  lemma {:induction false} LowerIdentity(s: string)
    requires HasNoUpper(s)
    ensures Lower(s) == s
  {
    if s != [] {
      LowerIdentity(s[1..]);
    }
  }

  lemma LowerIdempotent(s: string)
    ensures Lower(Lower(s)) == Lower(s)
  {
    LowerIdentity(Lower(s));
  }

  // The lookup

  /** The table's range for `key`, or the full year when `key` is not a month name. */
  function RangeFor(key: string): (r: DateRange)
    ensures r == FullYear <==> key !in MonthRanges
    ensures key in MonthRanges ==> r == MonthRanges[key]
    ensures forall m :: 1 <= m <= 12 && key == MonthNames[m - 1] ==> r == CalendarMonth(m)
    ensures IsRangeIn2024(r)
  {
    if key in MonthRanges then
      KnownKeyEntry(key);
      MonthRanges[key]
    else
      FullYearDates();
      FullYear
  }

  /** The range for a point's month name: lower-cased, then looked up with the full-year fallback. */
  function ResolveMonth(name: string): (r: DateRange)
    ensures r == FullYear <==> Lower(name) !in MonthRanges
    ensures IsRangeIn2024(r)
  {
    RangeFor(Lower(name))
  }

  // Calendar reading of the table

  function FirstDay(m: int): Date {
    Date(Year, m, 1)
  }

  function LastDay(m: int): Date
    requires 1 <= m <= 12
  {
    Date(Year, m, DaysInMonth(Year, m))
  }

  /** "2024-MM-DD", the reference year's date with month `m` and day `d`. */
  function IsoDate(m: nat, d: nat): string
    requires m < 100 && d < 100
  {
    "2024-" + TwoDigits(m) + "-" + TwoDigits(d)
  }

  /** Month `m` of the reference year, from its first to its last day. */
  function CalendarMonth(m: int): DateRange
    requires 1 <= m <= 12
  {
    DateRange(IsoDate(m, 1), IsoDate(m, DaysInMonth(Year, m)))
  }

  /** Both ends are dates of the reference year, the start no later than the end. */
  predicate IsRangeIn2024(r: DateRange) {
    var s, e := ParseDate(r.start), ParseDate(r.end);
    s.Some? && e.Some? && s.value.year == Year && e.value.year == Year && DateLe(s.value, e.value)
  }

  /** `d` lies in `r`: both ends read as dates and `d` lies between them, inclusive. */
  predicate InRange(d: Date, r: DateRange) {
    var s, e := ParseDate(r.start), ParseDate(r.end);
    s.Some? && e.Some? && DateLe(s.value, d) && DateLe(d, e.value)
  }

  lemma ParseIsoDate(m: nat, d: nat)
    requires ValidDate(Date(Year, m, d))
    ensures ParseDate(IsoDate(m, d)) == Some(Date(Year, m, d))
  {
    var date := Date(Year, m, d);
    assert FormatDate(date) == IsoDate(m, d);
    ParseFormatDate(date);
  }

  lemma EntriesJanuaryToMarch(m: int)
    requires 1 <= m <= 3
    ensures MonthEntry(m) == CalendarMonth(m)
  {
    if m == 1 { assert MonthEntry(1) == CalendarMonth(1); }
    else if m == 2 { assert MonthEntry(2) == CalendarMonth(2); }
    else { assert MonthEntry(3) == CalendarMonth(3); }
  }

  lemma EntriesAprilToJune(m: int)
    requires 4 <= m <= 6
    ensures MonthEntry(m) == CalendarMonth(m)
  {
    if m == 4 { assert MonthEntry(4) == CalendarMonth(4); }
    else if m == 5 { assert MonthEntry(5) == CalendarMonth(5); }
    else { assert MonthEntry(6) == CalendarMonth(6); }
  }

  lemma EntriesJulyToSeptember(m: int)
    requires 7 <= m <= 9
    ensures MonthEntry(m) == CalendarMonth(m)
  {
    if m == 7 { assert MonthEntry(7) == CalendarMonth(7); }
    else if m == 8 { assert MonthEntry(8) == CalendarMonth(8); }
    else { assert MonthEntry(9) == CalendarMonth(9); }
  }

  lemma EntriesOctoberToDecember(m: int)
    requires 10 <= m <= 12
    ensures MonthEntry(m) == CalendarMonth(m)
  {
    if m == 10 { assert MonthEntry(10) == CalendarMonth(10); }
    else if m == 11 { assert MonthEntry(11) == CalendarMonth(11); }
    else { assert MonthEntry(12) == CalendarMonth(12); }
  }

  /** Every table entry spells out its calendar month of 2024. */
  lemma MonthEntryIsCalendarMonth(m: int)
    requires 1 <= m <= 12
    ensures MonthEntry(m) == CalendarMonth(m)
  {
    if m <= 3 { EntriesJanuaryToMarch(m); }
    else if m <= 6 { EntriesAprilToJune(m); }
    else if m <= 9 { EntriesJulyToSeptember(m); }
    else { EntriesOctoberToDecember(m); }
  }

  /** Entry `m` runs from the first to the last day of month `m` of 2024. */
  lemma MonthEntryDates(m: int)
    requires 1 <= m <= 12
    ensures ParseDate(MonthEntry(m).start) == Some(FirstDay(m))
    ensures ParseDate(MonthEntry(m).end) == Some(LastDay(m))
  {
    MonthEntryIsCalendarMonth(m);
    ParseIsoDate(m, 1);
    ParseIsoDate(m, DaysInMonth(Year, m));
  }

  lemma FullYearDates()
    ensures ParseDate(FullYear.start) == Some(Date(Year, 1, 1))
    ensures ParseDate(FullYear.end) == Some(Date(Year, 12, 31))
    ensures IsRangeIn2024(FullYear)
  {
    assert FullYear.start == IsoDate(1, 1);
    assert FullYear.end == IsoDate(12, 31);
    ParseIsoDate(1, 1);
    ParseIsoDate(12, 31);
  }

  /** The table's keys are the twelve distinct lower-case month names. */
  lemma MonthTableShape()
    ensures |MonthNames| == 12
    ensures forall i, j :: 0 <= i < j < 12 ==> MonthNames[i] != MonthNames[j]
    ensures forall key :: key in MonthRanges <==> key in MonthNames
    ensures forall i :: 0 <= i < 12 ==> HasNoUpper(MonthNames[i])
  {
  }

  /** A month name's entry is its calendar month, never the fallback range. */
  lemma KnownKeyEntry(key: string)
    requires key in MonthRanges
    ensures MonthRanges[key] != FullYear && IsRangeIn2024(MonthRanges[key])
    ensures forall m :: 1 <= m <= 12 && key == MonthNames[m - 1] ==> MonthRanges[key] == CalendarMonth(m)
  {
    MonthTableShape();
    var i :| 0 <= i < 12 && MonthNames[i] == key;
    var m := i + 1;
    MonthEntryIsCalendarMonth(m);
    MonthEntryDates(m);
    FullYearDates();
    assert MonthRanges[key] == MonthEntry(m);
  }

  // What the lookup promises

  /** A month name, in whatever case, resolves to exactly its table entry. */
  lemma ResolveKnownMonth(m: int, name: string)
    requires 1 <= m <= 12 && Lower(name) == MonthNames[m - 1]
    ensures ResolveMonth(name) == MonthEntry(m)
    ensures ParseDate(ResolveMonth(name).start) == Some(FirstDay(m))
    ensures ParseDate(ResolveMonth(name).end) == Some(LastDay(m))
  {
    MonthTableShape();
    MonthEntryDates(m);
  }

  /** Any other name, the empty one included, falls back to the whole of 2024. */
  lemma ResolveUnknownName(name: string)
    requires forall i :: 0 <= i < 12 ==> Lower(name) != MonthNames[i]
    ensures ResolveMonth(name) == FullYear
  {
    MonthTableShape();
  }

  /** Lookup ignores case: names equal up to ASCII case resolve alike. */
  lemma ResolveIgnoresCase(name: string)
    ensures ResolveMonth(name) == ResolveMonth(Lower(name))
  {
    LowerIdempotent(name);
  }

  lemma ResolveJune()
    ensures ResolveMonth("june") == DateRange("2024-06-01", "2024-06-30")
  {
    assert Lower("june") == "june";
  }

  lemma ResolveJanuaryAnyCase()
    ensures ResolveMonth("January") == MonthEntry(1)
    ensures ResolveMonth("JANUARY") == MonthEntry(1)
  {
    ResolveKnownMonth(1, "January");
    ResolveKnownMonth(1, "JANUARY");
  }

  lemma ResolveMisspeltMonth()
    ensures ResolveMonth("Smarch") == FullYear
  {
  }

  /** A point without a month is looked up under the empty name. */
  lemma ResolveEmptyName()
    ensures ResolveMonth("") == FullYear
  {
  }

  // Calendar invariants of the table

  /** 2024 is a leap year, so the February entry ends on the 29th. */
  lemma FebruaryEndsOn29()
    ensures IsLeapYear(Year)
    ensures ParseDate(MonthRanges["february"].end) == Some(Date(Year, 2, 29))
  {
    MonthEntryDates(2);
  }

  /** Each month's range starts on the day after the previous one ends. */
  lemma MonthsContiguous(m: int)
    requires 1 <= m < 12
    ensures ParseDate(MonthEntry(m).end).Some?
    ensures ParseDate(MonthEntry(m + 1).start) == Some(NextDay(ParseDate(MonthEntry(m).end).value))
    ensures ParseDate(MonthEntry(m + 1).start) == Some(NextDay(LastDay(m)))
  {
    MonthEntryDates(m);
    MonthEntryDates(m + 1);
  }

  /** January starts and December ends where the fallback range does. */
  lemma MonthsSpanFullYear()
    ensures MonthEntry(1).start == FullYear.start
    ensures MonthEntry(12).end == FullYear.end
  {
    MonthEntryDates(1);
    MonthEntryDates(12);
    FullYearDates();
    FormatParseDate(MonthEntry(1).start);
    FormatParseDate(FullYear.start);
    FormatParseDate(MonthEntry(12).end);
    FormatParseDate(FullYear.end);
  }

  /** Every day of 2024 lies in the fallback range and in exactly one month's range. */
  lemma MonthsPartitionYear(d: Date, m: int)
    requires ValidDate(d) && d.year == Year && 1 <= m <= 12
    ensures InRange(d, FullYear)
    ensures InRange(d, MonthEntry(m)) <==> m == d.month
  {
    MonthEntryDates(m);
    FullYearDates();
  }
}
