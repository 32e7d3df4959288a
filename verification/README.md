# Month-resolved weather enrichment, modelled in Dafny

`scripts/functions.py` reads a JSON array of map points, gives each point the
date range of its month (a fixed table of the twelve months of 2024, with the
whole year as the fallback) and writes three weather averages for the point's
coordinates over that range into it. The result is written back.

This project models two parts of that script:

- the **month resolver**, in `month_resolver.dfy`. It holds the table
  `month_ranges` with its literal ISO strings and the lookup
  `month_ranges.get(point.get('month', '').lower(), fallback)`.
- the **enrichment loop**, in `enrichment.dfy`. It is a method with a `while`
  loop, proved equal to a specification function `EnrichAll`, which runs
  the per-point step `EnrichPoint` over the points in order and stops at
  the first failure.

The other files support these two:

- `calendar.dfy` gives the Gregorian calendar and a `YYYY-MM-DD` format and
  parse with their round trips. With them the table's strings can be read
  as dates and its calendar invariants proved: February 2024 has 29 days,
  the months are contiguous, they cover the year, and every day of 2024
  lies in exactly one month.
- `wrappers.dfy` gives `Option` and `Result`.

The archive lookup `get_weather` is a parameter of the loop. It is a total
function from (latitude, longitude, first date, last date) to three texts.

The input is taken to be an array of JSON objects, each modelled as a
`map<string, Value>`. On such input the script fails in three ways, each
modelled as a `Result` failure, in the order the code meets them:

- a `month` that is not text (`.lower()` at line 75 raises);
- a missing `lat` (`point['lat']` at line 79 raises);
- a missing `lng` (line 80).

A point with no `month` at all is accepted: `point.get('month', '')` at
line 75 gives the empty name, which falls back to the whole year.

## Model

| member | source | states |
|---|---|---|
| MonthResolver.MonthTableShape | scripts/functions.py:11-24 | the table's keys are exactly the twelve month names, which are distinct and all lower-case |
| MonthResolver.MonthEntryIsCalendarMonth | scripts/functions.py:11-24 | entry m is "2024-MM-01" to "2024-MM-<days in month m of 2024>" |
| MonthResolver.MonthEntryDates | scripts/functions.py:11-24 | both ends of entry m parse as dates: the first and the last day of month m of 2024 |
| MonthResolver.FullYearDates | scripts/functions.py:76 | the fallback range parses as 1 January to 31 December 2024 |
| MonthResolver.FebruaryEndsOn29 | scripts/functions.py:13 | 2024 is a leap year and the February entry ends on 29 February |
| MonthResolver.MonthsContiguous | scripts/functions.py:11-24 | the start of entry m+1 parses as the day after the parsed end of entry m |
| MonthResolver.MonthsSpanFullYear | scripts/functions.py:11-24 | January starts and December ends exactly where the fallback range does |
| MonthResolver.MonthsPartitionYear | scripts/functions.py:11-24 | every day of 2024 is in the fallback range and in the range of its own month and of no other |
| MonthResolver.KnownKeyEntry | scripts/functions.py:11-24 | the entry of the m-th month name is the calendar month m of 2024, never the fallback range |
| MonthResolver.Lower | scripts/functions.py:75 | lower-casing keeps the length, turns each ASCII capital into its small letter (code point + 32), keeps every other character, and leaves no capital |
| MonthResolver.LowerIdentity | scripts/functions.py:75 | a text without upper-case letters is its own lower-case form |
| MonthResolver.LowerIdempotent | scripts/functions.py:75 | lower-casing twice is lower-casing once |
| MonthResolver.RangeFor | scripts/functions.py:76 | a key in the table gets the table's own pair, the calendar month of its position; the lookup gives the fallback range if and only if the key is not in the table; the range always lies in 2024 |
| MonthResolver.ResolveMonth | scripts/functions.py:75-76 | a name resolves to the fallback if and only if its lower-case form is not a month name; the range always lies in 2024 |
| MonthResolver.ResolveKnownMonth | scripts/functions.py:75-76 | a name whose lower-case form is the m-th month name resolves to entry m, from the first to the last day of month m |
| MonthResolver.ResolveUnknownName | scripts/functions.py:76 | a name whose lower-case form is no month name resolves to the whole year |
| MonthResolver.ResolveIgnoresCase | scripts/functions.py:75 | a name and its lower-case form resolve alike |
| MonthResolver.ResolveJune | scripts/functions.py:17 | "june" resolves to 2024-06-01 .. 2024-06-30 |
| MonthResolver.ResolveJanuaryAnyCase | scripts/functions.py:75-76 | "January" and "JANUARY" both resolve to the January entry |
| MonthResolver.ResolveMisspeltMonth | scripts/functions.py:76 | "Smarch" falls back to the whole year |
| MonthResolver.ResolveEmptyName | scripts/functions.py:75-76 | a point with no month (the empty name) falls back to the whole year |
| Calendar.DaysInMonth | scripts/functions.py:11-24 | months have 28 to 31 days; February has 29 exactly in a leap year |
| Calendar.NextDay | scripts/functions.py:11-24 | the next day is a valid date after the given one, and no valid date lies between them |
| Calendar.FormatDate | scripts/functions.py:12-23 | a date is written as four digits, '-', two digits, '-', two digits |
| Calendar.ParseDate | scripts/functions.py:12-23 | text parses only if it has that shape and names a valid date with a four-digit year |
| Calendar.ParseFormatDate | scripts/functions.py:12-23 | parsing a formatted date gives the date back |
| Calendar.FormatParseDate | scripts/functions.py:12-23 | formatting a parsed date gives the text back |
| Enrichment.LoweredMonth | scripts/functions.py:75 | the month text is lower-cased, the empty text when there is none; a month that is not text is an error |
| Enrichment.EnrichPoint | scripts/functions.py:75-87 | a point is enriched if and only if its month is text or absent and it has lat and lng; otherwise the first problem in code order is the error; the enriched point has exactly the old keys plus the three average keys, keeps every other value, and holds the lookup's three texts for its lat, lng and resolved month range |
| Enrichment.EnrichPointIdempotent | scripts/functions.py:75-87 | enriching an enriched point again changes nothing |
| Enrichment.MapUntilFailureSucceeds | scripts/functions.py:74-89 | the run succeeds if and only if every step does; then output i is the step's result for input i, and there is one output per input |
| Enrichment.MapUntilFailureSticks | scripts/functions.py:74-89 | once a prefix fails, every longer prefix fails with the same error |
| Enrichment.MapUntilFailureFirstError | scripts/functions.py:74-89 | the run fails with the error of the first failing step |
| Enrichment.EnrichAllSucceeds | scripts/functions.py:72-89 | a batch whose points are all enrichable yields one enriched point per input, in input order |
| Enrichment.EnrichAllFirstError | scripts/functions.py:72-89 | a batch stops with the problem of its first point that cannot be enriched |
| Enrichment.EnrichAllIdempotent | scripts/functions.py:72-89 | running the batch on its own output returns that output unchanged |
| Enrichment.EnrichAllStops | scripts/functions.py:75-83 | after a successful prefix, a point that cannot be enriched ends the batch with its problem (the loop's form of `EnrichAllFirstError`, derived from it) |
| Enrichment.EnrichPoints | scripts/functions.py:72-89 | the loop returns exactly what the batch specification `EnrichAll` gives: every point enriched in order, or the first problem |

## Left out

- The HTTP client, its on-disk cache and its retries (lines 1-3, 7-9, 38) are I/O. The archive lookup is the parameter `weather`.
- Decoding the archive's response into a data frame (lines 39-55) is not part of this model. It is part of the lookup.
- The floating-point averaging, rounding to two places and formatting (lines 57-64) are left out. The lookup returns its three texts already formatted.
- Reading and writing `points.json` (lines 69-70, 91-93) is file I/O. The loop takes the parsed points and returns the new list.
- A failing or unreachable archive is left out. The `weather` parameter is total, so a point with lat and lng always gets averages.
- MonthResolver.Lower: lower-cases ASCII letters only, because Python's `str.lower` applies the full Unicode case mapping, which has no counterpart in Dafny's `char`.
- Enrichment.EnrichPoints: points are values, so the model does not capture the in-place update of each point dict. It also does not capture that a point is shared between `all_points` and `updated_points`, or that an earlier point is left mutated when a later one raises.
- Enrichment.EnrichPoint: does not check the types of `lat` and `lng`. They are passed to the lookup as whatever JSON values they are, as in the source.
- Enrichment.EnrichPoints: looks the range up after checking `lat` and `lng`, where line 76 does it before them. The lookup is pure and cannot fail, so the results and errors are the same.
- Input that is not an array of objects is left out: the points are typed `seq<map<string, Value>>`. In the source an array element that is not an object raises at `point.get` (line 75), and a top-level value that is not an array fails at line 74 or, for an object, iterates its keys, which then fail at `.get`.
- Key order is not modelled. Python dicts keep insertion order and `json.dump` (line 93) writes it, so a new `avg_*` key goes at the end of its object while an existing one keeps its place (lines 85-87). A `map` has no order.
- Enrichment.EnrichAllIdempotent: holds only because both runs use the same `weather` function. That stands for the never-expiring cache (line 7) and for archive data that does not change between runs.
- JSON numbers are modelled as `real`. Their width and precision do not matter to the loop.
