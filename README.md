# NextBusinessDay in Dafny

A model of the business-day logic of NextBusinessDay, a tool that builds a
lookup table from each calendar day of a year to its next business day.
A business day is a Monday to Friday that is not a holiday of the chosen
Australian jurisdiction. The model covers three functions in `main.py`:

- `get_next_business_day` steps forward from the day after a date until it
  reaches a day that is neither a Saturday or Sunday nor in the holiday list.
- `generate_annual_nbd_lookuptable` walks every date of a year, from
  1 January to 31 December, and collects one `{'Date', 'Next Business Day'}`
  record per date.
- `convert_strings_to_dates` parses `YYYYmmdd` strings into dates. The
  holiday fetch uses the same parse.

It also covers the calendar arithmetic those functions rely on from
Python's `datetime`.

Files:

- `calendar.dfy` (module `Calendar`) covers the proleptic Gregorian
  calendar as Python's `date` counts it:
  - a `Date` is a day ordinal, with 0001-01-01 as day 1 (`toordinal`);
  - adding `timedelta(days=1)` adds 1 to the ordinal;
  - `weekday()` is `(ordinal + 6) % 7`, with Monday as 0;
  - leap years and days per year and per month;
  - conversion from `(year, month, day)` to the ordinal and back;
  - the proof that comparing dates agrees with comparing ordinals.
- `business_days.dfy` (module `BusinessDays`) holds:
  - the specification function `NextBusinessDayOf` and the scan method
    `GetNextBusinessDay`, which is proved against it;
  - the lookup-table predicate `IsAnnualLookupTable` and the generator
    method `GenerateAnnualLookupTable`, which is proved to satisfy it;
  - lemmas about both.
- `date_parsing.dfy` (module `DateParsing`) holds the `YYYYmmdd` parse as a
  `Result` and its inverse, the formatter. Both round trips are proved. The
  conversion method for a list of strings is proved against the parse.
- `scenarios.dfy` (module `Scenarios`) holds the examples of
  `tests/test_main.py`, using the fixture holidays 2023-01-01, 2023-12-25
  and 2023-12-26.

The generator's docstring says that it prints each day and returns `None`.
The code returns the list of records and prints nothing, and the model
follows the code.

## Model

| member | source | states |
|---|---|---|
| Calendar.Ordinal | main.py:118-119 | `date(year, 1, 1)`, `date(year, 12, 31)` and every other valid date has an ordinal that comes after all the days of the earlier years and within the 365 or 366 days of its own year |
| Calendar.Weekday | main.py:86 | `weekday()` is one of seven values, 0 for Monday through 6 for Sunday |
| Calendar.NextDay | main.py:84 | adding `timedelta(days=1)`, as at main.py:84, 87 and 125, gives a later date that falls on the following weekday, Sunday wrapping round to Monday |
| Calendar.YearStep | main.py:118-119 | each year's first ordinal follows the last ordinal of the year before, so a year spans 365 days, or 366 in a leap year |
| Calendar.BeforeIsOrdinalOrder | main.py:122 | Python's date comparison (`current_date <= end_date`), which is lexicographic on year, month and day, holds exactly when the ordinals compare the same way |
| Calendar.OrdinalInjective | main.py:86 | two valid dates are equal, as `next_day in holidays` compares them, exactly when their ordinals are equal |
| Calendar.YearSpan | main.py:118-119 | from `date(year, 1, 1)` to `date(year, 12, 31)` there are exactly `DaysInYear(year)` ordinals, 365 or 366 |
| Calendar.InYearIff | main.py:118-122 | a valid date lies in `year` exactly when its ordinal lies between those of 1 January and 31 December of `year` |
| Calendar.CivilOf | main.py:84 | every ordinal is the ordinal of one valid date, as `date.fromordinal` gives it |
| Calendar.CivilOfOrdinal | main.py:84 | converting a valid date to its ordinal and back gives the same date |
| BusinessDays.IsWeekend | main.py:86 | the loop test's first half, `weekday() >= 5`, holds exactly on Saturdays and Sundays |
| BusinessDays.IsBusinessDay | main.py:86 | the loop stops on a day exactly when it is a Monday to Friday not in the holiday list |
| BusinessDays.NextBusinessDayOf | main.py:84-88 | the value `get_next_business_day` puts under `'Next Business Day'` is strictly after `datein` and is a business day |
| BusinessDays.ScanProgress | main.py:86-87 | each step past a weekend day or a holiday lowers a bounded measure, so the scan loop terminates for any holiday list |
| BusinessDays.NextBusinessDayOfIsNext | main.py:84-88 | the next business day is strictly after the input, has weekday below 5, is not in the holiday list, and every day strictly between is a weekend day or a holiday |
| BusinessDays.NextBusinessDayBound | main.py:84-87 | the scan stops at most 3 days after the later of the input and the last holiday |
| BusinessDays.NextBusinessDayUnique | main.py:84-88 | at most one date is the first business day after a given date |
| BusinessDays.NextBusinessDayCharacterization | main.py:84-88 | a date is the result for `datein` if and only if it is the first business day strictly after `datein` |
| BusinessDays.HolidaySkip | main.py:86-87 | if the `k` days after `d` are all weekend days or holidays and the day after them is a business day, that day is the result |
| BusinessDays.HolidayListAsSet | main.py:86 | only membership in the holiday list matters: lists with the same members give the same result |
| BusinessDays.NextBusinessDayWithoutHolidays | main.py:81-82 | with no holidays, a Friday, Saturday or Sunday is followed by the next Monday, and any other day by the next day |
| BusinessDays.NextBusinessDayMonotone | main.py:84-87 | a later input never has an earlier next business day |
| BusinessDays.GetNextBusinessDay | main.py:65-89 | the record's `Date` is the input unchanged, and its next business day meets the properties above and equals `NextBusinessDayOf`, so repeated calls agree |
| BusinessDays.AnnualLookupTableUnique | main.py:107-127 | the lookup table is determined by the year and the holiday list |
| BusinessDays.AnnualLookupTableIsYear | main.py:118-126 | the table has one row per date from 1 January to 31 December; each row's next business day is that of its date; dates are strictly ascending, and the first and last rows are 1 January and 31 December |
| BusinessDays.AnnualLookupTableCoversYear | main.py:118-125 | every valid date of the year is in the table, at its day-of-year index |
| BusinessDays.AnnualLookupTableEntriesInYear | main.py:121-125 | every date in the table belongs to the requested year |
| BusinessDays.GenerateAnnualLookupTable | main.py:107-127 | the list built by the loop is the lookup table of the year: `DaysInYear(year)` rows, row `i` dated 1 January plus `i` days and paired with that date's next business day |
| DateParsing.ParseCivilDate | main.py:59 | a successful parse is a valid date between years 1 and 9999; a failure reports the offending string |
| DateParsing.ParseDate | main.py:59 | `strptime(s, '%Y%m%d').date()`, as at main.py:59 and main.py:40, fails exactly when the civil-date parse fails, with the error for `s`, and otherwise gives the ordinal of the parsed date |
| DateParsing.ParseThenFormat | main.py:59 | a string that parses is exactly the `YYYYmmdd` form of the date it parses to |
| DateParsing.FormatThenParse | main.py:59 | every date from year 1 to 9999, written as `YYYYmmdd`, parses back to itself |
| DateParsing.ParseSucceedsIff | main.py:59 | a string parses if and only if it is the `YYYYmmdd` form of some date from year 1 to 9999 |
| DateParsing.FormatInjective | main.py:59 | distinct dates have distinct `YYYYmmdd` forms |
| DateParsing.ConvertStringsToDates | main.py:46-61 | the conversion succeeds exactly when every string parses; the result then has the input's length and order, element `k` being the parse of string `k`; otherwise the error is that of the first string that fails |
| Scenarios.NextBusinessDayAfterFriday | tests/test_main.py:21 | with the fixture holidays, Friday 2023-02-17 maps to Monday 2023-02-20 |
| Scenarios.NextBusinessDayOverChristmas | tests/test_main.py:22 | with the fixture holidays, Sunday 2023-12-24 maps to Wednesday 2023-12-27 |
| Scenarios.NewYearParses | tests/test_main.py:15 | `'20230101'` parses to 2023-01-01 |
| Scenarios.ChristmasParses | tests/test_main.py:15 | `'20231225'` parses to 2023-12-25 |
| Scenarios.BoxingDayParses | tests/test_main.py:15 | `'20231226'` parses to 2023-12-26 |
| Scenarios.LookupTable2023 | tests/test_main.py:31-35 | the 2023 table has 365 rows, and its first row pairs 2023-01-01 with 2023-01-02 |
| Scenarios.LookupTableLeapYear | main.py:118-126 | the 2024 table has 366 rows |
| Scenarios.LookupScenario | tests/test_main.py:20-33 | called on the fixture, the generator returns 365 rows and the scan maps 2023-02-17 to 2023-02-20 |

## Left out

- `get_annual_holidays` (main.py:22-43) is left out: it is an HTTP request and JSON traversal. The holiday list is an arbitrary input sequence. Its date parse at main.py:40 is the one modelled by `DateParsing.ParseDate`.
- `save_dates_to_excel` (main.py:92-104) is left out: it is a pandas spreadsheet export.
- The command-line block (main.py:129-157), the `outfolder` directory (main.py:8) and the `AustralianState` enumeration (main.py:10-18) are left out. They are argument parsing, console output and file-system set-up, with no business-day logic.
- The default `datein=None`, which means today's date (main.py:79-80), is left out because it reads the clock. `datein` is a required argument. The default `holidays=None` is the empty sequence (see `BusinessDays.NextBusinessDayWithoutHolidays`).
- Python's `date` rejects years after 9999 and raises `OverflowError` when a step passes 9999-12-31. Ordinals in the model are unbounded, so `GetNextBusinessDay` does not model that error.
- BusinessDays.GenerateAnnualLookupTable: requires year between 1 and 9998. For year 9999, Python raises when stepping past 31 December, and `date(year, 1, 1)` raises `ValueError` outside 1 to 9999.
- DateParsing.ParseCivilDate: accepts exactly eight ASCII digits that name a valid date. The lenient forms `strptime('%Y%m%d')` also accepts are not modelled: month and day fields without zero padding (in strings of eight characters or fewer, such as `'2023125'`), a day written as a space followed by one digit (such as `'202312 5'`, which `strptime` reads as 5 December 2023 but the model rejects), and non-ASCII decimal digits. Both error paths, the format mismatch and the `date` range check, are one `ParseError` carrying the input string; the `ValueError` message text is not modelled.
- The records are Dafny datatypes. The Python dictionary that is created with a `None` placeholder and filled in afterwards (main.py:83, main.py:88) is built in one step at the end.
- Python's list is mutable, but the scan only reads it and nothing changes it during a call, so the holiday list is a `seq`.
- Calendar arithmetic comes from Python's `datetime` module, which is not part of this model. `Calendar` restates its day-count rules (the days before a year and before a month, ordinals, weekdays) from the proleptic Gregorian calendar. `CivilOf` finds the date of an ordinal by searching year by year and month by month, not with CPython's 400-year-cycle arithmetic. The two give the same date, because `Calendar.OrdinalInjective` shows that only one valid date has a given ordinal.
