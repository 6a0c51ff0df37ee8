/**
 * The examples of the repository's tests, stated over the holiday list they
 * use: 1 January, 25 December and 26 December 2023.
 */
module Scenarios {
  import opened Calendar
  import opened BusinessDays
  import opened DateParsing

  function Day(year: int, month: int, day: int): Date
    requires IsValid(CivilDate(year, month, day))
  {
    Ordinal(CivilDate(year, month, day))
  }

  /** The three holidays of the tests' fixture. */
  function TestHolidays(): seq<Date> {
    [Day(2023, 1, 1), Day(2023, 12, 25), Day(2023, 12, 26)]
  }

  /** Friday 17 February 2023 is followed, after a weekend, by Monday 20 February. */
  lemma NextBusinessDayAfterFriday()
    ensures NextBusinessDayOf(Day(2023, 2, 17), TestHolidays()) == Day(2023, 2, 20)
  {
    var d := Day(2023, 2, 17);
    assert d == 738568 && Weekday(d) == 4;
    forall e: Date | d < e < d + 3
      ensures !IsBusinessDay(e, TestHolidays())
    {
      assert e == d + 1 || e == d + 2;
    }
    assert Day(2023, 2, 20) == d + 3;
    NextBusinessDayCharacterization(d, d + 3, TestHolidays());
  }

  /** Sunday 24 December 2023 is followed by two holidays, then Wednesday 27 December. */
  lemma NextBusinessDayOverChristmas()
    ensures NextBusinessDayOf(Day(2023, 12, 24), TestHolidays()) == Day(2023, 12, 27)
  {
    var d := Day(2023, 12, 24);
    assert d == 738878 && Weekday(d) == 6;
    assert TestHolidays() == [738521, d + 1, d + 2];
    forall e: Date | d < e < d + 3
      ensures !IsBusinessDay(e, TestHolidays())
    {
      assert e == d + 1 || e == d + 2;
    }
    assert Day(2023, 12, 27) == d + 3;
    NextBusinessDayCharacterization(d, d + 3, TestHolidays());
  }

  lemma ParseOne(s: string, c: CivilDate)
    requires IsValid(c) && c.year <= MaxYear
    requires FormatCivilDate(c) == s
    ensures ParseDate(s) == Success(Ordinal(c))
  {
    FormatThenParse(c);
  }

  /** `'20230101'` denotes 1 January 2023. */
  lemma NewYearParses()
    ensures ParseDate("20230101") == Success(Day(2023, 1, 1))
  {
    assert Digits(2023, 4) == "2023" && Digits(1, 2) == "01";
    ParseOne("20230101", CivilDate(2023, 1, 1));
  }

  /** `'20231225'` denotes 25 December 2023. */
  lemma ChristmasParses()
    ensures ParseDate("20231225") == Success(Day(2023, 12, 25))
  {
    assert Digits(2023, 4) == "2023" && Digits(12, 2) == "12" && Digits(25, 2) == "25";
    ParseOne("20231225", CivilDate(2023, 12, 25));
  }

  /** `'20231226'` denotes 26 December 2023. */
  lemma BoxingDayParses()
    ensures ParseDate("20231226") == Success(Day(2023, 12, 26))
  {
    assert Digits(2023, 4) == "2023" && Digits(12, 2) == "12" && Digits(26, 2) == "26";
    ParseOne("20231226", CivilDate(2023, 12, 26));
  }

  /** The lookup table of 2023 has 365 rows, the first for Sunday 1 January with Monday 2 January. */
  lemma LookupTable2023(table: seq<BusinessDayRecord>)
    requires IsAnnualLookupTable(2023, TestHolidays(), table)
    ensures |table| == 365
    ensures table[0].date == Day(2023, 1, 1)
    ensures table[0].nextBusinessDay == Day(2023, 1, 2)
  {
    var d := Day(2023, 1, 1);
    assert d == 738521 && Weekday(d) == 6 && d + 1 !in TestHolidays();
    NextBusinessDayCharacterization(d, d + 1, TestHolidays());
  }

  /** A leap year's lookup table has 366 rows. */
  lemma LookupTableLeapYear(table: seq<BusinessDayRecord>)
    requires IsAnnualLookupTable(2024, TestHolidays(), table)
    ensures |table| == 366
  {
  }

  /** The calls of `test_generate_annual_nbd_lookuptable` and `test_get_next_business_day`, made on the methods. */
  method LookupScenario() returns (table: seq<BusinessDayRecord>, after: BusinessDayRecord)
    ensures |table| == 365
    ensures after == BusinessDayRecord(Day(2023, 2, 17), Day(2023, 2, 20))
  {
    table := GenerateAnnualLookupTable(2023, TestHolidays());
    LookupTable2023(table);
    after := GetNextBusinessDay(Day(2023, 2, 17), TestHolidays());
    NextBusinessDayAfterFriday();
  }
}
