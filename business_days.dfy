/**
 * The business-day rule: the next business day after a date is the first
 * later date that is neither a Saturday or Sunday nor in the holiday list,
 * and the annual lookup table pairs every date of a year with it.
 */
module BusinessDays {
  import opened Calendar

  /** One row of the lookup table: the `'Date'` and `'Next Business Day'` entries. */
  datatype BusinessDayRecord = BusinessDayRecord(date: Date, nextBusinessDay: Date)

  /** `weekday() >= 5`, which holds on Saturdays and Sundays and no other day. */
  predicate IsWeekend(d: Date)
    ensures IsWeekend(d) <==> Weekday(d) == 5 || Weekday(d) == 6
  {
    Weekday(d) >= 5
  }

  /** A Monday to Friday that is not in the holiday list. */
  predicate IsBusinessDay(d: Date, holidays: seq<Date>)
    ensures IsBusinessDay(d, holidays) <==> 0 <= Weekday(d) <= 4 && d !in holidays
  {
    !IsWeekend(d) && d !in holidays
  }

  /** `r` is strictly after `d`, is a business day, and no business day lies between them. */
  ghost predicate IsNextBusinessDay(d: Date, r: Date, holidays: seq<Date>) {
    && d < r
    && IsBusinessDay(r, holidays)
    && forall e: Date :: d < e < r ==> !IsBusinessDay(e, holidays)
  }

  /** The latest holiday, or 0 (before every date) when there is none. */
  function LastHoliday(holidays: seq<Date>): (m: nat)
    ensures forall h :: h in holidays ==> h <= m
    ensures holidays != [] ==> m in holidays
  {
    if holidays == [] then 0
    else
      var rest := LastHoliday(holidays[1..]);
      assert forall h :: h in holidays ==> h == holidays[0] || h in holidays[1..];
      if holidays[0] > rest then holidays[0] else rest
  }

  /** Days from a weekend day `d` to the following Monday; 0 on weekdays. */
  function WeekendGap(d: Date): nat {
    if Weekday(d) == 5 then 2 else if Weekday(d) == 6 then 1 else 0
  }

  /**
   * Termination measure of the scan from candidate `c`: up to the last
   * holiday the scan ends at most 3 days past it; beyond the last holiday
   * only a weekend can hold it up.
   */
  function ScanMeasure(c: Date, holidays: seq<Date>): nat {
    var m := LastHoliday(holidays);
    if c > m then WeekendGap(c) else m - c + 3
  }

  /** Stepping past a day that is not a business day decreases the measure. */
  lemma ScanProgress(c: Date, holidays: seq<Date>)
    requires !IsBusinessDay(c, holidays)
    ensures ScanMeasure(NextDay(c), holidays) < ScanMeasure(c, holidays)
  {
  }

  /**
   * The next business day strictly after `d`, the value `get_next_business_day`
   * returns: the day after `d` if that is a business day, else the next
   * business day after that one.
   */
  function NextBusinessDayOf(d: Date, holidays: seq<Date>): (r: Date)
    ensures d < r && IsBusinessDay(r, holidays)
    decreases ScanMeasure(NextDay(d), holidays)
  {
    var c := NextDay(d);
    if IsBusinessDay(c, holidays) then c
    else
      ScanProgress(c, holidays);
      NextBusinessDayOf(c, holidays)
  }

  /** `NextBusinessDayOf` is strictly later, a business day, and skips no business day. */
  lemma {:induction false} NextBusinessDayOfIsNext(d: Date, holidays: seq<Date>)
    ensures IsNextBusinessDay(d, NextBusinessDayOf(d, holidays), holidays)
    decreases ScanMeasure(NextDay(d), holidays)
  {
    var c := NextDay(d);
    if !IsBusinessDay(c, holidays) {
      ScanProgress(c, holidays);
      NextBusinessDayOfIsNext(c, holidays);
    }
  }

  /** The scan stops at most 3 days after the later of `d` and the last holiday. */
  lemma {:induction false} NextBusinessDayBound(d: Date, holidays: seq<Date>)
    ensures NextBusinessDayOf(d, holidays) <= d + 1 + ScanMeasure(NextDay(d), holidays)
    ensures NextBusinessDayOf(d, holidays)
        <= (if d < LastHoliday(holidays) then LastHoliday(holidays) else d) + 3
    decreases ScanMeasure(NextDay(d), holidays)
  {
    var c := NextDay(d);
    if !IsBusinessDay(c, holidays) {
      ScanProgress(c, holidays);
      NextBusinessDayBound(c, holidays);
    }
  }

  /** At most one date is the next business day after `d`. */
  lemma NextBusinessDayUnique(d: Date, r1: Date, r2: Date, holidays: seq<Date>)
    requires IsNextBusinessDay(d, r1, holidays)
    requires IsNextBusinessDay(d, r2, holidays)
    ensures r1 == r2
  {
  }

  /** `NextBusinessDayOf` returns exactly the date that is the next business day. */
  lemma NextBusinessDayCharacterization(d: Date, r: Date, holidays: seq<Date>)
    ensures IsNextBusinessDay(d, r, holidays) <==> r == NextBusinessDayOf(d, holidays)
  {
    NextBusinessDayOfIsNext(d, holidays);
    if IsNextBusinessDay(d, r, holidays) {
      NextBusinessDayUnique(d, r, NextBusinessDayOf(d, holidays), holidays);
    }
  }

  /**
   * If the `k` days after `d` are all weekend days or holidays and the day
   * after them is a business day, that day is the next business day.
   */
  lemma HolidaySkip(d: Date, k: nat, holidays: seq<Date>)
    requires forall e: Date :: d < e <= d + k ==> !IsBusinessDay(e, holidays)
    requires IsBusinessDay(d + k + 1, holidays)
    ensures NextBusinessDayOf(d, holidays) == d + k + 1
  {
    NextBusinessDayCharacterization(d, d + k + 1, holidays);
  }

  /** Only membership in the holiday list matters, not its order or repetitions. */
  lemma HolidayListAsSet(d: Date, holidays1: seq<Date>, holidays2: seq<Date>)
    requires forall h :: h in holidays1 <==> h in holidays2
    ensures NextBusinessDayOf(d, holidays1) == NextBusinessDayOf(d, holidays2)
  {
    var r := NextBusinessDayOf(d, holidays1);
    NextBusinessDayOfIsNext(d, holidays1);
    forall e: Date | d < e < r
      ensures !IsBusinessDay(e, holidays2)
    {
      assert !IsBusinessDay(e, holidays1);
    }
    NextBusinessDayCharacterization(d, r, holidays2);
  }

  /**
   * With no holidays (the `holidays=None` default) the next business day is
   * the following Monday after a Friday, Saturday or Sunday, and the next day
   * otherwise.
   */
  lemma NextBusinessDayWithoutHolidays(d: Date)
    ensures NextBusinessDayOf(d, []) == d + (if Weekday(d) == 4 then 3 else if Weekday(d) == 5 then 2 else 1)
  {
    var w := Weekday(d);
    if w == 4 {
      assert Weekday(d + 1) == 5 && Weekday(d + 2) == 6 && Weekday(d + 3) == 0;
      forall e: Date | d < e <= d + 2
        ensures !IsBusinessDay(e, [])
      {
        assert e == d + 1 || e == d + 2;
      }
      HolidaySkip(d, 2, []);
    } else if w == 5 {
      assert Weekday(d + 1) == 6 && Weekday(d + 2) == 0;
      HolidaySkip(d, 1, []);
    } else {
      assert Weekday(d + 1) < 5;
      HolidaySkip(d, 0, []);
    }
  }

  /** A later date never has an earlier next business day. */
  lemma NextBusinessDayMonotone(d1: Date, d2: Date, holidays: seq<Date>)
    requires d1 <= d2
    ensures NextBusinessDayOf(d1, holidays) <= NextBusinessDayOf(d2, holidays)
  {
    var r1 := NextBusinessDayOf(d1, holidays);
    NextBusinessDayOfIsNext(d1, holidays);
    NextBusinessDayOfIsNext(d2, holidays);
    if r1 > d2 {
      assert IsNextBusinessDay(d2, r1, holidays);
      NextBusinessDayCharacterization(d2, r1, holidays);
    }
  }

  /** `get_next_business_day`: scan forward from the day after `datein`. */
  method GetNextBusinessDay(datein: Date, holidays: seq<Date>) returns (record: BusinessDayRecord)
    ensures record.date == datein
    ensures IsNextBusinessDay(datein, record.nextBusinessDay, holidays)
    ensures record.nextBusinessDay == NextBusinessDayOf(datein, holidays)
  {
    var nextDay := NextDay(datein);
    while IsWeekend(nextDay) || nextDay in holidays
      invariant datein < nextDay
      invariant forall e: Date :: datein < e < nextDay ==> !IsBusinessDay(e, holidays)
      decreases ScanMeasure(nextDay, holidays)
    {
      ScanProgress(nextDay, holidays);
      nextDay := NextDay(nextDay);
    }
    record := BusinessDayRecord(datein, nextDay);
    NextBusinessDayCharacterization(datein, nextDay, holidays);
  }

  /** The lookup-table row of date `d`. */
  function RecordOf(d: Date, holidays: seq<Date>): BusinessDayRecord {
    BusinessDayRecord(d, NextBusinessDayOf(d, holidays))
  }

  /**
   * `table` is the lookup table of `year`: the row of every date from
   * 1 January to 31 December, in order.
   */
  ghost predicate IsAnnualLookupTable(year: int, holidays: seq<Date>, table: seq<BusinessDayRecord>)
    requires year >= MinYear
  {
    && |table| == DaysInYear(year)
    && forall i :: 0 <= i < |table| ==> table[i] == RecordOf(Ordinal(FirstDayOfYear(year)) + i, holidays)
  }

  /** The lookup table of a year is determined by the year and the holidays. */
  lemma AnnualLookupTableUnique(year: int, holidays: seq<Date>, t1: seq<BusinessDayRecord>, t2: seq<BusinessDayRecord>)
    requires year >= MinYear
    requires IsAnnualLookupTable(year, holidays, t1)
    requires IsAnnualLookupTable(year, holidays, t2)
    ensures t1 == t2
  {
  }

  /**
   * A lookup table of `year` has one entry per date of `year`, each carrying
   * that date's next business day, strictly ascending, from 1 January to
   * 31 December.
   */
  lemma AnnualLookupTableIsYear(year: int, holidays: seq<Date>, table: seq<BusinessDayRecord>)
    requires year >= MinYear
    requires IsAnnualLookupTable(year, holidays, table)
    ensures |table| == Ordinal(LastDayOfYear(year)) - Ordinal(FirstDayOfYear(year)) + 1
    ensures forall i :: 0 <= i < |table| ==>
      table[i].nextBusinessDay == NextBusinessDayOf(table[i].date, holidays)
    ensures forall i, j :: 0 <= i < j < |table| ==> table[i].date < table[j].date
    ensures forall i :: 0 <= i < |table| ==>
      Ordinal(FirstDayOfYear(year)) <= table[i].date <= Ordinal(LastDayOfYear(year))
    ensures table[0].date == Ordinal(FirstDayOfYear(year))
    ensures table[|table| - 1].date == Ordinal(LastDayOfYear(year))
  {
    YearSpan(year);
  }

  /** Every date of `year` is in its lookup table, at its day-of-year index. */
  lemma AnnualLookupTableCoversYear(year: int, holidays: seq<Date>, table: seq<BusinessDayRecord>, c: CivilDate)
    requires year >= MinYear
    requires IsAnnualLookupTable(year, holidays, table)
    requires IsValid(c) && c.year == year
    ensures var i := Ordinal(c) as int - Ordinal(FirstDayOfYear(year)) as int;
      0 <= i < |table| && table[i].date == Ordinal(c)
  {
    YearSpan(year);
    InYearIff(c, year);
  }

  /** Every entry of a lookup table of `year` is a date of `year`. */
  lemma AnnualLookupTableEntriesInYear(year: int, holidays: seq<Date>, table: seq<BusinessDayRecord>)
    requires year >= MinYear
    requires IsAnnualLookupTable(year, holidays, table)
    ensures forall i :: 0 <= i < |table| ==> CivilOf(table[i].date).year == year
  {
    YearSpan(year);
    forall i | 0 <= i < |table|
      ensures CivilOf(table[i].date).year == year
    {
      InYearIff(CivilOf(table[i].date), year);
    }
  }

  /**
   * `generate_annual_nbd_lookuptable`: walk the dates of `year` from
   * 1 January to 31 December, appending each date's record.
   */
  method GenerateAnnualLookupTable(year: int, holidayList: seq<Date>) returns (table: seq<BusinessDayRecord>)
    requires MinYear <= year < MaxYear
    ensures IsAnnualLookupTable(year, holidayList, table)
  {
    table := [];
    var startDate := Ordinal(FirstDayOfYear(year));
    var endDate := Ordinal(LastDayOfYear(year));
    YearSpan(year);
    var current := startDate;
    while current <= endDate
      invariant startDate <= current <= endDate + 1
      invariant |table| == current as int - startDate as int
      invariant forall i :: 0 <= i < |table| ==> table[i] == RecordOf(startDate + i, holidayList)
    {
      var dayPair := GetNextBusinessDay(current, holidayList);
      table := table + [dayPair];
      current := NextDay(current);
    }
  }
}
