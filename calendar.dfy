/**
 * The proleptic Gregorian calendar with the conventions of Python's
 * `datetime.date`: a date is identified by its day ordinal (0001-01-01 is
 * day 1, as `date.toordinal` counts), adding `timedelta(days=n)` adds `n` to
 * the ordinal, and `weekday` is 0 for Monday through 6 for Sunday.
 */
module Calendar {

  /** A year/month/day triple, as passed to `date(year, month, day)`. */
  datatype CivilDate = CivilDate(year: int, month: int, day: int)

  /** The smallest year a `date` can carry. */
  const MinYear := 1

  /** The largest year a `date` can carry; the model's day numbers are not bounded by it. */
  const MaxYear := 9999

  /** A date, as its day ordinal. */
  type Date = n: int | n >= 1 witness 1

  predicate IsLeapYear(year: int) {
    year % 4 == 0 && (year % 100 != 0 || year % 400 == 0)
  }

  function DaysInYear(year: int): int {
    if IsLeapYear(year) then 366 else 365
  }

  function DaysInMonth(year: int, month: int): int
    requires 1 <= month <= 12
  {
    if month == 2 then (if IsLeapYear(year) then 29 else 28)
    else if month == 4 || month == 6 || month == 9 || month == 11 then 30
    else 31
  }

  /** The triples `date(year, month, day)` accepts. */
  predicate IsValid(c: CivilDate) {
    MinYear <= c.year && 1 <= c.month <= 12 && 1 <= c.day <= DaysInMonth(c.year, c.month)
  }

  /** Number of days in the years before `year`. */
  function DaysBeforeYear(year: int): nat
    requires year >= MinYear
  {
    var y := year - 1;
    y * 365 + y / 4 - y / 100 + y / 400
  }

  /** Number of days in the months of `year` before `month` (the cumulative month table). */
  function DaysBeforeMonth(year: int, month: int): nat
    requires 1 <= month <= 12
  {
    var common :=
      if month == 1 then 0 else if month == 2 then 31 else if month == 3 then 59
      else if month == 4 then 90 else if month == 5 then 120 else if month == 6 then 151
      else if month == 7 then 181 else if month == 8 then 212 else if month == 9 then 243
      else if month == 10 then 273 else if month == 11 then 304 else 334;
    common + (if month > 2 && IsLeapYear(year) then 1 else 0)
  }

  /**
   * `date(c.year, c.month, c.day).toordinal()`, which lies among the
   * ordinals of `c.year`: after the days of the earlier years and within
   * the days of its own.
   */
  function Ordinal(c: CivilDate): (n: Date)
    requires IsValid(c)
    ensures DaysBeforeYear(c.year) < n <= DaysBeforeYear(c.year) + DaysInYear(c.year)
  {
    DaysBeforeYear(c.year) + DaysBeforeMonth(c.year, c.month) + c.day
  }

  /** `d.weekday()`: one of the seven days, 0 for Monday through 6 for Sunday. */
  function Weekday(d: Date): (w: int)
    ensures 0 <= w < 7
  {
    (d + 6) % 7
  }

  /** `d + timedelta(days=1)`: a later date, falling on the following weekday (Sunday wraps to Monday). */
  function NextDay(d: Date): (e: Date)
    ensures d < e
    ensures Weekday(e) == (Weekday(d) + 1) % 7
  {
    d + 1
  }

  function FirstDayOfYear(year: int): CivilDate {
    CivilDate(year, 1, 1)
  }

  function LastDayOfYear(year: int): CivilDate {
    CivilDate(year, 12, 31)
  }

  /** Python's comparison of dates, lexicographic on (year, month, day). */
  predicate Before(a: CivilDate, b: CivilDate) {
    a.year < b.year
    || (a.year == b.year && (a.month < b.month || (a.month == b.month && a.day < b.day)))
  }

  /** Each month's length is the step between consecutive entries of the month table. */
  lemma MonthStep(year: int, month: int)
    requires 1 <= month < 12
    ensures DaysBeforeMonth(year, month + 1) == DaysBeforeMonth(year, month) + DaysInMonth(year, month)
  {
  }

  /** The months of a year add up to the year. */
  lemma MonthsFillYear(year: int)
    ensures DaysBeforeMonth(year, 12) + DaysInMonth(year, 12) == DaysInYear(year)
  {
  }

  /** Counting up to `n` rather than `n - 1` adds one multiple of 4, 100 or 400 exactly when `n` is one. */
  lemma QuotientStep(n: int)
    ensures n / 4 == (n - 1) / 4 + (if n % 4 == 0 then 1 else 0)
    ensures n / 100 == (n - 1) / 100 + (if n % 100 == 0 then 1 else 0)
    ensures n / 400 == (n - 1) / 400 + (if n % 400 == 0 then 1 else 0)
  {
  }

  /** A multiple of 400 is a multiple of 100, and a multiple of 100 a multiple of 4. */
  lemma DivisibilityChain(n: int)
    ensures n % 400 == 0 ==> n % 100 == 0
    ensures n % 100 == 0 ==> n % 4 == 0
  {
    var q400, q100 := n / 400, n / 100;
    assert n == 400 * q400 + n % 400;
    assert n == 100 * q100 + n % 100;
    if n % 400 == 0 {
      assert n % 100 == 100 * (4 * q400 - q100);
    }
    if n % 100 == 0 {
      var q4 := n / 4;
      assert n == 4 * q4 + n % 4;
      assert n % 4 == 4 * (25 * q100 - q4);
    }
  }

  /** Each year's length is the step between consecutive values of `DaysBeforeYear`. */
  lemma YearStep(year: int)
    requires year >= MinYear
    ensures DaysBeforeYear(year + 1) == DaysBeforeYear(year) + DaysInYear(year)
  {
    QuotientStep(year);
    DivisibilityChain(year);
    var y := year - 1;
    assert DaysBeforeYear(year + 1) == year * 365 + year / 4 - year / 100 + year / 400;
    assert DaysBeforeYear(year) == y * 365 + y / 4 - y / 100 + y / 400;
  }

  /** Later years start later: by at least 365 days per year in between. */
  lemma {:induction false} DaysBeforeYearMonotone(a: int, b: int)
    requires MinYear <= a <= b
    ensures DaysBeforeYear(a) + 365 * (b - a) <= DaysBeforeYear(b)
    decreases b - a
  {
    if a < b {
      DaysBeforeYearMonotone(a, b - 1);
      YearStep(b - 1);
    }
  }

  /** Earlier months of the same year end no later than later months begin. */
  lemma MonthOrder(year: int, m1: int, m2: int)
    requires 1 <= m1 < m2 <= 12
    ensures DaysBeforeMonth(year, m1) + DaysInMonth(year, m1) <= DaysBeforeMonth(year, m2)
  {
  }

  lemma BeforeImpliesSmallerOrdinal(a: CivilDate, b: CivilDate)
    requires IsValid(a) && IsValid(b)
    requires Before(a, b)
    ensures Ordinal(a) < Ordinal(b)
  {
    if a.year < b.year {
      YearStep(a.year);
      DaysBeforeYearMonotone(a.year + 1, b.year);
    } else if a.month < b.month {
      MonthOrder(a.year, a.month, b.month);
    }
  }

  /** Comparing dates as Python does agrees with comparing their ordinals. */
  lemma BeforeIsOrdinalOrder(a: CivilDate, b: CivilDate)
    requires IsValid(a) && IsValid(b)
    ensures Before(a, b) <==> Ordinal(a) < Ordinal(b)
  {
    if Before(a, b) {
      BeforeImpliesSmallerOrdinal(a, b);
    } else if a != b {
      BeforeImpliesSmallerOrdinal(b, a);
    }
  }

  /** Distinct dates have distinct ordinals, so equal ordinals mean equal dates. */
  lemma OrdinalInjective(a: CivilDate, b: CivilDate)
    requires IsValid(a) && IsValid(b)
    ensures Ordinal(a) == Ordinal(b) <==> a == b
  {
    BeforeIsOrdinalOrder(a, b);
    BeforeIsOrdinalOrder(b, a);
  }

  /** A year spans exactly `DaysInYear(year)` consecutive ordinals, from 1 January to 31 December. */
  lemma YearSpan(year: int)
    requires year >= MinYear
    ensures Ordinal(LastDayOfYear(year)) - Ordinal(FirstDayOfYear(year)) + 1 == DaysInYear(year)
  {
    MonthsFillYear(year);
  }

  /** A date lies in `year` exactly when its ordinal is between those of 1 January and 31 December. */
  lemma InYearIff(c: CivilDate, year: int)
    requires IsValid(c) && year >= MinYear
    ensures c.year == year
        <==> Ordinal(FirstDayOfYear(year)) <= Ordinal(c) <= Ordinal(LastDayOfYear(year))
  {
    BeforeIsOrdinalOrder(c, FirstDayOfYear(year));
    BeforeIsOrdinalOrder(LastDayOfYear(year), c);
  }

  /** The year holding day `n`, searching upward from `year`. */
  function YearOfOrdinal(n: Date, year: int): (y: int)
    requires year >= MinYear && DaysBeforeYear(year) < n
    ensures y >= year && DaysBeforeYear(y) < n <= DaysBeforeYear(y) + DaysInYear(y)
    decreases n - DaysBeforeYear(year)
  {
    if n <= DaysBeforeYear(year) + DaysInYear(year) then year
    else
      YearStep(year);
      YearOfOrdinal(n, year + 1)
  }

  /** The month of `year` holding its day number `dayOfYear`, searching upward from `month`. */
  function MonthOfDay(year: int, dayOfYear: int, month: int): (m: int)
    requires 1 <= month <= 12
    requires DaysBeforeMonth(year, month) < dayOfYear <= DaysInYear(year)
    ensures month <= m <= 12
    ensures DaysBeforeMonth(year, m) < dayOfYear <= DaysBeforeMonth(year, m) + DaysInMonth(year, m)
    decreases 12 - month
  {
    MonthsFillYear(year);
    if month == 12 || dayOfYear <= DaysBeforeMonth(year, month) + DaysInMonth(year, month) then month
    else
      MonthStep(year, month);
      MonthOfDay(year, dayOfYear, month + 1)
  }

  /** `date.fromordinal(n)`: the valid date whose ordinal is `n`. */
  function CivilOf(n: Date): (c: CivilDate)
    ensures IsValid(c) && Ordinal(c) == n
  {
    var year := YearOfOrdinal(n, MinYear);
    var dayOfYear := n - DaysBeforeYear(year);
    var month := MonthOfDay(year, dayOfYear, 1);
    CivilDate(year, month, dayOfYear - DaysBeforeMonth(year, month))
  }

  /** Converting a date to its ordinal and back gives the date. */
  lemma CivilOfOrdinal(c: CivilDate)
    requires IsValid(c)
    ensures CivilOf(Ordinal(c)) == c
  {
    OrdinalInjective(CivilOf(Ordinal(c)), c);
  }
}
