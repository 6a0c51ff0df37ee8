/**
 * Reading dates written as `YYYYmmdd`, as `datetime.strptime(s, '%Y%m%d').date()`
 * does for strings of eight ASCII digits, and converting a list of such
 * strings one by one.
 */
module DateParsing {
  import opened Calendar

  /** The `ValueError` raised for a string that is not a date in `YYYYmmdd` form. */
  datatype ParseError = ParseError(input: string)

  datatype Result<T> = Success(value: T) | Failure(error: ParseError)

  predicate IsDigit(ch: char) {
    '0' <= ch <= '9'
  }

  predicate AllDigits(s: string) {
    forall k :: 0 <= k < |s| ==> IsDigit(s[k])
  }

  function DigitValue(ch: char): nat
    requires IsDigit(ch)
  {
    ch as int - '0' as int
  }

  function DigitChar(n: nat): char
    requires n < 10
  {
    ('0' as int + n) as char
  }

  function Pow10(width: nat): nat {
    if width == 0 then 1 else 10 * Pow10(width - 1)
  }

  /** The decimal value of a string of digits. */
  function NumberValue(s: string): nat
    requires AllDigits(s)
  {
    if s == [] then 0 else 10 * NumberValue(s[..|s| - 1]) + DigitValue(s[|s| - 1])
  }

  /** The last `width` decimal digits of `n`, zero-padded. */
  function Digits(n: nat, width: nat): string {
    if width == 0 then [] else Digits(n / 10, width - 1) + [DigitChar(n % 10)]
  }

  /** `d.strftime('%Y%m%d')`. */
  function FormatCivilDate(c: CivilDate): (s: string)
    requires IsValid(c) && c.year <= MaxYear
  {
    Digits(c.year, 4) + Digits(c.month, 2) + Digits(c.day, 2)
  }

  /**
   * `strptime(s, '%Y%m%d')` followed by the `date` constructor's range
   * checks: four digits of year, two of month and two of day, naming a
   * valid date; anything else is the error for `s`.
   */
  function ParseCivilDate(s: string): (r: Result<CivilDate>)
    ensures r.Success? ==> IsValid(r.value) && r.value.year <= MaxYear
    ensures r.Failure? ==> r.error == ParseError(s)
  {
    if |s| == 8 && AllDigits(s) then
      assert AllDigits(s[0..4]) && AllDigits(s[4..6]) && AllDigits(s[6..8]);
      var c := CivilDate(NumberValue(s[0..4]), NumberValue(s[4..6]), NumberValue(s[6..8]));
      NumberBelowPow10(s[0..4]);
      if IsValid(c) then Success(c) else Failure(ParseError(s))
    else
      Failure(ParseError(s))
  }

  /** The date a `YYYYmmdd` string denotes, as its day ordinal. */
  function ParseDate(s: string): (r: Result<Date>)
    ensures r.Failure? ==> r.error == ParseError(s)
    ensures r.Success? <==> ParseCivilDate(s).Success?
    ensures r.Success? ==> r.value == Ordinal(ParseCivilDate(s).value)
  {
    match ParseCivilDate(s)
    case Success(c) => Success(Ordinal(c))
    case Failure(e) => Failure(e)
  }

  lemma {:induction false} NumberBelowPow10(s: string)
    requires AllDigits(s)
    ensures NumberValue(s) < Pow10(|s|)
    decreases |s|
  {
    if s != [] {
      assert AllDigits(s[..|s| - 1]);
      NumberBelowPow10(s[..|s| - 1]);
    }
  }

  /** Writing the value of a digit string back with as many digits gives the string. */
  lemma {:induction false} DigitsOfNumber(s: string)
    requires AllDigits(s)
    ensures Digits(NumberValue(s), |s|) == s
    decreases |s|
  {
    if s != [] {
      var init := s[..|s| - 1];
      assert AllDigits(init);
      var n := NumberValue(s);
      assert n / 10 == NumberValue(init) && n % 10 == DigitValue(s[|s| - 1]);
      DigitsOfNumber(init);
      assert s == init + [s[|s| - 1]];
    }
  }

  /** Reading back `width` digits of a number below `10^width` gives the number. */
  lemma {:induction false} NumberOfDigits(n: nat, width: nat)
    requires n < Pow10(width)
    ensures |Digits(n, width)| == width
    ensures AllDigits(Digits(n, width))
    ensures NumberValue(Digits(n, width)) == n
    decreases width
  {
    if width > 0 {
      NumberOfDigits(n / 10, width - 1);
      var s := Digits(n, width);
      assert s[..|s| - 1] == Digits(n / 10, width - 1);
    }
  }

  /** A string that parses is exactly the `YYYYmmdd` form of the date it parses to. */
  lemma ParseThenFormat(s: string)
    requires ParseCivilDate(s).Success?
    ensures FormatCivilDate(ParseCivilDate(s).value) == s
  {
    var y, m, d := s[0..4], s[4..6], s[6..8];
    assert AllDigits(y) && AllDigits(m) && AllDigits(d);
    var c := ParseCivilDate(s).value;
    assert c == CivilDate(NumberValue(y), NumberValue(m), NumberValue(d));
    DigitsOfNumber(y);
    DigitsOfNumber(m);
    DigitsOfNumber(d);
    calc {
      FormatCivilDate(c);
      Digits(c.year, 4) + Digits(c.month, 2) + Digits(c.day, 2);
      y + m + d;
      { assert y + m + d == s; }
      s;
    }
  }

  /** Every date from year 1 to 9999, written as `YYYYmmdd`, parses back to itself. */
  lemma FormatThenParse(c: CivilDate)
    requires IsValid(c) && c.year <= MaxYear
    ensures ParseCivilDate(FormatCivilDate(c)) == Success(c)
  {
    var s := FormatCivilDate(c);
    NumberOfDigits(c.year, 4);
    NumberOfDigits(c.month, 2);
    NumberOfDigits(c.day, 2);
    assert s[0..4] == Digits(c.year, 4);
    assert s[4..6] == Digits(c.month, 2);
    assert s[6..8] == Digits(c.day, 2);
  }

  /** The strings that parse are exactly the `YYYYmmdd` forms of dates from year 1 to 9999. */
  lemma ParseSucceedsIff(s: string)
    ensures ParseCivilDate(s).Success?
        <==> exists c :: IsValid(c) && c.year <= MaxYear && FormatCivilDate(c) == s
  {
    if ParseCivilDate(s).Success? {
      ParseThenFormat(s);
    }
    if exists c :: IsValid(c) && c.year <= MaxYear && FormatCivilDate(c) == s {
      var c :| IsValid(c) && c.year <= MaxYear && FormatCivilDate(c) == s;
      FormatThenParse(c);
    }
  }

  /** Distinct dates are written differently. */
  lemma FormatInjective(a: CivilDate, b: CivilDate)
    requires IsValid(a) && a.year <= MaxYear
    requires IsValid(b) && b.year <= MaxYear
    ensures FormatCivilDate(a) == FormatCivilDate(b) <==> a == b
  {
    FormatThenParse(a);
    FormatThenParse(b);
  }

  /**
   * `convert_strings_to_dates`: parse each string in turn. The result keeps
   * the length and order of the input; the first string that does not parse
   * ends the conversion with its error.
   */
  method ConvertStringsToDates(strList: seq<string>) returns (r: Result<seq<Date>>)
    ensures r.Success? <==> forall k :: 0 <= k < |strList| ==> ParseDate(strList[k]).Success?
    ensures r.Success? ==> |r.value| == |strList|
    ensures r.Success? ==> forall k :: 0 <= k < |strList| ==> ParseDate(strList[k]) == Success(r.value[k])
    ensures r.Failure? ==>
      exists k :: 0 <= k < |strList| && r.error == ParseError(strList[k])
        && ParseDate(strList[k]).Failure?
        && forall j :: 0 <= j < k ==> ParseDate(strList[j]).Success?
  {
    var dateList: seq<Date> := [];
    for i := 0 to |strList|
      invariant |dateList| == i
      invariant forall k :: 0 <= k < i ==> ParseDate(strList[k]) == Success(dateList[k])
    {
      var parsed := ParseDate(strList[i]);
      if parsed.Failure? {
        r := Failure(parsed.error);
        return;
      }
      dateList := dateList + [parsed.value];
    }
    r := Success(dateList);
  }
}
