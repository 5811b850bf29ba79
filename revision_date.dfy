/**
 * `calcdate_revision`: the revision date is the release date plus one calendar year, read
 * from and written back as a `YYYY-MM-DD` string the way the JavaScript `Date` object does it
 * (local time zone taken to be UTC).
 */
module RevisionDate {

  import opened Nullable

  datatype Date = Date(year: int, month: int, day: int)

  predicate IsLeapYear(y: int)
  {
    y % 4 == 0 && (y % 100 != 0 || y % 400 == 0)
  }

  function DaysInMonth(y: int, m: int): (n: int)
    requires 1 <= m <= 12
    ensures 28 <= n <= 31
    ensures m == 2 ==> (n == 29 <==> IsLeapYear(y))
  {
    if m == 2 then (if IsLeapYear(y) then 29 else 28)
    else if m == 4 || m == 6 || m == 9 || m == 11 then 30
    else 31
  }

  /** A day that exists in the Gregorian calendar. */
  predicate ValidDate(d: Date)
  {
    1 <= d.month <= 12 && 1 <= d.day <= DaysInMonth(d.year, d.month)
  }

  /**
   * The date `Date` builds from a year, a month and a day of month 1..31: a day beyond the end of
   * the month rolls over into the first days of the next month.
   */
  function Normalize(y: int, m: int, d: int): (r: Date)
    requires 1 <= m <= 12 && 1 <= d <= 31
    ensures ValidDate(r)
    ensures d <= DaysInMonth(y, m) <==> r == Date(y, m, d)
    ensures d > DaysInMonth(y, m) ==> r.year == y && r.month == m + 1 && r.day <= 3
    ensures d > DaysInMonth(y, m) ==> DaysInMonth(y, m) + r.day == d
  {
    if d <= DaysInMonth(y, m) then Date(y, m, d)
    else Date(y, m + 1, d - DaysInMonth(y, m))
  }

  /** `setFullYear(getFullYear() + 1)`: same month and day a year on; Feb 29 becomes Mar 1. */
  function AddOneYear(d: Date): (r: Date)
    requires ValidDate(d)
    ensures ValidDate(r)
    ensures !(d.month == 2 && d.day == 29) ==> r == Date(d.year + 1, d.month, d.day)
    ensures d.month == 2 && d.day == 29 ==> r == Date(d.year + 1, 3, 1)
  {
    assert d.month == 2 && d.day == 29 ==> IsLeapYear(d.year) && !IsLeapYear(d.year + 1);
    Normalize(d.year + 1, d.month, d.day)
  }

  predicate IsDigit(c: char)
  {
    '0' <= c <= '9'
  }

  predicate AllDigits(s: string)
  {
    forall i :: 0 <= i < |s| ==> IsDigit(s[i])
  }

  function DigitChar(n: int): (c: char)
    requires 0 <= n <= 9
    ensures IsDigit(c) && c as int - '0' as int == n
  {
    ('0' as int + n) as char
  }

  /** The decimal value of a string of digits. */
  function ValueOf(s: string): (n: nat)
    requires AllDigits(s)
  {
    if s == [] then 0 else ValueOf(s[..|s| - 1]) * 10 + (s[|s| - 1] as int - '0' as int)
  }

  function Pow10(k: nat): (p: nat)
    ensures p >= 1
  {
    if k == 0 then 1 else 10 * Pow10(k - 1)
  }

  /** The lowest `width` decimal digits of `n`, zero-padded on the left. */
  function Digits(n: nat, width: nat): (s: string)
    ensures |s| == width
  {
    if width == 0 then [] else Digits(n / 10, width - 1) + [DigitChar(n % 10)]
  }

  lemma {:induction false} DigitsAreDigits(n: nat, width: nat)
    ensures AllDigits(Digits(n, width))
  {
    if width > 0 {
      DigitsAreDigits(n / 10, width - 1);
    }
  }

  lemma {:induction false} ValueOfDigits(n: nat, width: nat)
    requires n < Pow10(width)
    ensures AllDigits(Digits(n, width)) && ValueOf(Digits(n, width)) == n
  {
    if width > 0 {
      var s := Digits(n, width);
      DigitsAreDigits(n, width);
      DigitsAreDigits(n / 10, width - 1);
      assert s[..|s| - 1] == Digits(n / 10, width - 1);
      ValueOfDigits(n / 10, width - 1);
    }
  }

  lemma {:induction false} DigitsOfValue(s: string)
    requires AllDigits(s)
    ensures Digits(ValueOf(s), |s|) == s
  {
    if s != [] {
      var p := s[..|s| - 1];
      var v := ValueOf(s);
      assert v / 10 == ValueOf(p) && v % 10 == s[|s| - 1] as int - '0' as int;
      DigitsOfValue(p);
      assert s == p + [s[|s| - 1]];
    }
  }

  /** The year, month and day fields of a `YYYY-MM-DD` string, as written. */
  function ReadFields(s: string): (r: Option<Date>)
    ensures r.Some? ==> 0 <= r.value.year <= 9999 && 1 <= r.value.month <= 12 && 1 <= r.value.day <= 31
  {
    if |s| == 10 && s[4] == '-' && s[7] == '-'
       && AllDigits(s[..4]) && AllDigits(s[5..7]) && AllDigits(s[8..])
    then
      var y, m, d := ValueOf(s[..4]), ValueOf(s[5..7]), ValueOf(s[8..]);
      ValueOfBound(s[..4]);
      if 1 <= m <= 12 && 1 <= d <= 31 then Some(Date(y, m, d)) else None
    else None
  }

  lemma {:induction false} ValueOfBound(s: string)
    requires AllDigits(s)
    ensures ValueOf(s) < Pow10(|s|)
  {
    if s != [] {
      ValueOfBound(s[..|s| - 1]);
    }
  }

  /**
   * `new Date(s)` for a date-only ISO string: None is the Invalid Date. Month 1..12 and
   * day 1..31 are accepted whatever the month, the overflow rolling into the next month.
   */
  function ParseIsoDate(s: string): (r: Option<Date>)
    ensures r.Some? ==> ValidDate(r.value) && 0 <= r.value.year <= 9999
  {
    match ReadFields(s)
    case None => None
    case Some(f) => Some(Normalize(f.year, f.month, f.day))
  }

  /** `toISOString().split('T')[0]`: years past 9999 take the six-digit `+YYYYYY` form. */
  function FormatIsoDate(d: Date): (s: string)
    requires 0 <= d.year <= 999999 && 1 <= d.month <= 12 && 1 <= d.day <= 31
    ensures d.year <= 9999 ==> |s| == 10
    ensures d.year > 9999 ==> |s| == 13
    ensures s[|s| - 6] == '-' && s[|s| - 3] == '-'
  {
    YearText(d.year) + "-" + Digits(d.month, 2) + "-" + Digits(d.day, 2)
  }

  function YearText(year: nat): (s: string)
    ensures year <= 9999 ==> |s| == 4
    ensures year > 9999 ==> |s| == 7 && s[0] == '+'
  {
    if year <= 9999 then Digits(year, 4) else "+" + Digits(year, 6)
  }

  /** `new Date(null)` is the epoch. */
  const Epoch := Date(1970, 1, 1)

  /**
   * The value `calcdate_revision` writes into `date_revision`, given the form's `date_release`
   * value; None where `toISOString` throws on an Invalid Date.
   */
  function RevisionOf(release: Option<string>): (r: Option<string>)
    ensures r.None? <==> release.Some? && ParseIsoDate(release.value).None?
  {
    var start := match release case None => Some(Epoch) case Some(s) => ParseIsoDate(s);
    match start
    case None => None
    case Some(d) => Some(FormatIsoDate(AddOneYear(d)))
  }

  /** Where the fields sit in a formatted date with a four-digit year. */
  lemma FormatLayout(d: Date)
    requires 0 <= d.year <= 9999 && 1 <= d.month <= 12 && 1 <= d.day <= 31
    ensures var s := FormatIsoDate(d);
      && |s| == 10 && s[4] == '-' && s[7] == '-'
      && s[..4] == Digits(d.year, 4) && s[5..7] == Digits(d.month, 2) && s[8..] == Digits(d.day, 2)
  {
  }

  lemma SplitTen(s: string)
    requires |s| == 10
    ensures s == s[..4] + [s[4]] + s[5..7] + [s[7]] + s[8..]
  {
  }

  /** The fields read from a formatted date are the ones it was formatted from. */
  lemma ReadFormat(d: Date)
    requires 0 <= d.year <= 9999 && 1 <= d.month <= 12 && 1 <= d.day <= 31
    ensures ReadFields(FormatIsoDate(d)) == Some(d)
  {
    FormatLayout(d);
    ValueOfDigits(d.year, 4);
    ValueOfDigits(d.month, 2);
    ValueOfDigits(d.day, 2);
  }

  /** Reading back a formatted date gives the same date. */
  lemma ParseFormat(d: Date)
    requires ValidDate(d) && 0 <= d.year <= 9999
    ensures ParseIsoDate(FormatIsoDate(d)) == Some(d)
  {
    ReadFormat(d);
  }

  /** A string naming a real calendar day is exactly the formatted form of what it parses to. */
  lemma FormatParse(s: string)
    requires ReadFields(s).Some? && ValidDate(ReadFields(s).value)
    ensures ParseIsoDate(s) == ReadFields(s)
    ensures FormatIsoDate(ReadFields(s).value) == s
  {
    var d := ReadFields(s).value;
    DigitsOfValue(s[..4]);
    DigitsOfValue(s[5..7]);
    DigitsOfValue(s[8..]);
    FormatLayout(d);
    SplitTen(s);
    SplitTen(FormatIsoDate(d));
  }

  /** A calendar day is revised to the formatted day `AddOneYear` gives. */
  lemma RevisionOfFormatted(d: Date, release: string, revision: string)
    requires ValidDate(d) && 0 <= d.year <= 9999
    requires release == FormatIsoDate(d) && revision == FormatIsoDate(AddOneYear(d))
    ensures RevisionOf(Some(release)) == Some(revision)
  {
    ParseFormat(d);
  }

  /** For a release day other than Feb 29, the revision is the same month and day a year later. */
  lemma RevisionSameDayNextYear(d: Date)
    requires ValidDate(d) && 0 <= d.year <= 9999 && !(d.month == 2 && d.day == 29)
    ensures RevisionOf(Some(FormatIsoDate(d))) == Some(FormatIsoDate(Date(d.year + 1, d.month, d.day)))
  {
    assert AddOneYear(d) == Date(d.year + 1, d.month, d.day);
    RevisionOfFormatted(d, FormatIsoDate(d), FormatIsoDate(AddOneYear(d)));
  }

  /** A release on Feb 29 is revised on Mar 1 of the following year. */
  lemma RevisionOfLeapDay(year: int)
    requires 0 <= year <= 9999 && IsLeapYear(year)
    ensures RevisionOf(Some(FormatIsoDate(Date(year, 2, 29)))) == Some(FormatIsoDate(Date(year + 1, 3, 1)))
  {
    var d := Date(year, 2, 29);
    assert ValidDate(d);
    assert AddOneYear(d) == Date(year + 1, 3, 1);
    RevisionOfFormatted(d, FormatIsoDate(d), FormatIsoDate(AddOneYear(d)));
  }

  lemma FormatNewYears()
    ensures FormatIsoDate(Date(2023, 1, 1)) == "2023-01-01"
    ensures FormatIsoDate(Date(2024, 1, 1)) == "2024-01-01"
  {
    assert FormatIsoDate(Date(2023, 1, 1)) == "2023-01-01";
  }

  lemma ExampleJanuaryFirst()
    ensures RevisionOf(Some("2023-01-01")) == Some("2024-01-01")
  {
    FormatNewYears();
    RevisionOfFormatted(Date(2023, 1, 1), "2023-01-01", "2024-01-01");
  }

  lemma ExampleNullRelease()
    ensures RevisionOf(None) == Some("1971-01-01")
  {
    assert FormatIsoDate(Date(1971, 1, 1)) == "1971-01-01";
  }

  /** Year 10000 is written with six digits, zero-padded, after a plus sign. */
  lemma YearTenThousand()
    ensures YearText(10000) == "+010000"
  {
    assert Digits(0, 1) == "0";
    assert Digits(1, 2) == "01";
    assert Digits(10, 3) == "010";
    assert Digits(100, 4) == "0100";
    assert Digits(1000, 5) == "01000";
    assert Digits(10000, 6) == "010000";
  }

  lemma ExampleLastYear()
    ensures RevisionOf(Some("9999-12-31")) == Some("+010000-12-31")
  {
    YearTenThousand();
    assert FormatIsoDate(Date(9999, 12, 31)) == "9999-12-31";
    assert FormatIsoDate(Date(10000, 12, 31)) == "+010000-12-31";
    RevisionOfFormatted(Date(9999, 12, 31), "9999-12-31", "+010000-12-31");
  }

  lemma ExampleBadMonth()
    ensures RevisionOf(Some("2023-13-01")) == None
  {
    var s := "2023-13-01";
    assert s[5..7] == "13";
    assert ValueOf("13") == 13 by { assert "13"[..1] == "1"; }
  }

  /** A day past the end of its month rolls over: `2023-02-30` reads as Mar 2. */
  lemma ExampleFebruaryThirtieth()
    ensures ParseIsoDate("2023-02-30") == Some(Date(2023, 3, 2))
  {
    FormatFebruaryThirtieth();
    ReadFormat(Date(2023, 2, 30));
  }

  lemma FormatFebruaryThirtieth()
    ensures FormatIsoDate(Date(2023, 2, 30)) == "2023-02-30"
  {
  }
}
