/**
 * Calendar days as the ledger uses them: Go `time.Time` values that were parsed from
 * a day-only layout with a four-digit year, so that only year, month and day carry
 * information and each lies in the range that layout can produce.
 */
module Dates {
  import opened Wrappers
  import opened Text

  type Year = y: nat | y <= 9999
  type Month = m: nat | 1 <= m <= 12 witness 1
  type DayOfMonth = d: nat | 1 <= d <= 31 witness 1

  datatype Date = Date(year: Year, month: Month, day: DayOfMonth)

  predicate IsLeap(year: nat) {
    year % 4 == 0 && (year % 100 != 0 || year % 400 == 0)
  }

  /** Go's `daysIn(month, year)`. */
  function DaysIn(month: Month, year: Year): nat {
    if month == 2 then (if IsLeap(year) then 29 else 28)
    else if month == 4 || month == 6 || month == 9 || month == 11 then 30
    else 31
  }

  /** A day that exists in its month. */
  predicate Valid(d: Date) {
    d.day <= DaysIn(d.month, d.year)
  }

  /** `a.Before(b)`. */
  predicate Before(a: Date, b: Date) {
    a.year < b.year || (a.year == b.year && (a.month < b.month || (a.month == b.month && a.day < b.day)))
  }

  lemma BeforeIsStrictTotalOrder(a: Date, b: Date, c: Date)
    ensures !Before(a, a)
    ensures Before(a, b) ==> !Before(b, a)
    ensures Before(a, b) && Before(b, c) ==> Before(a, c)
    ensures a == b || Before(a, b) || Before(b, a)
  {
  }

  /** `%02d` for n < 100: two decimal digits. */
  function Two(n: nat): string
    requires n < 100
  {
    [DigitChar(n / 10), DigitChar(n % 10)]
  }

  /** `%04d` for n < 10000: four decimal digits. */
  function Four(n: nat): string
    requires n < 10000
  {
    [DigitChar(n / 1000), DigitChar(n / 100 % 10), DigitChar(n / 10 % 10), DigitChar(n % 10)]
  }

  lemma TwoValue(n: nat)
    requires n < 100
    ensures AllDigits(Two(n)) && ValueOf(Two(n)) == n
  {
    var s := Two(n);
    assert s[..1] == [s[0]];
    assert ValueOf(s[..1][..0]) == 0;
  }

  lemma FourValue(n: nat)
    requires n < 10000
    ensures AllDigits(Four(n)) && ValueOf(Four(n)) == n
  {
    var s := Four(n);
    DivTen(n);
    assert s[..3][..2] == s[..2] && s[..2][..1] == s[..1] && s[..1][..0] == [];
    assert ValueOf(s[..1]) == n / 1000;
    assert ValueOf(s[..2]) == n / 100;
    assert ValueOf(s[..3]) == n / 10;
  }

  /** Each digit of `Four` is the previous prefix times ten plus the next digit. */
  lemma DivTen(n: nat)
    ensures n / 100 == n / 1000 * 10 + n / 100 % 10
    ensures n / 10 == n / 100 * 10 + n / 10 % 10
  {
    assert n / 10 / 10 == n / 100;
    assert n / 100 / 10 == n / 1000;
  }

  /** What `time.Format` writes for the layout element "2": the day without padding. */
  function ShortDay(day: DayOfMonth): string {
    if day < 10 then [DigitChar(day)] else Two(day)
  }

  /** `d.Format("01/02/2006")`: zero-padded month and day, four-digit year. */
  function Format(d: Date): string {
    Two(d.month) + "/" + Two(d.day) + "/" + Four(d.year)
  }

  /** `d.Format("01/02/2016")`. In that layout "01" is the zero-padded month, "02" the
      zero-padded day, "2" (not followed by "006") the unpadded day, "01" the month again and
      "6" a literal: there is no year in it. */
  function FormatNoYear(d: Date): string {
    Two(d.month) + "/" + Two(d.day) + "/" + ShortDay(d.day) + Two(d.month) + "6"
  }

  /** `time.Parse("01/02/2006", s)`, reduced to success or failure: two digits of month, "/",
      two digits of day, "/", four digits of year, nothing after, a month in 1..12 and a day
      that exists in that month. */
  function Parse(s: string): (r: Option<Date>)
    ensures r.Some? ==> Valid(r.value)
  {
    if |s| != 10 || s[2] != '/' || s[5] != '/' then None
    else if !AllDigits(s[0..2]) || !AllDigits(s[3..5]) || !AllDigits(s[6..10]) then None
    else
      var year, month, day := ValueOf(s[6..10]), ValueOf(s[0..2]), ValueOf(s[3..5]);
      ValueOfBound(s[6..10]);
      if 1 <= month <= 12 && 1 <= day <= 31 && day <= DaysIn(month, year) then Some(Date(year, month, day))
      else None
  }

  lemma {:induction false} ValueOfBound(s: string)
    requires AllDigits(s)
    ensures ValueOf(s) < Pow10(|s|)
  {
    if s != [] {
      ValueOfBound(s[..|s| - 1]);
    }
  }

  function Pow10(k: nat): nat {
    if k == 0 then 1 else 10 * Pow10(k - 1)
  }

  /** Formatting a valid day and parsing it back gives the same day. */
  lemma ParseFormat(d: Date)
    requires Valid(d)
    ensures Parse(Format(d)) == Some(d)
  {
    var s := Format(d);
    TwoValue(d.month);
    TwoValue(d.day);
    FourValue(d.year);
    assert s[0..2] == Two(d.month);
    assert s[3..5] == Two(d.day);
    assert s[6..10] == Four(d.year);
  }

  /** Every string that parses is the formatting of the day it parses to. */
  lemma FormatParse(s: string)
    requires Parse(s).Some?
    ensures Format(Parse(s).value) == s
  {
    var d := Parse(s).value;
    TwoValue(d.month);
    TwoValue(d.day);
    FourValue(d.year);
    ValueOfInjective(Two(d.month), s[0..2]);
    ValueOfInjective(Two(d.day), s[3..5]);
    ValueOfInjective(Four(d.year), s[6..10]);
    assert s == s[0..2] + "/" + s[3..5] + "/" + s[6..10];
  }

  /** The "01/02/2006" text names a valid day uniquely. */
  lemma FormatInjective(a: Date, b: Date)
    requires Valid(a) && Valid(b) && Format(a) == Format(b)
    ensures a == b
  {
    ParseFormat(a);
    ParseFormat(b);
  }

  /** Two days share their "01/02/2016" text exactly when they share month and day,
      whatever their years. */
  lemma FormatNoYearIgnoresYear(a: Date, b: Date)
    ensures FormatNoYear(a) == FormatNoYear(b) <==> a.month == b.month && a.day == b.day
  {
    if FormatNoYear(a) == FormatNoYear(b) {
      var ka, kb := FormatNoYear(a), FormatNoYear(b);
      TwoValue(a.month);
      TwoValue(a.day);
      TwoValue(b.month);
      TwoValue(b.day);
      assert ka[0..2] == Two(a.month) && kb[0..2] == Two(b.month);
      assert ka[3..5] == Two(a.day) && kb[3..5] == Two(b.day);
    }
  }
}
