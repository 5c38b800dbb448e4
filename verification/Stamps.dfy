/**
 * Time stamps as text: the calendar of section 5.6 of RFC 3339, in UTC, and the
 * order in which the database compares the text. Instants are nanoseconds since
 * the first of January of the year 1.
 */
module Stamps {
  const SECOND: nat := 1_000_000_000
  const DAY: nat := 86_400

  /** The order of text in the database: by character, and a prefix first. */
  predicate Less(a: string, b: string) {
    b != "" && (a == "" || a[0] < b[0] || (a[0] == b[0] && Less(a[1..], b[1..])))
  }

  predicate AtLeast(a: string, b: string) {
    !Less(a, b)
  }

  // ------------------------------------------------------------------- calendar

  predicate Leap(year: nat) {
    year % 4 == 0 && (year % 100 != 0 || year % 400 == 0)
  }

  function YearLength(year: nat): nat {
    if Leap(year) then 366 else 365
  }

  /** Days from the epoch to the start of the year. */
  function YearStart(year: nat): nat
    requires year >= 1
  {
    if year == 1 then 0 else YearStart(year - 1) + YearLength(year - 1)
  }

  function MonthLength(month: nat, leap: bool): nat {
    if month == 2 then (if leap then 29 else 28)
    else if month in [4, 6, 9, 11] then 30
    else 31
  }

  /** Days from the start of the year to the start of the month. */
  function MonthStart(month: nat, leap: bool): nat
    requires month >= 1
  {
    if month == 1 then 0 else MonthStart(month - 1, leap) + MonthLength(month - 1, leap)
  }

  lemma {:induction false} YearStartGrows(a: nat, b: nat)
    requires 1 <= a < b
    ensures YearStart(a) + 365 <= YearStart(b)
    decreases b
  {
    if a < b - 1 {
      YearStartGrows(a, b - 1);
    }
  }

  lemma {:induction false} MonthStartGrows(a: nat, b: nat, leap: bool)
    requires 1 <= a < b
    ensures MonthStart(a, leap) + 28 <= MonthStart(b, leap)
    decreases b
  {
    if a < b - 1 {
      MonthStartGrows(a, b - 1, leap);
    }
  }

  /** The year a day falls in, looked for from a year that does not start after it. */
  function YearOf(day: nat, from: nat): (year: nat)
    requires from >= 1 && YearStart(from) <= day
    ensures year >= from && YearStart(year) <= day < YearStart(year + 1)
    decreases day - YearStart(from)
  {
    if day < YearStart(from + 1) then from else YearOf(day, from + 1)
  }

  function MonthOf(day: nat, leap: bool, from: nat): (month: nat)
    requires from >= 1 && MonthStart(from, leap) <= day
    ensures month >= from && MonthStart(month, leap) <= day < MonthStart(month + 1, leap)
    decreases day - MonthStart(from, leap)
  {
    if day < MonthStart(from + 1, leap) then from else MonthOf(day, leap, from + 1)
  }

  /** The days and the seconds up to the end of the year 9999, the last with four digits. */
  const LAST_DAY: nat := 3_652_059
  const END: nat := LAST_DAY * DAY

  /** The days in the first years, by their number alone. */
  function DaysInYears(years: nat): nat {
    365 * years + (years / 4 - years / 100) + years / 400
  }

  lemma OneYearMore(year: nat)
    requires year >= 1
    ensures DaysInYears(year) == DaysInYears(year - 1) + YearLength(year)
  {
    LeapDay(year);
    LeapCentury(year);
    LeapsAddUp(year / 4 - (year - 1) / 4, year / 100 - (year - 1) / 100, year / 400 - (year - 1) / 400,
               year % 4 == 0, year % 100 == 0, year % 400 == 0);
  }

  lemma LeapCentury(y: nat)
    ensures (y % 100 == 0 ==> y % 4 == 0) && (y % 400 == 0 ==> y % 100 == 0)
  {
    if y % 100 == 0 {
      var k := y / 100;
      assert y == 4 * (25 * k);
      MultipleOf(4, 25 * k);
    }
    if y % 400 == 0 {
      var k := y / 400;
      assert y == 100 * (4 * k);
      MultipleOf(100, 4 * k);
    }
  }

  lemma MultipleOf(d: nat, k: nat)
    requires d in {4, 100}
    ensures d * k % d == 0
  {
    assert d == 4 ==> 4 * k % 4 == 0;
    assert d == 100 ==> 100 * k % 100 == 0;
  }

  lemma LeapsAddUp(four: int, hundred: int, fourHundred: int, by4: bool, by100: bool, by400: bool)
    requires four == (if by4 then 1 else 0) && hundred == (if by100 then 1 else 0) && fourHundred == (if by400 then 1 else 0)
    requires (by100 ==> by4) && (by400 ==> by100)
    ensures four - hundred + fourHundred == if by4 && (!by100 || by400) then 1 else 0
  {
  }

  lemma LeapDay(y: nat)
    requires y >= 1
    ensures y / 4 - (y - 1) / 4 == if y % 4 == 0 then 1 else 0
    ensures y / 100 - (y - 1) / 100 == if y % 100 == 0 then 1 else 0
    ensures y / 400 - (y - 1) / 400 == if y % 400 == 0 then 1 else 0
  {
  }

  lemma {:induction false} YearStartClosed(year: nat)
    requires year >= 1
    ensures YearStart(year) == DaysInYears(year - 1)
  {
    if year == 1 {
      assert DaysInYears(0) == 0;
    } else {
      hide DaysInYears;
      YearStartClosed(year - 1);
      OneYearMore(year - 1);
    }
  }

  // ----------------------------------------------------------------------- text

  function Digit(n: nat): (c: char)
    requires n < 10
    ensures '0' <= c <= '9' && c as int == 48 + n
  {
    (48 + n) as char
  }

  function Pow10(k: nat): nat {
    if k == 0 then 1 else 10 * Pow10(k - 1)
  }

  /** The last `width` decimal digits. */
  function Digits(n: nat, width: nat): (s: string)
    ensures |s| == width
  {
    if width == 0 then "" else Digits(n / 10, width - 1) + [Digit(n % 10)]
  }

  function DateText(day: nat): string {
    var year := YearOf(day, 1);
    var dayOfYear := day - YearStart(year);
    var month := MonthOf(dayOfYear, Leap(year), 1);
    var dayOfMonth := dayOfYear - MonthStart(month, Leap(year)) + 1;
    Digits(year, 4) + ("-" + (Digits(month, 2) + ("-" + Digits(dayOfMonth, 2))))
  }

  function ClockText(second: nat): string {
    Digits(second / 3600, 2) + (":" + (Digits(second / 60 % 60, 2) + (":" + Digits(second % 60, 2))))
  }

  /** A second as text: `2006-01-02T15:04:05`. */
  function SecondText(second: nat): string {
    DateText(second / DAY) + ("T" + ClockText(second % DAY))
  }

  /** Fractional digits without the zeros at the end. */
  function TrimZeros(s: string): string {
    if s != "" && s[|s| - 1] == '0' then TrimZeros(s[..|s| - 1]) else s
  }

  function Fraction(nanos: nat): string {
    if nanos == 0 then "" else "." + TrimZeros(Digits(nanos, 9))
  }

  /** How an event is stored: the fraction appears only when there is one, and only as long as needed. */
  function Stored(time: nat): string {
    SecondText(time / SECOND) + (Fraction(time % SECOND) + "Z")
  }

  /** How a bucket boundary is written: nine digits, always. */
  function Boundary(time: nat): string {
    SecondText(time / SECOND) + ("." + Digits(time % SECOND, 9) + "Z")
  }
}
