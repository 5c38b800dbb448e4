/** A time stamp read back: the text says the instant it was written for (section 5.6 of RFC 3339). */
module StampReading {
  import opened Stamps
  import opened StampOrder
  import opened CutoffOrder

  predicate AllDigits(s: string) {
    forall i :: 0 <= i < |s| ==> '0' <= s[i] <= '9'
  }

  function Number(s: string): nat
    requires AllDigits(s)
  {
    if s == "" then 0 else 10 * Number(s[..|s| - 1]) + (s[|s| - 1] as int - 48)
  }

  /** Days before each month of a year without a leap day. */
  const BEFORE_MONTH: seq<nat> := [0, 31, 59, 90, 120, 151, 181, 212, 243, 273, 304, 334]

  /** Days from the first of January of the year 1, by the rule of the Gregorian calendar. */
  function DayNumber(year: nat, month: nat, day: nat): int
    requires year >= 1 && 1 <= month <= 12
  {
    365 * (year - 1) + (year - 1) / 4 - (year - 1) / 100 + (year - 1) / 400
    + BEFORE_MONTH[month - 1] + (if month > 2 && (year % 400 == 0 || (year % 4 == 0 && year % 100 != 0)) then 1 else 0)
    + day - 1
  }

  // --------------------------------------------------------------------- numbers

  lemma {:induction false} DigitsRead(n: nat, width: nat)
    requires n < Pow10(width)
    ensures AllDigits(Digits(n, width)) && Number(Digits(n, width)) == n
  {
    if width > 0 {
      var s := Digits(n, width);
      DigitsRead(n / 10, width - 1);
      assert s[..|s| - 1] == Digits(n / 10, width - 1) && s[|s| - 1] == Digit(n % 10);
    }
  }

  lemma FieldsRead(n: nat)
    ensures n < 100 ==> AllDigits(Digits(n, 2)) && Number(Digits(n, 2)) == n
    ensures n < 10_000 ==> AllDigits(Digits(n, 4)) && Number(Digits(n, 4)) == n
    ensures n < 1_000_000_000 ==> AllDigits(Digits(n, 9)) && Number(Digits(n, 9)) == n
  {
    Powers();
    hide Pow10, Digits, Number, AllDigits;
    if n < 100 { DigitsRead(n, 2); }
    if n < 10_000 { DigitsRead(n, 4); }
    if n < 1_000_000_000 { DigitsRead(n, 9); }
  }

  // ------------------------------------------------------------------------ dates

  lemma MonthTable(month: nat, leap: bool)
    requires 1 <= month <= 12
    ensures MonthStart(month, leap) == BEFORE_MONTH[month - 1] + if leap && month > 2 then 1 else 0
  {
    var more := if leap then 1 else 0;
    assert MonthStart(1, leap) == 0 && MonthStart(2, leap) == 31 && MonthStart(3, leap) == 59 + more;
    assert MonthStart(4, leap) == 90 + more && MonthStart(5, leap) == 120 + more && MonthStart(6, leap) == 151 + more;
    assert MonthStart(7, leap) == 181 + more && MonthStart(8, leap) == 212 + more && MonthStart(9, leap) == 243 + more;
    assert MonthStart(10, leap) == 273 + more && MonthStart(11, leap) == 304 + more && MonthStart(12, leap) == 334 + more;
  }

  /** The text is a date, of this day. */
  ghost predicate SaysDay(text: string, day: nat) {
    && |text| == 10 && text[4] == '-' && text[7] == '-'
    && AllDigits(text[..4]) && AllDigits(text[5..7]) && AllDigits(text[8..])
    && var year, month, dayOfMonth := Number(text[..4]), Number(text[5..7]), Number(text[8..]);
       && year >= 1 && 1 <= month <= 12 && 1 <= dayOfMonth <= 31
       && DayNumber(year, month, dayOfMonth) == day
  }

  lemma DateReads(day: nat)
    requires day < LAST_DAY
    ensures SaysDay(DateText(day), day)
  {
    hide DateText, YearOf, MonthOf, MonthStart, YearStart, Digits, Number, AllDigits;
    var year, month, dayOfMonth := DateFields(day);
    YearStartClosed(year);
    MonthTable(month, Leap(year));
    FieldsRead(year);
    FieldsRead(month);
    FieldsRead(dayOfMonth);
    var y, m, d := Digits(year, 4), Digits(month, 2), Digits(dayOfMonth, 2);
    var text := y + ("-" + (m + ("-" + d)));
    assert text[..4] == y && text[5..7] == m && text[8..] == d;
    DaysAddUp(day, year, month, dayOfMonth);
  }

  lemma DaysAddUp(day: nat, year: nat, month: nat, dayOfMonth: nat)
    requires year >= 1 && 1 <= month <= 12
    requires YearStart(year) == DaysInYears(year - 1)
    requires MonthStart(month, Leap(year)) == BEFORE_MONTH[month - 1] + if Leap(year) && month > 2 then 1 else 0
    requires dayOfMonth == day - YearStart(year) - MonthStart(month, Leap(year)) + 1
    ensures DayNumber(year, month, dayOfMonth) == day
  {
    LeapCentury(year);
    hide YearStart, MonthStart;
  }

  // ------------------------------------------------------------------------ times

  /** The text is a time of day, this many seconds into it. */
  ghost predicate SaysClock(text: string, second: nat) {
    && |text| == 8 && text[2] == ':' && text[5] == ':'
    && AllDigits(text[..2]) && AllDigits(text[3..5]) && AllDigits(text[6..])
    && Number(text[..2]) < 24 && Number(text[3..5]) < 60 && Number(text[6..]) < 60
    && 3600 * Number(text[..2]) + 60 * Number(text[3..5]) + Number(text[6..]) == second
  }

  lemma ClockReads(second: nat)
    requires second < 86_400
    ensures SaysClock(ClockText(second), second)
  {
    hide Digits, Number, AllDigits;
    var hour, minute := second / 3600, second / 60 % 60;
    FieldsRead(hour);
    FieldsRead(minute);
    FieldsRead(second % 60);
    var h, m, s := Digits(hour, 2), Digits(minute, 2), Digits(second % 60, 2);
    assert second / 3600 == second / 60 / 60;
    var text := h + (":" + (m + (":" + s)));
    assert text[..2] == h && text[3..5] == m && text[6..] == s;
  }

  // -------------------------------------------------------------------- fractions

  /** Digits with zeros after them. */
  function Padded(s: string, width: nat): string {
    if |s| >= width then s else Padded(s, width - 1) + "0"
  }

  lemma {:induction false} PaddedIs(t: string, zeros: string)
    requires forall i :: 0 <= i < |zeros| ==> zeros[i] == '0'
    ensures Padded(t, |t| + |zeros|) == t + zeros
  {
    if zeros == "" {
      assert t + zeros == t;
    } else {
      var front := zeros[..|zeros| - 1];
      PaddedIs(t, front);
      assert t + zeros == t + front + "0";
    }
  }

  /** The text is a fraction of a second without needless digits, or nothing, of this many nanoseconds. */
  ghost predicate SaysFraction(text: string, nanos: nat) {
    if text == "" then nanos == 0
    else
      && 2 <= |text| <= 10 && text[0] == '.' && text[|text| - 1] != '0'
      && AllDigits(Padded(text[1..], 9)) && Number(Padded(text[1..], 9)) == nanos
  }

  lemma FractionReads(nanos: nat)
    requires nanos < 1_000_000_000
    ensures SaysFraction(Fraction(nanos), nanos)
  {
    if nanos > 0 {
      var zeros := TrimmedFacts(nanos);
      FieldsRead(nanos);
      var t := TrimZeros(Digits(nanos, 9));
      assert t == Trimmed(nanos) && |t| + |zeros| == 9;
      PaddedIs(t, zeros);
      assert ("." + t)[1..] == t;
      hide Digits, Number, AllDigits, Padded, TrimZeros;
    }
  }

  // -------------------------------------------------------------------- the whole

  /** The text is a stamp of this instant, in UTC: date, time of day, and what is left of a second. */
  ghost predicate SaysSecond(text: string, second: nat) {
    |text| == 19 && text[10] == 'T' && SaysDay(text[..10], second / 86_400) && SaysClock(text[11..], second % 86_400)
  }

  lemma SecondReads(second: nat)
    requires second < END
    ensures SaysSecond(SecondText(second), second)
  {
    DateReads(second / 86_400);
    ClockReads(second % 86_400);
    DateLength(second / 86_400);
    ClockLength(second % 86_400);
    hide DateText, ClockText, SaysDay, SaysClock;
    var date, clock := DateText(second / 86_400), ClockText(second % 86_400);
    var text := date + ("T" + clock);
    assert text[..10] == date && text[11..] == clock;
  }

  /** A stored stamp and a bucket boundary say the instant they stand for, to the nanosecond. */
  lemma StampReads(time: nat)
    requires time / 1_000_000_000 < END
    ensures var s := Stored(time);
            && |s| >= 20 && SaysSecond(s[..19], time / 1_000_000_000) && s[|s| - 1] == 'Z'
            && SaysFraction(s[19..|s| - 1], time % 1_000_000_000)
    ensures var b := Boundary(time);
            && |b| == 30 && SaysSecond(b[..19], time / 1_000_000_000) && b[19] == '.' && b[29] == 'Z'
            && AllDigits(b[20..29]) && Number(b[20..29]) == time % 1_000_000_000
  {
    var second, nanos := time / 1_000_000_000, time % 1_000_000_000;
    SecondReads(second);
    FractionReads(nanos);
    FieldsRead(nanos);
    assert |SecondText(second)| == 19;
    hide SecondText, Fraction, Digits, SaysFraction, Number, AllDigits, SaysSecond;
    StampPieces(SecondText(second), Fraction(nanos), Digits(nanos, 9));
  }

  lemma StampPieces(s: string, f: string, d: string)
    requires |s| == 19 && |d| == 9
    ensures var x := s + (f + "Z"); |x| >= 20 && x[..19] == s && x[19..|x| - 1] == f && x[|x| - 1] == 'Z'
    ensures var y := s + ("." + d + "Z"); |y| == 30 && y[..19] == s && y[19] == '.' && y[20..29] == d && y[29] == 'Z'
  {
  }
}
