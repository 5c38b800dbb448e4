/**
 * When comparing the text of an event with that of a boundary is comparing
 * their times: always, exactly for the boundaries at a whole second.
 */
module StampOrder {
  import opened Stamps

  // ----------------------------------------------------------------- text order

  lemma {:induction false} LessAsymmetric(a: string, b: string)
    requires Less(a, b)
    ensures !Less(b, a)
  {
    if a != "" && a[0] == b[0] { LessAsymmetric(a[1..], b[1..]); }
  }

  /** What follows equal text decides. */
  lemma {:induction false} SamePrefix(p: string, x: string, y: string)
    ensures Less(p + x, p + y) <==> Less(x, y)
  {
    if p == "" {
      assert p + x == x && p + y == y;
    } else {
      assert (p + x)[1..] == p[1..] + x && (p + y)[1..] == p[1..] + y;
      SamePrefix(p[1..], x, y);
    }
  }

  /** Text of equal length that differs decides, whatever follows. */
  lemma {:induction false} PrefixDecides(p: string, q: string, x: string, y: string)
    requires |p| == |q| && Less(p, q)
    ensures Less(p + x, q + y)
  {
    assert (p + x)[0] == p[0] && (q + y)[0] == q[0];
    if p[0] == q[0] {
      assert (p + x)[1..] == p[1..] + x && (q + y)[1..] == q[1..] + y;
      PrefixDecides(p[1..], q[1..], x, y);
    }
  }

  lemma {:induction false} DigitsOrder(n: nat, m: nat, width: nat)
    requires n < m < Pow10(width)
    ensures Less(Digits(n, width), Digits(m, width))
  {
    var p, q := Digits(n / 10, width - 1), Digits(m / 10, width - 1);
    if n / 10 < m / 10 {
      DigitsOrder(n / 10, m / 10, width - 1);
      PrefixDecides(p, q, [Digit(n % 10)], [Digit(m % 10)]);
    } else {
      assert n / 10 == m / 10;
      SamePrefix(p, [Digit(n % 10)], [Digit(m % 10)]);
    }
  }

  /** One field of a stamp: the smaller number decides, and equal ones leave it to the rest. */
  lemma FieldOrder(n: nat, m: nat, width: nat, x: string, y: string)
    requires n < Pow10(width) && m < Pow10(width)
    requires n < m || (n == m && Less(x, y))
    ensures Less(Digits(n, width) + x, Digits(m, width) + y)
  {
    if n < m {
      DigitsOrder(n, m, width);
      PrefixDecides(Digits(n, width), Digits(m, width), x, y);
    } else {
      SamePrefix(Digits(n, width), x, y);
    }
  }

  lemma Powers()
    ensures Pow10(2) == 100 && Pow10(4) == 10_000 && Pow10(9) == SECOND
  {
    assert Pow10(1) == 10 && Pow10(3) == 1000 && Pow10(5) == 100_000 && Pow10(6) == 1_000_000;
    assert Pow10(7) == 10_000_000 && Pow10(8) == 100_000_000;
  }

  // ---------------------------------------------------------------- clock, date

  lemma ClockOrder(a: nat, b: nat)
    requires a < b < DAY
    ensures Less(ClockText(a), ClockText(b))
  {
    Powers();
    var ma, mb := a / 60, b / 60;
    assert a / 3600 == ma / 60 && b / 3600 == mb / 60;
    var sa, sb := Digits(a % 60, 2), Digits(b % 60, 2);
    if ma < mb {
      MinutesOrder(ma, mb, ":" + sa, ":" + sb);
    } else {
      DigitsOrder(a % 60, b % 60, 2);
      SamePrefix(":", sa, sb);
      SamePrefix(Digits(ma % 60, 2), ":" + sa, ":" + sb);
      SamePrefix(":", Digits(ma % 60, 2) + (":" + sa), Digits(mb % 60, 2) + (":" + sb));
      SamePrefix(Digits(ma / 60, 2), ":" + (Digits(ma % 60, 2) + (":" + sa)), ":" + (Digits(mb % 60, 2) + (":" + sb)));
    }
  }

  lemma MinutesOrder(a: nat, b: nat, x: string, y: string)
    requires a < b < 1440
    ensures Less(Digits(a / 60, 2) + (":" + (Digits(a % 60, 2) + x)), Digits(b / 60, 2) + (":" + (Digits(b % 60, 2) + y)))
  {
    Powers();
    if a / 60 == b / 60 {
      FieldOrder(a % 60, b % 60, 2, x, y);
      SamePrefix(":", Digits(a % 60, 2) + x, Digits(b % 60, 2) + y);
    }
    FieldOrder(a / 60, b / 60, 2, ":" + (Digits(a % 60, 2) + x), ":" + (Digits(b % 60, 2) + y));
  }

  lemma ClockLength(a: nat)
    ensures |ClockText(a)| == 8
  {
  }

  lemma DateLength(day: nat)
    ensures |DateText(day)| == 10
  {
  }

  lemma {:induction false} SameMonths(leap: bool)
    ensures MonthStart(13, leap) == if leap then 366 else 365
  {
    assert MonthStart(3, leap) == MonthStart(2, leap) + MonthLength(2, leap) == if leap then 60 else 59;
    assert MonthStart(5, leap) == MonthStart(4, leap) + 30 == MonthStart(3, leap) + 61;
    assert MonthStart(7, leap) == MonthStart(6, leap) + 30 == MonthStart(5, leap) + 61;
    assert MonthStart(9, leap) == MonthStart(8, leap) + 31 == MonthStart(7, leap) + 62;
    assert MonthStart(11, leap) == MonthStart(10, leap) + 31 == MonthStart(9, leap) + 61;
    assert MonthStart(13, leap) == MonthStart(12, leap) + 31 == MonthStart(11, leap) + 61;
  }

  lemma LateYear(years: nat)
    ensures years >= 9999 ==> DaysInYears(years) >= LAST_DAY
  {
  }

  lemma YearInRange(day: nat)
    requires day < LAST_DAY
    ensures 1 <= YearOf(day, 1) < 10_000 && day - YearStart(YearOf(day, 1)) < YearLength(YearOf(day, 1))
  {
    var year := YearOf(day, 1);
    YearStartClosed(year);
    LateYear(year - 1);
  }

  lemma MonthInRange(day: nat, leap: bool)
    requires day < if leap then 366 else 365
    ensures 1 <= MonthOf(day, leap, 1) <= 12 && day - MonthStart(MonthOf(day, leap, 1), leap) < 31
  {
    var month := MonthOf(day, leap, 1);
    SameMonths(leap);
    if month > 13 { MonthStartGrows(13, month, leap); }
  }

  /** The date a day stands for. */
  lemma DateFields(day: nat) returns (year: nat, month: nat, dayOfMonth: nat)
    requires day < LAST_DAY
    ensures year == YearOf(day, 1) && month == MonthOf(day - YearStart(year), Leap(year), 1)
    ensures dayOfMonth == day - YearStart(year) - MonthStart(month, Leap(year)) + 1
    ensures 1 <= year < 10_000 && 1 <= month <= 12 && 1 <= dayOfMonth <= 31
    ensures DateText(day) == Digits(year, 4) + ("-" + (Digits(month, 2) + ("-" + Digits(dayOfMonth, 2))))
  {
    hide Digits;
    YearInRange(day);
    year := YearOf(day, 1);
    MonthInRange(day - YearStart(year), Leap(year));
    month := MonthOf(day - YearStart(year), Leap(year), 1);
    dayOfMonth := day - YearStart(year) - MonthStart(month, Leap(year)) + 1;
  }

  lemma YearsOrder(a: nat, b: nat)
    requires a < b
    ensures YearOf(a, 1) <= YearOf(b, 1)
  {
    var ya, yb := YearOf(a, 1), YearOf(b, 1);
    if ya > yb {
      if ya > yb + 1 { YearStartGrows(yb + 1, ya); }
      assert false;
    }
  }

  lemma MonthsOrder(a: nat, b: nat, leap: bool)
    requires a < b
    ensures MonthOf(a, leap, 1) <= MonthOf(b, leap, 1)
  {
    var ma, mb := MonthOf(a, leap, 1), MonthOf(b, leap, 1);
    if ma > mb {
      if ma > mb + 1 { MonthStartGrows(mb + 1, ma, leap); }
      assert false;
    }
  }

  lemma FieldsOrder(ya: nat, ma: nat, da: nat, yb: nat, mb: nat, db: nat)
    requires ya < 10_000 && ma < 100 && da < 100 && yb < 10_000 && mb < 100 && db < 100
    requires ya < yb || (ya == yb && (ma < mb || (ma == mb && da < db)))
    ensures Less(Digits(ya, 4) + ("-" + (Digits(ma, 2) + ("-" + Digits(da, 2)))),
                 Digits(yb, 4) + ("-" + (Digits(mb, 2) + ("-" + Digits(db, 2)))))
  {
    Powers();
    hide Digits, Less, Pow10;
    var xa, xb := "-" + Digits(da, 2), "-" + Digits(db, 2);
    if ya == yb {
      if ma == mb {
        DigitsOrder(da, db, 2);
        SamePrefix("-", Digits(da, 2), Digits(db, 2));
      }
      FieldOrder(ma, mb, 2, xa, xb);
      SamePrefix("-", Digits(ma, 2) + xa, Digits(mb, 2) + xb);
    }
    FieldOrder(ya, yb, 4, "-" + (Digits(ma, 2) + xa), "-" + (Digits(mb, 2) + xb));
  }

  lemma DateOrder(a: nat, b: nat)
    requires a < b < LAST_DAY
    ensures Less(DateText(a), DateText(b))
  {
    hide DateText, YearOf, MonthOf, MonthStart, YearStart, Digits, Less, Leap;
    var ya, ma, da := DateFields(a);
    var yb, mb, db := DateFields(b);
    YearsOrder(a, b);
    if ya == yb { MonthsOrder(a - YearStart(ya), b - YearStart(yb), Leap(ya)); }
    FieldsOrder(ya, ma, da, yb, mb, db);
  }

  /** Later seconds have later text, of the same length. */
  lemma SecondOrder(a: nat, b: nat)
    requires a < b < END
    ensures Less(SecondText(a), SecondText(b)) && |SecondText(a)| == |SecondText(b)|
  {
    DateLength(a / DAY);
    DateLength(b / DAY);
    ClockLength(a % DAY);
    ClockLength(b % DAY);
    assert b / DAY < LAST_DAY;
    hide DateText, ClockText, YearStart, Less;
    if a / DAY < b / DAY {
      DateOrder(a / DAY, b / DAY);
      PrefixDecides(DateText(a / DAY), DateText(b / DAY), "T" + ClockText(a % DAY), "T" + ClockText(b % DAY));
    } else {
      ClockOrder(a % DAY, b % DAY);
      SamePrefix("T", ClockText(a % DAY), ClockText(b % DAY));
      SamePrefix(DateText(a / DAY), "T" + ClockText(a % DAY), "T" + ClockText(b % DAY));
    }
  }

  // ------------------------------------------------------------------ fractions

  lemma {:induction false} ZeroDigits(width: nat)
    ensures forall i :: 0 <= i < width ==> Digits(0, width)[i] == '0'
  {
    if width > 0 { ZeroDigits(width - 1); }
  }

  /** A number that is not zero shows a digit that is not zero, and trimming ends with one. */
  lemma {:induction false} TrimmedEnds(n: nat, width: nat)
    requires 0 < n < Pow10(width)
    ensures var t := TrimZeros(Digits(n, width)); 0 < |t| <= width && t[|t| - 1] != '0'
    ensures forall i :: 0 <= i < |TrimZeros(Digits(n, width))| ==> '0' <= TrimZeros(Digits(n, width))[i]
  {
    var s := Digits(n, width);
    DigitsAreDigits(n, width);
    assert s[..width - 1] == Digits(n / 10, width - 1) && s[width - 1] == Digit(n % 10);
    if n % 10 == 0 {
      TrimmedEnds(n / 10, width - 1);
    }
  }

  lemma {:induction false} DigitsAreDigits(n: nat, width: nat)
    ensures forall i :: 0 <= i < width ==> '0' <= Digits(n, width)[i] <= '9'
  {
    if width > 0 { DigitsAreDigits(n / 10, width - 1); }
  }

  /** Digits that end in something else are above as many zeros, whatever follows. */
  lemma {:induction false} AboveZeros(t: string, z: string, x: string, y: string)
    requires 0 < |t| <= |z| && t[|t| - 1] != '0'
    requires forall i :: 0 <= i < |t| ==> '0' <= t[i]
    requires forall i :: 0 <= i < |z| ==> z[i] == '0'
    ensures Less(z + y, t + x)
  {
    assert (z + y)[0] == '0' && (t + x)[0] == t[0];
    if t[0] == '0' {
      assert (z + y)[1..] == z[1..] + y && (t + x)[1..] == t[1..] + x;
      AboveZeros(t[1..], z[1..], x, y);
    }
  }

  /** In its own second, every event is at or after the boundary that starts it. */
  lemma FractionOrder(nanos: nat)
    requires nanos < SECOND
    ensures Less("." + Digits(0, 9) + "Z", Fraction(nanos) + "Z")
  {
    var z := Digits(0, 9);
    assert "." + z + "Z" == "." + (z + "Z");
    if nanos > 0 {
      Powers();
      var t := TrimZeros(Digits(nanos, 9));
      TrimmedEnds(nanos, 9);
      ZeroDigits(9);
      AboveZeros(t, z, "Z", "Z");
      SamePrefix(".", z + "Z", t + "Z");
      assert "." + t + "Z" == "." + (t + "Z");
    } else {
      assert Fraction(nanos) + "Z" == "Z" && "Z"[0] == 'Z' && ("." + (z + "Z"))[0] == '.';
    }
  }

  // ------------------------------------------------------------------- theorems

  /** Comparing the text with a whole-second boundary is comparing the times. */
  lemma TextOrderIsTimeOrder(time: nat, boundary: nat)
    requires time / SECOND < END && boundary / SECOND < END && boundary % SECOND == 0
    ensures Less(Stored(time), Boundary(boundary)) <==> time < boundary
  {
    var s, b := time / SECOND, boundary / SECOND;
    var x, y := Fraction(time % SECOND) + "Z", "." + Digits(0, 9) + "Z";
    hide SecondText, Fraction, Digits, Less;
    if s < b {
      SecondOrder(s, b);
      PrefixDecides(SecondText(s), SecondText(b), x, y);
    } else if s > b {
      SecondOrder(b, s);
      PrefixDecides(SecondText(b), SecondText(s), y, x);
      LessAsymmetric(SecondText(b) + y, SecondText(s) + x);
    } else {
      FractionOrder(time % SECOND);
      SamePrefix(SecondText(s), y, x);
      LessAsymmetric(SecondText(b) + y, SecondText(s) + x);
    }
  }

  ghost predicate OrdersAll(boundary: nat) {
    forall time: nat :: time / SECOND < END ==> (Less(Stored(time), Boundary(boundary)) <==> time < boundary)
  }

  /** A boundary inside a second is passed too early by the event at the start of that second. */
  lemma FractionalBoundaryFails(boundary: nat)
    requires boundary / SECOND < END && boundary % SECOND != 0
    ensures var time := boundary / SECOND * SECOND;
            time < boundary && !Less(Stored(time), Boundary(boundary))
  {
    var second := boundary / SECOND;
    var time := second * SECOND;
    assert time % SECOND == 0 && time / SECOND == second;
    var x, y := Fraction(0) + "Z", "." + Digits(boundary % SECOND, 9) + "Z";
    assert x == "Z" && x[0] == 'Z' && y[0] == '.';
    SamePrefix(SecondText(second), x, y);
  }

  /** The text order is the time order for all events exactly at boundaries on a whole second. */
  lemma OrdersExactly(boundary: nat)
    requires boundary / SECOND < END
    ensures OrdersAll(boundary) <==> boundary % SECOND == 0
  {
    if boundary % SECOND == 0 {
      forall time: nat | time / SECOND < END ensures Less(Stored(time), Boundary(boundary)) <==> time < boundary {
        TextOrderIsTimeOrder(time, boundary);
      }
    } else {
      FractionalBoundaryFails(boundary);
      var time: nat := boundary / SECOND * SECOND;
      assert time / SECOND == boundary / SECOND;
    }
  }
}
