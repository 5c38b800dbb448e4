/**
 * Stamps compared with a cutoff that is written like a stamp itself, without the
 * zeros at the end of its fraction: exactly when the text order is not the order
 * of time.
 */
module CutoffOrder {
  import opened Stamps
  import opened StampOrder

  predicate ProperPrefix(x: string, y: string) {
    |x| < |y| && y[..|x|] == x
  }

  function FractionOf(time: nat): string {
    Fraction(time % SECOND)
  }

  /** Two instants of one second whose fractions differ only in that one goes on where the other ends. */
  predicate Misordered(time: nat, cutoff: nat) {
    && time / SECOND == cutoff / SECOND
    && (ProperPrefix(FractionOf(time), FractionOf(cutoff)) || ProperPrefix(FractionOf(cutoff), FractionOf(time)))
  }

  // ------------------------------------------------------------------ text, again

  /** The text that ends first comes after the one that goes on. */
  lemma EndedIsLater(x: string, y: string)
    requires ProperPrefix(x, y) && y[|x|] < 'Z'
    ensures Less(y + "Z", x + "Z") && !Less(x + "Z", y + "Z")
  {
    var rest := y[|x|..];
    assert y + "Z" == x + (rest + "Z");
    assert (rest + "Z")[0] == y[|x|] && "Z"[0] == 'Z';
    SamePrefix(x, rest + "Z", "Z");
    LessAsymmetric(y + "Z", x + "Z");
  }

  predicate PrefixOf(x: string, y: string) {
    |x| <= |y| && y[..|x|] == x
  }

  lemma PrefixAfter(c: char, x: string, y: string)
    ensures PrefixOf([c] + x, [c] + y) <==> PrefixOf(x, y)
  {
    if |x| <= |y| { assert ([c] + y)[..|x| + 1] == [c] + y[..|x|]; }
    assert ([c] + x)[1..] == x;
  }

  /** When neither text begins the other, nothing that follows matters. */
  lemma {:induction false} DifferenceDecides(p: string, q: string, a: string, b: string)
    requires !PrefixOf(p, q) && !PrefixOf(q, p)
    ensures Less(p + a, q + b) <==> Less(p, q)
    ensures Less(p, q) || Less(q, p)
  {
    assert (p + a)[0] == p[0] && (q + b)[0] == q[0];
    if p[0] == q[0] {
      assert (p + a)[1..] == p[1..] + a && (q + b)[1..] == q[1..] + b;
      assert p == [p[0]] + p[1..] && q == [p[0]] + q[1..];
      PrefixAfter(p[0], p[1..], q[1..]);
      PrefixAfter(p[0], q[1..], p[1..]);
      DifferenceDecides(p[1..], q[1..], a, b);
    }
  }

  // -------------------------------------------------------------------- fractions

  lemma {:induction false} TrimmedRest(s: string)
    ensures var t := TrimZeros(s);
            PrefixOf(t, s) && forall i :: |t| <= i < |s| ==> s[i] == '0'
  {
    if s != "" && s[|s| - 1] == '0' {
      TrimmedRest(s[..|s| - 1]);
    }
  }

  function Trimmed(nanos: nat): string {
    TrimZeros(Digits(nanos, 9))
  }

  /** The digits of a fraction are its trimmed digits and then zeros. */
  lemma TrimmedFacts(nanos: nat) returns (zeros: string)
    requires 0 < nanos < SECOND
    ensures Digits(nanos, 9) == Trimmed(nanos) + zeros
    ensures forall i :: 0 <= i < |zeros| ==> zeros[i] == '0'
    ensures Trimmed(nanos) != "" && Trimmed(nanos)[|Trimmed(nanos)| - 1] != '0'
    ensures forall i :: 0 <= i < |Trimmed(nanos)| ==> '0' <= Trimmed(nanos)[i] <= '9'
  {
    Powers();
    TrimmedRest(Digits(nanos, 9));
    TrimmedEnds(nanos, 9);
    DigitsAreDigits(nanos, 9);
    zeros := Digits(nanos, 9)[|Trimmed(nanos)|..];
    assert forall i :: 0 <= i < |Trimmed(nanos)| ==> Trimmed(nanos)[i] == Digits(nanos, 9)[i];
  }

  lemma DigitsTell(n: nat, m: nat)
    requires n < SECOND && m < SECOND
    ensures Less(Digits(n, 9), Digits(m, 9)) <==> n < m
  {
    Powers();
    if n < m {
      DigitsOrder(n, m, 9);
    } else if m < n {
      DigitsOrder(m, n, 9);
      LessAsymmetric(Digits(m, 9), Digits(n, 9));
    } else {
      Irreflexive(Digits(n, 9));
    }
  }

  lemma {:induction false} Irreflexive(s: string)
    ensures !Less(s, s)
  {
    if s != "" { Irreflexive(s[1..]); }
  }

  lemma LongerIsAbove(tn: string, tm: string, zn: string, zm: string)
    requires ProperPrefix(tn, tm) && |tm| <= |tn| + |zn| && tm[|tm| - 1] != '0'
    requires forall i :: 0 <= i < |tm| ==> '0' <= tm[i]
    requires forall i :: 0 <= i < |zn| ==> zn[i] == '0'
    ensures Less(tn + zn, tm + zm)
  {
    hide Less;
    var rest := tm[|tn|..];
    assert tm == tn + rest;
    RestAboveZeros(tn, rest, zn, zm);
    SamePrefix(tn, zn, rest + zm);
    Regroup(tn, rest, zm);
  }

  lemma RestAboveZeros(tn: string, rest: string, zn: string, zm: string)
    requires 0 < |rest| <= |zn| && (tn + rest)[|tn + rest| - 1] != '0'
    requires forall i :: 0 <= i < |tn + rest| ==> '0' <= (tn + rest)[i]
    requires forall i :: 0 <= i < |zn| ==> zn[i] == '0'
    ensures Less(zn, rest + zm)
  {
    assert forall i :: 0 <= i < |rest| ==> rest[i] == (tn + rest)[|tn| + i];
    hide Less;
    AboveZeros(rest, zn, zm, "");
    assert zn + "" == zn;
  }

  lemma Regroup(x: string, y: string, z: string)
    ensures x + y + z == x + (y + z)
  {
  }

  lemma PrefixAfterDot(x: string, y: string)
    requires ProperPrefix("." + x, "." + y)
    ensures ProperPrefix(x, y)
  {
    assert ("." + y)[..|x| + 1][1..] == y[..|x|] && ("." + x)[1..] == x;
  }

  /** A fraction that another one goes on from is the smaller one. */
  lemma PrefixIsSmaller(n: nat, m: nat)
    requires n < SECOND && m < SECOND && ProperPrefix(Fraction(n), Fraction(m))
    ensures n < m
  {
    if n > 0 {
      var tn, tm := Trimmed(n), Trimmed(m);
      assert Fraction(n) == "." + tn && Fraction(m) == "." + tm;
      hide Fraction, Digits, TrimZeros, Less, Trimmed;
      var zn := TrimmedFacts(n);
      var zm := TrimmedFacts(m);
      PrefixAfterDot(tn, tm);
      LongerIsAbove(tn, tm, zn, zm);
      DigitsTell(n, m);
    }
  }

  /** The fraction of an instant begins with a dot and goes on with digits. */
  lemma FractionChars(nanos: nat)
    requires nanos < SECOND
    ensures forall i :: 0 <= i < |Fraction(nanos)| ==> Fraction(nanos)[i] < 'Z'
    ensures nanos == 0 <==> Fraction(nanos) == ""
  {
    if nanos > 0 {
      var zeros := TrimmedFacts(nanos);
      assert Fraction(nanos) == "." + Trimmed(nanos) && "."[0] == '.';
    }
  }

  lemma ApartTells(n: nat, m: nat)
    requires 0 < n < SECOND && 0 < m < SECOND
    requires !PrefixOf(Fraction(n), Fraction(m)) && !PrefixOf(Fraction(m), Fraction(n))
    ensures Less(Fraction(n) + "Z", Fraction(m) + "Z") <==> n < m
  {
    var tn, tm := Trimmed(n), Trimmed(m);
    var zn := TrimmedFacts(n);
    var zm := TrimmedFacts(m);
    assert Fraction(n) == "." + tn && Fraction(m) == "." + tm;
    PrefixAfter('.', tn, tm);
    PrefixAfter('.', tm, tn);
    assert "." + tn == ['.'] + tn && "." + tm == ['.'] + tm;
    hide Digits, TrimZeros, Less, Fraction;
    DifferenceDecides(tn, tm, "Z", "Z");
    DifferenceDecides(tn, tm, zn, zm);
    DigitsTell(n, m);
    assert "." + tn + "Z" == "." + (tn + "Z") && "." + tm + "Z" == "." + (tm + "Z");
    SamePrefix(".", tn + "Z", tm + "Z");
  }

  lemma FractionsOrder(n: nat, m: nat)
    requires n < SECOND && m < SECOND
    ensures var x, y := Fraction(n), Fraction(m);
            (Less(x + "Z", y + "Z") <==> n < m) <==> !ProperPrefix(x, y) && !ProperPrefix(y, x)
  {
    var x, y := Fraction(n), Fraction(m);
    FractionChars(n);
    FractionChars(m);
    hide Fraction, Less;
    if n == m {
      Irreflexive(x + "Z");
    } else if ProperPrefix(x, y) {
      PrefixIsSmaller(n, m);
      EndedIsLater(x, y);
    } else if ProperPrefix(y, x) {
      PrefixIsSmaller(m, n);
      EndedIsLater(y, x);
    } else {
      SameFraction(n, m);
      NotPrefixes(x, y);
      ApartTells(n, m);
    }
  }

  lemma NotPrefixes(x: string, y: string)
    requires x != y && !ProperPrefix(x, y) && !ProperPrefix(y, x)
    ensures !PrefixOf(x, y) && !PrefixOf(y, x) && x != "" && y != ""
  {
    assert x[..|x|] == x && y[..|y|] == y;
    assert x[..0] == "" && y[..0] == "";
  }

  lemma SameFraction(n: nat, m: nat)
    requires n < SECOND && m < SECOND
    ensures Fraction(n) == Fraction(m) ==> n == m
  {
    FractionChars(n);
    FractionChars(m);
    if n > 0 && Fraction(n) == Fraction(m) {
      var zn := TrimmedFacts(n);
      var zm := TrimmedFacts(m);
      assert Fraction(n)[1..] == Trimmed(n) && Fraction(m)[1..] == Trimmed(m);
      assert zn == zm;
      DigitsTell(n, m);
      DigitsTell(m, n);
      Irreflexive(Digits(n, 9));
    }
  }

  // --------------------------------------------------------------------- theorems

  /** The text order of a stamp and a cutoff is their order in time exactly unless they are misordered. */
  lemma CutoffOrderExactly(time: nat, cutoff: nat)
    requires time / SECOND < END && cutoff / SECOND < END
    ensures (Less(Stored(time), Stored(cutoff)) <==> time < cutoff) <==> !Misordered(time, cutoff)
  {
    var s, c := time / SECOND, cutoff / SECOND;
    var x, y := FractionOf(time) + "Z", FractionOf(cutoff) + "Z";
    hide SecondText, Fraction, Less;
    if s < c {
      SecondOrder(s, c);
      PrefixDecides(SecondText(s), SecondText(c), x, y);
    } else if s > c {
      SecondOrder(c, s);
      PrefixDecides(SecondText(c), SecondText(s), y, x);
      LessAsymmetric(SecondText(c) + y, SecondText(s) + x);
    } else {
      SamePrefix(SecondText(s), x, y);
      FractionsOrder(time % SECOND, cutoff % SECOND);
    }
  }

  /** What a cutoff takes: everything older, but for the misordered instants of its own second. */
  predicate Goes(time: nat, cutoff: nat) {
    if Misordered(time, cutoff) then time > cutoff else time < cutoff
  }

  lemma CutoffTakes(time: nat, cutoff: nat)
    requires time / SECOND < END && cutoff / SECOND < END
    ensures Less(Stored(time), Stored(cutoff)) <==> Goes(time, cutoff)
  {
    CutoffOrderExactly(time, cutoff);
    hide Less, Stored, Fraction;
    if Misordered(time, cutoff) { MisorderedDiffer(time, cutoff); }
  }

  lemma MisorderedDiffer(time: nat, cutoff: nat)
    requires Misordered(time, cutoff)
    ensures time != cutoff
  {
  }

  /** No cutoff is safe: each takes an event too many or one too few. */
  lemma EveryCutoffMisorders(cutoff: nat) returns (time: nat)
    ensures Misordered(time, cutoff) && time != cutoff && time / SECOND == cutoff / SECOND
  {
    var start := cutoff / SECOND * SECOND;
    if cutoff % SECOND == 0 {
      time := cutoff + 1;
      assert time % SECOND == 1 && time / SECOND == cutoff / SECOND;
      FractionChars(1);
    } else {
      time := start;
      assert time % SECOND == 0 && time / SECOND == cutoff / SECOND;
      FractionChars(cutoff % SECOND);
    }
  }

  /** Half past the fifth second is younger than the fifth second, and is taken by that cutoff. */
  lemma HalfSecondWitness()
    ensures var event, cutoff := 5 * SECOND + 500_000_000, 5 * SECOND;
            event > cutoff && Less(Stored(event), Stored(cutoff))
  {
    var event, cutoff := 5 * SECOND + 500_000_000, 5 * SECOND;
    assert event / SECOND == 5 && event % SECOND == 500_000_000 && cutoff / SECOND == 5 && cutoff % SECOND == 0;
    FractionChars(500_000_000);
    CutoffTakes(event, cutoff);
  }
}
