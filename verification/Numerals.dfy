/** Decimal numerals: which text denotes an integer, and that there is only one of a given least length. */
module Numerals {
  import opened Decimal

  /** s is the decimal text of n with at least `least` characters: a minus sign exactly for a negative
      number, then digits that denote its magnitude, with leading zeros only to reach that length. */
  predicate Numeral(s: string, n: int, least: nat) {
    && |s| >= least && s != "" && (n < 0 <==> s[0] == '-')
    && IsMagnitude(if n < 0 then s[1..] else s, if n < 0 then -n else n, |s| > least)
  }

  predicate IsMagnitude(t: string, m: nat, shortest: bool) {
    t != "" && AllDigits(t) && Value(t) == m && (shortest ==> t[0] != '0' || |t| == 1)
  }

  lemma {:induction false} FixedReadsBack(s: string)
    requires AllDigits(s)
    ensures Value(s) >= 0 && Fixed(Value(s), |s|) == s
  {
    ValueNonnegative(s);
    if s != [] {
      var t, c := s[..|s| - 1], s[|s| - 1];
      FixedReadsBack(t);
      assert Value(s) / 10 == Value(t) && Value(s) % 10 == DigitValue(c);
      assert s == t + [c];
    }
  }

  lemma {:induction false} ValueBounds(s: string)
    requires AllDigits(s)
    ensures 0 <= Value(s) < Pow10(|s|)
    ensures s != [] && s[0] != '0' ==> Pow10(|s| - 1) <= Value(s)
  {
    if s != [] {
      ValueBounds(s[..|s| - 1]);
    }
  }

  predicate InBounds(v: int, d: nat) { d >= 1 && 0 <= v < Pow10(d) && (d > 1 ==> Pow10(d - 1) <= v) }

  lemma LengthIsCount(v: int, d: nat)
    requires InBounds(v, d)
    ensures Digits(v) == Fixed(v, d)
  {
    NumDigitsUnique(v, d);
    FixedIsDigits(v);
  }

  /** A digit text without leading zeros is the one that is printed. */
  lemma ShortestIsDigits(t: string)
    requires t != "" && AllDigits(t) && (t[0] != '0' || |t| == 1)
    ensures Value(t) >= 0 && Digits(Value(t)) == t
  {
    assert InBounds(Value(t), |t|) by { ValueBounds(t); }
    LengthIsCount(Value(t), |t|);
    FixedReadsBack(t);
  }

  lemma MagnitudeIsOnly(s: string, t: string, m: nat, least: nat)
    requires IsMagnitude(s, m, |s| > least) && IsMagnitude(t, m, |t| > least) && |s| >= least && |t| >= least
    ensures s == t
  {
    if |s| == |t| {
      FixedReadsBack(s);
      FixedReadsBack(t);
    } else {
      var short, long := if |s| < |t| then s else t, if |s| < |t| then t else s;
      ValueBounds(short);
      ValueBounds(long);
      Pow10Monotone(|short|, |long| - 1);
    }
  }

  /** There is only one. */
  lemma NumeralIsOnly(s: string, t: string, n: int, least: nat)
    requires Numeral(s, n, least) && Numeral(t, n, least)
    ensures s == t
  {
    if n < 0 {
      MagnitudeIsOnly(s[1..], t[1..], -n, if least > 0 then least - 1 else 0);
      assert s == ['-'] + s[1..] && t == ['-'] + t[1..];
    } else {
      MagnitudeIsOnly(s, t, n, least);
    }
  }

  lemma DigitsAreNumeral(n: nat)
    ensures Numeral(Digits(n), n, 1)
  {
    DigitsReadBack(n);
    DigitsAreDigits(n);
    NumDigitsBounds(n);
    assert n == 0 ==> |Digits(n)| == 1;
  }
}
