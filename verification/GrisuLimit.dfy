/** What the generated digits say about the number itself, above all when the digit limit has cut them:
    an accepted text is the number rounded to nearest. */
module GrisuLimit {
  import opened Decimal
  import opened GrisuDigits

  lemma WeightGrows(a: int, b: int, k: int, s: nat)
    requires a <= b
    ensures Weight(a, k, s) <= Weight(b, k, s)
    ensures Weight(a + 1, k, s) == Weight(a, k, s) + Weight(1, k, s)
    ensures Weight(a - 1, k, s) == Weight(a, k, s) - Weight(1, k, s)
    ensures Weight(1, k, s) > 0
  {
    WeightMonotone(a, b, k, s);
    if k >= 0 {
      UnitWeight(k, s);
    }
    ShlLinear(1, 0, s);
    WeightAdd(a, 1, k, s);
    WeightAdd(a - 1, 1, k, s);
  }

  lemma UpLinear(x: int, y: int, k: int)
    ensures Up(x + y, k) == Up(x, k) + Up(y, k)
    ensures Up(x - y, k) == Up(x, k) - Up(y, k)
    ensures x <= y ==> Up(x, k) <= Up(y, k)
    ensures Up(0, k) == 0
  {
    if k < 0 {
      ScaleAdd(x, y, -k);
      ScaleAdd(x - y, y, -k);
      ScaleUnit(-k);
      if x <= y { ScaleMonotone(x, y, -k); }
    }
  }

  /** The number, diff below the top, is less than one unit of the last generated digit away from the
      digits: never above them by a unit, and never a unit below. */
  lemma DigitsAreClose(top: int, delta: int, diff: int, unit: int, digits: int)
    requires 0 <= diff <= delta && unit > 0
    requires !CanImprove(top - digits, delta, unit, diff) && CloseBelow(top - digits, unit, diff)
    requires top - delta <= digits <= top || digits <= top < digits + unit
    ensures digits - unit < top - diff < digits + unit
    ensures digits < top - delta ==> digits < top - diff
  {}

  /** A text accepted at the digit limit is the number rounded to nearest at its last digit: the digit
      cut off stands for less than half a unit of it. Where the limit cut outside the interval, the
      text is also not above the number. */
  lemma AcceptedIsRounded(s: seq<char>, maxDigits: int, upper: int, delta: int, diff: int, bits: nat,
                          count: nat, n: int, k: int, size: nat, exp: int)
    requires Generated(s, maxDigits, upper, delta, diff, bits, count, n, k, true, size, exp)
    requires count > maxDigits && 0 <= diff <= delta
    ensures size <= |s| && exp == k + 1
    ensures var p, number := Value(s[..size]), Up(upper, k) - Up(diff, k);
            && Weight(10 * p - 1, k, bits) < number < Weight(10 * p + 5, k, bits)
            && (!Inside(n, k, upper, delta, bits) ==> Weight(10 * p, k, bits) <= number)
  {
    var p := Value(s[..size]);
    assert 10 * p <= n <= 10 * p + 4;
    WeightGrows(n, n + 1, k, bits);
    WeightGrows(10 * p - 1, n - 1, k, bits);
    WeightGrows(n + 1, 10 * p + 5, k, bits);
    WeightGrows(10 * p, n, k, bits);
    UpLinear(diff, delta, k);
    UpLinear(0, diff, k);
    DigitsAreClose(Up(upper, k), Up(delta, k), Up(diff, k), Weight(1, k, bits), Weight(n, k, bits));
  }

  /** With a unit of error on either side of the number, and the interval known to hold it: the same
      bound of one digit unit, as long as the error is at most half of that. */
  lemma DigitsAreCloseWithError(top: int, delta: int, diff: int, unit: int, digits: int, error: int)
    requires 0 <= diff <= delta && 0 < 2 * error <= unit
    requires !CanImprove(top - digits, delta, unit, diff) && CloseBelow(top - digits, unit, diff)
    requires top - delta <= digits <= top || digits <= top < digits + unit
    ensures top - diff + error <= digits + unit || top <= digits + unit
    ensures digits - unit <= top - diff - error || digits - unit <= top - delta
  {}

  lemma ErrorFits(k: int, bits: nat)
    requires k >= -9 && bits >= 32
    ensures 0 < 2 * Up(1, k) <= Weight(1, k, bits)
  {
    if k >= 0 {
      ScaleUnit(k);
      Pow10Monotone(0, k);
      ShlMonotone(1, Pow10(k), bits);
    } else {
      ScaleUnit(-k);
      Pow10Monotone(-k, 9);
      Pow10Literals();
      Pow10Positive(-k);
    }
    ShlLinear(1, 0, bits);
    Pow2Monotone(32, bits);
    Pow2Literals();
  }

  lemma Pow10Positive(k: nat)
    ensures Pow10(k) > 0
  {}

  /** The number, known within one unit of the scaled interval, lies within one unit of the last
      generated digit of the digits. */
  lemma GeneratedIsClose(s: seq<char>, maxDigits: int, upper: int, delta: int, diff: int, bits: nat,
                         count: nat, n: int, k: int, ok: bool, size: nat, exp: int)
    requires Generated(s, maxDigits, upper, delta, diff, bits, count, n, k, ok, size, exp)
    requires 0 <= diff <= delta && k >= -9 && bits >= 32
    ensures Up(upper - diff + 1, k) <= Weight(n + 1, k, bits) || Up(upper, k) <= Weight(n + 1, k, bits)
    ensures Weight(n - 1, k, bits) <= Up(upper - diff - 1, k) || Weight(n - 1, k, bits) <= Up(upper - delta, k)
  {
    WeightGrows(n, n, k, bits);
    UpLinear(diff, delta, k);
    UpLinear(0, diff, k);
    UpLinear(upper, diff, k);
    UpLinear(upper, delta, k);
    UpLinear(upper - diff, 1, k);
    ErrorFits(k, bits);
    DigitsAreCloseWithError(Up(upper, k), Up(delta, k), Up(diff, k), Weight(1, k, bits), Weight(n, k, bits), Up(1, k));
  }

  // ---------------------------------------------------------------- when the limit cuts

  /** The digit limit is reached with the top still outside the interval. */
  ghost predicate CutShort(upper: int, delta: int, bits: nat, maxDigits: int) {
    && upper >= 0
    && var k := NumDigits(Shr(upper, bits)) - Larger(maxDigits, 0);
       OutsideAt(upper, delta, k, bits) && (k < 0 ==> Mask(upper, bits) > delta)
  }

  // One digit less: the whole part at the next higher exponent.
  lemma OneDigitLess(v: int, k: int, upper: int, bits: nat) returns (w: int)
    requires Truncated(v, k, upper, bits)
    ensures Truncated(w, k + 1, upper, bits)
    ensures k < 0 ==> 10 * (Up(upper, k + 1) - Weight(w, k + 1, bits)) >= Up(upper, k) - Weight(v, k, bits)
    ensures k >= 0 ==> Up(upper, k + 1) - Weight(w, k + 1, bits) >= Up(upper, k) - Weight(v, k, bits)
  {
    w := v / 10;
    TenWeight(w, k, bits);
    TenWeight(w + 1, k, bits);
    WeightMonotone(10 * w, v, k, bits);
    WeightMonotone(v + 1, 10 * w + 10, k, bits);
    if k < -1 { assert Up(upper, k) == 10 * Up(upper, k + 1); }
    if k == -1 { assert Up(upper, k) == 10 * upper by { assert Scale(upper, 1) == 10 * upper; } }
  }

  lemma TenWeight(w: int, k: int, bits: nat)
    ensures Weight(10 * w, k, bits) == if k >= 0 then Weight(w, k + 1, bits) else 10 * Weight(w, k + 1, bits)
  {
    if k >= 0 {
      ScaleMul(10, w, k);
    } else {
      ShlLinear(w, 0, bits);
      assert k == -1 ==> Scale(w, 0) == w;
    }
  }

  /** Once inside the interval, always inside: outside now means outside one digit earlier. */
  lemma OutsideEarlier(upper: int, delta: int, k: int, bits: nat)
    requires OutsideAt(upper, delta, k, bits) && k != -1
    ensures OutsideAt(upper, delta, k + 1, bits)
  {
    var v :| Truncated(v, k, upper, bits) && Beyond(Up(upper, k) - Weight(v, k, bits), delta, k);
    var w := OneDigitLess(v, k, upper, bits);
    if k < 0 { assert Up(delta, k) == 10 * Up(delta, k + 1); }
  }

  lemma {:induction false} OutsideUpTo(upper: int, delta: int, k: int, top: int, bits: nat)
    requires OutsideAt(upper, delta, k, bits) && k <= top && (k < 0 ==> top < 0)
    ensures OutsideAt(upper, delta, top, bits)
    decreases top - k
  {
    if k < top {
      OutsideEarlier(upper, delta, k, bits);
      OutsideUpTo(upper, delta, k + 1, top, bits);
    }
  }

  // At exponent 0 the remainder is the fraction.
  lemma OutsideAtPoint(upper: nat, delta: int, bits: nat)
    requires Mask(upper, bits) > delta
    ensures OutsideAt(upper, delta, 0, bits)
  {
    ShrMask(upper, bits);
    ShlLinear(1, 0, bits);
    assert Scale(1, 0) == 1 && Scale(Shr(upper, bits), 0) == Shr(upper, bits);
    OutsideByRemainder(Shr(upper, bits), Mask(upper, bits), upper, delta, 0, bits);
  }

  lemma CutOutside(upper: nat, delta: int, bits: nat, maxDigits: int, k: int)
    requires CutShort(upper, delta, bits, maxDigits) && NumDigits(Shr(upper, bits)) - Larger(maxDigits, 0) <= k
    ensures OutsideAt(upper, delta, k, bits)
  {
    var low := NumDigits(Shr(upper, bits)) - Larger(maxDigits, 0);
    if low < 0 <= k {
      OutsideAtPoint(upper, delta, bits);
      OutsideUpTo(upper, delta, 0, k, bits);
    } else {
      OutsideUpTo(upper, delta, low, k, bits);
    }
  }

  /** More digits than the limit are generated exactly when the limit cuts the digits short. */
  lemma CutIsKnown(s: seq<char>, maxDigits: int, upper: int, delta: int, diff: int, bits: nat,
                   count: nat, n: int, k: int, ok: bool, size: nat, exp: int)
    requires Generated(s, maxDigits, upper, delta, diff, bits, count, n, k, ok, size, exp)
    ensures count > maxDigits <==> CutShort(upper, delta, bits, maxDigits)
    ensures count > maxDigits ==> size == Larger(maxDigits, 0)
  {
    if count <= maxDigits && CutShort(upper, delta, bits, maxDigits) {
      CutOutside(upper, delta, bits, maxDigits, k);
    }
  }

  // ---------------------------------------------------------------- seventeen digits are enough

  /** With an interval wider than 10^-16 of the top, and at most ten digits in the whole part, a limit of 17
      digits never cuts. */
  lemma NeverCutAt17(upper: nat, delta: nat, bits: nat, maxDigits: int)
    requires upper < 10000000000000000 * delta && 0 < Shr(upper, bits) < 0x1_0000_0000 && maxDigits >= 17
    ensures !CutShort(upper, delta, bits, maxDigits)
  {
    var hi := Shr(upper, bits);
    var m := maxDigits - NumDigits(hi);
    AtMostTen(hi);
    if CutShort(upper, delta, bits, maxDigits) {
      var v :| Truncated(v, -m, upper, bits) && Beyond(Up(upper, -m) - Weight(v, -m, bits), delta, -m);
      WeightAdd(v, 1, -m, bits);
      assert Scale(delta, m) < Shl(1, bits);
      HighDigitsWeigh(hi, m, maxDigits);
      ShrMask(upper, bits);
      TopScaled(upper, hi, m, bits);
      TooNarrow(upper, delta, m, Shl(1, bits));
    }
  }

  // The whole part shifted by m decimal places has at least 17 digits.
  lemma HighDigitsWeigh(hi: nat, m: nat, maxDigits: int)
    requires hi > 0 && m + NumDigits(hi) == maxDigits >= 17
    ensures Scale(hi, m) >= 10000000000000000
  {
    NumDigitsBounds(hi);
    ScaleMonotone(Pow10(NumDigits(hi) - 1), hi, m);
    ScaleUnit(NumDigits(hi) - 1);
    ScaleScale(1, NumDigits(hi) - 1, m);
    ScaleUnit(maxDigits - 1);
    Pow10Monotone(16, maxDigits - 1);
    Pow10Literals();
    assert Pow10(13) == 10000000000000;
    assert Pow10(16) == 10000000000000000;
  }

  lemma TopScaled(upper: nat, hi: nat, m: nat, bits: nat)
    requires Shl(hi, bits) <= upper && Scale(hi, m) >= 10000000000000000
    ensures Scale(upper, m) >= 10000000000000000 * Shl(1, bits)
  {
    ScaleMonotone(Shl(hi, bits), upper, m);
    ScaleShl(hi, m, bits);
    ShlMonotone(10000000000000000, Scale(hi, m), bits);
    ShlTimes(10000000000000000, bits);
  }

  lemma {:induction false} ScaleShl(x: int, m: nat, bits: nat)
    ensures Scale(Shl(x, bits), m) == Shl(Scale(x, m), bits)
  {
    if m > 0 {
      ScaleShl(x, m - 1, bits);
      ShlLinear(Scale(x, m - 1), 0, bits);
    }
  }

  lemma {:induction false} ShlTimes(x: int, bits: nat)
    ensures Shl(x, bits) == x * Shl(1, bits)
  {
    if bits > 0 { ShlTimes(x, bits - 1); }
  }

  lemma TooNarrow(upper: nat, delta: nat, m: nat, unit: int)
    requires Scale(delta, m) < unit && Scale(upper, m) >= 10000000000000000 * unit
    ensures upper >= 10000000000000000 * delta
  {
    ScaleMul(10000000000000000, delta, m);
    if upper < 10000000000000000 * delta { ScaleMonotone(upper, 10000000000000000 * delta, m); }
  }
}
