/** Digit generation: the decimal digits of the top of the safe interval, cut as early as possible and
    then moved towards the number itself. */
module GrisuDigits {
  import opened Decimal
  import opened Words

  // ---------------------------------------------------------------- arithmetic on scaled integers

  // x >> s, and x & (2^s - 1).
  function Shr(x: nat, s: nat): nat {
    if s == 0 then x else Shr(x / 2, s - 1)
  }

  function Mask(x: nat, s: nat): nat {
    if s == 0 then 0 else 2 * Mask(x / 2, s - 1) + x % 2
  }

  lemma {:induction false} ShrMask(x: nat, s: nat)
    ensures x == Shl(Shr(x, s), s) + Mask(x, s) && Mask(x, s) < Pow2(s)
  {
    if s > 0 {
      ShrMask(x / 2, s - 1);
    }
  }

  // The two parts are determined by their sum.
  lemma {:induction false} SplitIs(x: nat, s: nat, high: nat, low: nat)
    requires x == Shl(high, s) + low && low < Pow2(s)
    ensures Shr(x, s) == high && Mask(x, s) == low
  {
    ShrMask(x, s);
    if Shr(x, s) < high {
      ShlMonotone(Shr(x, s), high, s);
    } else if high < Shr(x, s) {
      ShlMonotone(high, Shr(x, s), s);
    }
  }

  /** unit added up d times. */
  function Times(d: nat, unit: int): int {
    if d == 0 then 0 else unit + Times(d - 1, unit)
  }

  /** What the digits n weigh at decimal exponent k when one stands for 2^s; below exponent 0 the whole
      computation has been multiplied by 10^-k instead. */
  function Weight(n: int, k: int, s: nat): int {
    if k >= 0 then Shl(Scale(n, k), s) else Shl(n, s)
  }

  function Up(x: int, k: int): int {
    if k >= 0 then x else Scale(x, -k)
  }

  lemma WeightAdd(m: int, n: int, k: int, s: nat)
    ensures Weight(m + n, k, s) == Weight(m, k, s) + Weight(n, k, s)
    ensures Weight(0, k, s) == 0
  {
    if k >= 0 {
      ScaleAdd(m, n, k);
      ScaleUnit(k);
      ShlLinear(Scale(m, k), Scale(n, k), s);
    } else {
      ShlLinear(m, n, s);
    }
  }

  lemma {:induction false} TimesWeight(d: nat, k: int, s: nat, unit: int)
    requires unit == Weight(1, k, s)
    ensures Times(d, unit) == Weight(d, k, s)
  {
    WeightAdd(d - 1, 1, k, s);
    if d > 0 {
      TimesWeight(d - 1, k, s, unit);
    }
  }

  // ---------------------------------------------------------------- rounding

  /** Lowering the last digit once more stays in the interval and gets closer to the number. */
  predicate CanImprove(remainder: int, delta: int, unit: int, diff: int) {
    remainder < diff && delta - remainder >= unit
    && (remainder + unit < diff || diff - remainder > remainder + unit - diff)
  }

  function Distance(a: int, b: int): int {
    if a < b then b - a else a - b
  }

  /** The digits left after rounding: all of n, or n without a last digit, accepted if that one is small. */
  ghost predicate Finished(s: seq<char>, size0: nat, maxDigits: int, exp0: int, n: int, ok: bool, size: nat, exp: int) {
    if size0 <= maxDigits then
      ok && size == size0 <= |s| && exp == exp0 && AllDigits(s[..size]) && Value(s[..size]) == n
    else
      size == size0 - 1 < |s| && exp == exp0 + 1 && AllDigits(s[..size]) && IsDigit(s[size])
      && 10 * Value(s[..size]) + DigitValue(s[size]) == n && (ok <==> DigitValue(s[size]) < 5)
  }

  lemma LastDigit(s: seq<char>, size: nat)
    requires 1 <= size <= |s|
    ensures Value(s[..size]) == 10 * Value(s[..size - 1]) + DigitValue(s[size - 1])
    ensures AllDigits(s[..size]) <==> AllDigits(s[..size - 1]) && IsDigit(s[size - 1])
  {
    assert s[..size] == s[..size - 1] + [s[size - 1]];
    ValueAppend(s[..size - 1], s[size - 1]);
    assert s[..size][size - 1] == s[size - 1];
    assert forall i :: 0 <= i < size - 1 ==> s[..size][i] == s[..size - 1][i];
  }

  // The loop's state: the last digit has gone down by taken.
  ghost predicate Lowered(s: seq<char>, before: seq<char>, size: nat, taken: nat, remainder: nat, remainder0: nat,
                          unit: nat) {
    && 1 <= size <= |before| && |s| == |before| && s[..size - 1] == before[..size - 1]
    && IsDigit(s[size - 1]) && DigitValue(s[size - 1]) + taken == DigitValue(before[size - 1])
    && remainder == remainder0 + Times(taken, unit)
  }

  lemma LowerOnce(s: seq<char>, before: seq<char>, size: nat, taken: nat, remainder: nat, remainder0: nat, unit: nat,
                  delta: nat)
    requires Lowered(s, before, size, taken, remainder, remainder0, unit)
    requires IsDigit(before[size - 1]) && unit > 0 && remainder + unit <= delta
    requires delta <= remainder0 + Times(DigitValue(before[size - 1]), unit)
    ensures DigitValue(s[size - 1]) >= 1
    ensures Lowered(s[size - 1 := DigitChar(DigitValue(s[size - 1]) - 1)], before, size, taken + 1, remainder + unit,
                    remainder0, unit)
  {
    if DigitValue(s[size - 1]) == 0 {
      assert false;
    }
  }

  /** grisu2_round. The last digit never goes below 0, no subtraction wraps, the remainder stays within
      delta, and on exit lowering the digit again would not help. */
  method Round(buf: array<char>, size0: nat, maxDigits: int, delta: nat, remainder0: nat, unit: nat, diff: nat,
               exp0: int)
      returns (ok: bool, size: nat, exp: int, ghost n: int, ghost remainder: nat)
    requires 1 <= size0 <= buf.Length && AllDigits(buf[..size0])
    requires 0 < unit < 0x1_0000_0000_0000_0000 && remainder0 < 0x1_0000_0000_0000_0000
    requires diff <= delta < 0x1_0000_0000_0000_0000
    requires delta <= remainder0 + Times(DigitValue(buf[size0 - 1]), unit)
    modifies buf
    ensures Finished(buf[..], size0, maxDigits, exp0, n, ok, size, exp)
    ensures n <= Value(old(buf[..size0])) && remainder == remainder0 + Times(Value(old(buf[..size0])) - n, unit)
    ensures remainder == remainder0 || (remainder <= delta && 2 * (remainder - diff) < unit)
    ensures !CanImprove(remainder, delta, unit, diff)
    ensures Distance(remainder, diff) <= Distance(remainder0, diff)
  {
    ghost var before := buf[..];
    ghost var taken := 0;
    var rem := remainder0;
    LastDigit(before, size0);
    assert before[..size0] == buf[..size0];
    while rem < diff && delta - rem >= unit && (rem + unit < diff || diff - rem > rem + unit - diff)
      invariant Lowered(buf[..], before, size0, taken, rem, remainder0, unit)
      invariant rem == remainder0 || (rem <= delta && 2 * (rem - diff) < unit)
      invariant Distance(rem, diff) <= Distance(remainder0, diff)
      decreases delta - rem
    {
      LowerOnce(buf[..], before, size0, taken, rem, remainder0, unit, delta);
      buf[size0 - 1] := DigitChar(DigitValue(buf[size0 - 1]) - 1);
      rem := rem + unit;
      taken := taken + 1;
    }
    remainder := rem;
    LastDigit(buf[..], size0);
    n := Value(buf[..][..size0]);
    size, exp, ok := size0, exp0, true;
    if size > maxDigits {
      size := size - 1;
      exp := exp + 1;
      ok := buf[size] < '5';
    }
  }

  // ---------------------------------------------------------------- what generation promises

  /** n at exponent k lies between the top of the interval and the top less delta. */
  ghost predicate Inside(n: int, k: int, upper: int, delta: int, s: nat) {
    Up(upper, k) - Up(delta, k) <= Weight(n, k, s) <= Up(upper, k)
  }

  /** n is the whole part of the top at exponent k: what is left when the digits ran out first. */
  ghost predicate Truncated(n: int, k: int, upper: int, s: nat) {
    Weight(n, k, s) <= Up(upper, k) < Weight(n + 1, k, s)
  }

  datatype Outcome = Ended(ok: bool) | TableOverrun

  /** The state in which generation ends: n digits-worth at exponent k, inside the interval unless the
      digit limit cut first, as close to the number as the interval allows, and laid out in the buffer. */
  ghost predicate GeneratedAt(s: seq<char>, maxDigits: int, upper: int, delta: int, diff: int, bits: nat,
                            count: nat, n: int, k: int, ok: bool, size: nat, exp: int) {
    && Finished(s, count, maxDigits, k, n, ok, size, exp)
    && (Inside(n, k, upper, delta, bits) || (count > maxDigits && Truncated(n, k, upper, bits)))
    && !CanImprove(Up(upper, k) - Weight(n, k, bits), Up(delta, k), Weight(1, k, bits), Up(diff, k))
    && CloseBelow(Up(upper, k) - Weight(n, k, bits), Weight(1, k, bits), Up(diff, k))
  }

  /** The digits are less than a unit below the top, or have been lowered to within half a unit of the number. */
  predicate CloseBelow(remainder: int, unit: int, diff: int) {
    remainder < unit || 2 * (remainder - diff) < unit
  }

  /** The whole part of the top at exponent k is more than delta below the top; below exponent 0 the code
      lets the difference be delta itself. */
  ghost predicate OutsideAt(upper: int, delta: int, k: int, bits: nat) {
    exists v :: Truncated(v, k, upper, bits) && Beyond(Up(upper, k) - Weight(v, k, bits), delta, k)
  }

  predicate Beyond(remainder: int, delta: int, k: int) {
    if k >= 0 then remainder > delta else remainder >= Up(delta, k)
  }

  function Larger(a: int, b: int): int {
    if a < b then b else a
  }

  /** The digits stop as early as possible: one digit earlier the top was still outside the interval, and now it
      is inside, or the digit limit is reached. Each digit makes the exponent one less. */
  ghost predicate Earliest(upper: int, delta: int, bits: nat, count: nat, k: int, maxDigits: int) {
    && upper >= 0 && 1 <= count <= Larger(maxDigits, 0) + 1 && count + k == NumDigits(Shr(upper, bits))
    && OutsideAt(upper, delta, k + 1, bits) && (k < 0 ==> Mask(upper, bits) > delta)
    && (count <= maxDigits ==> !OutsideAt(upper, delta, k, bits))
  }

  /** What generation promises: digits that stop as early as possible, rounded and laid out. */
  ghost predicate Generated(s: seq<char>, maxDigits: int, upper: int, delta: int, diff: int, bits: nat,
                            count: nat, n: int, k: int, ok: bool, size: nat, exp: int) {
    && GeneratedAt(s, maxDigits, upper, delta, diff, bits, count, n, k, ok, size, exp)
    && Earliest(upper, delta, bits, count, k, maxDigits)
  }

  // Only one number is the whole part.
  lemma TruncatedIsOnly(v: int, w: int, k: int, upper: int, bits: nat)
    requires Truncated(v, k, upper, bits) && Truncated(w, k, upper, bits)
    ensures v == w
  {
    if v < w {
      WeightMonotone(v + 1, w, k, bits);
    } else if w < v {
      WeightMonotone(w + 1, v, k, bits);
    }
  }

  lemma WeightMonotone(a: int, b: int, k: int, s: nat)
    requires a <= b
    ensures Weight(a, k, s) <= Weight(b, k, s)
  {
    if k >= 0 {
      ScaleMonotone(a, b, k);
      ShlMonotone(Scale(a, k), Scale(b, k), s);
    } else {
      ShlMonotone(a, b, s);
    }
  }

  // The remainder of the digits so far decides whether the top is outside.
  lemma OutsideByRemainder(v: int, remainder: int, upper: int, delta: int, k: int, bits: nat)
    requires Weight(v, k, bits) + remainder == Up(upper, k) && 0 <= remainder < Weight(1, k, bits)
    ensures OutsideAt(upper, delta, k, bits) <==> Beyond(remainder, delta, k)
  {
    WeightAdd(v, 1, k, bits);
    assert Truncated(v, k, upper, bits);
    if w :| Truncated(w, k, upper, bits) && Beyond(Up(upper, k) - Weight(w, k, bits), delta, k) {
      TruncatedIsOnly(v, w, k, upper, bits);
    }
  }

  // From the remainder bookkeeping of the rounding step to the statement about the interval.
  lemma RoundedIsGenerated(s: seq<char>, maxDigits: int, upper: int, delta: int, diff: int, bits: nat, count: nat,
                           before: int, n: int, k: int, ok: bool, size: nat, exp: int, remainder0: nat, remainder: nat)
    requires Finished(s, count, maxDigits, k, n, ok, size, exp) && n <= before
    requires Weight(1, k, bits) >= 0 && remainder == remainder0 + Times(before - n, Weight(1, k, bits))
    requires Weight(before, k, bits) + remainder0 == Up(upper, k)
    requires remainder0 < Weight(1, k, bits) && (remainder0 <= Up(delta, k) || count > maxDigits)
    requires remainder == remainder0
             || (remainder <= Up(delta, k) && 2 * (remainder - Up(diff, k)) < Weight(1, k, bits))
    requires !CanImprove(remainder, Up(delta, k), Weight(1, k, bits), Up(diff, k))
    ensures GeneratedAt(s, maxDigits, upper, delta, diff, bits, count, n, k, ok, size, exp)
  {
    TimesWeight(before - n, k, bits, Weight(1, k, bits));
    WeightAdd(n, before - n, k, bits);
    WeightAdd(n, 1, k, bits);
  }

  // ---------------------------------------------------------------- the whole part

  /** The switch: the top digit of hi, with a constant divisor in each case. */
  method SplitTop(hi: nat, exp: int) returns (digit: nat, rest: nat)
    requires 1 <= exp <= 10
    ensures rest < PowerTable(exp - 1) && hi == Product(PowerTable(exp - 1), digit) + rest
  {
    match exp
    case 10 => digit, rest := hi / 1000000000, hi % 1000000000;
    case 9 => digit, rest := hi / 100000000, hi % 100000000;
    case 8 => digit, rest := hi / 10000000, hi % 10000000;
    case 7 => digit, rest := hi / 1000000, hi % 1000000;
    case 6 => digit, rest := hi / 100000, hi % 100000;
    case 5 => digit, rest := hi / 10000, hi % 10000;
    case 4 => digit, rest := hi / 1000, hi % 1000;
    case 3 => digit, rest := hi / 100, hi % 100;
    case 2 => digit, rest := hi / 10, hi % 10;
    case _ => digit, rest := hi, 0;
  }

  /** That digit is a decimal digit, and the rest has one digit less. */
  lemma SplitBy(hi: nat, k: nat, digit: nat, rest: nat)
    requires k <= 9 && hi < Pow10(k + 1) && hi == Product(PowerTable(k), digit) + rest && rest < PowerTable(k)
    ensures digit < 10 && rest < Pow10(k) && Scale(digit, k) + rest == hi
  {
    var p := PowerTable(k);
    PowerIs(k);
    ScaleProduct(digit, k);
    TenTimes(p, digit);
  }

  lemma TenTimes(p: nat, digit: nat)
    ensures digit >= 10 ==> Product(p, digit) >= 10 * p
  {
    if digit >= 10 { assert p * digit >= p * 10; }
  }

  lemma ScaleProduct(x: nat, k: nat)
    requires k <= 9
    ensures Product(PowerTable(k), x) == Scale(x, k)
  {
    assert PowerTable(k) == Pow10(k) by {
      PowerIs(k);
    }
    assert Scale(x, k) == x * Pow10(k) by {
      ScaleMul(x, 1, k);
      ScaleUnit(k);
      assert x * 1 == x;
    }
  }

  // POWERS_OF_10_32: ten entries.
  function PowerTable(k: nat): nat
    requires k <= 9
  {
    match k
    case 0 => 1
    case 1 => 10
    case 2 => 100
    case 3 => 1000
    case 4 => 10000
    case 5 => 100000
    case 6 => 1000000
    case 7 => 10000000
    case 8 => 100000000
    case _ => 1000000000
  }

  lemma PowerIs(k: nat)
    requires k <= 9
    ensures PowerTable(k) == Pow10(k)
  {
    Pow10Literals();
  }

  // The digits so far and what is left of the whole part.
  ghost predicate HighState(s: seq<char>, size: nat, hi0: nat, hi: nat, exp: nat) {
    && size <= |s| && AllDigits(s[..size]) && hi < Pow10(exp)
    && Scale(Value(s[..size]), exp) + hi == hi0
  }

  lemma PutDigit(s: seq<char>, size: nat, digit: nat)
    requires size < |s| && digit < 10 && AllDigits(s[..size])
    ensures var t := s[size := DigitChar(digit)];
            AllDigits(t[..size + 1]) && Value(t[..size + 1]) == 10 * Value(s[..size]) + digit
  {
    var t := s[size := DigitChar(digit)];
    assert t[..size] == s[..size];
    LastDigit(t, size + 1);
  }

  lemma HighStep(s: seq<char>, size: nat, hi0: nat, hi: nat, exp: nat, digit: nat, rest: nat)
    requires HighState(s, size, hi0, hi, exp) && exp >= 1 && size < |s|
    requires digit < 10 && rest < Pow10(exp - 1) && Scale(digit, exp - 1) + rest == hi
    ensures HighState(s[size := DigitChar(digit)], size + 1, hi0, rest, exp - 1)
  {
    PutDigit(s, size, digit);
    var v := Value(s[..size]);
    ScaleAdd(10 * v, digit, exp - 1);
    ScaleMul(10, v, exp - 1);
  }

  // The first digit of a number of that many digits is not zero.
  lemma FirstDigit(hi: nat, digit: nat, rest: nat)
    requires hi > 0 && Scale(digit, NumDigits(hi) - 1) + rest == hi && rest < Pow10(NumDigits(hi) - 1)
    ensures digit > 0
  {
    NumDigitsBounds(hi);
    ScaleUnit(NumDigits(hi) - 1);
  }

  // The remainder in units of 2^-s, and the part of it that the digit just taken stood for.
  lemma HighRemainder(hi: nat, digit: nat, rest: nat, exp: nat, bits: nat, lo: nat)
    requires Scale(digit, exp) + rest == hi
    ensures Shl(hi, bits) + lo == Times(digit, Weight(1, exp, bits)) + (Shl(rest, bits) + lo)
    ensures Weight(1, exp, bits) == Shl(Pow10(exp), bits) > 0
  {
    assert Shl(hi, bits) == Shl(Scale(digit, exp), bits) + Shl(rest, bits) by {
      ShlLinear(Scale(digit, exp), rest, bits);
    }
    assert Weight(1, exp, bits) == Shl(Pow10(exp), bits) > 0 by {
      UnitWeight(exp, bits);
    }
    assert Times(digit, Weight(1, exp, bits)) == Shl(Scale(digit, exp), bits) by {
      TimesWeight(digit, exp, bits, Weight(1, exp, bits));
    }
  }

  lemma UnitWeight(exp: nat, bits: nat)
    ensures Weight(1, exp, bits) == Shl(Pow10(exp), bits) > 0
  {
    ScaleUnit(exp);
    ShlMonotone(0, Pow10(exp), bits);
    ShlLinear(0, 0, bits);
  }

  lemma HighTotal(v: int, rest: nat, exp: nat, bits: nat, hi0: nat, lo: nat)
    requires Scale(v, exp) + rest == hi0 && rest < Pow10(exp) && lo < Pow2(bits)
    ensures Weight(v, exp, bits) + (Shl(rest, bits) + lo) == Shl(hi0, bits) + lo
    ensures Shl(rest, bits) + lo < Weight(1, exp, bits)
  {
    assert Shl(hi0, bits) == Shl(Scale(v, exp), bits) + Shl(rest, bits) by {
      ShlLinear(Scale(v, exp), rest, bits);
    }
    assert Shl(rest, bits) + Pow2(bits) <= Weight(1, exp, bits) by {
      UnitWeight(exp, bits);
      ShlMonotone(rest, Pow10(exp), bits);
    }
  }

  // ---------------------------------------------------------------- the two loops

  /** Leaving either loop: round, and state the result against the original interval. */
  method Finish(buf: array<char>, count: nat, maxDigits: int, delta: nat, remainder: nat, unit: nat, diff: nat, k: int,
                ghost upper: nat, ghost delta0: nat, ghost diff0: nat, ghost bits: nat)
      returns (ok: bool, size: nat, exp: int, ghost n: int)
    requires 1 <= count <= buf.Length && AllDigits(buf[..count]) && diff <= delta < 0x1_0000_0000_0000_0000
    requires 0 < unit == Weight(1, k, bits) < 0x1_0000_0000_0000_0000
    requires delta == Up(delta0, k) && diff == Up(diff0, k)
    requires Weight(Value(buf[..count]), k, bits) + remainder == Up(upper, k)
    requires remainder < unit && (remainder <= delta || count > maxDigits)
    requires delta <= remainder + Times(DigitValue(buf[count - 1]), unit)
    modifies buf
    ensures GeneratedAt(buf[..], maxDigits, upper, delta0, diff0, bits, count, n, k, ok, size, exp)
  {
    ghost var before := Value(buf[..count]);
    ghost var left;
    ok, size, exp, n, left := Round(buf, count, maxDigits, delta, remainder, unit, diff, k);
    RoundedIsGenerated(buf[..], maxDigits, upper, delta0, diff0, bits, count, before, n, k, ok, size, exp, remainder,
                       left);
  }

  // One digit of the whole part: what it leaves, and what it stood for.
  method TakeDigit(buf: array<char>, size: nat, hi0: nat, hi: nat, exp: nat, ghost bits: nat, ghost lo: nat)
      returns (rest: nat)
    requires 1 <= exp <= 10 && size + exp == NumDigits(hi0) && 0 < hi0 && size < buf.Length
    requires HighState(buf[..], size, hi0, hi, exp) && lo < Pow2(bits)
    modifies buf
    ensures HighState(buf[..], size + 1, hi0, rest, exp - 1)
    ensures Shl(hi, bits) + lo == Times(DigitValue(buf[size]), Weight(1, exp - 1, bits)) + (Shl(rest, bits) + lo)
    ensures Weight(Value(buf[..size + 1]), exp - 1, bits) + (Shl(rest, bits) + lo) == Shl(hi0, bits) + lo
    ensures 0 <= Shl(rest, bits) <= Shl(hi, bits) && Shl(rest, bits) + lo < Weight(1, exp - 1, bits)
  {
    ghost var s := buf[..];
    var digit;
    digit, rest := SplitTop(hi, exp);
    SplitBy(hi, exp - 1, digit, rest);
    HighStep(s, size, hi0, hi, exp, digit, rest);
    if size == 0 {
      assert buf[..0] == [];
      ScaleUnit(exp);
      FirstDigit(hi0, digit, rest);
    }
    assert digit != 0 || size != 0;
    buf[size] := DigitChar(digit);
    DigitTaken(Value(buf[..][..size + 1]), digit, rest, exp - 1, hi, hi0, bits, lo);
  }

  lemma DigitTaken(v: int, digit: nat, rest: nat, k: nat, hi: nat, hi0: nat, bits: nat, lo: nat)
    requires Scale(digit, k) + rest == hi && Scale(v, k) + rest == hi0 && rest < Pow10(k) && lo < Pow2(bits)
    ensures Shl(hi, bits) + lo == Times(digit, Weight(1, k, bits)) + (Shl(rest, bits) + lo)
    ensures Weight(v, k, bits) + (Shl(rest, bits) + lo) == Shl(hi0, bits) + lo
    ensures 0 <= Shl(rest, bits) <= Shl(hi, bits) && Shl(rest, bits) + lo < Weight(1, k, bits)
  {
    HighRemainder(hi, digit, rest, k, bits, lo);
    HighTotal(v, rest, k, bits, hi0, lo);
    RestIsLess(digit, rest, k, hi);
    ShlMonotone(rest, hi, bits);
    ShlMonotone(0, rest, bits);
    ShlLinear(0, 0, bits);
  }

  lemma RestIsLess(digit: nat, rest: nat, k: nat, hi: nat)
    requires Scale(digit, k) + rest == hi
    ensures rest <= hi
  {
    ScaleMonotone(0, digit, k);
    ScaleUnit(k);
  }

  // The unit of a digit of hi is no more than hi itself.
  lemma UnitFits(hi: nat, k: nat, bits: nat)
    requires hi > 0 && k < NumDigits(hi)
    ensures Weight(1, k, bits) <= Shl(hi, bits)
  {
    NumDigitsBounds(hi);
    Pow10Monotone(k, NumDigits(hi) - 1);
    UnitWeight(k, bits);
    ShlMonotone(Pow10(k), hi, bits);
  }

  // Leaving the loop over hi: one unit of the last digit is a power of ten shifted into place.
  method FinishHigh(buf: array<char>, count: nat, maxDigits: int, delta: nat, remainder: nat, bits: nat, diff: nat,
                    k: nat, ghost upper: nat)
      returns (ok: bool, size: nat, exp: int, ghost n: int)
    requires k <= 9 && 1 <= count <= buf.Length && AllDigits(buf[..count]) && diff <= delta < 0x1_0000_0000_0000_0000
    requires Weight(Value(buf[..count]), k, bits) + remainder == upper
    requires remainder < Weight(1, k, bits) < 0x1_0000_0000_0000_0000 && (remainder <= delta || count > maxDigits)
    requires delta <= remainder + Times(DigitValue(buf[count - 1]), Weight(1, k, bits))
    modifies buf
    ensures GeneratedAt(buf[..], maxDigits, upper, delta, diff, bits, count, n, k, ok, size, exp)
  {
    PowerIs(k);
    UnitWeight(k, bits);
    NoShiftWrap(PowerTable(k), bits);
    ok, size, exp, n := Finish(buf, count, maxDigits, delta, remainder, ShiftLeft(PowerTable(k), bits), diff, k,
                               upper, delta, diff, bits);
  }

  lemma HighStart(s: seq<char>, hi0: nat, exp0: nat)
    requires exp0 == NumDigits(hi0)
    ensures HighState(s, 0, hi0, hi0, exp0)
  {
    NumDigitsBounds(hi0);
    assert s[..0] == [];
    ScaleUnit(exp0);
  }

  // Before a digit is taken, the remainder is that of the digits so far.
  lemma HighOutside(s: seq<char>, size: nat, hi0: nat, hi: nat, exp: nat, bits: nat, lo: nat, delta: nat)
    requires HighState(s, size, hi0, hi, exp) && lo < Pow2(bits) && Shl(hi, bits) + lo > delta
    ensures OutsideAt(Shl(hi0, bits) + lo, delta, exp, bits)
  {
    HighTotal(Value(s[..size]), hi, exp, bits, hi0, lo);
    OutsideByRemainder(Value(s[..size]), Shl(hi, bits) + lo, Shl(hi0, bits) + lo, delta, exp, bits);
  }

  lemma HighEarliest(v: int, remainder: int, upper: nat, delta: nat, k: nat, bits: nat, count: nat, maxDigits: int)
    requires Weight(v, k, bits) + remainder == upper && 0 <= remainder < Weight(1, k, bits)
    requires count + k == NumDigits(Shr(upper, bits)) && 1 <= count <= Larger(maxDigits, 0) + 1
    requires OutsideAt(upper, delta, k + 1, bits) && (remainder <= delta || count > maxDigits)
    ensures Earliest(upper, delta, bits, count, k, maxDigits)
  {
    OutsideByRemainder(v, remainder, upper, delta, k, bits);
  }

  // The two halves of the remainder put together; the shift and the sum stay within 64 bits.
  method Joined(hi: nat, lo: nat, bits: nat) returns (remainder: nat)
    requires 0 <= Shl(hi, bits) && Shl(hi, bits) + lo < 0x1_0000_0000_0000_0000
    ensures remainder == Shl(hi, bits) + lo
  {
    NoShiftWrap(hi, bits);
    NoWrap(Shl(hi, bits) + lo);
    remainder := Wrap(ShiftLeft(hi, bits) + lo);
  }

  // Before a round of the loop over hi: the top is still outside the interval.
  ghost predicate HighLoop(s: seq<char>, size: nat, hi0: nat, hi: nat, exp: nat, bits: nat, lo: nat, delta: nat,
                           upper: nat) {
    && size + exp == NumDigits(hi0) <= 10 && 0 < hi0 && lo < Pow2(bits) && HighState(s, size, hi0, hi, exp)
    && 0 <= Shl(hi, bits) <= Shl(hi0, bits) && upper == Shl(hi0, bits) + lo < 0x1_0000_0000_0000_0000
    && delta < Shl(hi, bits) + lo
  }

  // After it: the remainder, less than the last digit's unit.
  ghost predicate HighRound(s: seq<char>, size: nat, k: nat, bits: nat, remainder: nat, delta: nat, upper: nat) {
    && 1 <= size <= |s| && k <= 9 && AllDigits(s[..size]) && size + k == NumDigits(Shr(upper, bits))
    && Weight(Value(s[..size]), k, bits) + remainder == upper
    && remainder < Weight(1, k, bits) < 0x1_0000_0000_0000_0000
    && delta <= remainder + Times(DigitValue(s[size - 1]), Weight(1, k, bits))
    && OutsideAt(upper, delta, k + 1, bits)
  }

  // One round of the loop over hi: a digit, and the remainder it leaves.
  method NextHigh(buf: array<char>, size: nat, hi0: nat, hi: nat, exp: nat, bits: nat, lo: nat,
                  ghost delta: nat, ghost upper: nat) returns (rest: nat, remainder: nat)
    requires 1 <= exp && size < buf.Length && HighLoop(buf[..], size, hi0, hi, exp, bits, lo, delta, upper)
    modifies buf
    ensures HighRound(buf[..], size + 1, exp - 1, bits, remainder, delta, upper)
    ensures remainder > delta ==> HighLoop(buf[..], size + 1, hi0, rest, exp - 1, bits, lo, delta, upper)
    ensures lo <= remainder && (exp == 1 ==> remainder == lo && rest == 0)
  {
    HighOutside(buf[..], size, hi0, hi, exp, bits, lo, delta);
    rest := TakeDigit(buf, size, hi0, hi, exp, bits, lo);
    UnitFits(hi0, exp - 1, bits);
    remainder := Joined(rest, lo, bits);
    SplitIs(upper, bits, hi0, lo);
    ShlLinear(0, 0, bits);
    assert buf[..][..size + 1] == buf[..size + 1];
  }

  // Leaving the loop inside the interval or at the digit limit.
  method EndHigh(buf: array<char>, count: nat, k: nat, bits: nat, remainder: nat, delta: nat, diff: nat,
                 maxDigits: int, ghost upper: nat)
      returns (ok: bool, size: nat, exp: int, ghost n: int)
    requires HighRound(buf[..], count, k, bits, remainder, delta, upper) && diff <= delta < 0x1_0000_0000_0000_0000
    requires count <= Larger(maxDigits, 0) + 1 && (remainder <= delta || count > maxDigits)
    modifies buf
    ensures Generated(buf[..], maxDigits, upper, delta, diff, bits, count, n, k, ok, size, exp)
  {
    assert buf[..][..count] == buf[..count];
    HighEarliest(Value(buf[..count]), remainder, upper, delta, k, bits, count, maxDigits);
    ok, size, exp, n := FinishHigh(buf, count, maxDigits, delta, remainder, bits, diff, k, upper);
  }

  /** The loop over hi: stops inside the interval or at the digit limit, or runs out of hi. A leading
      zero cannot occur, so every digit is stored. */
  method GenerateHigh(buf: array<char>, hi0: nat, lo: nat, exp0: nat, bits: nat, delta: nat, diff: nat, maxDigits: int,
                      ghost upper: nat)
      returns (done: bool, ok: bool, size: nat, exp: int, ghost count: nat, ghost n: int, ghost k: int)
    requires 0 < hi0 < 0x1_0000_0000 && exp0 == NumDigits(hi0) <= 10 && lo < Pow2(bits)
    requires upper == Shl(hi0, bits) + lo < 0x1_0000_0000_0000_0000
    requires diff <= delta < upper
    requires maxDigits < buf.Length && 0 < buf.Length
    modifies buf
    ensures done ==>
              0 <= k && Generated(buf[..], maxDigits, upper, delta, diff, bits, count, n, k, ok, size, exp)
    ensures !done ==> exp == 0 && size == exp0 <= maxDigits && lo > delta
                      && AllDigits(buf[..size]) && Value(buf[..size]) == hi0
    ensures done <==> maxDigits < exp0 || lo <= delta
  {
    var hi := hi0;
    size, exp, done, ok := 0, exp0, false, true;
    count, n, k := 0, 0, 0;
    HighStart(buf[..], hi0, exp0);
    ShlMonotone(0, hi0, bits);
    ShlLinear(0, 0, bits);
    while exp > 0
      invariant 0 <= exp && size + exp == exp0 && !done
      invariant size > 0 ==> size <= maxDigits
      invariant HighLoop(buf[..], size, hi0, hi, exp, bits, lo, delta, upper)
      decreases exp
    {
      var remainder;
      hi, remainder := NextHigh(buf, size, hi0, hi, exp, bits, lo, delta, upper);
      size := size + 1;
      exp := exp - 1;
      if remainder <= delta || size > maxDigits {
        count, k, done := size, exp, true;
        ok, size, exp, n := EndHigh(buf, size, exp, bits, remainder, delta, diff, maxDigits, upper);
        return;
      }
    }
    HighOver(buf[..], size, hi0, hi, bits, lo, delta, upper);
    assert buf[..][..size] == buf[..size];
  }

  lemma HighOver(s: seq<char>, size: nat, hi0: nat, hi: nat, bits: nat, lo: nat, delta: nat, upper: nat)
    requires HighLoop(s, size, hi0, hi, 0, bits, lo, delta, upper)
    ensures size <= |s| && AllDigits(s[..size]) && Value(s[..size]) == hi0 && lo > delta
  {
    ShlLinear(0, 0, bits);
  }

  /** What is left of the fraction after m more digits. */
  function Fraction(lo: nat, m: nat, bits: nat): nat {
    if m == 0 then lo else Mask(10 * Fraction(lo, m - 1, bits), bits)
  }

  /** The fraction is still outside the interval after m digits. */
  predicate StillOutside(lo: nat, delta: nat, m: nat, bits: nat) {
    Scale(delta, m) <= Fraction(lo, m, bits)
  }

  ghost predicate LowState(s: seq<char>, size: nat, lo: nat, delta: nat, m: nat, bits: nat, lo0: nat, delta0: nat,
                           upper: nat) {
    && size <= |s| && AllDigits(s[..size]) && lo < Pow2(bits)
    && lo == Fraction(lo0, m, bits) && delta == Scale(delta0, m)
    && Shl(Value(s[..size]), bits) + lo == Scale(upper, m)
  }

  // One digit of the fraction.
  lemma LowDigit(lo: nat, bits: nat)
    requires lo < Pow2(bits) && bits <= 60
    ensures 10 * lo < 0x1_0000_0000_0000_0000 && Shr(10 * lo, bits) < 10
    ensures 10 * lo == Shl(Shr(10 * lo, bits), bits) + Mask(10 * lo, bits) && Mask(10 * lo, bits) < Pow2(bits)
    ensures 10 * lo == Times(Shr(10 * lo, bits), Pow2(bits)) + Mask(10 * lo, bits)
  {
    var digit := Shr(10 * lo, bits);
    assert 10 * lo < 0x1_0000_0000_0000_0000 by {
      Pow2Monotone(bits, 60);
      Pow2Literals();
    }
    ShrMask(10 * lo, bits);
    if digit >= 10 {
      ShlMonotone(10, digit, bits);
      ShlLinear(1, 0, bits);
    }
    assert Times(digit, Pow2(bits)) == Shl(digit, bits) by {
      LowUnit(bits, -1);
      TimesWeight(digit, -1, bits, Pow2(bits));
    }
  }

  lemma LowStep(s: seq<char>, size: nat, lo: nat, delta: nat, m: nat, bits: nat, lo0: nat, delta0: nat, upper: nat)
    requires LowState(s, size, lo, delta, m, bits, lo0, delta0, upper) && size < |s| && bits <= 60
    requires Shr(10 * lo, bits) < 10
    ensures LowState(s[size := DigitChar(Shr(10 * lo, bits))], size + 1, Mask(10 * lo, bits), 10 * delta, m + 1, bits,
                     lo0, delta0, upper)
  {
    var digit, v := Shr(10 * lo, bits), Value(s[..size]);
    LowDigit(lo, bits);
    PutDigit(s, size, digit);
    assert Shl(10 * v + digit, bits) == 10 * Shl(v, bits) + Shl(digit, bits) by {
      ShlLinear(v, 0, bits);
      ShlLinear(10 * v, digit, bits);
    }
  }

  lemma LowUnit(bits: nat, k: int)
    requires k < 0
    ensures Weight(1, k, bits) == Pow2(bits)
  {
    ShlLinear(1, 0, bits);
  }

  lemma UnitOne(bits: nat)
    requires bits <= 60
    ensures 0 < Pow2(bits) < 0x1_0000_0000_0000_0000
  {
    Pow2Monotone(bits, 60);
    Pow2Literals();
  }

  // Leaving that loop: the number's distance is scaled through the table, which ends at ten entries.
  method FinishLow(buf: array<char>, count: nat, maxDigits: int, lo: nat, delta: nat, k: int, bits: nat,
                   ghost lo0: nat, ghost delta0: nat, diff: nat, ghost upper: nat)
      returns (r: Outcome, size: nat, exp: int, ghost n: int)
    requires 1 <= count && k < 0 && bits <= 60 && diff <= delta0 && delta < 0x1_0000_0000_0000_0000
    requires LowState(buf[..], count, lo, delta, -k, bits, lo0, delta0, upper)
    requires lo < delta || count > maxDigits
    requires delta <= lo + Times(DigitValue(buf[count - 1]), Pow2(bits))
    modifies buf
    ensures r.TableOverrun? <==> k < -9
    ensures r.Ended? ==> GeneratedAt(buf[..], maxDigits, upper, delta0, diff, bits, count, n, k, r.ok, size, exp)
  {
    if k < -9 {
      return TableOverrun, count, k, 0;
    }
    ScaleProduct(diff, -k);
    ScaleMonotone(diff, delta0, -k);
    LowUnit(bits, k);
    UnitOne(bits);
    NoWrap(Product(PowerTable(-k), diff));
    var ok;
    ok, size, exp, n := Finish(buf, count, maxDigits, delta, lo, Pow2(bits), Wrap(Product(PowerTable(-k), diff)), k,
                               upper, delta0, diff, bits);
    r := Ended(ok);
  }

  lemma LowRemainder(s: seq<char>, size: nat, lo: nat, delta: nat, k: int, bits: nat, lo0: nat, delta0: nat, upper: nat)
    requires k <= 0 && LowState(s, size, lo, delta, -k, bits, lo0, delta0, upper)
    ensures OutsideAt(upper, delta0, k, bits) <==> Beyond(lo, delta0, k)
    ensures k < 0 ==> delta == Up(delta0, k)
  {
    ShlLinear(1, 0, bits);
    ScaleUnit(0);
    OutsideByRemainder(Value(s[..size]), lo, upper, delta0, k, bits);
  }

  lemma LowOutside(s: seq<char>, size: nat, lo: nat, delta: nat, k: int, bits: nat, lo0: nat, delta0: nat, upper: nat)
    requires k <= 0 && LowState(s, size, lo, delta, -k, bits, lo0, delta0, upper) && delta <= lo && delta0 < lo0
    ensures OutsideAt(upper, delta0, k, bits)
  {
    LowRemainder(s, size, lo, delta, k, bits, lo0, delta0, upper);
  }

  lemma LowEarliest(s: seq<char>, count: nat, lo: nat, delta: nat, k: int, bits: nat, lo0: nat, delta0: nat,
                    upper: nat, maxDigits: int)
    requires k < 0 && LowState(s, count, lo, delta, -k, bits, lo0, delta0, upper)
    requires lo0 == Mask(upper, bits) && delta0 < lo0
    requires count + k == NumDigits(Shr(upper, bits)) && 1 <= count <= Larger(maxDigits, 0) + 1
    requires OutsideAt(upper, delta0, k + 1, bits) && (lo < delta || count > maxDigits)
    ensures Earliest(upper, delta0, bits, count, k, maxDigits)
  {
    LowRemainder(s, count, lo, delta, k, bits, lo0, delta0, upper);
  }

  // One round of the loop over lo: the next digit, and what is left of the fraction.
  method NextLow(buf: array<char>, size: nat, lo: nat, delta: nat, ghost k: int, bits: nat,
                 ghost lo0: nat, ghost delta0: nat, ghost upper: nat) returns (rest: nat, wider: nat)
    requires size < buf.Length && bits <= 60 && k <= 0 && delta <= lo && delta0 < lo0
    requires LowState(buf[..], size, lo, delta, -k, bits, lo0, delta0, upper)
    modifies buf
    ensures LowState(buf[..], size + 1, rest, wider, 1 - k, bits, lo0, delta0, upper)
    ensures wider < 0x1_0000_0000_0000_0000 && wider <= rest + Times(DigitValue(buf[size]), Pow2(bits))
    ensures OutsideAt(upper, delta0, k, bits) && (StillOutside(lo0, delta0, 1 - k, bits) <==> wider <= rest)
  {
    LowOutside(buf[..], size, lo, delta, k, bits, lo0, delta0, upper);
    LowDigit(lo, bits);
    LowStep(buf[..], size, lo, delta, -k, bits, lo0, delta0, upper);
    NoWrap(lo * 10);
    NoWrap(delta * 10);
    var more := Wrap(lo * 10);
    wider := Wrap(delta * 10);
    buf[size] := DigitChar(Shr(more, bits));
    rest := Mask(more, bits);
  }

  // Leaving the loop inside the interval or at the digit limit.
  method EndLow(buf: array<char>, count: nat, lo: nat, delta: nat, k: int, bits: nat, ghost lo0: nat, delta0: nat,
                diff: nat, maxDigits: int, ghost upper: nat)
      returns (r: Outcome, size: nat, exp: int, ghost n: int)
    requires k < 0 && bits <= 60 && diff <= delta0 < lo0 && delta < 0x1_0000_0000_0000_0000
    requires LowState(buf[..], count, lo, delta, -k, bits, lo0, delta0, upper) && lo0 == Mask(upper, bits)
    requires count + k == NumDigits(Shr(upper, bits)) && 1 <= count <= Larger(maxDigits, 0) + 1
    requires OutsideAt(upper, delta0, k + 1, bits) && (lo < delta || count > maxDigits)
    requires delta <= lo + Times(DigitValue(buf[count - 1]), Pow2(bits))
    modifies buf
    ensures r.TableOverrun? <==> k < -9
    ensures r.Ended? ==> Generated(buf[..], maxDigits, upper, delta0, diff, bits, count, n, k, r.ok, size, exp)
  {
    LowEarliest(buf[..], count, lo, delta, k, bits, lo0, delta0, upper, maxDigits);
    r, size, exp, n := FinishLow(buf, count, maxDigits, lo, delta, k, bits, lo0, delta0, diff, upper);
  }

  // Every number of digits so far has left the fraction outside.
  ghost predicate AllOutside(lo: nat, delta: nat, m: nat, bits: nat) {
    forall j :: 1 <= j <= m ==> StillOutside(lo, delta, j, bits)
  }

  /** The loop over lo. The product with the power table is only defined for the first nine digits. */
  method GenerateLow(buf: array<char>, size0: nat, lo0: nat, bits: nat, delta0: nat, diff: nat, maxDigits: int,
                     ghost upper: nat)
      returns (r: Outcome, size: nat, exp: int, ghost count: nat, ghost n: int, ghost k: int)
    requires 1 <= size0 <= maxDigits < buf.Length && bits <= 60 && diff <= delta0 < lo0
    requires LowState(buf[..], size0, lo0, delta0, 0, bits, lo0, delta0, upper)
    requires size0 == NumDigits(Shr(upper, bits)) && lo0 == Mask(upper, bits)
    modifies buf
    ensures r.Ended? ==>
              -9 <= k < 0 && Generated(buf[..], maxDigits, upper, delta0, diff, bits, count, n, k, r.ok, size, exp)
    ensures r.TableOverrun?
            <==> size0 + 9 <= maxDigits && AllOutside(lo0, delta0, 9, bits)
  {
    var lo, delta := lo0, delta0;
    size, exp := size0, 0;
    count, n, k := 0, 0, 0;
    while true
      invariant exp <= 0 && size + exp == size0 && size <= maxDigits
      invariant LowState(buf[..], size, lo, delta, -exp, bits, lo0, delta0, upper) && delta <= lo
      invariant AllOutside(lo0, delta0, -exp, bits)
      decreases maxDigits - size
    {
      lo, delta := NextLow(buf, size, lo, delta, exp, bits, lo0, delta0, upper);
      size := size + 1;
      exp := exp - 1;
      if lo < delta || size > maxDigits {
        count, k := size, exp;
        r, size, exp, n := EndLow(buf, size, lo, delta, exp, bits, lo0, delta0, diff, maxDigits, upper);
        return;
      }
    }
  }

  /** More than nine digits of the fraction are needed and allowed: the one case in which the code reads
      past the end of its table of ten powers. One product tells it from the arguments. */
  predicate NeedsTenthDigit(upper: nat, delta: nat, bits: nat, maxDigits: int) {
    && NumDigits(Shr(upper, bits)) + 9 <= maxDigits
    && Mask(upper, bits) > delta
    && Mask(Mask(upper, bits) * 1000000000, bits) >= delta * 1000000000
  }

  lemma MaskIsModulo(x: nat, s: nat)
    ensures Mask(x, s) == x % Pow2(s)
  {
    ShrMask(x, s);
    ShlIsProduct(Shr(x, s), s);
    ModuloOfSum(Shr(x, s), Pow2(s), Mask(x, s));
  }

  lemma {:induction false} ShlIsProduct(x: int, s: nat)
    ensures Shl(x, s) == x * Pow2(s)
  {
    if s > 0 {
      ShlIsProduct(x, s - 1);
    }
  }

  lemma ModuloOfSum(q: nat, p: nat, r: nat)
    requires r < p
    ensures (q * p + r) % p == r
  {
    var x := q * p + r;
    var q' := x / p;
    assert x == q' * p + x % p;
    if q' < q {
      Multiples(q, q', p);
    } else if q < q' {
      Multiples(q', q, p);
    }
  }

  lemma Multiples(a: nat, b: nat, p: nat)
    requires b < a
    ensures a * p >= b * p + p
  {
    MulLe(p, b + 1, a);
    assert (b + 1) * p == b * p + p;
  }

  // Masking early or late makes no difference.
  lemma MaskTimesTen(x: nat, s: nat)
    ensures Mask(10 * Mask(x, s), s) == Mask(10 * x, s)
  {
    var q, r := Shr(x, s), Mask(x, s);
    ShrMask(x, s);
    ShrMask(10 * r, s);
    ShlLinear(10 * q, Shr(10 * r, s), s);
    ShlLinear(q, 0, s);
    SplitIs(10 * x, s, 10 * q + Shr(10 * r, s), Mask(10 * r, s));
  }

  lemma {:induction false} FractionIsMask(lo: nat, m: nat, bits: nat)
    requires lo < Pow2(bits)
    ensures Scale(lo, m) >= 0 && Fraction(lo, m, bits) == Mask(Scale(lo, m), bits)
  {
    if m == 0 {
      ShlLinear(0, 0, bits);
      SplitIs(lo, bits, 0, lo);
    } else {
      FractionIsMask(lo, m - 1, bits);
      MaskTimesTen(Scale(lo, m - 1), bits);
    }
  }

  // Once inside the interval, always inside.
  lemma {:induction false} OutsideBefore(lo: nat, delta: nat, m: nat, n: nat, bits: nat)
    requires m <= n && StillOutside(lo, delta, n, bits)
    ensures StillOutside(lo, delta, m, bits)
    decreases n
  {
    if m < n {
      var f := Fraction(lo, n - 1, bits);
      ShrMask(10 * f, bits);
      ShlMonotone(0, Shr(10 * f, bits), bits);
      ShlLinear(0, 0, bits);
      OutsideBefore(lo, delta, m, n - 1, bits);
    }
  }

  /** The loop's own test, nine times over, comes to that one product. */
  lemma NineDigitsOutside(lo: nat, delta: nat, bits: nat)
    requires lo < Pow2(bits)
    ensures AllOutside(lo, delta, 9, bits)
            <==> Mask(lo * 1000000000, bits) >= delta * 1000000000
  {
    FractionIsMask(lo, 9, bits);
    NineTens(lo);
    NineTens(delta);
    assert StillOutside(lo, delta, 9, bits) <==> Mask(lo * 1000000000, bits) >= delta * 1000000000;
    if StillOutside(lo, delta, 9, bits) {
      forall m | 1 <= m <= 9 ensures StillOutside(lo, delta, m, bits) { OutsideBefore(lo, delta, m, 9, bits); }
    }
  }

  lemma NineTens(x: int)
    ensures Scale(x, 9) == x * 1000000000
  {
    ScaleScale(x, 3, 3);
    ScaleScale(x, 6, 3);
    ThreeTens(x);
    ThreeTens(Scale(x, 3));
    ThreeTens(Scale(x, 6));
  }

  lemma ThreeTens(x: int)
    ensures Scale(x, 3) == 1000 * x
  {
    assert Scale(x, 1) == 10 * x;
    assert Scale(x, 2) == 100 * x;
  }

  /** grisu2_gen_digits, with its arguments cut out of the top of the interval as its caller does. */
  method Generate(buf: array<char>, upper: nat, bits: nat, delta: nat, diff: nat, maxDigits: int)
      returns (r: Outcome, size: nat, exp: int, ghost count: nat, ghost n: int, ghost k: int)
    requires bits <= 60 && 0 < Shr(upper, bits) < 0x1_0000_0000 && upper < 0x1_0000_0000_0000_0000
    requires diff <= delta < upper && maxDigits < buf.Length && 0 < buf.Length
    modifies buf
    ensures r.TableOverrun? <==> NeedsTenthDigit(upper, delta, bits, maxDigits)
    ensures r.Ended? ==>
              k >= -9 && Generated(buf[..], maxDigits, upper, delta, diff, bits, count, n, k, r.ok, size, exp)
  {
    var hi, lo := Shr(upper, bits), Mask(upper, bits);
    ShrMask(upper, bits);
    AtMostTen(hi);
    var done, ok;
    done, ok, size, exp, count, n, k := GenerateHigh(buf, hi, lo, NumDigits(hi), bits, delta, diff, maxDigits, upper);
    if done {
      r := Ended(ok);
    } else {
      NineDigitsOutside(lo, delta, bits);
      r, size, exp, count, n, k := GenerateLow(buf, size, lo, bits, delta, diff, maxDigits, upper);
    }
  }

  lemma AtMostTen(hi: nat)
    requires hi < 0x1_0000_0000
    ensures NumDigits(hi) <= 10
  {
    Pow10Literals();
    NumDigitsFit(hi, 10);
  }
}
