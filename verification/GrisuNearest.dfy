/** The end to end statement about the Grisu printer: reading a printed text back gives the very double
    that was printed, and a text cut at the digit limit is that double rounded to nearest. */
module GrisuNearest {
  import opened Decimal
  import opened GrisuFp
  import opened GrisuScaling
  import opened GrisuDigits
  import opened GrisuLimit
  import opened GrisuFormat

  // ---------------------------------------------------------------- the boundaries as reals

  lemma UnitsReal(x: Fp)
    requires x.e >= -1200
    ensures Units(x) as real == Binary(Val(x), 1200)
  {
    ShlReal(x.f, x.e + 1200);
    BinaryBinary(x.f as real, x.e, 1200);
  }

  lemma BinaryInjective(x: real, y: real, e: int)
    ensures Binary(x, e) == Binary(y, e) ==> x == y
    ensures Binary(x, e) <= Binary(y, e) ==> x <= y
  {
    BinaryLinear(x, y, e);
    BinaryLinear(y, x, e);
  }

  lemma SumInUnits(m: real, a: real, b: real, e: int)
    ensures Binary(2.0 * m, e) == 2.0 * Binary(m, e) && Binary(a + b, e) == Binary(a, e) + Binary(b, e)
  {
    BinaryStep(m, e);
    BinaryLinear(a, b, e);
  }

  lemma MiddleFromUnits(m: real, a: real, b: real, e: int)
    requires 2.0 * Binary(m, e) == Binary(a, e) + Binary(b, e)
    ensures m == (a + b) / 2.0
  {
    SumInUnits(m, a, b, e);
    BinaryInjective(2.0 * m, a + b, e);
  }

  lemma AboveMiddleFromUnits(m: real, a: real, b: real, e: int)
    requires 2.0 * Binary(m, e) >= Binary(a, e) + Binary(b, e)
    ensures m >= (a + b) / 2.0
  {
    SumInUnits(m, a, b, e);
    BinaryInjective(a + b, 2.0 * m, e);
  }

  lemma UpperReal(u: nat, upper: Fp)
    requires IsFinitePositive(u) && u + 1 < 2047 * 0x10_0000_0000_0000 && IsDouble(FromBits(u))
    requires upper == Normal(RawUpper(FromBits(u)))
    ensures Val(upper) == (Val(FromBits(u)) + Val(FromBits(u + 1))) / 2.0
  {
    UpperIsMidpoint(u, upper);
    DecodeNext(u);
    UnitsReal(upper);
    UnitsReal(FromBits(u));
    UnitsReal(FromBits(u + 1));
    MiddleFromUnits(Val(upper), Val(FromBits(u)), Val(FromBits(u + 1)), 1200);
  }

  lemma LowerReal(u: nat, lower: Fp)
    requires IsFinitePositive(u) && lower.e >= -1200 && IsDouble(FromBits(u)) && Shifted(RawLower(FromBits(u)), lower)
    ensures Val(lower) >= (Val(FromBits(u - 1)) + Val(FromBits(u))) / 2.0
  {
    LowerIsMidpoint(u, lower);
    DecodedIsDouble(u);
    DecodeNext(u - 1);
    UnitsReal(lower);
    UnitsReal(FromBits(u - 1));
    UnitsReal(FromBits(u));
    AboveMiddleFromUnits(Val(lower), Val(FromBits(u - 1)), Val(FromBits(u)), 1200);
  }

  // ---------------------------------------------------------------- all doubles, scaled alike

  /** The bit patterns of zero and the positive finite numbers. */
  predicate IsFinite(u: nat) {
    u < 2047 * 0x10_0000_0000_0000
  }

  /** The double u times the true power of ten t * 2^e, and times ten often enough to be rid of a negative k. */
  function Target(u: nat, t: real, e: int, k: int): real
    requires IsFinite(u)
  {
    Tenfold(TimesPower(Val(FromBits(u)), t, e), Below(k))
  }

  lemma {:induction false} TenfoldLinear(x: real, y: real, k: nat)
    ensures Tenfold((x + y) / 2.0, k) == (Tenfold(x, k) + Tenfold(y, k)) / 2.0
  {
    if k > 0 {
      TenfoldLinear(x, y, k - 1);
    }
  }

  lemma ByMiddle(a: real, b: real, t: real)
    ensures By((a + b) / 2.0, t) == (By(a, t) + By(b, t)) / 2.0
  {}

  lemma MiddleScaled(a: real, b: real, t: real, e: int, m: nat)
    ensures Tenfold(TimesPower((a + b) / 2.0, t, e), m)
            == (Tenfold(TimesPower(a, t, e), m) + Tenfold(TimesPower(b, t, e), m)) / 2.0
  {
    ByMiddle(a, b, t);
    BinaryLinear(By(a, t), By(b, t), e);
    BinaryLinear(By(a, t) + By(b, t), 0.0, e);
    TenfoldLinear(TimesPower(a, t, e), TimesPower(b, t, e), m);
  }

  lemma ByGrows(a: real, b: real, t: real)
    requires a < b && t > 0.0
    ensures By(a, t) < By(b, t)
  {
    assert By(b, t) - By(a, t) == (b - a) * t;
    assert (b - a) * t > 0.0;
  }

  lemma ScaledGrows(a: real, b: real, t: real, e: int, m: nat)
    requires t > 0.0
    ensures a < b ==> Tenfold(TimesPower(a, t, e), m) < Tenfold(TimesPower(b, t, e), m)
    ensures a <= b ==> Tenfold(TimesPower(a, t, e), m) <= Tenfold(TimesPower(b, t, e), m)
  {
    if a < b {
      ByGrows(a, b, t);
      BinaryLinear(By(a, t), By(b, t), e);
      TenfoldLess(TimesPower(a, t, e), TimesPower(b, t, e), m);
    }
  }

  /** Larger bit patterns are larger numbers. */
  lemma {:induction false} DecodedGrows(u: nat, v: nat)
    requires u < v && IsFinite(v)
    ensures FromBits(u).e >= -1200 && FromBits(v).e >= -1200 && Units(FromBits(u)) < Units(FromBits(v))
    decreases v - u
  {
    DecodeNext(u);
    NextNumber(u);
    ShlMonotone(0, 1, FromBits(u).e + 1200);
    ShlLinear(1, 0, FromBits(u).e + 1200);
    if u + 1 < v { DecodedGrows(u + 1, v); }
  }

  lemma BinaryReflects(x: real, y: real, e: int)
    requires Binary(x, e) < Binary(y, e)
    ensures x < y
  {
    if y < x { BinaryLinear(y, x, e); }
  }

  lemma ValueGrows(u: nat, v: nat)
    requires u < v && IsFinite(v)
    ensures Val(FromBits(u)) < Val(FromBits(v))
  {
    var x, y := FromBits(u), FromBits(v);
    DecodedGrows(u, v);
    UnitsReal(x);
    UnitsReal(y);
    BinaryReflects(Val(x), Val(y), 1200);
  }

  lemma TargetGrows(u: nat, v: nat, t: real, e: int, k: int)
    requires u < v && IsFinite(v) && t > 0.0
    ensures Target(u, t, e, k) < Target(v, t, e, k)
  {
    ValueGrows(u, v);
    ScaledGrows(Val(FromBits(u)), Val(FromBits(v)), t, e, Below(k));
  }

  // ---------------------------------------------------------------- the nearest double

  function Gap(x: real, y: real): real {
    if x < y then y - x else x - y
  }

  /** The setting of all that follows: the bits of a positive finite double, and a cached power c within
      half a unit of the true one that brings it into range. */
  ghost predicate Scalable(u: nat, c: Fp, t: real) {
    IsFinitePositive(u) && IsDouble(FromBits(u)) && WithinHalf(c, t) && InRange(FromBits(u), c)
  }

  lemma PowerPositive(c: Fp, t: real)
    requires WithinHalf(c, t)
    ensures t > 0.0
  {}

  /** n * 10^k is in the safe interval for the double u. */
  ghost predicate IsSafe(u: nat, c: Fp, n: int, k: int)
    requires IsFinitePositive(u) && IsDouble(FromBits(u)) && IsNormal(c)
  {
    var i := SafeInterval(FromBits(u), c);
    i.e < 0 && Inside(n, k, i.upper, i.delta, -i.e)
  }

  lemma LowerAboveMiddle(u: nat)
    requires IsFinitePositive(u) && IsDouble(FromBits(u))
    ensures (Val(FromBits(u - 1)) + Val(FromBits(u))) / 2.0 <= Val(LowerOf(FromBits(u)))
  {
    var x := FromBits(u);
    DecodedIsDouble(u);
    UpperExponent(x);
    LowerFits(x, Normal(RawUpper(x)));
    LowerReal(u, LowerOf(x));
  }

  // The printed number against the midpoint below.
  lemma AboveMiddle(u: nat, c: Fp, t: real, n: int, k: int)
    requires Scalable(u, c, t) && IsSafe(u, c, n, k)
    ensures (Target(u - 1, t, c.e, k) + Target(u, t, c.e, k)) / 2.0 < Printed(n, k) as real
  {
    var before, value := Val(FromBits(u - 1)), Val(FromBits(u));
    var low := Val(LowerOf(FromBits(u)));
    assert Tenfold(TimesPower(low, t, c.e), Below(k)) < Printed(n, k) as real by {
      InsideReal(FromBits(u), c, t, n, k);
    }
    assert Tenfold(TimesPower((before + value) / 2.0, t, c.e), Below(k)) <= Tenfold(TimesPower(low, t, c.e),
            Below(k)) by {
      LowerAboveMiddle(u);
      PowerPositive(c, t);
      ScaledGrows((before + value) / 2.0, low, t, c.e, Below(k));
    }
    MiddleScaled(before, value, t, c.e, Below(k));
  }

  // The printed number against the midpoint above.
  lemma BelowMiddle(u: nat, c: Fp, t: real, n: int, k: int)
    requires Scalable(u, c, t) && IsSafe(u, c, n, k) && IsFinite(u + 1)
    ensures Printed(n, k) as real < (Target(u, t, c.e, k) + Target(u + 1, t, c.e, k)) / 2.0
  {
    var x := FromBits(u);
    UpperReal(u, Normal(RawUpper(x)));
    InsideReal(x, c, t, n, k);
    MiddleScaled(Val(x), Val(FromBits(u + 1)), t, c.e, Below(k));
  }

  lemma NearerThan(p: real, a: real, next: real, b: real)
    requires (a < next <= b && p < (a + next) / 2.0) || (b <= next < a && (next + a) / 2.0 < p)
    ensures Gap(p, a) < Gap(p, b)
  {}

  lemma TargetGrowsEqual(u: nat, v: nat, t: real, e: int, k: int)
    requires u <= v && IsFinite(v) && t > 0.0
    ensures Target(u, t, e, k) <= Target(v, t, e, k)
  {
    if u < v { TargetGrows(u, v, t, e, k); }
  }

  lemma NearerThanSmaller(u: nat, c: Fp, t: real, n: int, k: int, v: nat)
    requires Scalable(u, c, t) && IsSafe(u, c, n, k) && v < u
    ensures Gap(Printed(n, k) as real, Target(u, t, c.e, k)) < Gap(Printed(n, k) as real, Target(v, t, c.e, k))
  {
    PowerPositive(c, t);
    AboveMiddle(u, c, t, n, k);
    TargetGrows(u - 1, u, t, c.e, k);
    TargetGrowsEqual(v, u - 1, t, c.e, k);
    NearerThan(Printed(n, k) as real, Target(u, t, c.e, k), Target(u - 1, t, c.e, k), Target(v, t, c.e, k));
  }

  lemma NearerThanLarger(u: nat, c: Fp, t: real, n: int, k: int, v: nat)
    requires Scalable(u, c, t) && IsSafe(u, c, n, k) && u < v && IsFinite(v)
    ensures Gap(Printed(n, k) as real, Target(u, t, c.e, k)) < Gap(Printed(n, k) as real, Target(v, t, c.e, k))
  {
    PowerPositive(c, t);
    BelowMiddle(u, c, t, n, k);
    TargetGrows(u, u + 1, t, c.e, k);
    TargetGrowsEqual(u + 1, v, t, c.e, k);
    NearerThan(Printed(n, k) as real, Target(u, t, c.e, k), Target(u + 1, t, c.e, k), Target(v, t, c.e, k));
  }

  /** Of all finite doubles, the one that was printed is strictly the nearest to the printed number
      n * 10^k, all of them times the power of ten t * 2^c.e that the printer scaled by. */
  lemma PrintedIsNearest(u: nat, c: Fp, t: real, n: int, k: int, v: nat)
    requires Scalable(u, c, t) && IsSafe(u, c, n, k) && IsFinite(v) && v != u
    ensures Gap(Printed(n, k) as real, Target(u, t, c.e, k)) < Gap(Printed(n, k) as real, Target(v, t, c.e, k))
  {
    if v < u { NearerThanSmaller(u, c, t, n, k, v); } else { NearerThanLarger(u, c, t, n, k, v); }
  }

  // ---------------------------------------------------------------- at the digit limit

  // Between two integers below and above, in the units of the scaled interval.
  lemma BetweenScaled(lo: int, hi: int, a: int, b: int, k: int, bits: nat, w: real)
    requires lo as real * 18446744073709551616.0 < w < hi as real * 18446744073709551616.0
    requires Weight(a, k, bits) <= Up(lo, k) && Up(hi, k) <= Weight(b, k, bits)
    ensures Binary(Printed(a, k) as real, bits) * 18446744073709551616.0 < Tenfold(w, Below(k))
    ensures Tenfold(w, Below(k)) < Binary(Printed(b, k) as real, bits) * 18446744073709551616.0
  {
    var m := Below(k);
    UpReal(lo, k);
    UpReal(hi, k);
    ShlReal(Printed(a, k), bits);
    ShlReal(Printed(b, k), bits);
    TenfoldLess(lo as real * 18446744073709551616.0, w, m);
    TenfoldLess(w, hi as real * 18446744073709551616.0, m);
    TenfoldOf64(lo as real, m);
    TenfoldOf64(hi as real, m);
  }

  // Undoing the scaling by 2^q, the other way round.
  lemma UnscaleValue(a: real, w: real, b: real, q: int, m: nat)
    requires Binary(a, q) < Tenfold(w, m) < Binary(b, q)
    ensures a < Tenfold(Binary(w, -q), m) < b
  {
    BinaryLinear(Binary(a, q), Tenfold(w, m), -q);
    BinaryLinear(Tenfold(w, m), Binary(b, q), -q);
    BinaryBinary(a, q, -q);
    BinaryBinary(b, q, -q);
    TenfoldBinary(w, -q, m);
  }

  /** The true value lies within one unit of its scaled approximation, and inside the safe interval. */
  lemma NumberIsInside(x: Fp, c: Fp, t: real)
    requires IsDouble(x) && WithinHalf(c, t)
    ensures var i, w := SafeInterval(x, c), ScaledBy(Normal(x).f, t);
            && (i.upper - i.diff - 1) as real * 18446744073709551616.0 < w
            && w < (i.upper - i.diff + 1) as real * 18446744073709551616.0
            && (i.upper - i.delta) as real * 18446744073709551616.0 < w < i.upper as real * 18446744073709551616.0
  {
    SafeFacts(x, c);
    Gaps(x);
    ProductError(Normal(x).f, c.f, t);
  }

  lemma NormalValue(x: Fp)
    requires IsDouble(x)
    ensures Val(Normal(x)) == Val(x)
  {
    NormalFacts(x);
    ShlReal(x.f, x.e - Normal(x).e);
    BinaryBinary(x.f as real, x.e - Normal(x).e, Normal(x).e);
  }

  // The state in which digit generation for u has ended.
  ghost predicate GeneratedFor(u: nat, c: Fp, s: seq<char>, maxDigits: int, count: nat, n: int, k: int, ok: bool,
                               size: nat, exp: int)
    requires IsFinitePositive(u) && IsDouble(FromBits(u)) && IsNormal(c)
  {
    var i := SafeInterval(FromBits(u), c);
    GeneratedIn(i, s, maxDigits, count, n, k, ok, size, exp)
  }

  ghost predicate GeneratedIn(i: Scaled, s: seq<char>, maxDigits: int, count: nat, n: int, k: int, ok: bool, size: nat,
                              exp: int) {
    i.e < 0 && Generated(s, maxDigits, i.upper, i.delta, i.diff, -i.e, count, n, k, ok, size, exp)
  }

  lemma IntervalOrder(x: Fp, c: Fp)
    requires IsDouble(x) && IsNormal(c)
    ensures var i := SafeInterval(x, c); i.diff <= i.delta
  {
    SafeFacts(x, c);
  }

  // Whole numbers of the scaled interval's units between the digits' neighbours, from below and above.
  lemma PickBrackets(i: Scaled, s: seq<char>, maxDigits: int, count: nat, n: int, k: int, ok: bool, size: nat, exp: int)
      returns (lo: int, hi: int)
    requires i.e <= -32 && k >= -9 && i.diff <= i.delta
    requires Generated(s, maxDigits, i.upper, i.delta, i.diff, -i.e, count, n, k, ok, size, exp)
    ensures Weight(n - 1, k, -i.e) <= Up(lo, k) && Up(hi, k) <= Weight(n + 1, k, -i.e)
    ensures lo == i.upper - i.diff - 1 || lo == i.upper - i.delta
    ensures hi == i.upper - i.diff + 1 || hi == i.upper
  {
    GeneratedIsClose(s, maxDigits, i.upper, i.delta, i.diff, -i.e, count, n, k, ok, size, exp);
    lo := if Weight(n - 1, k, -i.e) <= Up(i.upper - i.diff - 1, k) then i.upper - i.diff - 1 else i.upper - i.delta;
    hi := if Up(i.upper - i.diff + 1, k) <= Weight(n + 1, k, -i.e) then i.upper - i.diff + 1 else i.upper;
  }

  // They lie on either side of the double.
  lemma Brackets(u: nat, c: Fp, t: real, s: seq<char>, maxDigits: int, count: nat, n: int, k: int, ok: bool,
                 size: nat, exp: int)
      returns (lo: int, hi: int)
    requires Scalable(u, c, t) && k >= -9 && GeneratedFor(u, c, s, maxDigits, count, n, k, ok, size, exp)
    ensures var w := ScaledBy(Normal(FromBits(u)).f, t);
            lo as real * 18446744073709551616.0 < w < hi as real * 18446744073709551616.0
    ensures var bits := -SafeInterval(FromBits(u), c).e;
            Weight(n - 1, k, bits) <= Up(lo, k) && Up(hi, k) <= Weight(n + 1, k, bits)
  {
    IntervalOrder(FromBits(u), c);
    lo, hi := PickBrackets(SafeInterval(FromBits(u), c), s, maxDigits, count, n, k, ok, size, exp);
    NumberIsInside(FromBits(u), c, t);
  }

  lemma UnscaleNumber(x: Fp, t: real, e: int, a: real, b: real, bits: int, m: nat)
    requires IsDouble(x) && Normal(x).e + e + 64 == -bits
    requires Binary(a, bits) * 18446744073709551616.0 < Tenfold(ScaledBy(Normal(x).f, t), m)
    requires Tenfold(ScaledBy(Normal(x).f, t), m) < Binary(b, bits) * 18446744073709551616.0
    ensures a < Tenfold(TimesPower(Val(x), t, e), m) < b
  {
    var w := ScaledBy(Normal(x).f, t);
    assert Binary(a, bits + 64) < Tenfold(w, m) < Binary(b, bits + 64) by {
      TwoTo64(Binary(a, bits));
      TwoTo64(Binary(b, bits));
      BinaryBinary(a, bits, 64);
      BinaryBinary(b, bits, 64);
    }
    UnscaleValue(a, w, b, bits + 64, m);
    BoundaryValue(Normal(x), t, e);
    NormalValue(x);
  }

  /** Generated digits n at exponent k are less than one unit of the last of them away from the double. */
  lemma GeneratedIsCloseReal(u: nat, c: Fp, t: real, s: seq<char>, maxDigits: int,
                             count: nat, n: int, k: int, ok: bool, size: nat, exp: int)
    requires Scalable(u, c, t) && k >= -9 && GeneratedFor(u, c, s, maxDigits, count, n, k, ok, size, exp)
    ensures Printed(n - 1, k) as real < Target(u, t, c.e, k) < Printed(n + 1, k) as real
  {
    var x := FromBits(u);
    var bits := -SafeInterval(x, c).e;
    var lo, hi := Brackets(u, c, t, s, maxDigits, count, n, k, ok, size, exp);
    BetweenScaled(lo, hi, n - 1, n + 1, k, bits, ScaledBy(Normal(x).f, t));
    UnscaleNumber(x, t, c.e, Printed(n - 1, k) as real, Printed(n + 1, k) as real, bits, Below(k));
  }

  lemma PrintedGrows(a: int, b: int, k: int)
    requires a <= b
    ensures Printed(a, k) <= Printed(b, k)
  {
    if k >= 0 { ScaleMonotone(a, b, k); }
  }

  /** p * 10^exp is the double u, scaled, rounded to nearest: less than half a unit of p away. */
  ghost predicate RoundedAtLimit(p: int, exp: int, u: nat, t: real, e: int) {
    IsFinite(u) &&
    Printed(10 * p - 5, exp - 1) as real < Target(u, t, e, exp - 1) < Printed(10 * p + 5, exp - 1) as real
  }

  /** Every finite double but u is further away from p * 10^exp, all of them scaled. */
  ghost predicate ReadsBack(p: int, exp: int, u: nat, t: real, e: int) {
    IsFinite(u) &&
    forall v :: IsFinite(v) && v != u ==>
      Gap(Printed(p, exp) as real, Target(u, t, e, exp)) < Gap(Printed(p, exp) as real, Target(v, t, e, exp))
  }

  /** A text accepted at the digit limit is the double rounded to nearest. */
  lemma AcceptedIsRoundedReal(u: nat, c: Fp, t: real, s: seq<char>, maxDigits: int,
                              count: nat, n: int, k: int, size: nat, exp: int)
    requires Scalable(u, c, t) && k >= -9 && GeneratedFor(u, c, s, maxDigits, count, n, k, true, size, exp)
    requires count > maxDigits
    ensures size <= |s| && AllDigits(s[..size]) && RoundedAtLimit(Value(s[..size]), exp, u, t, c.e)
  {
    assert size <= |s| && AllDigits(s[..size]) && exp == k + 1
           && 10 * Value(s[..size]) <= n <= 10 * Value(s[..size]) + 4 by {
      SmallLastDigit(s, count, maxDigits, k, n, size, exp);
    }
    assert Printed(n - 1, k) as real < Target(u, t, c.e, k) < Printed(n + 1, k) as real by {
      GeneratedIsCloseReal(u, c, t, s, maxDigits, count, n, k, true, size, exp);
    }
    RoundedFrom(Value(s[..size]), n, k, exp, u, t, c.e);
  }

  lemma SmallLastDigit(s: seq<char>, count: nat, maxDigits: int, k: int, n: int, size: nat, exp: int)
    requires Finished(s, count, maxDigits, k, n, true, size, exp) && count > maxDigits
    ensures size <= |s| && AllDigits(s[..size]) && exp == k + 1
    ensures 10 * Value(s[..size]) <= n <= 10 * Value(s[..size]) + 4
  {}

  lemma RoundedFrom(p: int, n: int, k: int, exp: int, u: nat, t: real, e: int)
    requires 10 * p <= n <= 10 * p + 4 && exp == k + 1 && IsFinite(u)
    requires Printed(n - 1, k) as real < Target(u, t, e, k) < Printed(n + 1, k) as real
    ensures RoundedAtLimit(p, exp, u, t, e)
  {
    PrintedGrows(10 * p - 5, n - 1, k);
    PrintedGrows(n + 1, 10 * p + 5, k);
  }

  /** A text that the digit limit did not cut reads back to the double. */
  lemma UncutReadsBack(u: nat, c: Fp, t: real, s: seq<char>, maxDigits: int,
                       count: nat, n: int, k: int, size: nat, exp: int)
    requires Scalable(u, c, t) && GeneratedFor(u, c, s, maxDigits, count, n, k, true, size, exp)
    requires count <= maxDigits
    ensures size <= |s| && AllDigits(s[..size]) && ReadsBack(Value(s[..size]), exp, u, t, c.e)
  {
    forall v | IsFinite(v) && v != u
      ensures Gap(Printed(n, k) as real, Target(u, t, c.e, k)) < Gap(Printed(n, k) as real, Target(v, t, c.e, k))
    {
      PrintedIsNearest(u, c, t, n, k, v);
    }
  }

  // ---------------------------------------------------------------- the whole printer

  /** The digit limit is reached with the digits still outside the safe interval for u. */
  ghost predicate IsCut(u: nat, c: Fp, maxDigits: int)
    requires IsFinitePositive(u) && IsDouble(FromBits(u)) && IsNormal(c)
  {
    CutIn(SafeInterval(FromBits(u), c), maxDigits)
  }

  ghost predicate CutIn(i: Scaled, maxDigits: int) {
    i.e < 0 && CutShort(i.upper, i.delta, -i.e, maxDigits)
  }

  /** Seventeen digits are never cut. */
  lemma SeventeenAreEnough(u: nat, c: Fp, t: real, maxDigits: int)
    requires Scalable(u, c, t) && maxDigits >= 17
    ensures !IsCut(u, c, maxDigits)
  {
    var i := SafeInterval(FromBits(u), c);
    SafeFacts(FromBits(u), c);
    SafeTop(FromBits(u), c);
    TopSize(i.upper, -i.e);
    WideInterval(FromBits(u), c);
    NeverCutAt17(i.upper, i.delta, -i.e, maxDigits);
  }

  lemma GeneratedIsCut(u: nat, c: Fp, s: seq<char>, maxDigits: int, count: nat, n: int, k: int, ok: bool, size: nat,
                       exp: int)
    requires IsFinitePositive(u) && IsDouble(FromBits(u)) && IsNormal(c)
    requires GeneratedFor(u, c, s, maxDigits, count, n, k, ok, size, exp)
    ensures count > maxDigits <==> IsCut(u, c, maxDigits)
    ensures count > maxDigits ==> size == Larger(maxDigits, 0)
    ensures count <= maxDigits ==> ok
  {
    GeneratedIsCutIn(SafeInterval(FromBits(u), c), s, maxDigits, count, n, k, ok, size, exp);
  }

  lemma GeneratedIsCutIn(i: Scaled, s: seq<char>, maxDigits: int, count: nat, n: int, k: int, ok: bool, size: nat,
                         exp: int)
    requires GeneratedIn(i, s, maxDigits, count, n, k, ok, size, exp)
    ensures count > maxDigits <==> CutIn(i, maxDigits)
    ensures count > maxDigits ==> size == Larger(maxDigits, 0)
    ensures count <= maxDigits ==> ok
  {
    CutIsKnown(s, maxDigits, i.upper, i.delta, i.diff, -i.e, count, n, k, ok, size, exp);
  }

  /** The text in the buffer, accepted: it reads back to u, or, cut at the limit, it is u rounded to nearest. */
  ghost predicate Accepted(s: seq<char>, size: nat, exp: int, u: nat, t: real, e: int, cut: bool) {
    && size <= |s| && AllDigits(s[..size])
    && if cut then RoundedAtLimit(Value(s[..size]), exp, u, t, e) else ReadsBack(Value(s[..size]), exp, u, t, e)
  }

  lemma TextIsAccepted(u: nat, c: Fp, t: real, s: seq<char>, maxDigits: int, count: nat, n: int, k: int, size: nat,
                       exp: int)
    requires Scalable(u, c, t) && k >= -9 && GeneratedFor(u, c, s, maxDigits, count, n, k, true, size, exp)
    ensures Accepted(s, size, exp, u, t, c.e, IsCut(u, c, maxDigits))
  {
    GeneratedIsCut(u, c, s, maxDigits, count, n, k, true, size, exp);
    if count > maxDigits {
      AcceptedIsRoundedReal(u, c, t, s, maxDigits, count, n, k, size, exp);
    } else {
      UncutReadsBack(u, c, t, s, maxDigits, count, n, k, size, exp);
    }
  }

  lemma EndedText(u: nat, c: Fp, t: real, s: seq<char>, maxDigits: int, count: nat, n: int, k: int, r: Outcome,
                  size: nat, exp: int)
    requires Scalable(u, c, t)
    requires r.Ended? ==> k >= -9 && GeneratedFor(u, c, s, maxDigits, count, n, k, r.ok, size, exp)
    ensures r == Ended(true) ==> Accepted(s, size, exp, u, t, c.e, IsCut(u, c, maxDigits))
    ensures r.Ended? && !IsCut(u, c, maxDigits) ==> r == Ended(true)
    ensures r.Ended? && IsCut(u, c, maxDigits) ==> size == Larger(maxDigits, 0)
    ensures maxDigits >= 17 ==> !IsCut(u, c, maxDigits)
  {
    if r.Ended? {
      GeneratedIsCut(u, c, s, maxDigits, count, n, k, r.ok, size, exp);
      if r.ok { TextIsAccepted(u, c, t, s, maxDigits, count, n, k, size, exp); }
    }
    if maxDigits >= 17 { SeventeenAreEnough(u, c, t, maxDigits); }
  }

  /** grisu2_format for the bits of a positive double. Unless the power table is overrun, digits that are not
      cut are accepted and read back to the double, and cut digits, if accepted, are the double rounded to
      nearest. Whether they are cut is known from the arguments; it leaves all the digits allowed, and never
      happens with 17 or more. */
  method FormatBits(u: nat, c: Fp, buf: array<char>, maxDigits: int, ghost t: real)
      returns (r: Outcome, size: nat, exp: int)
    requires Scalable(u, c, t) && maxDigits < buf.Length && 0 < buf.Length
    modifies buf
    ensures var i := SafeInterval(FromBits(u), c);
            r.TableOverrun? <==> NeedsTenthDigit(i.upper, i.delta, -i.e, maxDigits)
    ensures r == Ended(true) ==> Accepted(buf[..], size, exp, u, t, c.e, IsCut(u, c, maxDigits))
    ensures r.Ended? && !IsCut(u, c, maxDigits) ==> r == Ended(true)
    ensures r.Ended? && IsCut(u, c, maxDigits) ==> size == Larger(maxDigits, 0)
    ensures maxDigits >= 17 ==> !IsCut(u, c, maxDigits)
  {
    ghost var count, n, k;
    r, size, exp, count, n, k := Format(FromBits(u), c, buf, maxDigits);
    EndedText(u, c, t, buf[..], maxDigits, count, n, k, r, size, exp);
  }

  // ---------------------------------------------------------------- a tenth digit is needed

  /** A double that needs a tenth digit of the fraction: 0.1 + 0.2 with 17 digits, scaled by 10^4, runs
      past the end of the table of ten powers. */
  lemma TenthDigitNeeded()
    ensures var u, c := 0x3FD3_3333_3333_3334, Fp(0x9C40_0000_0000_0000, -50);
            && IsFinitePositive(u) && IsDouble(FromBits(u)) && c == Normal(Fp(10000, 0)) && InRange(FromBits(u), c)
            && var i := SafeInterval(FromBits(u), c);
               i.e == -51 && NeedsTenthDigit(i.upper, i.delta, -i.e, 17)
  {
    var x, c := FromBits(0x3FD3_3333_3333_3334), Fp(0x9C40_0000_0000_0000, -50);
    assert x == Fp(0x13_3333_3333_3334, -54);
    ShlPowers(10000);
    NormalIsOnly(Fp(10000, 0), c);
    ShlPowers(0x13_3333_3333_3334);
    NormalIsOnly(x, Fp(0x9999_9999_9999_A000, -65));
    ShlPowers(0x26_6666_6666_6669);
    NormalIsOnly(RawUpper(x), Fp(0x9999_9999_9999_A400, -65));
    ShlPowers(0x26_6666_6666_6667);
    assert LowerOf(x) == Fp(0x9999_9999_9999_9C00, -65);
    SafeOfExample(x, c);
    TenthOfExample();
  }

  lemma ShlPowers(f: nat)
    ensures Shl(f, 10) == 1024 * f && Shl(f, 11) == 2048 * f && Shl(f, 50) == 0x4_0000_0000_0000 * f
  {
    ShlFive(f);
    ShlFive(Shl(f, 5));
    ShlShl(f, 5, 5);
    assert Shl(f, 11) == 2 * Shl(f, 10);
    ShlShl(f, 10, 10);
    ShlFive(Shl(f, 10));
    ShlFive(Shl(Shl(f, 10), 5));
    ShlShl(Shl(f, 10), 5, 5);
    ShlTwenty(f);
    ShlTwenty(Shl(f, 20));
    ShlShl(f, 20, 20);
    ShlTen(Shl(f, 40));
    ShlShl(f, 40, 10);
  }

  lemma ShlFive(f: int)
    ensures Shl(f, 5) == 32 * f
  {
    assert Shl(f, 1) == 2 * f;
    assert Shl(f, 2) == 4 * f;
    assert Shl(f, 3) == 8 * f;
    assert Shl(f, 4) == 16 * f;
  }

  lemma ShlTen(f: int)
    ensures Shl(f, 10) == 1024 * f
  {
    ShlFive(f);
    ShlFive(Shl(f, 5));
    ShlShl(f, 5, 5);
  }

  lemma ShlTwenty(f: int)
    ensures Shl(f, 20) == 0x10_0000 * f
  {
    ShlTen(f);
    ShlTen(Shl(f, 10));
    ShlShl(f, 10, 10);
  }

  lemma SafeOfExample(x: Fp, c: Fp)
    requires IsDouble(x) && c == Fp(0x9C40_0000_0000_0000, -50)
    requires Normal(x) == Fp(0x9999_9999_9999_A000, -65) && Normal(RawUpper(x)) == Fp(0x9999_9999_9999_A400, -65)
    requires LowerOf(x) == Fp(0x9999_9999_9999_9C00, -65)
    ensures SafeInterval(x, c) == Scaled(0x5DC0_0000_0000_0658, 1248, SafeInterval(x, c).diff, -51)
  {
    assert Scaled64(0x9999_9999_9999_A400, 0x9C40_0000_0000_0000) == 0x5DC0_0000_0000_0659;
    assert Scaled64(0x9999_9999_9999_9C00, 0x9C40_0000_0000_0000) == 0x5DC0_0000_0000_0177;
  }

  lemma TenthOfExample()
    ensures NeedsTenthDigit(0x5DC0_0000_0000_0658, 1248, 51, 17)
  {
    ShlPowers(3000);
    ShlPowers(1);
    ShlLinear(1, 0, 51);
    assert Shl(3000, 51) == 2 * Shl(3000, 50) && Shl(1, 51) == 2 * Shl(1, 50);
    SplitIs(0x5DC0_0000_0000_0658, 51, 3000, 1624);
    SplitIs(1624 * 1000000000, 51, 0, 1624 * 1000000000);
  }
}
