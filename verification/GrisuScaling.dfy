/** Scaling a number and its boundaries by a cached power of ten: the interval that is left after the
    rounding errors are paid for still lies inside the true one. */
module GrisuScaling {
  import opened Decimal
  import opened Words
  import opened GrisuFp

  /** A cached power of ten is within half a unit of the true significand t. */
  ghost predicate WithinHalf(c: Fp, t: real) {
    IsNormal(c) && t - 0.5 <= c.f as real <= t + 0.5
  }

  // ---------------------------------------------------------------- distances before scaling

  lemma TopBit(f: nat, s: nat)
    requires f > 0 && 1 <= s <= 63 && Shl(2 * f + 1, s - 1) >= 0x8000_0000_0000_0000
    ensures Shl(f, s) >= 0x8000_0000_0000_0000
  {
    var p := Pow2(63 - s);
    PowerSplit(s);
    if 2 * f < 2 * p {
      ShlMonotone(2 * f + 1, 2 * p, s - 1);
      ShlDouble(p, s - 1);
    } else {
      ShlMonotone(p, f, s);
    }
  }

  lemma PowerSplit(s: nat)
    requires 1 <= s <= 63
    ensures Shl(Pow2(63 - s), s) == 0x8000_0000_0000_0000
  {
    ShlOfPower(63 - s, s);
    Pow2Literals();
    assert Pow2(64) == 2 * Pow2(63);
  }

  lemma {:induction false} ShlOfPower(a: nat, s: nat)
    ensures Shl(Pow2(a), s) == Pow2(a + s)
  {
    if s > 0 {
      ShlOfPower(a, s - 1);
    }
  }

  /** The number and its upper boundary are normalised to one exponent, and both boundaries are at
      least 512 units of it away. */
  lemma BoundaryGaps(x: Fp, upper: Fp, lower: Fp)
    requires IsDouble(x) && upper == Normal(RawUpper(x))
    requires lower.e == upper.e && Shifted(RawLower(x), lower)
    ensures Normal(x).e == upper.e && IsNormal(Normal(x)) && IsNormal(upper)
    ensures lower.f + 512 <= Normal(x).f && Normal(x).f + 512 <= upper.f
  {
    NormalFacts(RawUpper(x));
    UpperShift(x);
    UpperExponent(x);
    var s := x.e - upper.e;
    Halves(x.f, s);
    if s == 64 {
      TooFar(x.f);
    }
    TopBit(x.f, s);
    NormalIsOnly(x, Fp(Shl(x.f, s), upper.e));
    SmallGaps(s);
  }

  // The boundaries in terms of the shifted significand.
  lemma Halves(f: nat, s: nat)
    requires f > 0 && s >= 2
    ensures Shl(2 * f + 1, s - 1) == Shl(f, s) + Pow2(s - 1)
    ensures Shl(2 * f - 1, s - 1) == Shl(f, s) - Pow2(s - 1)
    ensures Shl(4 * f - 1, s - 2) == Shl(f, s) - Pow2(s - 2)
    ensures Shl(f, s) > 0
  {
    ShlDouble(f, s - 1);
    ShlDouble(f, s - 2);
    ShlDouble(2 * f, s - 2);
    ShlLinear(2 * f, 1, s - 1);
    ShlLinear(2 * f - 1, 1, s - 1);
    ShlLinear(4 * f - 1, 1, s - 2);
    ShlMonotone(0, f, s);
    ShlLinear(0, 0, s);
  }

  lemma TooFar(f: nat)
    requires f > 0
    ensures Shl(2 * f + 1, 63) >= 0x1_0000_0000_0000_0000
  {
    ShlMonotone(2, 2 * f + 1, 63);
    ShlDouble(1, 63);
    ShlLinear(1, 0, 64);
    Pow2Literals();
  }

  lemma SmallGaps(s: nat)
    requires s >= 11
    ensures Pow2(s - 1) >= 512 && Pow2(s - 2) >= 512
  {
    Pow2Monotone(9, s - 2);
    Pow2Monotone(9, s - 1);
    assert Pow2(9) == 512;
  }

  // ---------------------------------------------------------------- distances after scaling

  // The significand of a product.
  function Scaled64(a: nat, b: nat): nat {
    Rounded(Product(a, b))
  }

  lemma MulGap(a: nat, b: nat, c: nat)
    requires a + 512 <= b && c >= 0x8000_0000_0000_0000
    ensures b * c >= a * c + 0x100_0000_0000_0000_0000
  {
    MulLe(c, a + 512, b);
    assert (a + 512) * c == a * c + 512 * c;
  }

  lemma ScaledGap(a: nat, b: nat, c: nat)
    requires a + 512 <= b && c >= 0x8000_0000_0000_0000
    ensures Scaled64(a, c) + 256 <= Scaled64(b, c)
  {
    MulGap(a, b, c);
    DivGap(a * c, b * c);
  }

  lemma DivGap(p: nat, q: nat)
    requires q >= p + 0x100_0000_0000_0000_0000
    ensures Rounded(p) + 256 <= Rounded(q)
  {}

  lemma ScaledSize(a: nat, c: nat)
    requires a >= 0x8000_0000_0000_0000 && c >= 0x8000_0000_0000_0000
    ensures 0x4000_0000_0000_0000 <= Scaled64(a, c)
  {
    MulLe(c, 0x8000_0000_0000_0000, a);
    LargeQuotient(a * c);
  }

  lemma LargeQuotient(p: nat)
    requires p >= 0x4000_0000_0000_0000_0000_0000_0000_0000
    ensures Rounded(p) >= 0x4000_0000_0000_0000
  {}

  // ---------------------------------------------------------------- the rounding errors

  lemma RealStep(r: real, d: real, t: real, c: real)
    requires r >= 0.0 && -0.5 <= d <= 0.5 && c == t + d
    ensures r * t - r * 0.5 <= r * c <= r * t + r * 0.5
  {
    Distribute(r, t, d);
    Distribute(r, 0.5, -d);
    Distribute(r, d, 0.5);
    NotNegative(r, 0.5 - d);
    NotNegative(r, d + 0.5);
  }

  lemma Distribute(r: real, x: real, y: real)
    ensures r * (x + y) == r * x + r * y && r * (-y) == -(r * y)
  {}

  lemma NotNegative(r: real, x: real)
    requires r >= 0.0 && x >= 0.0
    ensures r * x >= 0.0
  {}

  lemma CastProduct(x: nat, c: nat)
    ensures (x * c) as real == (x as real) * (c as real)
  {}

  // A significand scaled by the true power, in units of 2^-64.
  function ScaledBy(f: nat, t: real): real {
    By(f as real, t)
  }

  function By(v: real, t: real): real {
    v * t
  }

  /** Less than one unit of error: half from the factor, half from the rounding. */
  lemma ProductError(x: nat, c: nat, t: real)
    requires x < 0x1_0000_0000_0000_0000 && t - 0.5 <= c as real <= t + 0.5
    ensures (Scaled64(x, c) as real - 1.0) * 18446744073709551616.0 < ScaledBy(x, t)
    ensures (Scaled64(x, c) as real + 1.0) * 18446744073709551616.0 > ScaledBy(x, t)
  {
    CastProduct(x, c);
    RoundError(x * c);
    AddErrors(x as real, c as real, t, (x * c) as real, Scaled64(x, c) as real);
  }

  lemma AddErrors(x: real, c: real, t: real, p: real, q: real)
    requires 0.0 <= x < 18446744073709551616.0 && t - 0.5 <= c <= t + 0.5 && p == x * c
    requires p - 9223372036854775808.0 < q * 18446744073709551616.0 <= p + 9223372036854775808.0
    ensures (q - 1.0) * 18446744073709551616.0 < x * t < (q + 1.0) * 18446744073709551616.0
  {
    RealStep(x, c - t, t, c);
  }

  lemma RoundError(p: nat)
    ensures p as real - 9223372036854775808.0 < Rounded(p) as real * 18446744073709551616.0
    ensures Rounded(p) as real * 18446744073709551616.0 <= p as real + 9223372036854775808.0
  {
    var q := Rounded(p);
    assert p - 0x8000_0000_0000_0000 < q * 0x1_0000_0000_0000_0000 <= p + 0x8000_0000_0000_0000;
    assert (q * 0x1_0000_0000_0000_0000) as real == q as real * 18446744073709551616.0;
  }

  /** What digit generation is given. */
  datatype Scaled = Scaled(upper: nat, delta: nat, diff: nat, e: int)

  // The lower boundary at the exponent of the upper one.
  function LowerOf(x: Fp): Fp
    requires IsDouble(x)
  {
    LowerFits(x, Normal(RawUpper(x)));
    var e := Normal(RawUpper(x)).e;
    Fp(Shl(RawLower(x).f, RawLower(x).e - e), e)
  }

  lemma LowerIsOnly(x: Fp, lower: Fp)
    requires IsDouble(x) && lower.e == Normal(RawUpper(x)).e && Shifted(RawLower(x), lower)
    ensures lower == LowerOf(x)
  {}

  lemma Gaps(x: Fp)
    requires IsDouble(x)
    ensures var upper, lower := Normal(RawUpper(x)), LowerOf(x);
            IsNormal(Normal(x)) && IsNormal(upper) && Normal(x).e == upper.e == lower.e
            && lower.f + 512 <= Normal(x).f && Normal(x).f + 512 <= upper.f
  {
    LowerFits(x, Normal(RawUpper(x)));
    BoundaryGaps(x, Normal(RawUpper(x)), LowerOf(x));
  }

  /** The upper boundary less one unit, the width of the safe interval, and how far the number itself
      is below the top. */
  function SafeInterval(x: Fp, c: Fp): Scaled
    requires IsDouble(x) && IsNormal(c)
  {
    SafeFacts(x, c);
    var u := Scaled64(Normal(RawUpper(x)).f, c.f);
    var w := Scaled64(Normal(x).f, c.f);
    var l := Scaled64(LowerOf(x).f, c.f);
    Scaled(u - 1, u - 1 - (l + 1), u - 1 - w, Normal(x).e + c.e + 64)
  }

  /** No subtraction wraps, and the number lies inside the interval. */
  lemma SafeFacts(x: Fp, c: Fp)
    requires IsDouble(x) && IsNormal(c)
    ensures 0 < Normal(x).f && 0 < Normal(RawUpper(x)).f
    ensures Scaled64(LowerOf(x).f, c.f) + 256 <= Scaled64(Normal(x).f, c.f)
    ensures Scaled64(Normal(x).f, c.f) + 256 <= Scaled64(Normal(RawUpper(x)).f, c.f)
    ensures Scaled64(Normal(RawUpper(x)).f, c.f) >= 0x4000_0000_0000_0000
  {
    Gaps(x);
    ScaledGap(Normal(x).f, Normal(RawUpper(x)).f, c.f);
    ScaledGap(LowerOf(x).f, Normal(x).f, c.f);
    ScaledSize(Normal(RawUpper(x)).f, c.f);
  }

  // operator*, by what it computes.
  method MultiplyFp(x: Fp, y: Fp) returns (r: Fp)
    requires x.f < 0x1_0000_0000_0000_0000 && y.f < 0x1_0000_0000_0000_0000
    ensures r == Fp(Scaled64(x.f, y.f), x.e + y.e + 64) && r.f < 0x1_0000_0000_0000_0000
  {
    MultiplyRounds(x, y);
    r := Multiply(x, y);
  }

  /** The scaling part of the formatter. */
  method ScaleInterval(x: Fp, c: Fp) returns (r: Scaled)
    requires IsDouble(x) && IsNormal(c)
    ensures r == SafeInterval(x, c) && r.upper < 0xFFFF_FFFF_FFFF_FFFF
  {
    var lower, upper := ComputeBoundaries(x);
    Gaps(x);
    SafeFacts(x, c);
    LowerIsOnly(x, lower);
    upper := MultiplyFp(upper, c);
    upper := Fp(upper.f - 1, upper.e);
    var w := Normalize(x, 0);
    var scaled := MultiplyFp(w, c);
    lower := MultiplyFp(lower, c);
    lower := Fp(lower.f + 1, lower.e);
    r := Scaled(upper.f, upper.f - lower.f, upper.f - scaled.f, upper.e);
  }

  // ---------------------------------------------------------------- the width of the interval

  // The boundaries before scaling: the upper one is less than 2^53 times the distance between them.
  lemma RelativeWidth(x: Fp)
    requires IsDouble(x)
    ensures Normal(RawUpper(x)).f < 0x20_0000_0000_0000 * (Normal(RawUpper(x)).f - LowerOf(x).f)
  {
    var upper, lower := Normal(RawUpper(x)), LowerOf(x);
    NormalFacts(RawUpper(x));
    UpperShift(x);
    LowerFits(x, upper);
    var s := x.e - upper.e;
    WidthByShift(x.f, s, upper.f, lower.f);
  }

  lemma WidthByShift(f: nat, s: nat, upper: int, lower: int)
    requires 0 < f < 0x20_0000_0000_0000 && s >= 2 && upper == Shl(2 * f + 1, s - 1)
    requires lower == if f == 0x10_0000_0000_0000 then Shl(4 * f - 1, s - 2) else Shl(2 * f - 1, s - 1)
    ensures upper < 0x20_0000_0000_0000 * (upper - lower)
  {
    Halves(f, s);
    ShlIsTimes(f, s);
    var q := Pow2(s - 2);
    assert Pow2(s - 1) == 2 * q && Pow2(s) == 4 * q;
    assert upper == f * (4 * q) + 2 * q;
    if f == 0x10_0000_0000_0000 {
      assert upper - lower == 3 * q;
    } else {
      assert upper - lower == 4 * q;
      MulLe(4 * q, f, 0x1F_FFFF_FFFF_FFFF);
    }
  }

  lemma {:induction false} ShlIsTimes(x: int, s: nat)
    ensures Shl(x, s) == x * Pow2(s)
  {
    if s > 0 { ShlIsTimes(x, s - 1); }
  }

  /** The safe interval is wider than 10^-16 of its top. */
  lemma WideInterval(x: Fp, c: Fp)
    requires IsDouble(x) && IsNormal(c)
    ensures var i := SafeInterval(x, c); i.upper < 10000000000000000 * i.delta
  {
    var upper, lower := Normal(RawUpper(x)).f, LowerOf(x).f;
    SafeFacts(x, c);
    Gaps(x);
    RelativeWidth(x);
    ScaledWidth(upper, lower, c.f);
    WidthAfterRounding(upper * c.f, lower * c.f);
  }

  lemma ScaledWidth(upper: nat, lower: nat, c: nat)
    requires upper < 0x20_0000_0000_0000 * (upper - lower)
    ensures upper * c <= 0x20_0000_0000_0000 * (upper * c - lower * c)
  {
    MulLe(c, upper, 0x20_0000_0000_0000 * (upper - lower));
    DistributeDifference(upper, lower, c);
  }

  lemma DistributeDifference(a: int, b: int, c: int)
    ensures (0x20_0000_0000_0000 * (a - b)) * c == 0x20_0000_0000_0000 * (a * c - b * c)
  {}

  /** The top of the interval is a 64-bit number with one of its two top bits set. */
  lemma SafeTop(x: Fp, c: Fp)
    requires IsDouble(x) && IsNormal(c)
    ensures 0x3FFF_FFFF_FFFF_FFFF <= SafeInterval(x, c).upper < 0x1_0000_0000_0000_0000
  {
    SafeFacts(x, c);
    Gaps(x);
    MultiplyRounds(Normal(RawUpper(x)), c);
  }

  lemma WidthAfterRounding(p: nat, q: nat)
    requires p <= 0x20_0000_0000_0000 * (p - q) && Rounded(q) + 512 <= Rounded(p)
    ensures Rounded(p) - 1 < 10000000000000000 * (Rounded(p) - Rounded(q) - 2)
  {}

  /** Both ends of the safe interval lie strictly inside the true one, scaled by the true power. */
  lemma SafeIsInside(x: Fp, c: Fp, t: real)
    requires IsDouble(x) && WithinHalf(c, t)
    ensures var r := SafeInterval(x, c);
            r.upper as real * 18446744073709551616.0 < ScaledBy(Normal(RawUpper(x)).f, t)
            && (r.upper - r.delta) as real * 18446744073709551616.0 > ScaledBy(LowerOf(x).f, t)
            && r.diff < r.delta < r.upper
  {
    SafeFacts(x, c);
    Gaps(x);
    ProductError(Normal(RawUpper(x)).f, c.f, t);
    ProductError(LowerOf(x).f, c.f, t);
  }
}
