/** The hand-made floating-point type of the Grisu printer: decoding, normal form, rounding
    boundaries, the rounded product, and the scaling of the safe interval. */
module GrisuFp {
  import opened Decimal
  import opened Words

  // f * 2^e; f is a 64-bit significand.
  datatype Fp = Fp(f: nat, e: int)

  /** Decoding a binary64: 52 fraction bits, 11 exponent bits, the sign ignored. */
  function FromBits(u: nat): Fp
    requires u < 0x1_0000_0000_0000_0000
  {
    var fraction := u % 0x10_0000_0000_0000;
    var biased := u / 0x10_0000_0000_0000 % 2048;
    if biased != 0 then Fp(fraction + 0x10_0000_0000_0000, biased - 1075) else Fp(fraction, 1 - 1075)
  }

  // The bit patterns of the positive finite numbers.
  predicate IsFinitePositive(u: nat) {
    0 < u < 2047 * 0x10_0000_0000_0000
  }

  /** The exact value in units of 2^-1200, small enough for every number and boundary met here. */
  function Units(x: Fp): int
    requires x.e >= -1200
  {
    Shl(x.f, x.e + 1200)
  }

  /** Consecutive bit patterns are neighbouring numbers: one unit of the last place apart. */
  lemma NextNumber(u: nat)
    requires u + 1 < 2047 * 0x10_0000_0000_0000
    ensures Units(FromBits(u + 1)) == Units(FromBits(u)) + Shl(1, FromBits(u).e + 1200)
  {
    var x, y := FromBits(u), FromBits(u + 1);
    DecodeNext(u);
    if y.e != x.e {
      ShlDouble(0x10_0000_0000_0000, x.e + 1200);
    }
    ShlLinear(x.f, 1, x.e + 1200);
  }

  /** The scale: bit pattern 0x3FF0... is the number one. */
  lemma OneIsOne()
    ensures FromBits(0x3FF0_0000_0000_0000) == Fp(0x10_0000_0000_0000, -52)
    ensures Units(FromBits(0x3FF0_0000_0000_0000)) == Shl(1, 1200)
  {
    var x := FromBits(0x3FF0_0000_0000_0000);
    assert x == Fp(0x10_0000_0000_0000, -52);
    Pow2Literals();
    assert Pow2(52) == 0x10_0000_0000_0000;
    ShlLinear(1, 0, 52);
    ShlShl(1, 52, 1148);
  }

  lemma DecodeNext(u: nat)
    requires u + 1 < 2047 * 0x10_0000_0000_0000
    ensures var x, y := FromBits(u), FromBits(u + 1);
            y == Fp(x.f + 1, x.e) || (y == Fp(0x10_0000_0000_0000, x.e + 1) && x.f + 1 == 2 * 0x10_0000_0000_0000)
    ensures -1074 <= FromBits(u).e <= 971 && FromBits(u).f < 0x20_0000_0000_0000
  {
    var fraction, biased := u % 0x10_0000_0000_0000, u / 0x10_0000_0000_0000;
    assert biased % 2048 == biased;
    if fraction == 0xF_FFFF_FFFF_FFFF {
      assert (u + 1) % 0x10_0000_0000_0000 == 0 && (u + 1) / 0x10_0000_0000_0000 == biased + 1;
      assert (biased + 1) % 2048 == biased + 1;
    } else {
      assert (u + 1) % 0x10_0000_0000_0000 == fraction + 1 && (u + 1) / 0x10_0000_0000_0000 == biased;
    }
  }

  lemma {:induction false} ShlDouble(x: int, k: nat)
    ensures Shl(2 * x, k) == Shl(x, k + 1)
  {
    if k > 0 {
      ShlDouble(x, k - 1);
    }
  }

  // ---------------------------------------------------------------- normal form

  /** The only way to write x with the top bit of the significand set. */
  function Normal(x: Fp): Fp
    requires 0 < x.f < 0x1_0000_0000_0000_0000
    decreases 0x1_0000_0000_0000_0000 - x.f
  {
    if x.f >= 0x8000_0000_0000_0000 then x else Normal(Fp(2 * x.f, x.e - 1))
  }

  predicate IsNormal(x: Fp) {
    0x8000_0000_0000_0000 <= x.f < 0x1_0000_0000_0000_0000
  }

  // r is x with its significand shifted left.
  predicate Shifted(x: Fp, r: Fp) {
    r.e <= x.e && r.f == Shl(x.f, x.e - r.e)
  }

  lemma {:induction false} NormalFacts(x: Fp)
    requires 0 < x.f < 0x1_0000_0000_0000_0000
    ensures IsNormal(Normal(x)) && Shifted(x, Normal(x))
    decreases 0x1_0000_0000_0000_0000 - x.f
  {
    if x.f < 0x8000_0000_0000_0000 {
      NormalFacts(Fp(2 * x.f, x.e - 1));
      ShlDouble(x.f, x.e - 1 - Normal(x).e);
    }
  }

  lemma {:induction false} NormalIsOnly(x: Fp, r: Fp)
    requires 0 < x.f < 0x1_0000_0000_0000_0000 && IsNormal(r) && Shifted(x, r)
    ensures r == Normal(x)
    decreases 0x1_0000_0000_0000_0000 - x.f
  {
    if x.f >= 0x8000_0000_0000_0000 {
      if r.e < x.e {
        ShlMonotone(0x8000_0000_0000_0000, x.f, x.e - r.e - 1);
        ShlGrows(0x8000_0000_0000_0000, x.e - r.e - 1);
      }
    } else {
      assert r.e < x.e;
      ShlDouble(x.f, x.e - r.e - 1);
      NormalIsOnly(Fp(2 * x.f, x.e - 1), r);
    }
  }

  lemma {:induction false} ShlGrows(x: nat, k: nat)
    ensures Shl(x, k) >= x
  {
    if k > 0 {
      ShlGrows(x, k - 1);
    }
  }

  /** normalize<SHIFT>: one bit at a time up to the implicit bit, then the rest at once. */
  method Normalize(x: Fp, shift: nat) returns (r: Fp)
    requires shift <= 1 && 0 < x.f < 2 * ImplicitBit(shift)
    ensures r == Normal(x)
  {
    var f, e := x.f, x.e;
    var bit := ImplicitBit(shift);
    while f / bit % 2 == 0
      invariant 0 < f < 2 * bit && e <= x.e && f == Shl(x.f, x.e - e)
      decreases 2 * bit - f
    {
      ShlDouble(x.f, x.e - e);
      f := f * 2 % 0x1_0000_0000_0000_0000;
      e := e - 1;
    }
    var offset := 64 - 52 - shift - 1;
    ShlShl(x.f, x.e - e, offset);
    TopShift(f, shift);
    r := Fp(ShiftLeft(f, offset), e - offset);
    NormalIsOnly(x, r);
  }

  function ImplicitBit(shift: nat): (b: nat)
    ensures b > 0
  {
    if shift == 0 then 0x10_0000_0000_0000 else 0x20_0000_0000_0000
  }

  lemma TopShift(f: nat, shift: nat)
    requires shift <= 1 && ImplicitBit(shift) <= f < 2 * ImplicitBit(shift)
    ensures 0x8000_0000_0000_0000 <= Shl(f, 11 - shift) < 0x1_0000_0000_0000_0000
  {
    assert Shl(f, 1) == 2 * f;
    assert Shl(f, 2) == 4 * f;
    assert Shl(f, 4) == 16 * f;
    assert Shl(f, 6) == 64 * f;
    assert Shl(f, 8) == 256 * f;
    assert Shl(f, 10) == 1024 * f;
    assert Shl(f, 11) == 2048 * f;
  }

  // ---------------------------------------------------------------- boundaries

  // The unnormalised boundaries: half a unit away, or a quarter below a power of two.
  function RawUpper(x: Fp): Fp {
    Fp(2 * x.f + 1, x.e - 1)
  }

  function RawLower(x: Fp): Fp
    requires x.f > 0
  {
    if x.f == 0x10_0000_0000_0000 then Fp(4 * x.f - 1, x.e - 2) else Fp(2 * x.f - 1, x.e - 1)
  }

  predicate IsDouble(x: Fp) {
    0 < x.f < 0x20_0000_0000_0000
  }

  /** The upper boundary comes out normalised and the lower one at the same exponent; no bit is lost. */
  method ComputeBoundaries(x: Fp) returns (lower: Fp, upper: Fp)
    requires IsDouble(x)
    ensures upper == Normal(RawUpper(x))
    ensures lower.e == upper.e && Shifted(RawLower(x), lower) && lower.f < upper.f
  {
    lower := RawLower(x);
    upper := Normalize(RawUpper(x), 1);
    LowerFits(x, upper);
    lower := Fp(ShiftLeft(lower.f, lower.e - upper.e), upper.e);
  }

  lemma LowerFits(x: Fp, upper: Fp)
    requires IsDouble(x) && upper == Normal(RawUpper(x))
    ensures RawLower(x).e >= upper.e && upper.e <= x.e - 11
    ensures 0 <= Shl(RawLower(x).f, RawLower(x).e - upper.e) < upper.f < 0x1_0000_0000_0000_0000
  {
    NormalFacts(RawUpper(x));
    UpperShift(x);
    var s := x.e - 1 - upper.e;
    ShlLinear(0, 0, s);
    ShlLinear(0, 0, s - 1);
    if x.f == 0x10_0000_0000_0000 {
      ShlDouble(4 * x.f - 1, s - 1);
      ShlMonotone(0, 4 * x.f - 1, s - 1);
      ShlMonotone(4 * x.f - 1, 2 * (2 * x.f + 1), s - 1);
      ShlDouble(2 * x.f + 1, s - 1);
    } else {
      ShlMonotone(0, 2 * x.f - 1, s);
      ShlMonotone(2 * x.f - 1, 2 * x.f + 1, s);
    }
  }

  // A significand of at most 54 bits needs at least ten shifts.
  lemma UpperShift(x: Fp)
    requires IsDouble(x)
    ensures Normal(RawUpper(x)).e <= x.e - 11
  {
    var r := RawUpper(x);
    NormalFacts(r);
    var k := r.e - Normal(r).e;
    if k < 10 {
      ShlMonotone(r.f, 0x40_0000_0000_0000, k);
      PowerShift(k);
    }
  }

  lemma PowerShift(k: nat)
    requires k < 10
    ensures Shl(0x40_0000_0000_0000, k) <= 0x8000_0000_0000_0000
    ensures k < 10 ==> Shl(0x3F_FFFF_FFFF_FFFF, k) < 0x8000_0000_0000_0000
  {
    assert Shl(0x40_0000_0000_0000, 3) == 0x200_0000_0000_0000;
    assert Shl(0x40_0000_0000_0000, 6) == 0x1000_0000_0000_0000;
    assert Shl(0x40_0000_0000_0000, 9) == 0x8000_0000_0000_0000;
    ShlMonotone(0x3F_FFFF_FFFF_FFFF, 0x40_0000_0000_0000, k);
  }

  // ---------------------------------------------------------------- the boundaries are midpoints

  // Same value, whatever the exponent it is written at.
  lemma SameUnits(x: Fp, r: Fp)
    requires Shifted(x, r) && r.e >= -1200
    ensures Units(r) == Units(x)
  {
    ShlShl(x.f, x.e - r.e, r.e + 1200);
  }

  lemma DecodedIsDouble(u: nat)
    requires IsFinitePositive(u)
    ensures IsDouble(FromBits(u)) && -1074 <= FromBits(u).e <= 971
    ensures FromBits(u).f == 0x10_0000_0000_0000 <==> u % 0x10_0000_0000_0000 == 0
    ensures FromBits(u).e == -1074 <==> u < 2 * 0x10_0000_0000_0000
  {
    var biased := u / 0x10_0000_0000_0000;
    assert biased % 2048 == biased;
  }

  // The lowest exponent a boundary can get.
  lemma UpperExponent(x: Fp)
    requires IsDouble(x)
    ensures Normal(RawUpper(x)).e >= x.e - 64
  {
    var r := RawUpper(x);
    NormalFacts(r);
    var k := r.e - Normal(r).e;
    if k > 63 {
      ShlMonotone(1, r.f, k);
      ShlLinear(1, 0, k);
      Pow2Monotone(64, k);
      Pow2Literals();
    }
  }

  /** The upper boundary is exactly half way to the next number. */
  lemma UpperIsMidpoint(u: nat, upper: Fp)
    requires IsFinitePositive(u) && u + 1 < 2047 * 0x10_0000_0000_0000
    requires upper == Normal(RawUpper(FromBits(u)))
    ensures upper.e >= -1200 && 2 * Units(upper) == Units(FromBits(u)) + Units(FromBits(u + 1))
  {
    DecodedIsDouble(u);
    NextNumber(u);
    HalfAbove(FromBits(u), upper);
  }

  lemma HalfAbove(x: Fp, upper: Fp)
    requires IsDouble(x) && x.e >= -1074 && upper == Normal(RawUpper(x))
    ensures upper.e >= -1200 && 2 * Units(upper) == 2 * Units(x) + Shl(1, x.e + 1200)
  {
    UpperExponent(x);
    NormalFacts(RawUpper(x));
    SameUnits(RawUpper(x), upper);
    var E := x.e + 1199;
    ShlLinear(2 * x.f, 1, E);
    ShlDouble(x.f, E);
  }

  /** The lower boundary is exactly half way to the previous number, unless u is the smallest normal
      number: there the code takes the power of two for the bottom of a binade, although the numbers
      below it are just as dense as those above, and stays within a quarter of the gap. */
  lemma LowerIsMidpoint(u: nat, lower: Fp)
    requires IsFinitePositive(u) && lower.e >= -1200 && Shifted(RawLower(FromBits(u)), lower)
    ensures 2 * Units(lower) == Units(FromBits(u - 1)) + Units(FromBits(u)) <==> u != 0x10_0000_0000_0000
    ensures Units(FromBits(u - 1)) < Units(lower) < Units(FromBits(u))
    ensures 2 * Units(lower) >= Units(FromBits(u - 1)) + Units(FromBits(u))
  {
    DecodedIsDouble(u);
    NextNumber(u - 1);
    PreviousExponent(u);
    GapBelow(FromBits(u), FromBits(u - 1).e, lower);
  }

  // The gap below x has the exponent of the previous number.
  lemma GapBelow(x: Fp, previous: int, lower: Fp)
    requires IsDouble(x) && x.e >= -1074 && lower.e >= -1200 && Shifted(RawLower(x), lower)
    requires previous == x.e || (previous == x.e - 1 && x.f == 0x10_0000_0000_0000)
    ensures var gap := Shl(1, previous + 1200);
            (2 * Units(lower) == 2 * Units(x) - gap <==> x.f != 0x10_0000_0000_0000 || previous == x.e - 1)
            && Units(x) - gap < Units(lower) < Units(x) && 2 * Units(lower) >= 2 * Units(x) - gap
  {
    SameUnits(RawLower(x), lower);
    if x.f == 0x10_0000_0000_0000 {
      QuarterBelow(x, previous);
    } else {
      HalfBelow(x.f, x.e + 1199);
    }
  }

  lemma PreviousExponent(u: nat)
    requires IsFinitePositive(u)
    ensures FromBits(u - 1).e == if u % 0x10_0000_0000_0000 == 0 && u > 0x10_0000_0000_0000
                                 then FromBits(u).e - 1 else FromBits(u).e
    ensures FromBits(u - 1).e >= -1074
  {
    DecodeNext(u - 1);
    DecodedIsDouble(u);
    var biased := (u - 1) / 0x10_0000_0000_0000;
    assert biased % 2048 == biased;
  }

  lemma HalfBelow(f: nat, E: nat)
    requires f > 0
    ensures 2 * Shl(2 * f - 1, E) == 2 * Shl(f, E + 1) - Shl(1, E + 1)
    ensures Shl(1, E + 1) > 0
  {
    ShlLinear(2 * f - 1, 1, E);
    ShlDouble(f, E);
    ShlLinear(0, 0, E);
    assert Shl(1, E + 1) == 2 * Shl(1, E);
  }

  lemma QuarterBelow(x: Fp, previous: int)
    requires x.f == 0x10_0000_0000_0000 && x.e >= -1074 && (previous == x.e || previous == x.e - 1)
    ensures 2 * Shl(4 * x.f - 1, x.e + 1198) == 2 * Units(x) - Shl(1, x.e + 1199)
    ensures Shl(1, previous + 1200) == if previous == x.e then 2 * Shl(1, x.e + 1199) else Shl(1, x.e + 1199)
    ensures Shl(1, x.e + 1199) > 0
  {
    var E := x.e + 1198;
    ShlLinear(4 * x.f - 1, 1, E);
    ShlDouble(2 * x.f, E);
    ShlDouble(x.f, E + 1);
    ShlLinear(0, 0, E + 1);
    assert Shl(1, E + 1) == 2 * Shl(1, E);
  }

  // ---------------------------------------------------------------- the rounded product

  /** Four 32-bit products; each operation is taken modulo 2^64. */
  function Multiply(x: Fp, y: Fp): Fp
    requires x.f < 0x1_0000_0000_0000_0000 && y.f < 0x1_0000_0000_0000_0000
  {
    var a, b := x.f / 0x1_0000_0000, x.f % 0x1_0000_0000;
    var c, d := y.f / 0x1_0000_0000, y.f % 0x1_0000_0000;
    Fp(Combine(Mul64(a, c), Mul64(b, c), Mul64(a, d), Mul64(b, d)), x.e + y.e + 64)
  }

  function Mul64(a: nat, b: nat): (r: nat)
    ensures r < 0x1_0000_0000_0000_0000
  {
    Wrap(a * b)
  }

  function Mid(bc: nat, ad: nat, bd: nat): nat {
    Wrap(bd / 0x1_0000_0000 + ad % 0x1_0000_0000 + bc % 0x1_0000_0000 + 0x8000_0000)
  }

  function Combine(ac: nat, bc: nat, ad: nat, bd: nat): nat {
    Wrap(ac + ad / 0x1_0000_0000 + bc / 0x1_0000_0000 + Mid(bc, ad, bd) / 0x1_0000_0000)
  }

  // p / 2^64, rounded to nearest with ties up.
  function Rounded(p: nat): nat {
    (p + 0x8000_0000_0000_0000) / 0x1_0000_0000_0000_0000
  }

  /** The product is the exact one over 2^64, rounded to nearest with ties up. */
  lemma MultiplyRounds(x: Fp, y: Fp)
    requires x.f < 0x1_0000_0000_0000_0000 && y.f < 0x1_0000_0000_0000_0000
    ensures var r := Multiply(x, y);
            r.f == Rounded(Product(x.f, y.f)) && r.f < 0x1_0000_0000_0000_0000 && r.e == x.e + y.e + 64
  {
    var a, b := x.f / 0x1_0000_0000, x.f % 0x1_0000_0000;
    var c, d := y.f / 0x1_0000_0000, y.f % 0x1_0000_0000;
    SmallProduct(a, c);
    SmallProduct(b, c);
    SmallProduct(a, d);
    SmallProduct(b, d);
    Partial(x.f, a, b, y.f, c, d);
    CombineParts(a * c, b * c, a * d, b * d, x.f * y.f);
  }

  lemma SmallProduct(a: nat, b: nat)
    requires a <= 0xFFFF_FFFF && b <= 0xFFFF_FFFF
    ensures a * b <= 0xFFFF_FFFE_0000_0001 && Mul64(a, b) == a * b
  {
    ProductBound(a, b);
    NoWrap(a * b);
  }

  lemma ProductBound(a: nat, b: nat)
    requires a <= 0xFFFF_FFFF && b <= 0xFFFF_FFFF
    ensures a * b <= 0xFFFF_FFFE_0000_0001
  {
    MulLe(a, b, 0xFFFF_FFFF);
  }

  lemma Partial(x: nat, a: nat, b: nat, y: nat, c: nat, d: nat)
    requires x == 0x1_0000_0000 * a + b && y == 0x1_0000_0000 * c + d
    ensures x * y == 0x1_0000_0000_0000_0000 * (a * c) + 0x1_0000_0000 * (b * c + a * d) + b * d
  {
    assert x * y == 0x1_0000_0000 * a * y + b * y;
    assert a * y == 0x1_0000_0000 * (a * c) + a * d;
    assert b * y == 0x1_0000_0000 * (b * c) + b * d;
  }

  lemma CombineParts(ac: nat, bc: nat, ad: nat, bd: nat, xy: nat)
    requires ac <= 0xFFFF_FFFE_0000_0001 && bc <= 0xFFFF_FFFE_0000_0001
    requires ad <= 0xFFFF_FFFE_0000_0001 && bd <= 0xFFFF_FFFE_0000_0001
    requires xy == 0x1_0000_0000_0000_0000 * ac + 0x1_0000_0000 * (bc + ad) + bd
    ensures Combine(ac, bc, ad, bd) == Rounded(xy)
    ensures Combine(ac, bc, ad, bd) < 0x1_0000_0000_0000_0000
  {
    MidParts(bc, ad, bd);
    var mid := Mid(bc, ad, bd);
    var sum := ac + ad / 0x1_0000_0000 + bc / 0x1_0000_0000 + mid / 0x1_0000_0000;
    NoWrap(sum);
    WholePart(sum, mid % 0x1_0000_0000, bd % 0x1_0000_0000);
  }

  lemma MidParts(bc: nat, ad: nat, bd: nat)
    requires bc <= 0xFFFF_FFFE_0000_0001 && ad <= 0xFFFF_FFFE_0000_0001 && bd <= 0xFFFF_FFFE_0000_0001
    ensures Mid(bc, ad, bd) <= 0x3_7FFF_FFFD
    ensures 0x1_0000_0000 * (bc + ad) + bd + 0x8000_0000_0000_0000
         == 0x1_0000_0000_0000_0000 * (ad / 0x1_0000_0000 + bc / 0x1_0000_0000)
            + 0x1_0000_0000 * Mid(bc, ad, bd) + bd % 0x1_0000_0000
  {
    NoWrap(bd / 0x1_0000_0000 + ad % 0x1_0000_0000 + bc % 0x1_0000_0000 + 0x8000_0000);
  }

  lemma WholePart(sum: nat, mid: nat, low: nat)
    requires mid < 0x1_0000_0000 && low < 0x1_0000_0000
    ensures (0x1_0000_0000_0000_0000 * sum + 0x1_0000_0000 * mid + low) / 0x1_0000_0000_0000_0000 == sum
  {}
}
