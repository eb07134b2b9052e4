/** The Grisu printer put together: every number it accepts without dropping digits lies strictly
    between the rounding boundaries, so reading it back gives the same double. */
module GrisuFormat {
  import opened Decimal
  import opened GrisuFp
  import opened GrisuScaling
  import opened GrisuDigits

  // The exponent that the cached power must bring the product to.
  predicate InRange(x: Fp, c: Fp)
    requires IsDouble(x)
  {
    NormalFacts(x);
    -60 <= Normal(x).e + c.e + 64 <= -32
  }

  lemma {:induction false} ShrBounds(x: nat, s: nat, a: nat, b: nat)
    requires Shl(a, s) <= x < Shl(b, s)
    ensures a <= Shr(x, s) < b
  {
    ShrMask(x, s);
    if Shr(x, s) < a {
      ShlMonotone(Shr(x, s), a, s);
    }
    if b <= Shr(x, s) {
      ShlMonotone(b, Shr(x, s), s);
    }
  }

  // The top of the interval has between one and ten digits before the point.
  lemma TopSize(upper: nat, bits: nat)
    requires 0x3FFF_FFFF_FFFF_FFFF <= upper < 0x1_0000_0000_0000_0000 && 32 <= bits <= 60
    ensures 0 < Shr(upper, bits) < 0x1_0000_0000
  {
    Pow2Literals();
    ShlLinear(1, 0, bits);
    Pow2Monotone(bits, 60);
    ShlOfPower(32, bits);
    Pow2Monotone(64, 32 + bits);
    ShrBounds(upper, bits, 1, 0x1_0000_0000);
  }

  /** grisu2_format after its trivial cases, for a cached power c. */
  method Format(x: Fp, c: Fp, buf: array<char>, maxDigits: int)
      returns (r: Outcome, size: nat, exp: int, ghost count: nat, ghost n: int, ghost k: int)
    requires IsDouble(x) && IsNormal(c) && InRange(x, c) && maxDigits < buf.Length && 0 < buf.Length
    modifies buf
    ensures var i := SafeInterval(x, c);
            i.e < 0 && (r.TableOverrun? <==> NeedsTenthDigit(i.upper, i.delta, -i.e, maxDigits))
            && (r.Ended? ==>
                  k >= -9
                  && Generated(buf[..], maxDigits, i.upper, i.delta, i.diff, -i.e, count, n, k, r.ok, size, exp))
  {
    var i := ScaleInterval(x, c);
    SafeFacts(x, c);
    TopSize(i.upper, -i.e);
    r, size, exp, count, n, k := Generate(buf, i.upper, -i.e, i.delta, i.diff, maxDigits);
  }

  // ---------------------------------------------------------------- real scaling, one factor at a time

  /** x * 10^k */
  function Tenfold(x: real, k: nat): real {
    if k == 0 then x else 10.0 * Tenfold(x, k - 1)
  }

  /** x * 2^e */
  function Binary(x: real, e: int): real
    decreases if e < 0 then -e else e
  {
    if e == 0 then x else if e > 0 then 2.0 * Binary(x, e - 1) else Binary(x, e + 1) / 2.0
  }

  lemma {:induction false} ScaleReal(x: int, k: nat)
    ensures Scale(x, k) as real == Tenfold(x as real, k)
  {
    if k > 0 {
      ScaleReal(x, k - 1);
    }
  }

  lemma {:induction false} ShlReal(x: int, k: nat)
    ensures Shl(x, k) as real == Binary(x as real, k)
  {
    if k > 0 {
      ShlReal(x, k - 1);
    }
  }

  lemma {:induction false} TenfoldLess(x: real, y: real, k: nat)
    requires x < y
    ensures Tenfold(x, k) < Tenfold(y, k)
  {
    if k > 0 {
      TenfoldLess(x, y, k - 1);
    }
  }

  lemma {:induction false} TenfoldOf64(x: real, k: nat)
    ensures Tenfold(x * 18446744073709551616.0, k) == Tenfold(x, k) * 18446744073709551616.0
  {
    if k > 0 {
      TenfoldOf64(x, k - 1);
    }
  }

  lemma {:induction false} BinaryLinear(x: real, y: real, e: int)
    ensures Binary(x + y, e) == Binary(x, e) + Binary(y, e)
    ensures x < y ==> Binary(x, e) < Binary(y, e)
    ensures Binary(x / 2.0, e) == Binary(x, e) / 2.0
    decreases if e < 0 then -e else e
  {
    if e > 0 {
      BinaryLinear(x, y, e - 1);
    } else if e < 0 {
      BinaryLinear(x, y, e + 1);
    }
  }

  lemma {:induction false} BinaryStep(x: real, e: int)
    ensures Binary(x, e + 1) == 2.0 * Binary(x, e)
    ensures Binary(2.0 * x, e) == 2.0 * Binary(x, e)
    ensures Binary(x / 2.0, e) == Binary(x, e) / 2.0
  {
    BinaryLinear(x, x, e);
    assert x + x == 2.0 * x;
  }

  lemma {:induction false} BinaryBinary(x: real, a: int, b: int)
    ensures Binary(Binary(x, a), b) == Binary(x, a + b)
    decreases if b < 0 then -b else b
  {
    if b > 0 {
      BinaryBinary(x, a, b - 1);
      BinaryStep(x, a + b - 1);
    } else if b < 0 {
      BinaryBinary(x, a, b + 1);
      BinaryStep(x, a + b);
    }
  }

  lemma {:induction false} TenfoldBinary(x: real, e: int, k: nat)
    ensures Tenfold(Binary(x, e), k) == Binary(Tenfold(x, k), e)
  {
    if k > 0 {
      TenfoldBinary(x, e, k - 1);
      BinaryTen(Tenfold(x, k - 1), e);
    }
  }

  lemma {:induction false} BinaryTen(x: real, e: int)
    ensures Binary(10.0 * x, e) == 10.0 * Binary(x, e)
    decreases if e < 0 then -e else e
  {
    if e > 0 {
      BinaryTen(x, e - 1);
    } else if e < 0 {
      BinaryTen(x, e + 1);
    }
  }

  lemma {:induction false} BinaryTimes(x: real, t: real, e: int)
    ensures By(Binary(x, e), t) == Binary(By(x, t), e)
    decreases if e < 0 then -e else e
  {
    if e > 0 {
      BinaryTimes(x, t, e - 1);
      Twice(Binary(x, e - 1), t);
    } else if e < 0 {
      BinaryTimes(x, t, e + 1);
      Twice(Binary(x, e + 1) / 2.0, t);
    }
  }

  lemma Twice(x: real, t: real)
    ensures (2.0 * x) * t == 2.0 * (x * t)
  {}

  // ---------------------------------------------------------------- inside the true interval

  // How often the computation has been multiplied by ten.
  function Below(k: int): nat {
    if k >= 0 then 0 else -k
  }

  // The printed number, times 10^Below(k).
  function Printed(n: int, k: int): int {
    if k >= 0 then Scale(n, k) else n
  }

  lemma UpReal(x: int, k: int)
    ensures Up(x, k) as real == Tenfold(x as real, Below(k))
  {
    ScaleReal(x, Below(k));
  }

  lemma UpMinus(x: int, y: int, k: int)
    ensures Up(x - y, k) == Up(x, k) - Up(y, k)
  {
    if k < 0 {
      ScaleAdd(x - y, y, -k);
    }
  }

  /** Whatever is produced inside the safe interval lies strictly inside the true one. */
  lemma InsideScaled(i: Scaled, n: int, k: int, a: real, b: real)
    requires i.e < 0 && Inside(n, k, i.upper, i.delta, -i.e)
    requires i.upper as real * 18446744073709551616.0 < b && (i.upper - i.delta) as real * 18446744073709551616.0 > a
    ensures Tenfold(a, Below(k)) < Binary(Printed(n, k) as real, -i.e) * 18446744073709551616.0 < Tenfold(b, Below(k))
  {
    var m, w := Below(k), Weight(n, k, -i.e) as real;
    var low, high := (i.upper - i.delta) as real, i.upper as real;
    assert w <= Tenfold(high, m) by {
      UpReal(i.upper, k);
    }
    assert Tenfold(low, m) <= w by {
      UpReal(i.upper - i.delta, k);
      UpMinus(i.upper, i.delta, k);
    }
    assert w == Binary(Printed(n, k) as real, -i.e) by {
      ShlReal(Printed(n, k), -i.e);
    }
    TenfoldLess(a, low * 18446744073709551616.0, m);
    TenfoldLess(high * 18446744073709551616.0, b, m);
    TenfoldOf64(low, m);
    TenfoldOf64(high, m);
  }

  lemma TwoTo64(x: real)
    ensures Binary(x, 64) == x * 18446744073709551616.0
  {
    assert Binary(x, 1) == 2.0 * x;
    BinaryBinary(x, 1, 1);
    assert Binary(x, 2) == 4.0 * x;
    BinaryBinary(x, 2, 2);
    assert Binary(Binary(x, 2), 2) == 16.0 * x;
    BinaryBinary(x, 4, 4);
    FourMore(Binary(x, 4));
    BinaryBinary(x, 8, 8);
    EightMore(Binary(x, 8));
    BinaryBinary(x, 16, 16);
    SixteenMore(Binary(x, 16));
    BinaryBinary(x, 32, 32);
    SixteenMore(x);
    SixteenMore(Binary(x, 32));
    BinaryBinary(Binary(x, 32), 16, 16);
    SixteenMore(Binary(Binary(x, 32), 16));
  }

  lemma FourMore(x: real)
    ensures Binary(x, 4) == 16.0 * x
  {
    assert Binary(x, 2) == 4.0 * x;
    assert Binary(x, 4) == 4.0 * Binary(x, 2);
  }

  lemma EightMore(x: real)
    ensures Binary(x, 8) == 256.0 * x
  {
    FourMore(x);
    FourMore(Binary(x, 4));
    BinaryBinary(x, 4, 4);
  }

  lemma SixteenMore(x: real)
    ensures Binary(x, 16) == 65536.0 * x
  {
    EightMore(x);
    EightMore(Binary(x, 8));
    BinaryBinary(x, 8, 8);
  }

  /** The value f * 2^e. */
  function Val(x: Fp): real {
    Binary(x.f as real, x.e)
  }

  // A number times the true power of ten t * 2^e.
  function TimesPower(v: real, t: real, e: int): real {
    Binary(By(v, t), e)
  }

  // Undoing the scaling by 2^q.
  lemma Unscale(a: real, d: real, b: real, q: int, m: nat)
    requires Tenfold(a, m) < Binary(d, q) < Tenfold(b, m)
    ensures Tenfold(Binary(a, -q), m) < d < Tenfold(Binary(b, -q), m)
  {
    BinaryLinear(Tenfold(a, m), Binary(d, q), -q);
    BinaryLinear(Binary(d, q), Tenfold(b, m), -q);
    BinaryBinary(d, q, -q);
    TenfoldBinary(a, -q, m);
    TenfoldBinary(b, -q, m);
  }

  lemma BoundaryValue(b: Fp, t: real, e: int)
    ensures Binary(ScaledBy(b.f, t), b.e + e) == TimesPower(Val(b), t, e)
  {
    assert By(Val(b), t) == Binary(ScaledBy(b.f, t), b.e) by {
      BinaryTimes(b.f as real, t, b.e);
    }
    BinaryBinary(ScaledBy(b.f, t), b.e, e);
  }

  /** In real terms: n * 10^k lies strictly between the boundaries of x times the true power of ten. */
  lemma InsideReal(x: Fp, c: Fp, t: real, n: int, k: int)
    requires IsDouble(x) && WithinHalf(c, t) && InRange(x, c)
    requires var i := SafeInterval(x, c); Inside(n, k, i.upper, i.delta, -i.e)
    ensures Tenfold(TimesPower(Val(LowerOf(x)), t, c.e), Below(k)) < Printed(n, k) as real
    ensures Printed(n, k) as real < Tenfold(TimesPower(Val(Normal(RawUpper(x))), t, c.e), Below(k))
  {
    var i := SafeInterval(x, c);
    var upper, lower := Normal(RawUpper(x)), LowerOf(x);
    var a, b, d := ScaledBy(lower.f, t), ScaledBy(upper.f, t), Printed(n, k) as real;
    SafeIsInside(x, c, t);
    InsideScaled(i, n, k, a, b);
    TwoTo64(Binary(d, -i.e));
    BinaryBinary(d, -i.e, 64);
    Unscale(a, d, b, 64 - i.e, Below(k));
    Gaps(x);
    BoundaryValue(lower, t, c.e);
    BoundaryValue(upper, t, c.e);
  }
}
