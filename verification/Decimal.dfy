/** Powers of two and of ten, and the decimal text of a natural number. Every fast integer
    printer of the library is specified against Digits, and every reader against Value. */
module Decimal {

  function Pow2(k: nat): (r: nat)
    ensures r >= 1
  {
    if k == 0 then 1 else 2 * Pow2(k - 1)
  }

  function Pow10(k: nat): (r: nat)
    ensures r >= 1
  {
    if k == 0 then 1 else 10 * Pow10(k - 1)
  }

  predicate IsDigit(c: char) {
    '0' <= c <= '9'
  }

  predicate AllDigits(s: seq<char>) {
    forall i :: 0 <= i < |s| ==> IsDigit(s[i])
  }

  function DigitChar(d: nat): (c: char)
    requires d < 10
  {
    ('0' as int + d) as char
  }

  function DigitValue(c: char): int {
    c as int - '0' as int
  }

  /** The shortest decimal text of n: no leading zero unless n is 0. */
  function Digits(n: nat): (s: seq<char>)
    ensures s != []
  {
    if n < 10 then [DigitChar(n)] else Digits(n / 10) + [DigitChar(n % 10)]
  }

  /** The w low decimal digits of n, padded with zeros. */
  function Fixed(n: nat, w: nat): (s: seq<char>)
    ensures |s| == w
  {
    if w == 0 then [] else Fixed(n / 10, w - 1) + [DigitChar(n % 10)]
  }

  /** The number a digit string denotes. */
  function Value(s: seq<char>): int {
    if s == [] then 0 else 10 * Value(s[..|s| - 1]) + DigitValue(s[|s| - 1])
  }

  function NumDigits(n: nat): (d: nat)
    ensures d >= 1
  {
    if n < 10 then 1 else 1 + NumDigits(n / 10)
  }

  lemma {:induction false} DigitsReadBack(n: nat)
    ensures Value(Digits(n)) == n
    ensures |Digits(n)| == NumDigits(n)
    ensures Digits(n)[0] == '0' ==> n == 0
  {
    if n < 10 {
      assert Digits(n)[..0] == [];
    } else {
      DigitsReadBack(n / 10);
      assert Digits(n)[..|Digits(n)| - 1] == Digits(n / 10);
    }
  }

  lemma {:induction false} DigitsAreDigits(n: nat)
    ensures AllDigits(Digits(n))
  {
    if n >= 10 {
      DigitsAreDigits(n / 10);
    }
  }

  lemma DigitsInjective(m: nat, n: nat)
    requires Digits(m) == Digits(n)
    ensures m == n
  {
    DigitsReadBack(m);
    DigitsReadBack(n);
  }

  /** The digit count is the only d with 10^(d-1) <= n < 10^d (0 counts as one digit). */
  lemma {:induction false} NumDigitsBounds(n: nat)
    ensures n < Pow10(NumDigits(n))
    ensures n > 0 ==> Pow10(NumDigits(n) - 1) <= n
  {
    if n >= 10 {
      NumDigitsBounds(n / 10);
    }
  }

  lemma {:induction false} NumDigitsFit(n: nat, w: nat)
    requires w > 0
    ensures NumDigits(n) <= w <==> n < Pow10(w)
  {
    if w == 1 {
      assert Pow10(1) == 10 * Pow10(0) == 10;
    } else if n >= 10 {
      NumDigitsFit(n / 10, w - 1);
    } else {
      Pow10Monotone(1, w);
      assert Pow10(1) == 10 * Pow10(0);
    }
  }

  lemma {:induction false} NumDigitsUnique(n: nat, d: nat)
    requires d >= 1 && n < Pow10(d) && (d > 1 ==> Pow10(d - 1) <= n)
    ensures NumDigits(n) == d
  {
    if d == 1 {
      assert Pow10(1) == 10;
    } else {
      if d == 2 {
        assert Pow10(1) == 10;
      } else {
        assert Pow10(d - 1) == 10 * Pow10(d - 2) && Pow10(d - 2) == 10 * Pow10(d - 3);
      }
      NumDigitsUnique(n / 10, d - 1);
    }
  }

  lemma {:induction false} Pow10Monotone(a: nat, b: nat)
    requires a <= b
    ensures Pow10(a) <= Pow10(b)
    decreases b
  {
    if a < b {
      Pow10Monotone(a, b - 1);
    }
  }

  lemma {:induction false} Pow2Monotone(a: nat, b: nat)
    requires a <= b
    ensures Pow2(a) <= Pow2(b)
    decreases b
  {
    if a < b {
      Pow2Monotone(a, b - 1);
    }
  }

  lemma Pow10Literals()
    ensures Pow10(0) == 1 && Pow10(1) == 10 && Pow10(2) == 100 && Pow10(3) == 1000 && Pow10(4) == 10000
    ensures Pow10(5) == 100000 && Pow10(6) == 1000000 && Pow10(7) == 10000000 && Pow10(8) == 100000000
    ensures Pow10(9) == 1000000000 && Pow10(10) == 10000000000
  {
    assert Pow10(3) == 1000;
    assert Pow10(6) == 1000000;
    assert Pow10(9) == 1000000000;
  }

  lemma Pow2Literals()
    ensures Pow2(16) == 0x1_0000 && Pow2(32) == 0x1_0000_0000
    ensures Pow2(48) == 0x1_0000_0000_0000 && Pow2(60) == 0x1000_0000_0000_0000 && Pow2(64) == 0x1_0000_0000_0000_0000
  {
    assert Pow2(8) == 0x100;
    assert Pow2(16) == 0x1_0000;
    assert Pow2(24) == 0x100_0000;
    assert Pow2(32) == 0x1_0000_0000;
    assert Pow2(40) == 0x100_0000_0000;
    assert Pow2(48) == 0x1_0000_0000_0000;
    assert Pow2(56) == 0x100_0000_0000_0000;
    assert Pow2(60) == 0x1000_0000_0000_0000;
  }

  /** x * 10^k, as k multiplications by ten. */
  function Scale(x: int, k: nat): int {
    if k == 0 then x else 10 * Scale(x, k - 1)
  }

  lemma {:induction false} ScaleAdd(x: int, y: int, k: nat)
    ensures Scale(x + y, k) == Scale(x, k) + Scale(y, k)
  {
    if k > 0 {
      ScaleAdd(x, y, k - 1);
    }
  }

  lemma {:induction false} ScaleMul(c: int, x: int, k: nat)
    ensures Scale(c * x, k) == c * Scale(x, k)
  {
    if k > 0 {
      ScaleMul(c, x, k - 1);
      MulAssoc(c, Scale(x, k - 1));
    }
  }

  lemma {:induction false} ScaleUnit(k: nat)
    ensures Scale(0, k) == 0 && Scale(1, k) == Pow10(k)
  {
    if k > 0 {
      ScaleUnit(k - 1);
    }
  }

  lemma MulAssoc(c: int, x: int)
    ensures 10 * (c * x) == c * (10 * x)
  {}

  lemma {:induction false} ScaleMonotone(x: int, y: int, k: nat)
    requires x <= y
    ensures Scale(x, k) <= Scale(y, k)
    ensures x < y ==> Scale(x, k) + Pow10(k) <= Scale(y, k)
  {
    if k > 0 {
      ScaleMonotone(x, y, k - 1);
    }
  }

  lemma {:induction false} ScaleScale(x: int, a: nat, b: nat)
    ensures Scale(Scale(x, a), b) == Scale(x, a + b)
    decreases b
  {
    if b > 0 {
      ScaleScale(x, a, b - 1);
    }
  }

  /** x * 2^k, as k doublings. */
  function Shl(x: int, k: nat): int {
    if k == 0 then x else 2 * Shl(x, k - 1)
  }

  lemma {:induction false} ShlLinear(x: int, y: int, k: nat)
    ensures Shl(x + y, k) == Shl(x, k) + Shl(y, k)
    ensures Shl(0, k) == 0 && Shl(1, k) == Pow2(k)
    ensures Shl(10 * x, k) == 10 * Shl(x, k)
  {
    if k > 0 {
      ShlLinear(x, y, k - 1);
    }
  }

  lemma {:induction false} ShlMonotone(x: int, y: int, k: nat)
    requires x <= y
    ensures Shl(x, k) <= Shl(y, k)
    ensures x < y ==> Shl(x, k) + Pow2(k) <= Shl(y, k)
  {
    if k > 0 {
      ShlMonotone(x, y, k - 1);
    }
  }

  lemma {:induction false} ShlShl(x: int, a: nat, b: nat)
    ensures Shl(Shl(x, a), b) == Shl(x, a + b)
    decreases b
  {
    if b > 0 {
      ShlShl(x, a, b - 1);
    }
  }

  lemma {:induction false} FixedIsDigits(n: nat)
    ensures Fixed(n, NumDigits(n)) == Digits(n)
  {
    if n >= 10 {
      FixedIsDigits(n / 10);
    } else {
      assert Fixed(n, 1) == Fixed(n / 10, 0) + [DigitChar(n % 10)];
    }
  }

  /** n without its k low decimal digits. */
  function High(n: nat, k: nat): nat {
    if k == 0 then n else High(n / 10, k - 1)
  }

  /** The k low decimal digits of n, as a number. */
  function Low(n: nat, k: nat): nat {
    if k == 0 then 0 else 10 * Low(n / 10, k - 1) + n % 10
  }

  lemma {:induction false} HighLow(n: nat, k: nat)
    ensures n == Scale(High(n, k), k) + Low(n, k) && Low(n, k) < Pow10(k)
  {
    if k > 0 {
      HighLow(n / 10, k - 1);
    }
  }

  lemma {:induction false} HighOfHigh(n: nat, a: nat, b: nat)
    ensures High(High(n, a), b) == High(n, a + b)
  {
    if a > 0 {
      HighOfHigh(n / 10, a - 1, b);
    }
  }

  /** Peeling one more digit off the low part. */
  lemma {:induction false} LowStep(n: nat, k: nat)
    ensures Low(n, k + 1) == Scale(High(n, k) % 10, k) + Low(n, k)
    ensures High(n, k + 1) == High(n, k) / 10
  {
    if k > 0 {
      LowStep(n / 10, k - 1);
    }
  }

  lemma {:induction false} HighSmall(n: nat, k: nat, w: nat)
    requires n < Pow10(k + w)
    ensures High(n, k) < Pow10(w)
  {
    if k > 0 {
      HighSmall(n / 10, k - 1, w);
    }
  }

  /** A fixed-width text only shows the low digits. */
  lemma {:induction false} FixedLow(n: nat, w: nat)
    ensures Fixed(n, w) == Fixed(Low(n, w), w)
  {
    if w > 0 {
      FixedLow(n / 10, w - 1);
      assert Low(n, w) / 10 == Low(n / 10, w - 1) && Low(n, w) % 10 == n % 10;
    }
  }

  lemma FixedLast(n: nat, w: nat)
    requires w > 0
    ensures Fixed(n, w) == Fixed(n / 10, w - 1) + [DigitChar(n % 10)]
  {}

  lemma MoveLast(a: seq<char>, b: seq<char>, c: char)
    ensures (a + b) + [c] == a + (b + [c])
  {}

  lemma {:induction false} FixedSplit(n: nat, a: nat, b: nat)
    ensures Fixed(n, a + b) == Fixed(High(n, b), a) + Fixed(n, b)
    decreases b
  {
    if b > 0 {
      FixedSplit(n / 10, a, b - 1);
      FixedLast(n, a + b);
      FixedLast(n, b);
      assert High(n, b) == High(n / 10, b - 1);
      MoveLast(Fixed(High(n, b), a), Fixed(n / 10, b - 1), DigitChar(n % 10));
    }
  }

  lemma {:induction false} ValueNonnegative(s: seq<char>)
    requires AllDigits(s)
    ensures Value(s) >= 0
  {
    if s != [] {
      ValueNonnegative(s[..|s| - 1]);
    }
  }

  lemma {:induction false} ValueAppend(s: seq<char>, c: char)
    ensures Value(s + [c]) == 10 * Value(s) + DigitValue(c)
  {
    assert (s + [c])[..|s|] == s;
  }

  /** The buffer with text written at p over what was there before. */
  ghost predicate Wrote(s: seq<char>, before: seq<char>, p: nat, text: seq<char>) {
    && |s| == |before| && p + |text| <= |s|
    && (forall k :: 0 <= k < |text| ==> s[p + k] == text[k])
    && (forall k :: 0 <= k < |s| && !(p <= k < p + |text|) ==> s[k] == before[k])
  }
}
