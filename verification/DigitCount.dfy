/** Counting decimal digits, from the bit length and by division. */
module DigitCount {
  import opened Decimal

  /** The number of significant bits: 64 (or 32) minus the count of leading zeros. */
  function BitLength(n: nat): (b: nat)
    ensures n == 0 <==> b == 0
  {
    if n == 0 then 0 else 1 + BitLength(n / 2)
  }

  lemma {:induction false} BitLengthBounds(n: nat)
    ensures n < Pow2(BitLength(n))
    ensures n > 0 ==> Pow2(BitLength(n) - 1) <= n
  {
    if n > 0 {
      BitLengthBounds(n / 2);
    }
  }

  // n | 1
  function WithLowBit(n: nat): nat {
    if n % 2 == 0 then n + 1 else n
  }

  // The table of powers of ten whose entry 0 is 0.
  function ZeroOrPowerOf10(t: nat): nat {
    if t == 0 then 0 else Pow10(t)
  }

  /** The branch-free form: t - (n < table[t]) + 1 with t = bits * 1233 >> 12. The 64- and the 32-bit
      versions differ in the width that the leading zeros are counted in, which cancels out. */
  function CountDigits(n: nat): int {
    var t := BitLength(WithLowBit(n)) * 1233 / 4096;
    t - (if n < ZeroOrPowerOf10(t) then 1 else 0) + 1
  }

  // The greatest bit length whose t is at most the given one, up to 64 bits.
  function LastBits(t: nat): nat {
    if t >= 19 then 64 else (4096 * (t + 1) - 1) / 1233
  }

  lemma Bands0()
    ensures Pow2(3) == 0x8 && Pow2(6) == 0x40 && Pow2(9) == 0x200
    ensures Pow2(13) == 0x2000 && Pow2(16) == 0x10000
    ensures Pow10(1) == 10 && Pow10(2) == 100 && Pow10(3) == 1000
    ensures Pow10(4) == 10000 && Pow10(5) == 100000
  {
    assert Pow2(3) == 0x8 && Pow10(1) == 10;
    assert Pow2(6) == 0x40 && Pow10(2) == 100;
    assert Pow2(9) == 0x200 && Pow10(3) == 1000;
    assert Pow2(13) == 0x2000 && Pow10(4) == 10000;
    assert Pow2(16) == 0x10000 && Pow10(5) == 100000;
  }

  lemma Bands1()
    requires Pow2(16) == 0x10000 && Pow10(5) == 100000
    ensures Pow2(19) == 0x80000 && Pow2(23) == 0x800000 && Pow2(26) == 0x4000000
    ensures Pow2(29) == 0x20000000 && Pow2(33) == 0x200000000
    ensures Pow10(6) == 1000000 && Pow10(7) == 10000000 && Pow10(8) == 100000000
    ensures Pow10(9) == 1000000000 && Pow10(10) == 10000000000
  {
    assert Pow2(19) == 0x80000 && Pow10(6) == 1000000;
    assert Pow2(23) == 0x800000 && Pow10(7) == 10000000;
    assert Pow2(26) == 0x4000000 && Pow10(8) == 100000000;
    assert Pow2(29) == 0x20000000 && Pow10(9) == 1000000000;
    assert Pow2(33) == 0x200000000 && Pow10(10) == 10000000000;
  }

  lemma Bands2()
    requires Pow2(33) == 0x200000000 && Pow10(10) == 10000000000
    ensures Pow2(36) == 0x1000000000 && Pow2(39) == 0x8000000000 && Pow2(43) == 0x80000000000
    ensures Pow2(46) == 0x400000000000 && Pow2(49) == 0x2000000000000
    ensures Pow10(11) == 100000000000 && Pow10(12) == 1000000000000 && Pow10(13) == 10000000000000
    ensures Pow10(14) == 100000000000000 && Pow10(15) == 1000000000000000
  {
    assert Pow2(36) == 0x1000000000 && Pow10(11) == 100000000000;
    assert Pow2(39) == 0x8000000000 && Pow10(12) == 1000000000000;
    assert Pow2(43) == 0x80000000000 && Pow10(13) == 10000000000000;
    assert Pow2(46) == 0x400000000000 && Pow10(14) == 100000000000000;
    assert Pow2(49) == 0x2000000000000 && Pow10(15) == 1000000000000000;
  }

  lemma Bands3()
    requires Pow2(49) == 0x2000000000000 && Pow10(15) == 1000000000000000
    ensures Pow2(53) == 0x20000000000000 && Pow2(56) == 0x100000000000000 && Pow2(59) == 0x800000000000000
    ensures Pow2(63) == 0x8000000000000000 && Pow2(64) == 0x10000000000000000
    ensures Pow10(16) == 10000000000000000 && Pow10(17) == 100000000000000000 && Pow10(18) == 1000000000000000000
    ensures Pow10(19) == 10000000000000000000 && Pow10(20) == 100000000000000000000
  {
    assert Pow2(53) == 0x20000000000000 && Pow10(16) == 10000000000000000;
    assert Pow2(56) == 0x100000000000000 && Pow10(17) == 100000000000000000;
    assert Pow2(59) == 0x800000000000000 && Pow10(18) == 1000000000000000000;
    assert Pow2(63) == 0x8000000000000000 && Pow10(19) == 10000000000000000000;
    assert Pow2(64) == 0x10000000000000000 && Pow10(20) == 100000000000000000000;
  }

  /** 10^t <= 2^LastBits(t) <= 10^(t+1): what makes 1233 / 4096 a good enough log10(2) up to 64 bits. */
  lemma Band(t: nat)
    requires t <= 19
    ensures Pow10(t) <= Pow2(LastBits(t)) <= Pow10(t + 1)
  {
    if t < 10 { LowBand(t); } else { HighBand(t); }
  }

  lemma LowBand(t: nat)
    requires t <= 9
    ensures Pow10(t) <= Pow2(LastBits(t)) <= Pow10(t + 1)
  {
    Bands0();
    Bands1();
    if t == 0 {
      assert LastBits(0) == 3;
    } else if t == 1 {
      assert LastBits(1) == 6;
    } else if t == 2 {
      assert LastBits(2) == 9;
    } else if t == 3 {
      assert LastBits(3) == 13;
    } else if t == 4 {
      assert LastBits(4) == 16;
    } else if t == 5 {
      assert LastBits(5) == 19;
    } else if t == 6 {
      assert LastBits(6) == 23;
    } else if t == 7 {
      assert LastBits(7) == 26;
    } else if t == 8 {
      assert LastBits(8) == 29;
    } else if t == 9 {
      assert LastBits(9) == 33;
    }
  }

  lemma HighBand(t: nat)
    requires 10 <= t <= 19
    ensures Pow10(t) <= Pow2(LastBits(t)) <= Pow10(t + 1)
  {
    Bands0();
    Bands1();
    Bands2();
    Bands3();
    if t == 10 {
      assert LastBits(10) == 36;
    } else if t == 11 {
      assert LastBits(11) == 39;
    } else if t == 12 {
      assert LastBits(12) == 43;
    } else if t == 13 {
      assert LastBits(13) == 46;
    } else if t == 14 {
      assert LastBits(14) == 49;
    } else if t == 15 {
      assert LastBits(15) == 53;
    } else if t == 16 {
      assert LastBits(16) == 56;
    } else if t == 17 {
      assert LastBits(17) == 59;
    } else if t == 18 {
      assert LastBits(18) == 63;
    } else if t == 19 {
      assert LastBits(19) == 64;
    }
  }

  /** For every 64-bit n the branch-free form is the number of decimal digits. */
  lemma CountDigitsIsExact(n: nat)
    requires n < 0x1_0000_0000_0000_0000
    ensures CountDigits(n) == NumDigits(n)
    ensures BitLength(WithLowBit(n)) * 1233 / 4096 <= 19
    ensures n < 0x1_0000_0000 ==> BitLength(WithLowBit(n)) * 1233 / 4096 <= 9
  {
    IndexIsClose(n);
    DigitsFromIndex(n, BitLength(WithLowBit(n)) * 1233 / 4096);
  }

  /** The table index is the power of ten at n or the one above it. */
  lemma IndexIsClose(n: nat)
    requires n < 0x1_0000_0000_0000_0000
    ensures var t := BitLength(WithLowBit(n)) * 1233 / 4096;
            t <= 19 && (n < 0x1_0000_0000 ==> t <= 9) && n < Pow10(t + 1) && (t > 0 ==> Pow10(t - 1) <= n)
  {
    var m := WithLowBit(n);
    var b := BitLength(m);
    var t := b * 1233 / 4096;
    BitLengthBounds(m);
    AtMost64Bits(m);
    BitsGivePower(b, t);
    if t > 0 { OddBound(n, m, t - 1, b - 1); }
  }

  lemma DigitsFromIndex(n: nat, t: nat)
    requires n < Pow10(t + 1) && (t > 0 ==> Pow10(t - 1) <= n)
    ensures NumDigits(n) == t - (if n < ZeroOrPowerOf10(t) then 1 else 0) + 1
  {
    NumDigitsUnique(n, if n < ZeroOrPowerOf10(t) then t else t + 1);
  }

  lemma BitsGivePower(b: nat, t: nat)
    requires b <= 64 && t == b * 1233 / 4096
    ensures t <= 19 && (b <= 32 ==> t <= 9) && Pow2(b) <= Pow10(t + 1)
    ensures t > 0 ==> b > 1 && Pow10(t - 1) <= Pow2(b - 1)
  {
    Band(t);
    Pow2Monotone(b, LastBits(t));
    if t > 0 {
      Band(t - 1);
      Pow2Monotone(LastBits(t - 1), b - 1);
    }
  }

  // Setting the low bit does not carry n over an even power of two.
  lemma OddBound(n: nat, m: nat, t: nat, b: nat)
    requires m == WithLowBit(n) && b > 0 && Pow10(t) <= Pow2(b) <= m
    ensures Pow10(t) <= n
  {
    assert Pow2(b) == 2 * Pow2(b - 1);
    if n % 2 == 0 { EvenSteps(Pow2(b - 1), n); }
  }

  lemma EvenSteps(h: nat, n: nat)
    requires n % 2 == 0 && 2 * h <= n + 1
    ensures 2 * h <= n
  {}

  lemma AtMost64Bits(m: nat)
    requires 0 < m < 0x1_0000_0000_0000_0000
    ensures BitLength(m) <= 64
    ensures m < 0x1_0000_0000 ==> BitLength(m) <= 32
  {
    BitLengthBounds(m);
    Pow2Literals();
    if BitLength(m) > 64 {
      Pow2Monotone(64, BitLength(m) - 1);
    }
    if BitLength(m) > 32 {
      Pow2Monotone(32, BitLength(m) - 1);
    }
  }

  /** The looping fallback, four digits at a time. */
  method CountDigitsByDivision(value: nat) returns (count: int)
    requires value < 0x1_0000_0000_0000_0000
    ensures count == NumDigits(value) == CountDigits(value)
  {
    CountDigitsIsExact(value);
    var n := value;
    count := 1;
    while true
      invariant count >= 1 && count - 1 + NumDigits(n) == NumDigits(value)
      decreases n
    {
      FewDigits(n);
      if n < 10 {
        return count;
      }
      if n < 100 {
        return count + 1;
      }
      if n < 1000 {
        return count + 2;
      }
      if n < 10000 {
        return count + 3;
      }
      FourDigits(n);
      n := n / 10000;
      count := count + 4;
    }
  }

  lemma FewDigits(n: nat)
    ensures n < 10000 ==> NumDigits(n) == if n < 10 then 1 else if n < 100 then 2 else if n < 1000 then 3 else 4
  {
    assert NumDigits(n / 1000) == 1 || n >= 10000;
    assert n / 10 / 10 == n / 100;
    assert NumDigits(n / 10) == if n < 100 then 1 else 1 + NumDigits(n / 100);
  }

  lemma FourDigits(n: nat)
    requires n >= 10000
    ensures NumDigits(n) == 4 + NumDigits(n / 10000)
  {
    var a := n / 10;
    var b := a / 10;
    var c := b / 10;
    assert a >= 1000 && b >= 100 && c >= 10 && c / 10 == n / 10000;
    assert NumDigits(b) == 1 + NumDigits(c) && NumDigits(c) == 1 + NumDigits(c / 10);
    assert NumDigits(n) == 1 + NumDigits(a) && NumDigits(a) == 1 + NumDigits(b);
  }
}
