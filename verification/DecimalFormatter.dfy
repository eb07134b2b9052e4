/** The 32-bit decimal printer that multiplies by a 4.32 fixed-point reciprocal instead of dividing. */
module DecimalFormatter {
  import opened Decimal

  // The table of digit pairs "00" "01" ... "99", laid end to end.
  function PairTable(): (s: seq<char>) {
    seq(200, k requires 0 <= k < 200 => if k % 2 == 0 then DigitChar(k / 2 / 10) else DigitChar(k / 2 % 10))
  }

  /** The comparison tree that picks the width class of a 32-bit number. */
  function Lg(n: nat): (g: nat)
    requires n < 0x1_0000_0000
    ensures g <= 9 && NumDigits(n) == g + 1
  {
    LgClasses(n);
    if n < 100 then if n < 10 then 0 else 1
    else if n < 1000000 then
      if n < 10000 then if n < 1000 then 2 else 3
      else if n < 100000 then 4 else 5
    else if n < 100000000 then if n < 10000000 then 6 else 7
    else if n < 1000000000 then 8 else 9
  }

  lemma LgClasses(n: nat)
    requires n < 0x1_0000_0000
    ensures forall d :: 1 <= d <= 10 && n < Pow10(d) && (d > 1 ==> Pow10(d - 1) <= n) ==> NumDigits(n) == d
    ensures Pow10(1) == 10 && Pow10(2) == 100 && Pow10(3) == 1000 && Pow10(4) == 10000 && Pow10(5) == 100000
    ensures Pow10(6) == 1000000 && Pow10(7) == 10000000 && Pow10(8) == 100000000 && Pow10(9) == 1000000000
    ensures Pow10(10) == 10000000000
  {
    Pow10Literals();
    forall d | 1 <= d <= 10 && n < Pow10(d) && (d > 1 ==> Pow10(d - 1) <= n)
      ensures NumDigits(n) == d
    {
      NumDigitsUnique(n, d);
    }
  }

  // n / 5 * n * 53 / 16: how far the reciprocal is shifted to keep its precision.
  function Shift(n: nat): nat {
    n / 5 * n * 53 / 16
  }

  // The right shift by Shift(n) bits, as a division by the literal power of two.
  function ShiftDivisor(n: nat): (d: nat)
    requires 1 <= n <= 8
    ensures d > 0
  {
    [1, 1, 1, 1, 0x1_0000, 0x8_0000, 0x80_0000, 0x400_0000][n - 1]
  }

  lemma PowersOfTwo()
    ensures Pow2(0) == 1 && Pow2(16) == 0x1_0000 && Pow2(19) == 0x8_0000
    ensures Pow2(23) == 0x80_0000 && Pow2(26) == 0x400_0000
  {
    assert Pow2(8) == 0x100;
    assert Pow2(16) == 0x1_0000;
    assert Pow2(23) == 0x80_0000;
  }

  // (1 << (32 + a)) / 10^n + 1 - n / 9
  function Reciprocal(n: nat): int
    requires 1 <= n <= 8
  {
    0x1_0000_0000 * ShiftDivisor(n) / [10, 100, 1000, 10000, 100000, 1000000, 10000000, 100000000][n - 1] + 1 - n / 9
  }

  /** The fixed-point value t before the first pair is written; the product is taken modulo 2^64. */
  function Start(n: nat, u: nat): int
    requires 1 <= n <= 8
  {
    MulShift(Reciprocal(n), u, ShiftDivisor(n)) + n / 5 * 4
  }

  function MulShift(r: int, u: nat, d: nat): int
    requires d > 0
  {
    r * u % 0x1_0000_0000_0000_0000 / d
  }

  /** The same in powers: (((1 << (32 + a)) / 10^n + 1 - n / 9) * u >> a) + n / 5 * 4 for a = n / 5 * n * 53 / 16. */
  function StartInPowers(n: nat, u: nat): int {
    MulShift(Pow2(32 + Shift(n)) / Pow10(n) + 1 - n / 9, u, Pow2(Shift(n))) + n / 5 * 4
  }

  lemma StartIsInPowers(n: nat, u: nat)
    requires 1 <= n <= 8
    ensures Start(n, u) == StartInPowers(n, u)
  {
    assert Shift(n) == [0, 0, 0, 0, 16, 19, 23, 26][n - 1];
    PowersOfTwo();
    MorePowersOfTwo();
    Pow10Literals();
    assert ShiftDivisor(n) == Pow2(Shift(n));
    assert Reciprocal(n) == Pow2(32 + Shift(n)) / Pow10(n) + 1 - n / 9;
  }

  lemma MorePowersOfTwo()
    ensures Pow2(32) == 0x1_0000_0000 && Pow2(48) == 0x1_0000_0000_0000 && Pow2(51) == 0x8_0000_0000_0000
    ensures Pow2(55) == 0x80_0000_0000_0000 && Pow2(58) == 0x400_0000_0000_0000
  {
    Pow2Literals();
    assert Pow2(51) == 8 * Pow2(48);
    assert Pow2(55) == 16 * Pow2(51);
    assert Pow2(58) == 8 * Pow2(55);
  }

  /** t is x / 10^k in units of 2^-32, rounded up by less than one unit of x. */
  ghost predicate FixedPoint(x: nat, t: int, k: nat) {
    x * 0x1_0000_0000 <= Scale(t, k) < (x + 1) * 0x1_0000_0000
  }

  ghost predicate StartsPrecisely(n: nat, u: nat)
    requires 1 <= n <= 8
  {
    0 <= Reciprocal(n) * u < 0x1_0000_0000_0000_0000 && FixedPoint(u, Start(n, u), n)
  }

  /** The reciprocal is precise enough for every number of its width, and the 64-bit product never wraps. */
  lemma StartIsPrecise(n: nat, u: nat)
    requires 1 <= n <= 8 && u < 0x1_0000_0000 && u < Pow10(n + 2)
    ensures StartsPrecisely(n, u) && Start(n, u) == StartInPowers(n, u)
  {
    StartIsInPowers(n, u);
    match n
    case 1 => Start2(u);
    case 2 => Start3(u);
    case 3 => Start4(u);
    case 4 => Start5(u);
    case 5 => Start6(u);
    case 6 => Start7(u);
    case 7 => Start8(u);
    case _ => Start9(u);
  }

  lemma ScaleLiteral(t: int)
    ensures Scale(t, 1) == t * 10 && Scale(t, 2) == t * 100 && Scale(t, 3) == t * 1000 && Scale(t, 4) == t * 10000
    ensures Scale(t, 5) == t * 100000 && Scale(t, 6) == t * 1000000 && Scale(t, 7) == t * 10000000
    ensures Scale(t, 8) == t * 100000000
  {
    assert Scale(t, 1) == t * 10;
    assert Scale(t, 2) == t * 100;
    assert Scale(t, 4) == t * 10000;
    assert Scale(t, 6) == t * 1000000;
  }

  lemma Start2(u: nat)
    requires u < 0x1_0000_0000 && u < Pow10(3)
    ensures StartsPrecisely(1, u)
  {
    Pow10Literals();
    assert Reciprocal(1) == 429496730 by {
      assert 4294967296 / 10 + 1 - 0 == 429496730;
    }
    var t := 429496730 * u / 0x1 + 0;
    assert MulShift(429496730, u, 0x1) + 0 == t;
    assert u * 0x1_0000_0000 <= t * 10 < (u + 1) * 0x1_0000_0000;
    ScaleLiteral(t);
  }

  lemma Start3(u: nat)
    requires u < 0x1_0000_0000 && u < Pow10(4)
    ensures StartsPrecisely(2, u)
  {
    Pow10Literals();
    assert Reciprocal(2) == 42949673 by {
      assert 4294967296 / 100 + 1 - 0 == 42949673;
    }
    var t := 42949673 * u / 0x1 + 0;
    assert MulShift(42949673, u, 0x1) + 0 == t;
    assert u * 0x1_0000_0000 <= t * 100 < (u + 1) * 0x1_0000_0000;
    ScaleLiteral(t);
  }

  lemma Start4(u: nat)
    requires u < 0x1_0000_0000 && u < Pow10(5)
    ensures StartsPrecisely(3, u)
  {
    Pow10Literals();
    assert Reciprocal(3) == 4294968 by {
      assert 4294967296 / 1000 + 1 - 0 == 4294968;
    }
    var t := 4294968 * u / 0x1 + 0;
    assert MulShift(4294968, u, 0x1) + 0 == t;
    assert u * 0x1_0000_0000 <= t * 1000 < (u + 1) * 0x1_0000_0000;
    ScaleLiteral(t);
  }

  lemma Start5(u: nat)
    requires u < 0x1_0000_0000 && u < Pow10(6)
    ensures StartsPrecisely(4, u)
  {
    Pow10Literals();
    assert Reciprocal(4) == 429497 by {
      assert 4294967296 / 10000 + 1 - 0 == 429497;
    }
    var t := 429497 * u / 0x1 + 0;
    assert MulShift(429497, u, 0x1) + 0 == t;
    assert u * 0x1_0000_0000 <= t * 10000 < (u + 1) * 0x1_0000_0000;
    ScaleLiteral(t);
  }

  lemma Bounds6(u: nat)
    requires u < 10000000
    ensures 2814749768 * u < 0x1_0000_0000_0000_0000
    ensures u * 0x1_0000_0000 <= (2814749768 * u / 0x10000 + 4) * 100000 < (u + 1) * 0x1_0000_0000
  {}

  lemma Start6(u: nat)
    requires u < 0x1_0000_0000 && u < Pow10(7)
    ensures StartsPrecisely(5, u)
  {
    Pow10Literals();
    assert Reciprocal(5) == 2814749768 by {
      assert 281474976710656 / 100000 + 1 - 0 == 2814749768;
    }
    var t := 2814749768 * u / 0x10000 + 4;
    assert MulShift(2814749768, u, 0x10000) + 4 == t;
    Bounds6(u);
    ScaleLiteral(t);
  }

  lemma Bounds7(u: nat)
    requires u < 100000000
    ensures 2251799814 * u < 0x1_0000_0000_0000_0000
    ensures u * 0x1_0000_0000 <= (2251799814 * u / 0x80000 + 4) * 1000000 < (u + 1) * 0x1_0000_0000
  {}

  lemma Start7(u: nat)
    requires u < 0x1_0000_0000 && u < Pow10(8)
    ensures StartsPrecisely(6, u)
  {
    Pow10Literals();
    assert Reciprocal(6) == 2251799814 by {
      assert 2251799813685248 / 1000000 + 1 - 0 == 2251799814;
    }
    var t := 2251799814 * u / 0x80000 + 4;
    assert MulShift(2251799814, u, 0x80000) + 4 == t;
    Bounds7(u);
    ScaleLiteral(t);
  }

  lemma Bounds8(u: nat)
    requires u < 1000000000
    ensures 3602879702 * u < 0x1_0000_0000_0000_0000
    ensures u * 0x1_0000_0000 <= (3602879702 * u / 0x800000 + 4) * 10000000 < (u + 1) * 0x1_0000_0000
  {}

  lemma Start8(u: nat)
    requires u < 0x1_0000_0000 && u < Pow10(9)
    ensures StartsPrecisely(7, u)
  {
    Pow10Literals();
    assert Reciprocal(7) == 3602879702 by {
      assert 36028797018963968 / 10000000 + 1 - 0 == 3602879702;
    }
    var t := 3602879702 * u / 0x800000 + 4;
    assert MulShift(3602879702, u, 0x800000) + 4 == t;
    Bounds8(u);
    ScaleLiteral(t);
  }

  lemma Bounds9(u: nat)
    requires u < 4294967296
    ensures 2882303762 * u < 0x1_0000_0000_0000_0000
    ensures u * 0x1_0000_0000 <= (2882303762 * u / 0x4000000 + 4) * 100000000 < (u + 1) * 0x1_0000_0000
  {}

  lemma Start9(u: nat)
    requires u < 0x1_0000_0000 && u < Pow10(10)
    ensures StartsPrecisely(8, u)
  {
    Pow10Literals();
    assert Reciprocal(8) == 2882303762 by {
      assert 288230376151711744 / 100000000 + 1 - 0 == 2882303762;
    }
    var t := 2882303762 * u / 0x4000000 + 4;
    assert MulShift(2882303762, u, 0x4000000) + 4 == t;
    Bounds9(u);
    ScaleLiteral(t);
  }

  /** One extraction: the integer part of t is the quotient, and the fraction stands for the remainder. */
  lemma Extract(x: nat, t: int, k: nat, q: int, y: nat)
    requires FixedPoint(x, t, k) && x == Scale(q, k) + y && y < Pow10(k)
    ensures t / 0x1_0000_0000 == q && FixedPoint(y, t % 0x1_0000_0000, k)
  {
    var h, r := t / 0x1_0000_0000, t % 0x1_0000_0000;
    ScaleAdd(0x1_0000_0000 * h, r, k);
    ScaleMul(0x1_0000_0000, h, k);
    ScaleMul(0x1_0000_0000, 1, k);
    ScaleUnit(k);
    ScaleMonotone(0, r, k);
    ScaleMonotone(r, 0x1_0000_0000, k);
    if h < q {
      ScaleMonotone(h, q, k);
    } else if q < h {
      ScaleMonotone(q, h, k);
    }
  }

  /** Multiplying the fraction by ten exposes the next digit of u. */
  lemma NextDigit(u: nat, t: int, low: nat)
    requires FixedPoint(Low(u, low + 1), t % 0x1_0000_0000, low + 1)
    ensures 10 * (t % 0x1_0000_0000) / 0x1_0000_0000 == High(u, low) % 10
    ensures FixedPoint(Low(u, low), 10 * (t % 0x1_0000_0000) % 0x1_0000_0000, low)
  {
    LowStep(u, low);
    HighLow(u, low);
    ScaleScale(t % 0x1_0000_0000, 1, low);
    assert Scale(t % 0x1_0000_0000, 1) == 10 * (t % 0x1_0000_0000);
    Extract(Low(u, low + 1), 10 * (t % 0x1_0000_0000), low, High(u, low) % 10, Low(u, low));
  }

  /** Multiplying it by a hundred exposes the next pair. */
  lemma NextPair(u: nat, t: int, low: nat)
    requires FixedPoint(Low(u, low + 2), t % 0x1_0000_0000, low + 2)
    ensures 100 * (t % 0x1_0000_0000) / 0x1_0000_0000 == High(u, low) % 100
    ensures FixedPoint(Low(u, low), 100 * (t % 0x1_0000_0000) % 0x1_0000_0000, low)
  {
    HighLow(u, low);
    LowTwoSteps(u, low);
    ScaleScale(t % 0x1_0000_0000, 2, low);
    assert Scale(t % 0x1_0000_0000, 1) == 10 * (t % 0x1_0000_0000);
    assert Scale(t % 0x1_0000_0000, 2) == 100 * (t % 0x1_0000_0000);
    Extract(Low(u, low + 2), 100 * (t % 0x1_0000_0000), low, High(u, low) % 100, Low(u, low));
  }

  lemma LowTwoSteps(u: nat, low: nat)
    ensures Low(u, low + 2) == Scale(High(u, low) % 100, low) + Low(u, low)
    ensures High(u, low + 2) == High(u, low) / 100
  {
    LowStep(u, low);
    LowStep(u, low + 1);
    var h := High(u, low);
    PairOf(h);
    ScaleScale(h / 10 % 10, 1, low);
    ScaleAdd(10 * (h / 10 % 10), h % 10, low);
    assert Scale(h / 10 % 10, 1) == 10 * (h / 10 % 10);
  }

  lemma PairOf(h: nat)
    ensures 10 * (h / 10 % 10) + h % 10 == h % 100 && h / 10 / 10 == h / 100
    ensures h / 10 % 10 == h % 100 / 10
  {
    var q, rest := h / 100, h % 100;
    assert h / 10 == 10 * q + rest / 10;
  }

  /** Appending the pair v % 100 to the text of v / 100. */
  lemma FixedPair(v: nat, w: nat)
    ensures Fixed(v, w + 2) == Fixed(v / 100, w) + [DigitChar(v % 100 / 10), DigitChar(v % 10)]
  {
    PairOf(v);
    assert Fixed(v, w + 2) == Fixed(v / 10, w + 1) + [DigitChar(v % 10)];
  }

  lemma PutPair(s: seq<char>, before: seq<char>, p: nat, text: seq<char>, a: char, b: char)
    requires Wrote(s, before, p, text) && p + |text| + 2 <= |before|
    ensures Wrote(s[p + |text| := a][p + |text| + 1 := b], before, p, text + [a, b])
  {}

  lemma FirstPair(before: seq<char>, p: nat, a: char, b: char)
    requires p + 2 <= |before|
    ensures Wrote(before[p := a][p + 1 := b], before, p, [a, b])
  {}

  lemma TwoDigits(v: nat)
    requires v < 100
    ensures Fixed(v, 2) == [DigitChar(v / 10), DigitChar(v % 10)]
  {
    var d := v / 10;
    assert d % 10 == d;
    assert Fixed(d, 1) == Fixed(d / 10, 0) + [DigitChar(d)];
  }

  lemma PutOne(s: seq<char>, before: seq<char>, p: nat, text: seq<char>, a: char)
    requires Wrote(s, before, p, text) && p + |text| < |before|
    ensures Wrote(s[p + |text| := a], before, p, text + [a])
  {}

  /** i characters of u are written, and t still holds its `rest` low digits. */
  ghost predicate AfterPairs(s: seq<char>, before: seq<char>, p: nat, u: nat, i: nat, rest: nat, t: int) {
    Wrote(s, before, p, Fixed(High(u, rest), i)) && FixedPoint(Low(u, rest), t % 0x1_0000_0000, rest)
  }

  /** One round of the loop: the pair is the next two digits, and the fraction stands for those after it. */
  lemma PairStep(s: seq<char>, before: seq<char>, p: nat, u: nat, i: nat, low: nat, t: int, t': int)
    requires AfterPairs(s, before, p, u, i, low + 2, t) && p + i + 2 <= |before| && t' == 100 * (t % 0x1_0000_0000)
    ensures t' / 0x1_0000_0000 < 100
    ensures AfterPairs(s[p + i := DigitChar(t' / 0x1_0000_0000 / 10)][p + i + 1 := DigitChar(t' / 0x1_0000_0000 % 10)],
              before, p, u, i + 2, low, t')
  {
    var h := High(u, low);
    NextPair(u, t, low);
    LowTwoSteps(u, low);
    FixedPair(h, i);
    PairOf(h);
    assert h % 100 % 10 == h % 10;
    PutPair(s, before, p, Fixed(High(u, low + 2), i), DigitChar(h % 100 / 10), DigitChar(h % 10));
  }

  /** The odd digit at the end. */
  lemma LastStep(s: seq<char>, before: seq<char>, p: nat, u: nat, g: nat, t: int)
    requires AfterPairs(s, before, p, u, g, 1, t) && p + g < |before|
    ensures var digit := 10 * (t % 0x1_0000_0000) / 0x1_0000_0000;
            digit < 10 && Wrote(s[p + g := DigitChar(digit)], before, p, Fixed(u, g + 1))
  {
    NextDigit(u, t, 0);
    assert High(u, 1) == High(u / 10, 0) == u / 10;
    PutOne(s, before, p, Fixed(High(u, 1), g), DigitChar(u % 10));
  }

  /** The lg handler: it writes at a moving position of a caller's buffer. */
  class Formatter {
    const buffer: array<char>
    var pos: nat

    constructor (buf: array<char>, start: nat)
      ensures buffer == buf && pos == start
    {
      buffer := buf;
      pos := start;
    }

    method WritePair(at: nat, index: nat)
      requires index < 100 && pos + at + 2 <= buffer.Length
      modifies buffer
      ensures buffer[..] == old(buffer[..])[pos + at := DigitChar(index / 10)][pos + at + 1 := DigitChar(index % 10)]
    {
      buffer[pos + at] := PairTable()[index * 2];
      buffer[pos + at + 1] := PairTable()[index * 2 + 1];
    }

    /** Prints u, whose width class is g: exactly its decimal digits, and nothing else in the buffer. */
    method On(g: nat, u: nat)
      requires u < 0x1_0000_0000 && g == Lg(u) && pos + g + 1 <= buffer.Length
      modifies this`pos, buffer
      ensures pos == old(pos) + g + 1
      ensures Wrote(buffer[..], old(buffer[..]), old(pos), Digits(u))
    {
      ghost var before := buffer[..];
      FixedIsDigits(u);
      if g == 0 {
        buffer[pos] := DigitChar(u);
        PutOne(before, before, pos, [], DigitChar(u));
      } else if g == 1 {
        WritePair(0, u);
        FirstPair(before, pos, DigitChar(u / 10), DigitChar(u % 10));
        TwoDigits(u);
      } else {
        var t := OnPairs(g, u);
        if g % 2 == 0 {
          LastStep(buffer[..], before, pos, u, g, t);
          buffer[pos + g] := DigitChar(10 * (t % 0x1_0000_0000) / 0x1_0000_0000);
        }
      }
      pos := pos + g + 1;
    }

    // t = ((reciprocal * u) >> a) + n / 5 * 4, whose integer part is the leading pair.
    static method Multiply(n: nat, u: nat) returns (t: int)
      requires 1 <= n <= 8 && u < 0x1_0000_0000 && NumDigits(u) == n + 2
      ensures t / 0x1_0000_0000 == High(u, n) < 100 && FixedPoint(Low(u, n), t % 0x1_0000_0000, n)
    {
      t := Start(n, u);
      LeadingPair(n, u, t);
    }

    method LeadPair(g: nat, u: nat) returns (t: int)
      requires 2 <= g <= 9 && u < 0x1_0000_0000 && NumDigits(u) == g + 1 && pos + g + 1 <= buffer.Length
      modifies buffer
      ensures AfterPairs(buffer[..], old(buffer[..]), pos, u, 2, g - 1, t)
    {
      ghost var before := buffer[..];
      t := Multiply(g - 1, u);
      WritePair(0, t / 0x1_0000_0000);
      TwoDigits(High(u, g - 1));
      FirstPair(before, pos, DigitChar(High(u, g - 1) / 10), DigitChar(High(u, g - 1) % 10));
    }

    // Three digits and more: every whole pair from the left.
    method OnPairs(g: nat, u: nat) returns (t: int)
      requires 2 <= g <= 9 && u < 0x1_0000_0000 && NumDigits(u) == g + 1 && pos + g + 1 <= buffer.Length
      modifies buffer
      ensures AfterPairs(buffer[..], old(buffer[..]), pos, u, g + g % 2, 1 - g % 2, t)
    {
      ghost var before := buffer[..];
      t := LeadPair(g, u);
      var i := 2;
      while i < g
        invariant 2 <= i <= g + 1 && i % 2 == 0
        invariant AfterPairs(buffer[..], before, pos, u, i, g + 1 - i, t)
      {
        t := NextPairAt(i, t, before, u, g - 1 - i);
        i := i + 2;
      }
    }

    method NextPairAt(i: nat, t: int, ghost before: seq<char>, ghost u: nat, ghost low: nat) returns (t': int)
      requires |before| == buffer.Length && pos + i + 2 <= buffer.Length
      requires AfterPairs(buffer[..], before, pos, u, i, low + 2, t)
      modifies buffer
      ensures AfterPairs(buffer[..], before, pos, u, i + 2, low, t')
    {
      t' := 100 * (t % 0x1_0000_0000);
      PairStep(buffer[..], before, pos, u, i, low, t, t');
      WritePair(i, t' / 0x1_0000_0000);
    }
  }

  /** The first pair of a number of n + 2 digits. */
  lemma LeadingPair(n: nat, u: nat, t: int)
    requires 1 <= n <= 8 && u < 0x1_0000_0000 && NumDigits(u) == n + 2 && t == Start(n, u)
    ensures t / 0x1_0000_0000 == High(u, n) < 100 && FixedPoint(Low(u, n), t % 0x1_0000_0000, n)
  {
    NumDigitsBounds(u);
    StartIsPrecise(n, u);
    HighLow(u, n);
    Extract(u, t, n, High(u, n), Low(u, n));
    HighSmall(u, n, 2);
    assert Pow10(2) == 100;
  }
}
