/** Backward decimal writing, thousands separators, and the integer writer: sign, fill, padding. */
module IntegerPrinting {
  import opened Decimal
  import opened FormatSpec

  // ---------------------------------------------------------------- what the digits look like

  // The separator written once k digits are out, k counted from the right.
  function Mark(k: nat, sep: Option<char>): seq<char> {
    if sep.Some? && k > 0 && k % 3 == 0 then [sep.value] else []
  }

  /** The digits s as the backward loop leaves them: a separator on the left of each third one. */
  function Marked(s: seq<char>, sep: Option<char>): seq<char> {
    if s == [] then [] else Mark(|s|, sep) + ([s[0]] + Marked(s[1..], sep))
  }

  /** The same, but no separator after the last digit written. */
  function Text(s: seq<char>, sep: Option<char>): seq<char> {
    if s == [] then [] else [s[0]] + Marked(s[1..], sep)
  }

  /** Grouping as a reader sees it: three digits from the right, then a separator, and so on. */
  function Grouped(s: seq<char>, sep: Option<char>): seq<char> {
    if sep.None? || |s| <= 3 then s
    else Grouped(s[..|s| - 3], sep) + [sep.value] + s[|s| - 3..]
  }

  lemma {:induction false} MarkedShort(s: seq<char>, sep: Option<char>)
    requires sep.None? || |s| < 3
    ensures Marked(s, sep) == s
  {
    if s != [] {
      MarkedShort(s[1..], sep);
    }
  }

  lemma MarkThree(k: nat, sep: char)
    requires k > 0
    ensures Mark(k + 3, Some(sep)) == Mark(k, Some(sep))
  {}

  /** A whole group on the right adds itself and one separator. */
  lemma {:induction false} MarkedSplit(a: seq<char>, b: seq<char>, sep: char)
    requires |b| == 3
    ensures Marked(a + b, Some(sep)) == Marked(a, Some(sep)) + ([sep] + b)
  {
    if a == [] {
      assert a + b == b;
      MarkedShort(b[1..], Some(sep));
    } else {
      assert (a + b)[1..] == a[1..] + b;
      MarkedSplit(a[1..], b, sep);
      MarkThree(|a|, sep);
    }
  }

  /** The digits written right to left with a running counter are the digits grouped by threes. */
  lemma {:induction false} TextIsGrouped(s: seq<char>, sep: Option<char>)
    ensures Text(s, sep) == Grouped(s, sep)
  {
    if sep.None? || |s| <= 3 {
      if s != [] {
        MarkedShort(s[1..], sep);
      }
    } else {
      var a, b := s[..|s| - 3], s[|s| - 3..];
      TextIsGrouped(a, sep);
      MarkedSplit(a[1..], b, sep.value);
      assert s[1..] == a[1..] + b;
      assert Text(s, sep) == [s[0]] + (Marked(a[1..], sep) + ([sep.value] + b));
    }
  }

  /** k digits carry exactly (k - 1) / 3 separators. */
  lemma {:induction false} GroupedLength(s: seq<char>, sep: Option<char>)
    ensures |Grouped(s, sep)| == |s| + if sep.None? || s == [] then 0 else (|s| - 1) / 3
  {
    if sep.Some? && |s| > 3 {
      GroupedLength(s[..|s| - 3], sep);
    }
  }

  /** Every fourth cell from the right is a separator, and the others are the digits in order. */
  lemma {:induction false} GroupedCells(s: seq<char>, sep: char, q: nat, r: nat)
    requires r <= 3 && |s| > 0
    requires 4 * q + r < |Grouped(s, Some(sep))|
    ensures var cell := Grouped(s, Some(sep))[|Grouped(s, Some(sep))| - 1 - 4 * q - r];
            if r == 3 then cell == sep else 3 * q + r < |s| && cell == s[|s| - 1 - 3 * q - r]
  {
    if |s| > 3 {
      var h := Grouped(s[..|s| - 3], Some(sep));
      assert |Grouped(s, Some(sep))| == |h| + 4;
      if q > 0 {
        GroupedCells(s[..|s| - 3], sep, q - 1, r);
      }
    }
  }

  // The characters that are digits.
  function OnlyDigits(s: seq<char>): seq<char> {
    if s == [] then [] else OnlyDigits(s[..|s| - 1]) + (if IsDigit(s[|s| - 1]) then [s[|s| - 1]] else [])
  }

  lemma {:induction false} OnlyDigitsAppend(a: seq<char>, b: seq<char>)
    ensures OnlyDigits(a + b) == OnlyDigits(a) + OnlyDigits(b)
    decreases |b|
  {
    if b == [] {
      assert a + b == a;
    } else {
      OnlyDigitsAppend(a, b[..|b| - 1]);
      assert (a + b)[..|a + b| - 1] == a + b[..|b| - 1];
    }
  }

  lemma {:induction false} OnlyDigitsOfDigits(s: seq<char>)
    requires AllDigits(s)
    ensures OnlyDigits(s) == s
  {
    if s != [] {
      OnlyDigitsOfDigits(s[..|s| - 1]);
    }
  }

  /** Skipping a separator that is not a digit gives the digits back, so grouping keeps the value. */
  lemma {:induction false} GroupedReadBack(s: seq<char>, sep: Option<char>)
    requires AllDigits(s) && (sep.Some? ==> !IsDigit(sep.value))
    ensures OnlyDigits(Grouped(s, sep)) == s
  {
    if sep.None? || |s| <= 3 {
      OnlyDigitsOfDigits(s);
    } else {
      var a, b := s[..|s| - 3], s[|s| - 3..];
      GroupedReadBack(a, sep);
      OnlyDigitsOfDigits(b);
      OnlyDigitsAppend(Grouped(a, sep) + [sep.value], b);
      SkipLast(Grouped(a, sep), sep.value);
      assert s == a + b;
    }
  }

  lemma SkipLast(s: seq<char>, c: char)
    requires !IsDigit(c)
    ensures OnlyDigits(s + [c]) == OnlyDigits(s)
  {
    assert (s + [c])[..|s|] == s;
  }

  // ---------------------------------------------------------------- writing backwards

  lemma WriteBefore(s: seq<char>, before: seq<char>, p: nat, text: seq<char>, c: char)
    requires Wrote(s, before, p, text) && p >= 1
    ensures Wrote(s[p - 1 := c], before, p - 1, [c] + text)
  {}

  /** The functor called after each character but the last: no separator, or one after each third digit. */
  class ThousandsSep {
    const sep: Option<char>
    var digitIndex: nat

    constructor (sep: Option<char>)
      ensures this.sep == sep && digitIndex == 0
    {
      this.sep := sep;
      digitIndex := 0;
    }

    method Call(buf: array<char>, p: nat, ghost before: seq<char>, ghost text: seq<char>) returns (q: nat)
      requires Wrote(buf[..], before, p, text) && p >= |Mark(digitIndex + 1, sep)|
      modifies this`digitIndex, buf
      ensures digitIndex == old(digitIndex) + 1 && q == p - |Mark(digitIndex, sep)|
      ensures Wrote(buf[..], before, q, Mark(digitIndex, sep) + text)
    {
      digitIndex := digitIndex + 1;
      q := p;
      assert [] + text == text;
      if sep.Some? && digitIndex % 3 == 0 {
        WriteBefore(buf[..], before, p, text, sep.value);
        q := p - 1;
        buf[q] := sep.value;
      }
    }
  }

  // The text after k digits, and the cell it starts in.
  ghost predicate Written(s: seq<char>, before: seq<char>, n: nat, k: nat, sep: Option<char>, p: nat, end: nat) {
    var text := Marked(Fixed(n, k), sep);
    p + |text| == end && Wrote(s, before, p, text)
  }

  lemma {:induction false} MarkedFits(s: seq<char>, k: nat, sep: Option<char>)
    requires k < |s|
    ensures |Marked(s[|s| - k..], sep)| < |Text(s, sep)|
  {
    if k == |s| - 1 {
      assert s[|s| - k..] == s[1..];
    } else {
      var t := s[1..];
      MarkedFits(t, k, sep);
      assert t[|t| - k..] == s[|s| - k..];
      assert Marked(t, sep) == Mark(|t|, sep) + Text(t, sep);
    }
  }

  lemma FixedStep(n: nat, k: nat)
    ensures Fixed(n, k + 1) == [DigitChar(High(n, k) % 10)] + Fixed(n, k)
  {
    FixedSplit(n, 1, k);
    var h := High(n, k);
    assert Fixed(h, 1) == Fixed(h / 10, 0) + [DigitChar(h % 10)];
  }

  // One more digit leaves room for the rest of the text.
  lemma DigitFits(n: nat, k: nat, sep: Option<char>)
    requires k < NumDigits(n)
    ensures |Marked(Fixed(n, k), sep)| < |Text(Digits(n), sep)|
  {
    FixedIsDigits(n);
    FixedSplit(n, NumDigits(n) - k, k);
    MarkedFits(Digits(n), k, sep);
    assert Digits(n)[|Digits(n)| - k..] == Fixed(n, k);
  }

  lemma NextDigit(n: nat, k: nat, sep: Option<char>)
    ensures Marked(Fixed(n, k + 1), sep)
         == Mark(k + 1, sep) + ([DigitChar(High(n, k) % 10)] + Marked(Fixed(n, k), sep))
    ensures High(n, k + 1) == High(n, k) / 10
  {
    FixedStep(n, k);
    LowStep(n, k);
    assert Fixed(n, k + 1)[1..] == Fixed(n, k);
  }

  // A character and the functor call after it: digit k of n.
  method PutDigit(buf: array<char>, p: nat, c: char, sep: ThousandsSep, ghost before: seq<char>, ghost n: nat,
                  ghost end: nat)
      returns (q: nat)
    requires Written(buf[..], before, n, sep.digitIndex, sep.sep, p, end)
    requires c == DigitChar(High(n, sep.digitIndex) % 10)
    requires end >= |Marked(Fixed(n, sep.digitIndex + 1), sep.sep)|
    modifies sep`digitIndex, buf
    ensures sep.digitIndex == old(sep.digitIndex) + 1
    ensures Written(buf[..], before, n, sep.digitIndex, sep.sep, q, end)
  {
    ghost var k := sep.digitIndex;
    NextDigit(n, k, sep.sep);
    ghost var text := Marked(Fixed(n, k), sep.sep);
    WriteBefore(buf[..], before, p, text, c);
    buf[p - 1] := c;
    q := sep.Call(buf, p - 1, before, [c] + text);
  }

  // The two low digits of v, where v is what is left of n.
  method PutPair(buf: array<char>, p: nat, v: nat, sep: ThousandsSep, ghost before: seq<char>, ghost n: nat,
                 ghost end: nat)
      returns (q: nat)
    requires v >= 100 && v == High(n, sep.digitIndex) && sep.digitIndex + NumDigits(v) == NumDigits(n)
    requires Written(buf[..], before, n, sep.digitIndex, sep.sep, p, end) && end >= |Text(Digits(n), sep.sep)|
    modifies sep`digitIndex, buf
    ensures sep.digitIndex == old(sep.digitIndex) + 2
    ensures v / 100 == High(n, sep.digitIndex) && sep.digitIndex + NumDigits(v / 100) == NumDigits(n)
    ensures Written(buf[..], before, n, sep.digitIndex, sep.sep, q, end)
  {
    ghost var k := sep.digitIndex;
    TwoDivisions(v, n, k);
    DigitFits(n, k + 1, sep.sep);
    DigitFits(n, k + 2, sep.sep);
    var index := v % 100;
    q := PutDigit(buf, p, DigitChar(index % 10), sep, before, n, end);
    q := PutDigit(buf, q, DigitChar(index / 10), sep, before, n, end);
  }

  /** Writes value right to left, two digits per division. Given the exact number of cells it fills
      them all and touches nothing else. */
  method FormatDecimal(buf: array<char>, start: nat, value: nat, numCells: nat, s: Option<char>) returns (end: nat)
    requires start + numCells <= buf.Length && numCells == |Grouped(Digits(value), s)|
    modifies buf
    ensures end == start + numCells && Wrote(buf[..], old(buf[..]), start, Grouped(Digits(value), s))
  {
    ghost var before := buf[..];
    ghost var n := value;
    TextIsGrouped(Digits(n), s);
    FixedIsDigits(n);
    DigitsReadBack(n);
    end := start + numCells;
    var v: nat, p: nat := value, end;
    var sep := new ThousandsSep(s);
    while v >= 100
      invariant sep.sep == s && sep.digitIndex + NumDigits(v) == NumDigits(n) && v == High(n, sep.digitIndex)
      invariant Written(buf[..], before, n, sep.digitIndex, s, p, end)
      decreases v
    {
      p := PutPair(buf, p, v, sep, before, n, end);
      v := v / 100;
    }
    p := PutLast(buf, p, v, sep, before, n, end);
  }

  // The last one or two digits.
  method PutLast(buf: array<char>, at: nat, rest: nat, sep: ThousandsSep, ghost before: seq<char>, ghost n: nat,
                 ghost end: nat)
      returns (q: nat)
    requires rest < 100 && rest == High(n, sep.digitIndex) && sep.digitIndex + NumDigits(rest) == NumDigits(n)
    requires Written(buf[..], before, n, sep.digitIndex, sep.sep, at, end) && end >= |Text(Digits(n), sep.sep)|
    modifies sep`digitIndex, buf
    ensures q + |Text(Digits(n), sep.sep)| == end && Wrote(buf[..], before, q, Text(Digits(n), sep.sep))
  {
    var v, p := rest, at;
    if v >= 10 {
      LastButOne(v, n, sep.digitIndex, sep.sep);
      p := PutDigit(buf, p, DigitChar(v % 10), sep, before, n, end);
      v := v / 10;
    }
    LastWritten(buf[..], before, n, sep.digitIndex, sep.sep, p, end);
    q := p - 1;
    buf[q] := DigitChar(v);
  }

  lemma LastButOne(v: nat, n: nat, k: nat, sep: Option<char>)
    requires 10 <= v < 100 && v == High(n, k) && k + NumDigits(v) == NumDigits(n)
    ensures High(n, k + 1) == v / 10 && k + 2 == NumDigits(n)
    ensures |Marked(Fixed(n, k + 1), sep)| < |Text(Digits(n), sep)|
  {
    TwoDivisions(v, n, k);
    DigitFits(n, k + 1, sep);
  }

  lemma TwoDivisions(v: nat, n: nat, k: nat)
    requires v >= 10 && v == High(n, k)
    ensures High(n, k + 1) == v / 10 && v % 100 % 10 == v % 10
    ensures NumDigits(v) == 1 + NumDigits(v / 10)
    ensures v >= 100 ==> High(n, k + 2) == v / 100 && v % 100 / 10 == v / 10 % 10
                         && NumDigits(v) == 2 + NumDigits(v / 100)
  {
    LowStep(n, k);
    LowStep(n, k + 1);
    assert v / 10 / 10 == v / 100;
    assert v % 100 / 10 == v / 10 % 10;
  }

  lemma LastWritten(s: seq<char>, before: seq<char>, n: nat, k: nat, sep: Option<char>, p: nat, end: nat)
    requires k + 1 == NumDigits(n) && High(n, k) < 10
    requires Written(s, before, n, k, sep, p, end) && end >= |Text(Digits(n), sep)|
    ensures p >= 1 && p - 1 + |Text(Digits(n), sep)| == end
    ensures Wrote(s[p - 1 := DigitChar(High(n, k))], before, p - 1, Text(Digits(n), sep))
  {
    LastDigit(n, k, sep);
    WriteBefore(s, before, p, Marked(Fixed(n, k), sep), DigitChar(High(n, k)));
  }

  lemma LastDigit(n: nat, k: nat, sep: Option<char>)
    requires k + 1 == NumDigits(n) && High(n, k) < 10
    ensures Text(Digits(n), sep) == [DigitChar(High(n, k))] + Marked(Fixed(n, k), sep)
  {
    FixedIsDigits(n);
    FixedStep(n, k);
    assert High(n, k) % 10 == High(n, k);
    assert Digits(n)[1..] == Fixed(n, k);
  }
}
