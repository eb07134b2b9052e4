/** Whole integers: the fast formatter with its own buffer, and the padded, signed, grouped writer. */
module IntegerWriter {
  import opened Decimal
  import opened DigitCount
  import opened FormatSpec
  import opened IntegerPrinting

  // ---------------------------------------------------------------- sizes and signs

  /** 64-bit values have at most 20 digits and 6 separators, 32-bit ones 10 and 3: the scratch
      buffers of max_size + max_size / 3 cells hold them exactly. */
  lemma ScratchFits(n: nat, sep: Option<char>)
    requires n < 0x1_0000_0000_0000_0000
    ensures NumDigits(n) <= 20 && |Grouped(Digits(n), sep)| <= 20 + 20 / 3
    ensures n < 0x1_0000_0000 ==> NumDigits(n) <= 10 && |Grouped(Digits(n), sep)| <= 10 + 10 / 3
    ensures |Grouped(Digits(n), sep)| == NumDigits(n) + if sep.None? then 0 else (NumDigits(n) - 1) / 3
  {
    CountDigitsIsExact(n);
    GroupedLength(Digits(n), sep);
    DigitsReadBack(n);
  }

  // Unsigned negation, 0 - x modulo 2^64.
  function Negate(x: nat): nat
    requires x < 0x1_0000_0000_0000_0000
  {
    (0x1_0000_0000_0000_0000 - x) % 0x1_0000_0000_0000_0000
  }

  /** The magnitude as the code computes it: a cast to unsigned, negated when the value was negative. */
  function Magnitude(value: int): (m: nat)
    requires -0x8000_0000_0000_0000 <= value < 0x1_0000_0000_0000_0000
    ensures m == if value < 0 then -value else value
  {
    var cast := value % 0x1_0000_0000_0000_0000;
    if value < 0 then Negate(cast) else cast
  }

  function SignedText(value: int): seq<char> {
    (if value < 0 then ['-'] else []) + Digits(if value < 0 then -value else value)
  }

  function SignedValue(s: seq<char>): int {
    if s != [] && s[0] == '-' then -Value(s[1..]) else Value(s)
  }

  lemma SignedReadBack(value: int)
    ensures SignedValue(SignedText(value)) == value
  {
    var m: nat := if value < 0 then -value else value;
    DigitsReadBack(m);
    DigitsAreDigits(m);
    if value < 0 {
      assert SignedText(value)[1..] == Digits(m);
    } else {
      assert SignedText(value) == Digits(m);
    }
  }

  // ---------------------------------------------------------------- format_int

  class FormatInt {
    const buffer: array<char>
    var str: nat

    ghost predicate Valid()
      reads this
    {
      buffer.Length == 22 && str <= 21
    }

    ghost function Contents(): seq<char>
      reads this, buffer
      requires Valid()
    {
      buffer[str..21]
    }

    constructor Unsigned(value: nat)
      requires value < 0x1_0000_0000_0000_0000
      ensures Valid() && fresh(buffer) && Contents() == Digits(value)
    {
      buffer := new char[22];
      str := 21;
      new;
      str := FormatBackwards(value);
    }

    /** Every signed value, the minimum included, whose magnitude has no signed counterpart. */
    constructor Signed(value: int)
      requires -0x8000_0000_0000_0000 <= value < 0x8000_0000_0000_0000
      ensures Valid() && fresh(buffer) && Contents() == SignedText(value)
    {
      buffer := new char[22];
      str := 21;
      new;
      var m := Magnitude(value);
      str := FormatBackwards(m);
      if value < 0 {
        MinusFits(value);
        str := str - 1;
        buffer[str] := '-';
      }
    }

    // The private format_decimal: backwards from the last cell, the count not known beforehand.
    method FormatBackwards(value: nat) returns (ptr: nat)
      requires value < 0x1_0000_0000_0000_0000 && buffer.Length == 22
      modifies buffer
      ensures ptr == 21 - NumDigits(value) >= 1 && buffer[ptr..21] == Digits(value)
    {
      ghost var before, n := buffer[..], value;
      ScratchFits(n, None);
      DigitsReadBack(n);
      TextIsGrouped(Digits(n), None);
      var v: nat, p: nat := value, 21;
      var none := new ThousandsSep(None);
      while v >= 100
        invariant none.sep == None && none.digitIndex + NumDigits(v) == NumDigits(n) && v == High(n, none.digitIndex)
        invariant Written(buffer[..], before, n, none.digitIndex, None, p, 21)
        decreases v
      {
        p := PutPair(buffer, p, v, none, before, n, 21);
        v := v / 100;
      }
      ptr := PutLast(buffer, p, v, none, before, n, 21);
    }
  }

  lemma MinusFits(value: int)
    requires -0x8000_0000_0000_0000 <= value < 0
    ensures NumDigits(-value) <= 19
  {
    assert Pow10(7) == 10000000;
    assert Pow10(13) == 10000000000000;
    assert Pow10(19) == 10000000000000000000;
    NumDigitsBounds(-value);
    if NumDigits(-value) > 19 {
      Pow10Monotone(19, NumDigits(-value) - 1);
    }
  }

  // ---------------------------------------------------------------- padding

  function Repeat(c: char, k: nat): seq<char> {
    seq(k, _ => c)
  }

  function Max(a: int, b: int): int {
    if a < b then b else a
  }

  /** How many fill characters go where. */
  datatype Layout = Layout(left: nat, inner: nat, innerFill: char, right: nat)

  /** Numeric alignment pads between sign and digits; otherwise a precision asks for leading zeros, and
      the rest of the width goes left, right or on both sides. */
  function LayoutOf(spec: Specs, prefix: nat, digits: nat): Layout {
    if spec.align == Numeric then Layout(0, Max(0, spec.width - (prefix + digits)), spec.fill, 0)
    else
      var inner := Max(0, spec.precision - digits);
      var pad := Max(0, spec.width - (prefix + digits + inner));
      var left := if spec.align == Left then 0 else if spec.align == Center then pad / 2 else pad;
      Layout(left, inner, '0', pad - left)
  }

  function Lay(l: Layout, fill: char, prefix: seq<char>, digits: seq<char>): seq<char> {
    Repeat(fill, l.left) + prefix + Repeat(l.innerFill, l.inner) + digits + Repeat(fill, l.right)
  }

  /** The field is exactly as wide as asked for, or as its content if that is wider; a centred one
      leans left by at most one, the digits are never cut, and a precision asks for leading zeros. */
  lemma LayoutFills(spec: Specs, prefix: nat, digits: nat)
    ensures var l := LayoutOf(spec, prefix, digits);
            l.left + prefix + l.inner + digits + l.right
            == Max(spec.width, prefix + if spec.align == Numeric then digits else Max(digits, spec.precision))
    ensures var l := LayoutOf(spec, prefix, digits);
            (spec.align == Left ==> l.left == 0)
            && (spec.align == Right || spec.align == Default ==> l.right == 0)
            && (spec.align == Center ==> l.left <= l.right <= l.left + 1)
            && (spec.align == Numeric ==> l.left == l.right == 0)
            && (spec.align != Numeric ==> digits + l.inner == Max(digits, spec.precision))
            && l.innerFill == if spec.align == Numeric then spec.fill else '0'
  {}

  function Prefix(value: int, flags: Flags): seq<char> {
    if value < 0 then ['-'] else if flags.sign then (if flags.plus then ['+'] else [' ']) else []
  }

  /** The whole field for a value, plain when there is no separator. */
  function IntField(value: int, spec: Specs, sep: Option<char>): seq<char>
    requires -0x8000_0000_0000_0000 <= value < 0x1_0000_0000_0000_0000
  {
    var prefix, digits := Prefix(value, spec.flags), Grouped(Digits(Magnitude(value)), sep);
    Lay(LayoutOf(spec, |prefix|, |digits|), spec.fill, prefix, digits)
  }

  // The arithmetic of write_int and write_padded puts every character where the layout says.
  lemma PaddedIsLaid(spec: Specs, prefix: seq<char>, digits: seq<char>, fill: char, padding: nat)
    requires var l := LayoutOf(spec, |prefix|, |digits|); padding == l.inner && (padding > 0 ==> fill == l.innerFill)
    ensures var pad := Max(0, spec.width - (|prefix| + padding + |digits|));
            var align := if spec.align == Default then Right else spec.align;
            var left := if align == Right then pad else if align == Center then pad / 2 else 0;
            Repeat(spec.fill, left) + (prefix + Repeat(fill, padding) + digits) + Repeat(spec.fill, pad - left)
            == Lay(LayoutOf(spec, |prefix|, |digits|), spec.fill, prefix, digits)
  {
    var l := LayoutOf(spec, |prefix|, |digits|);
    assert Repeat(fill, padding) == Repeat(l.innerFill, l.inner);
    var a, b, c := Repeat(spec.fill, l.left), Repeat(l.innerFill, l.inner), Repeat(spec.fill, l.right);
    assert a + (prefix + b + digits) + c == a + prefix + b + digits + c;
  }

  class Writer {
    var out: seq<char>

    constructor ()
      ensures out == []
    {
      out := [];
    }

    method Fill(c: char, count: nat)
      modifies this
      ensures out == old(out) + Repeat(c, count)
    {
      var i := 0;
      while i < count
        invariant 0 <= i <= count && out == old(out) + Repeat(c, i)
      {
        out := out + [c];
        i := i + 1;
        assert Repeat(c, i) == Repeat(c, i - 1) + [c];
      }
    }

    // The padded_int_writer: prefix, inner fill, digits.
    method Content(prefix: seq<char>, fill: char, padding: nat, digits: seq<char>)
      modifies this
      ensures out == old(out) + (prefix + Repeat(fill, padding) + digits)
    {
      out := out + prefix;
      Fill(fill, padding);
      out := out + digits;
    }

    /** Fill, content, fill. */
    method WritePadded(spec: Specs, align: Align, size: nat, prefix: seq<char>, fill: char, padding: nat,
                       digits: seq<char>)
      requires size == |prefix| + padding + |digits|
      modifies this
      ensures var pad := Max(0, spec.width - size);
              var left := if align == Right then pad else if align == Center then pad / 2 else 0;
              out == old(out)
                     + (Repeat(spec.fill, left) + (prefix + Repeat(fill, padding) + digits)
                        + Repeat(spec.fill, pad - left))
    {
      if spec.width <= size {
        Content(prefix, fill, padding, digits);
        assert Repeat(spec.fill, 0) == [];
        return;
      }
      var total := spec.width - size;
      if align == Right {
        Fill(spec.fill, total);
        Content(prefix, fill, padding, digits);
        assert Repeat(spec.fill, 0) == [];
      } else if align == Center {
        var left := total / 2;
        Fill(spec.fill, left);
        Content(prefix, fill, padding, digits);
        Fill(spec.fill, total - left);
      } else {
        Content(prefix, fill, padding, digits);
        Fill(spec.fill, total);
        assert Repeat(spec.fill, 0) == [];
      }
    }

    /** Sizes, inner fill and default alignment. */
    method WriteInt(numDigits: nat, prefix: seq<char>, spec: Specs, digits: seq<char>)
      requires numDigits == |digits|
      modifies this
      ensures out == old(out) + Lay(LayoutOf(spec, |prefix|, numDigits), spec.fill, prefix, digits)
    {
      var size := |prefix| + numDigits;
      var fill, padding: nat := spec.fill, 0;
      if spec.align == Numeric {
        if spec.width > size {
          padding := spec.width - size;
          size := spec.width;
        }
      } else if spec.precision > numDigits {
        size := |prefix| + spec.precision;
        padding := spec.precision - numDigits;
        fill := '0';
      }
      var align := if spec.align == Default then Right else spec.align;
      WritePadded(spec, align, size, prefix, fill, padding, digits);
      PaddedIsLaid(spec, prefix, digits, fill, padding);
    }

    /** on_dec, and on_num when a separator is given. */
    method Write(value: int, spec: Specs, sep: Option<char>)
      requires -0x8000_0000_0000_0000 <= value < 0x1_0000_0000_0000_0000
      modifies this
      ensures out == old(out) + IntField(value, spec, sep)
    {
      var m := Magnitude(value);
      CountDigitsIsExact(m);
      ScratchFits(m, sep);
      var numDigits := CountDigits(m);
      var size := if sep.None? then numDigits else numDigits + (numDigits - 1) / 3;
      var scratch := new char[26];
      var end := FormatDecimal(scratch, 0, m, size, sep);
      assert scratch[..end] == Grouped(Digits(m), sep);
      WriteInt(size, Prefix(value, spec.flags), spec, scratch[..end]);
    }
  }

  // ---------------------------------------------------------------- reading a field back

  lemma {:induction false} OnlyDigitsOfFill(c: char, k: nat)
    ensures !IsDigit(c) ==> OnlyDigits(Repeat(c, k)) == []
    ensures IsDigit(c) ==> OnlyDigits(Repeat(c, k)) == Repeat(c, k)
  {
    if k > 0 {
      OnlyDigitsOfFill(c, k - 1);
      assert Repeat(c, k)[..k - 1] == Repeat(c, k - 1);
    }
  }

  // The digits among k fill characters.
  function DigitFill(c: char, k: nat): (r: seq<char>)
    ensures AllDigits(r)
  {
    if IsDigit(c) then Repeat(c, k) else []
  }

  lemma {:induction false} ValueJoin(a: seq<char>, b: seq<char>)
    ensures Value(a + b) == Scale(Value(a), |b|) + Value(b)
    decreases |b|
  {
    if b == [] {
      assert a + b == a;
    } else {
      var t, c := b[..|b| - 1], b[|b| - 1];
      ValueJoin(a, t);
      LastApart(a, b);
      ValueAppend(t, c);
      ValueAppend(a + t, c);
      ScaleNext(Value(a), |t|, Value(t), DigitValue(c));
    }
  }

  lemma LastApart(a: seq<char>, b: seq<char>)
    requires b != []
    ensures var t, c := b[..|b| - 1], b[|b| - 1]; b == t + [c] && a + b == (a + t) + [c]
  {}

  lemma ScaleNext(x: int, k: nat, y: int, d: int)
    ensures 10 * (Scale(x, k) + y) + d == Scale(x, k + 1) + (10 * y + d)
  {}

  lemma {:induction false} FillValue(c: char, k: nat)
    requires IsDigit(c)
    ensures Value(Repeat(c, k)) >= 0 && (Value(Repeat(c, k)) == 0 <==> k == 0 || c == '0')
  {
    if k > 0 {
      FillValue(c, k - 1);
      ValueAppend(Repeat(c, k - 1), c);
      assert Repeat(c, k) == Repeat(c, k - 1) + [c];
    }
  }

  /** Fill digits in front never lower the value, and only zeros keep it. */
  lemma LeadingFill(c: char, k: nat, s: seq<char>)
    requires AllDigits(s)
    ensures Value(DigitFill(c, k) + s) >= Value(s) >= 0
    ensures Value(DigitFill(c, k) + s) == Value(s) <==> !IsDigit(c) || k == 0 || c == '0'
  {
    var f := DigitFill(c, k);
    ValueNonnegative(s);
    ValueJoin(f, s);
    ScaleUnit(|s|);
    if IsDigit(c) { FillValue(c, k); }
    ScaleMonotone(0, Value(f), |s|);
  }

  /** Fill digits behind multiply the value: only zeros behind a zero keep it. */
  lemma {:induction false} TrailingFill(s: seq<char>, c: char, k: nat)
    requires AllDigits(s)
    ensures Value(s + DigitFill(c, k)) >= Value(s) >= 0
    ensures Value(s + DigitFill(c, k)) == Value(s) <==> !IsDigit(c) || k == 0 || (c == '0' && Value(s) == 0)
  {
    ValueNonnegative(s);
    if IsDigit(c) && k > 0 {
      assert s + DigitFill(c, k) == (s + DigitFill(c, k - 1)) + [c];
      ValueAppend(s + DigitFill(c, k - 1), c);
      TrailingFill(s, c, k - 1);
    } else {
      assert s + DigitFill(c, k) == s;
    }
  }

  // Where the parts of a field are.
  function FieldLayout(value: int, spec: Specs, sep: Option<char>): Layout
    requires -0x8000_0000_0000_0000 <= value < 0x1_0000_0000_0000_0000
  {
    LayoutOf(spec, SignWidth(value, spec.flags), |Grouped(Digits(Magnitude(value)), sep)|)
  }

  /** A sign is written for a negative value, and for any other one when the sign flag asks for it. */
  function SignWidth(value: int, flags: Flags): nat {
    if value < 0 || flags.sign then 1 else 0
  }

  /** The sign character: a minus for a negative value; for any other a plus if that is asked for, or a blank. */
  predicate IsSign(c: char, value: int, flags: Flags) {
    && (value < 0 ==> c == '-')
    && (value >= 0 && flags.plus ==> c == '+')
    && (value >= 0 && !flags.plus ==> c == ' ')
  }

  /** By position: behind the left fill stand the sign, if there is one, the inner fill, and `count` characters
      whose digits denote the magnitude; the rest is fill. */
  ghost predicate ReadsAt(f: seq<char>, l: Layout, count: nat, value: int, fill: char, flags: Flags) {
    var sign := SignWidth(value, flags);
    var at := l.left + sign + l.inner;
    && |f| == at + count + l.right
    && Value(OnlyDigits(f[at..at + count])) == (if value < 0 then -value else value)
    && (sign == 1 ==> IsSign(f[l.left], value, flags)) && FilledAt(f, l, sign, count, fill)
  }

  /** All other characters are fill. */
  ghost predicate FilledAt(f: seq<char>, l: Layout, sign: nat, count: nat, fill: char) {
    var at := l.left + sign + l.inner;
    && |f| == at + count + l.right
    && (forall i :: 0 <= i < l.left ==> f[i] == fill) && (forall i :: at + count <= i < |f| ==> f[i] == fill)
    && (forall i :: l.left + sign <= i < at ==> f[i] == l.innerFill)
  }

  /** Every field reads back by position, whatever its fill. */
  lemma FieldReadBack(value: int, spec: Specs, sep: Option<char>)
    requires -0x8000_0000_0000_0000 <= value < 0x1_0000_0000_0000_0000
    requires sep.Some? ==> !IsDigit(sep.value)
    ensures ReadsAt(IntField(value, spec, sep), FieldLayout(value, spec, sep),
                    |Grouped(Digits(Magnitude(value)), sep)|, value, spec.fill, spec.flags)
  {
    var digits := Grouped(Digits(Magnitude(value)), sep);
    DigitsOf(Magnitude(value), sep);
    LaidReadsAt(FieldLayout(value, spec, sep), spec, Prefix(value, spec.flags), digits, value);
  }

  lemma LaidReadsAt(l: Layout, spec: Specs, prefix: seq<char>, digits: seq<char>, value: int)
    requires Value(OnlyDigits(digits)) == if value < 0 then -value else value
    requires |prefix| == SignWidth(value, spec.flags) && (|prefix| == 1 ==> IsSign(prefix[0], value, spec.flags))
    ensures ReadsAt(Lay(l, spec.fill, prefix, digits), l, |digits|, value, spec.fill, spec.flags)
  {
    LaidDigits(l, spec.fill, prefix, digits);
  }

  lemma DigitsOf(m: nat, sep: Option<char>)
    requires sep.Some? ==> !IsDigit(sep.value)
    ensures OnlyDigits(Grouped(Digits(m), sep)) == Digits(m) && Value(Digits(m)) == m
  {
    DigitsAreDigits(m);
    DigitsReadBack(m);
    GroupedReadBack(Digits(m), sep);
  }

  lemma LaidDigits(l: Layout, fill: char, prefix: seq<char>, digits: seq<char>)
    ensures var f, at := Lay(l, fill, prefix, digits), l.left + |prefix| + l.inner;
            && |f| == at + |digits| + l.right && f[at..at + |digits|] == digits
            && (|prefix| == 1 ==> f[l.left] == prefix[0])
            && FilledAt(f, l, |prefix|, |digits|, fill)
  {}

  /** When the digits of the whole text denote the magnitude: when none of the fill is a digit that counts. */
  predicate FillIsHarmless(value: int, fill: char, l: Layout) {
    && (IsDigit(fill) && l.left > 0 ==> fill == '0')
    && (IsDigit(l.innerFill) && l.inner > 0 ==> l.innerFill == '0')
    && (IsDigit(fill) && l.right > 0 ==> fill == '0' && value == 0)
  }

  /** Read as a whole, skipping all that is not a digit, a field denotes the magnitude exactly when its
      fill is harmless. */
  lemma WholeFieldReadBack(value: int, spec: Specs, sep: Option<char>)
    requires -0x8000_0000_0000_0000 <= value < 0x1_0000_0000_0000_0000
    requires sep.Some? ==> !IsDigit(sep.value)
    ensures Value(OnlyDigits(IntField(value, spec, sep))) == (if value < 0 then -value else value)
            <==> FillIsHarmless(value, spec.fill, FieldLayout(value, spec, sep))
  {
    WholeLaid(FieldLayout(value, spec, sep), spec.fill, Prefix(value, spec.flags), Magnitude(value), sep);
  }

  lemma WholeLaid(l: Layout, fill: char, prefix: seq<char>, m: nat, sep: Option<char>)
    requires sep.Some? ==> !IsDigit(sep.value)
    requires prefix == [] || (|prefix| == 1 && !IsDigit(prefix[0]))
    ensures Value(OnlyDigits(Lay(l, fill, prefix, Grouped(Digits(m), sep)))) == m <==> FillIsHarmless(m, fill, l)
  {
    DigitsOf(m, sep);
    FieldDigits(l, fill, prefix, Grouped(Digits(m), sep));
    ReadFilled(m, fill, l);
  }

  lemma ReadFilled(m: nat, fill: char, l: Layout)
    ensures var inner := DigitFill(l.innerFill, l.inner) + Digits(m);
            Value(DigitFill(fill, l.left) + inner + DigitFill(fill, l.right)) == m <==> FillIsHarmless(m, fill, l)
  {
    var inner := DigitFill(l.innerFill, l.inner) + Digits(m);
    var left := DigitFill(fill, l.left) + inner;
    DigitsAreDigits(m);
    DigitsReadBack(m);
    LeadingFill(l.innerFill, l.inner, Digits(m));
    AppendDigits(DigitFill(l.innerFill, l.inner), Digits(m));
    LeadingFill(fill, l.left, inner);
    AppendDigits(DigitFill(fill, l.left), inner);
    TrailingFill(left, fill, l.right);
  }

  lemma AppendDigits(a: seq<char>, b: seq<char>)
    requires AllDigits(a) && AllDigits(b)
    ensures AllDigits(a + b)
  {}

  /** 42 with the format {:7>4} prints as 7742. */
  lemma SevensAreRead(spec: Specs)
    requires spec.width == 4 && spec.fill == '7' && spec.align == Right && !spec.flags.sign && spec.precision < 0
    ensures IntField(42, spec, None) == "7742" && !FillIsHarmless(42, '7', FieldLayout(42, spec, None))
  {
    assert Digits(42) == "42";
    assert Repeat('7', 2) == "77" && Repeat('0', 0) == "" && Repeat('7', 0) == "";
  }

  /** The minus sign stands right after the left fill. */
  lemma SignPosition(value: int, spec: Specs, sep: Option<char>)
    requires -0x8000_0000_0000_0000 <= value < 0
    ensures var at := LayoutOf(spec, 1, |Grouped(Digits(-value), sep)|).left;
            at < |IntField(value, spec, sep)| && IntField(value, spec, sep)[at] == '-'
  {}

  // The prefix holds no digits.
  lemma FieldDigits(l: Layout, fill: char, prefix: seq<char>, digits: seq<char>)
    requires prefix == [] || (|prefix| == 1 && !IsDigit(prefix[0]))
    ensures OnlyDigits(Lay(l, fill, prefix, digits))
         == DigitFill(fill, l.left) + (DigitFill(l.innerFill, l.inner) + OnlyDigits(digits)) + DigitFill(fill, l.right)
  {
    var a, b, c := Repeat(fill, l.left), Repeat(l.innerFill, l.inner), Repeat(fill, l.right);
    OnlyDigitsOfFill(fill, l.left);
    OnlyDigitsOfFill(fill, l.right);
    OnlyDigitsOfFill(l.innerFill, l.inner);
    NoDigitsInPrefix(prefix);
    OnlyDigitsAppend(a + prefix + b + digits, c);
    OnlyDigitsAppend(a + prefix + b, digits);
    OnlyDigitsAppend(a + prefix, b);
    OnlyDigitsAppend(a, prefix);
    Regrouped(OnlyDigits(a), OnlyDigits(b), OnlyDigits(digits));
  }

  lemma Regrouped(a: seq<char>, b: seq<char>, c: seq<char>)
    ensures a + [] + b + c == a + (b + c)
  {}

  lemma NoDigitsInPrefix(prefix: seq<char>)
    requires prefix == [] || (|prefix| == 1 && !IsDigit(prefix[0]))
    ensures OnlyDigits(prefix) == []
  {
    if prefix != [] {
      assert prefix == [] + [prefix[0]];
      SkipLast([], prefix[0]);
    }
  }
}
