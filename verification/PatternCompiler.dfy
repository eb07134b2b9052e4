/** Patterns: what compiling one gives, and what it should mean, read in one pass. */
module PatternCompiler {
  import opened Decimal
  import opened Padding
  import opened Flags
  import FormatSpec
  import FormatSpecProofs

  /** A compiled piece: text to print as it is, or a flag; a pad of width 0 stands for no padder. */
  datatype Formatter =
    | Chars(text: string)
    | Percent
    | Flag(c: char, pad: Pad)

  predicate IsKnownFlag(c: char) {
    IsFieldFlag(c) || c == '+' || c == '^' || c == '$'
  }

  /** An unknown flag becomes text, without the padding that stood before it. */
  function HandleFlag(c: char, pad: Pad): Formatter {
    if c == '%' then Percent
    else if IsKnownFlag(c) then Flag(c, pad)
    else Chars(['%', c])
  }

  // ---------------------------------------------------------------- the padding spec

  const SIZE_MAX1: nat := 0x1_0000_0000_0000_0000

  /** Digits as they are accumulated in a 64-bit size; also what follows them. */
  function ScanWidth(s: string, width: nat): (nat, string) {
    if s != "" && IsDigit(s[0]) then ScanWidth(s[1..], (width * 10 + DigitValue(s[0])) % SIZE_MAX1) else (width, s)
  }

  function PadSide(s: string): (Side, string) {
    if s != "" && s[0] == '-' then (Right, s[1..])
    else if s != "" && s[0] == '=' then (Center, s[1..])
    else (Left, s)
  }

  function PadSpec(s: string): (r: (Pad, string))
    ensures r.0.width <= 64
  {
    var (side, rest) := PadSide(s);
    var (width, rest') := ScanWidth(rest, 0);
    (Pad(if width < MAX_WIDTH then width else MAX_WIDTH, side), rest')
  }

  lemma {:induction false} ScanIsShorter(s: string, width: nat)
    ensures |ScanWidth(s, width).1| <= |s|
  {
    if s != "" && IsDigit(s[0]) { ScanIsShorter(s[1..], (width * 10 + DigitValue(s[0])) % SIZE_MAX1); }
  }

  lemma PadSpecIsShorter(s: string)
    ensures |PadSpec(s).1| <= |s|
  {
    ScanIsShorter(PadSide(s).1, 0);
  }

  lemma WrapOnce(v: nat, d: nat)
    ensures ((v % SIZE_MAX1) * 10 + d) % SIZE_MAX1 == (v * 10 + d) % SIZE_MAX1
  {
    var q, r := v / 0x1_0000_0000_0000_0000, v % 0x1_0000_0000_0000_0000;
    assert v * 10 + d == 10 * q * 0x1_0000_0000_0000_0000 + (r * 10 + d);
    AddMultiple(r * 10 + d, 10 * q);
  }

  lemma AddMultiple(a: nat, k: nat)
    ensures (a + k * 0x1_0000_0000_0000_0000) % 0x1_0000_0000_0000_0000 == a % 0x1_0000_0000_0000_0000
  {}

  /** Wrapping at each digit is wrapping the number the digits denote. */
  lemma {:induction false} ScanIsValue(done: string, s: string)
    requires AllDigits(done)
    ensures Value(done) >= 0 && Value(done + s[..FormatSpec.DigitRun(s)]) >= 0
    ensures ScanWidth(s, Value(done) % SIZE_MAX1)
            == (Value(done + s[..FormatSpec.DigitRun(s)]) % SIZE_MAX1, s[FormatSpec.DigitRun(s)..])
    decreases |s|
  {
    ValueNonnegative(done);
    if s != "" && IsDigit(s[0]) {
      var done' := done + [s[0]];
      ValueAppend(done, s[0]);
      ScanIsValue(done', s[1..]);
      assert done' + s[1..][..FormatSpec.DigitRun(s[1..])] == done + s[..FormatSpec.DigitRun(s)];
      WrapOnce(Value(done), DigitValue(s[0]));
    } else {
      assert done + s[..FormatSpec.DigitRun(s)] == done;
    }
  }

  lemma ScanFromStart(s: string)
    ensures Value(s[..FormatSpec.DigitRun(s)]) >= 0
    ensures ScanWidth(s, 0) == (Value(s[..FormatSpec.DigitRun(s)]) % SIZE_MAX1, s[FormatSpec.DigitRun(s)..])
  {
    ScanIsValue("", s);
    assert "" + s[..FormatSpec.DigitRun(s)] == s[..FormatSpec.DigitRun(s)];
  }

  /** The width is the number written, cut to 64; exactly, unless the number wraps around 64 bits to a small one. */
  lemma WidthIsExact(s: string)
    ensures var v := Value(PadSide(s).1[..FormatSpec.DigitRun(PadSide(s).1)]);
            && v >= 0
            && (PadSpec(s).0.width == (if v < 64 then v else 64) <==> v < 64 || v % SIZE_MAX1 >= 64)
  {
    var rest := PadSide(s).1;
    var digits := rest[..FormatSpec.DigitRun(rest)];
    ScanFromStart(rest);
    CutAfterWrap(Value(digits), ScanWidth(rest, 0).0);
  }

  lemma CutAfterWrap(v: nat, w: nat)
    requires w == v % SIZE_MAX1
    ensures (if w < MAX_WIDTH then w else MAX_WIDTH) == (if v < MAX_WIDTH then v else MAX_WIDTH)
            <==> v < MAX_WIDTH || w >= MAX_WIDTH
  {}

  function SideText(side: Side): string {
    match side
    case Left => ""
    case Right => "-"
    case Center => "="
  }

  lemma SideReadsBack(side: Side, s: string)
    requires s != "" && s[0] != '-' && s[0] != '='
    ensures PadSide(SideText(side) + s) == (side, s)
  {
    var t := SideText(side) + s;
    assert side.Left? ==> t == s;
    assert !side.Left? ==> t[1..] == s;
  }

  lemma WidthReadsBack(width: nat, rest: string)
    requires rest != "" ==> !IsDigit(rest[0])
    ensures ScanWidth(Digits(width) + rest, 0) == (width % SIZE_MAX1, rest)
  {
    var d := Digits(width);
    var s := d + rest;
    DigitsAreDigits(width);
    DigitsReadBack(width);
    FormatSpecProofs.DigitRunOf(d, rest);
    ScanFromStart(s);
    Parts(d, rest);
  }

  lemma Parts(a: string, b: string)
    ensures (a + b)[..|a|] == a && (a + b)[|a|..] == b
  {}

  /** A written padding spec reads back: its side, and its width modulo 2^64, cut to 64. */
  lemma PadSpecReadsBack(side: Side, width: nat, rest: string)
    requires rest != "" ==> !IsDigit(rest[0])
    ensures var w := width % SIZE_MAX1;
            PadSpec(SideText(side) + (Digits(width) + rest))
            == (Pad(if w < 64 then w else 64, side), rest)
  {
    var s := Digits(width) + rest;
    assert s[0] == Digits(width)[0];
    DigitsAreDigits(width);
    SideReadsBack(side, s);
    WidthReadsBack(width, rest);
  }

  /** A width that wraps: `%18446744073709551617v` pads to one character. */
  lemma WidthWraps()
    ensures PadSpec(Digits(18446744073709551617) + "v") == (Pad(1, Left), "v")
  {
    PadSpecReadsBack(Left, 18446744073709551617, "v");
    assert SideText(Left) + (Digits(18446744073709551617) + "v") == Digits(18446744073709551617) + "v";
  }

  // ---------------------------------------------------------------- printing

  function EmitField(f: Field, pad: Pad, out: Out): Out {
    if f.Nothing? then out else Append(out, Padded(pad, f.size, f.text))
  }

  function EmitFlag(c: char, pad: Pad, msg: Message, tm: Tm, out: Out): Out
    requires IsKnownFlag(c)
  {
    if c == '+' then Full(msg, tm, out)
    else if c == '^' then out.(rangeStart := |out.text|)
    else if c == '$' then out.(rangeEnd := |out.text|)
    else EmitField(FieldOf(c, msg, tm), pad, out)
  }

  /** The meaning of a pattern, in one pass from left to right: text prints as it is, `%%` prints a percent
      sign, an unknown flag prints behind one, and a percent sign with no flag behind it prints nothing. */
  function Interpret(p: string, msg: Message, tm: Tm, out: Out): Out
    decreases |p|
  {
    if p == "" then out
    else if p[0] != '%' then Interpret(p[1..], msg, tm, Append(out, [p[0]]))
    else
      PadSpecIsShorter(p[1..]);
      var (pad, rest) := PadSpec(p[1..]);
      if rest == "" then out
      else
        var c := rest[0];
        Interpret(rest[1..], msg, tm,
                  if c == '%' then Append(out, "%")
                  else if IsKnownFlag(c) then EmitFlag(c, pad, msg, tm, out)
                  else Append(out, ['%', c]))
  }

  /** A formatter as built by the compiler. */
  predicate WellFormed(f: Formatter) { f.Flag? ==> IsKnownFlag(f.c) && f.pad.width <= MAX_WIDTH }

  predicate AllWellFormed(fs: seq<Formatter>) { forall i :: 0 <= i < |fs| ==> WellFormed(fs[i]) }

  function Emit(f: Formatter, msg: Message, tm: Tm, out: Out): Out
    requires WellFormed(f)
  {
    match f
    case Chars(s) => Append(out, s)
    case Percent => Append(out, "%")
    case Flag(c, pad) => EmitFlag(c, pad, msg, tm, out)
  }

  /** Running the compiled formatters one after the other. */
  function RunAll(fs: seq<Formatter>, msg: Message, tm: Tm, out: Out): Out
    requires AllWellFormed(fs)
  {
    if fs == [] then out else RunAll(fs[1..], msg, tm, Emit(fs[0], msg, tm, out))
  }

  // ---------------------------------------------------------------- compiling

  /** The user characters collected so far, if any. */
  function Flush(user: string): seq<Formatter> {
    if user == "" then [] else [Chars(user)]
  }

  function Compile(p: string, user: string): (fs: seq<Formatter>)
    ensures AllWellFormed(fs)
    decreases |p|
  {
    if p == "" then Flush(user)
    else if p[0] != '%' then Compile(p[1..], user + [p[0]])
    else
      PadSpecIsShorter(p[1..]);
      var (pad, rest) := PadSpec(p[1..]);
      if rest == "" then Flush(user) else Flush(user) + [HandleFlag(rest[0], pad)] + Compile(rest[1..], "")
  }

  lemma {:induction false} RunAppend(a: seq<Formatter>, b: seq<Formatter>, msg: Message, tm: Tm, out: Out)
    requires AllWellFormed(a) && AllWellFormed(b)
    ensures AllWellFormed(a + b) && RunAll(a + b, msg, tm, out) == RunAll(b, msg, tm, RunAll(a, msg, tm, out))
    decreases |a|
  {
    if a == [] {
      assert a + b == b;
    } else {
      assert (a + b)[1..] == a[1..] + b;
      RunAppend(a[1..], b, msg, tm, Emit(a[0], msg, tm, out));
    }
  }

  lemma RunOne(f: Formatter, msg: Message, tm: Tm, out: Out)
    requires WellFormed(f)
    ensures RunAll([f], msg, tm, out) == Emit(f, msg, tm, out)
  {
    var one := [f];
    assert one[1..] == [];
    assert one[0] == f;
  }

  lemma RunFlush(user: string, msg: Message, tm: Tm, out: Out)
    ensures RunAll(Flush(user), msg, tm, out) == Append(out, user)
  {
    if user == "" {
      assert Flush(user) == [];
      assert out.text + user == out.text;
    } else {
      assert Flush(user) == [Chars(user)];
      RunOne(Chars(user), msg, tm, out);
    }
  }

  /** Compiling preserves meaning: the compiled formatters print what the pattern means. */
  lemma {:induction false} CompiledMeansTheSame(p: string, user: string, msg: Message, tm: Tm, out: Out)
    ensures RunAll(Compile(p, user), msg, tm, out) == Interpret(p, msg, tm, Append(out, user))
    decreases |p|
  {
    RunFlush(user, msg, tm, out);
    if p == "" {
    } else if p[0] != '%' {
      CompiledMeansTheSame(p[1..], user + [p[0]], msg, tm, out);
      assert out.text + (user + [p[0]]) == out.text + user + [p[0]];
    } else {
      PadSpecIsShorter(p[1..]);
      var (pad, rest) := PadSpec(p[1..]);
      if rest != "" {
        var f := HandleFlag(rest[0], pad);
        var tail := Compile(rest[1..], "");
        var out1 := Append(out, user);
        var out2 := Emit(f, msg, tm, out1);
        RunAppend(Flush(user) + [f], tail, msg, tm, out);
        RunAppend(Flush(user), [f], msg, tm, out);
        RunOne(f, msg, tm, out1);
        CompiledMeansTheSame(rest[1..], "", msg, tm, out2);
        assert out2.text + "" == out2.text;
      }
    }
  }

  // ---------------------------------------------------------------- any text as a pattern

  function Doubled(s: string): string {
    if s == "" then "" else (if s[0] == '%' then "%%" else [s[0]]) + Doubled(s[1..])
  }

  /** Any string, with its percent signs doubled, is a pattern that prints the string itself. */
  lemma {:induction false} DoubledPrintsItself(s: string, msg: Message, tm: Tm, out: Out)
    ensures Interpret(Doubled(s), msg, tm, out) == Append(out, s)
  {
    if s == "" {
      assert out.text + s == out.text;
    } else {
      DoubledPrintsItself(s[1..], msg, tm, Append(out, [s[0]]));
      assert out.text + [s[0]] + s[1..] == out.text + s;
      var d := Doubled(s);
      if s[0] == '%' {
        assert d[1..] == "%" + Doubled(s[1..]);
        assert d[1..][1..] == Doubled(s[1..]);
      } else {
        assert d[1..] == Doubled(s[1..]);
      }
    }
  }
}
