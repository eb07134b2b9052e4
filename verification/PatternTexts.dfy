/** What a pattern of many parts prints: its texts and flags one after the other, each padded on its own. */
module PatternTexts {
  import opened Decimal
  import opened Numerals
  import opened Padding
  import opened Flags
  import opened PatternCompiler
  import opened FlagTexts
  import opened DateCache

  /** The parts of a pattern: text, a flag, a flag with a side and a width, and a letter that is no flag. */
  datatype Part = Text(s: string) | Show(c: char) | Aligned(side: Side, width: nat, c: char) | NoFlag(c: char)

  predicate ValidPart(x: Part) {
    match x
    case Text(_) => true
    case Show(c) => IsFieldLetter(c)
    case Aligned(_, width, c) => IsFieldLetter(c) && width <= 64
    case NoFlag(c) => !IsFlagLetter(c) && c != '%' && c != '-' && c != '=' && !IsDigit(c)
  }

  ghost predicate ValidParts(xs: seq<Part>) { forall i :: 0 <= i < |xs| ==> ValidPart(xs[i]) }

  function PrintPart(x: Part): string {
    match x
    case Text(s) => Doubled(s)
    case Show(c) => ['%', c]
    case Aligned(side, width, c) => "%" + (SideText(side) + (Digits(width) + [c]))
    case NoFlag(c) => ['%', c]
  }

  /** Only a source flag prints no field at all, and only without a line. */
  lemma NothingIsNoLine(c: char, msg: Message, tm: Tm)
    requires IsFieldFlag(c)
    ensures FieldOf(c, msg, tm).Nothing? <==> c in SOURCE_LETTERS && msg.source.line == 0
  {}

  function PrintParts(xs: seq<Part>): string {
    if xs == [] then "" else PrintPart(xs[0]) + PrintParts(xs[1..])
  }

  /** What a part stands for. Where the size the flag tells is not the true one, the padding goes by it. */
  function PartText(x: Part, msg: Message, tm: Tm): string
    requires ValidPart(x)
  {
    match x
    case Text(s) => s
    case Show(c) => Printed(c, msg, tm)
    case Aligned(side, width, c) =>
      LettersAreFlags(c);
      NothingIsNoLine(c, msg, tm);
      if c in SOURCE_LETTERS && msg.source.line == 0 then ""
      else Padded(Pad(width, side), FieldOf(c, msg, tm).size, Printed(c, msg, tm))
    case NoFlag(c) => ['%', c]
  }

  function PartsText(xs: seq<Part>, msg: Message, tm: Tm): string
    requires ValidParts(xs)
  {
    if xs == [] then "" else PartText(xs[0], msg, tm) + PartsText(xs[1..], msg, tm)
  }

  lemma {:induction false} TextThen(s: string, rest: string, msg: Message, tm: Tm, out: Out)
    ensures Interpret(Doubled(s) + rest, msg, tm, out) == Interpret(rest, msg, tm, Append(out, s))
  {
    if s == "" {
      Regrouped("", "", rest);
      AppendTwice(out, "", "");
    } else {
      var front, tail := if s[0] == '%' then "%%" else [s[0]], Doubled(s[1..]) + rest;
      TextThen(s[1..], rest, msg, tm, Append(out, [s[0]]));
      CharThen(s[0], tail, msg, tm, out);
      AppendTwice(out, [s[0]], s[1..]);
      Regrouped(front, Doubled(s[1..]), rest);
      assert [s[0]] + s[1..] == s;
    }
  }

  lemma CharThen(c: char, tail: string, msg: Message, tm: Tm, out: Out)
    ensures Interpret((if c == '%' then "%%" else [c]) + tail, msg, tm, out)
            == Interpret(tail, msg, tm, Append(out, [c]))
  {
    var p := (if c == '%' then "%%" else [c]) + tail;
    if c == '%' {
      assert p[1..] == ['%'] + tail;
      NoPadding('%', tail);
      assert (['%'] + tail)[1..] == tail;
    } else {
      assert p[1..] == tail;
    }
  }

  lemma AppendTwice(out: Out, a: string, b: string)
    ensures Append(Append(out, a), b) == Append(out, a + b) && Append(out, "") == out
  {
    assert out.text + a + b == out.text + (a + b) && out.text + "" == out.text;
  }

  lemma Regrouped(a: string, b: string, c: string)
    ensures (a + b) + c == a + (b + c) && "" + c == c
  {}

  /** A letter behind a percent sign, with a padding before it or not. */
  lemma FlagThen(p: string, pad: Pad, c: char, rest: string, msg: Message, tm: Tm, out: Out)
    requires p != "" && p[0] == '%' && PadSpec(p[1..]) == (pad, [c] + rest) && c != '%'
    ensures Interpret(p, msg, tm, out)
            == Interpret(rest, msg, tm,
                         if IsKnownFlag(c) then EmitFlag(c, pad, msg, tm, out) else Append(out, ['%', c]))
  {
    PadSpecIsShorter(p[1..]);
    assert ([c] + rest)[1..] == rest;
  }

  lemma NoPadding(c: char, rest: string)
    requires c != '-' && c != '=' && !IsDigit(c)
    ensures PadSpec([c] + rest) == (Pad(0, Left), [c] + rest)
  {}

  lemma NoSpecialLetter(c: char)
    requires IsFieldFlag(c)
    ensures c != '%' && !IsDigit(c) && c != '-' && c != '=' && IsKnownFlag(c)
  {}

  /** A flag that prints a field, with a padding before it or not. */
  lemma FieldThen(p: string, pad: Pad, c: char, rest: string, msg: Message, tm: Tm, out: Out)
    requires p != "" && p[0] == '%' && PadSpec(p[1..]) == (pad, [c] + rest) && IsFieldFlag(c)
    ensures Interpret(p, msg, tm, out) == Interpret(rest, msg, tm, EmitField(FieldOf(c, msg, tm), pad, out))
  {
    NoSpecialLetter(c);
    EmitsField(c, pad, msg, tm, out);
    FlagThen(p, pad, c, rest, msg, tm, out);
  }

  lemma EmitsField(c: char, pad: Pad, msg: Message, tm: Tm, out: Out)
    requires IsFieldFlag(c)
    ensures EmitFlag(c, pad, msg, tm, out) == EmitField(FieldOf(c, msg, tm), pad, out)
  {}

  lemma ShowThen(c: char, rest: string, msg: Message, tm: Tm, out: Out)
    requires IsFieldFlag(c)
    ensures Interpret(['%', c] + rest, msg, tm, out) == Interpret(rest, msg, tm, Append(out, Printed(c, msg, tm)))
  {
    var p := ['%', c] + rest;
    assert p[1..] == [c] + rest;
    NoSpecialLetter(c);
    NoPadding(c, rest);
    FieldThen(p, Pad(0, Left), c, rest, msg, tm, out);
    EmittedText(FieldOf(c, msg, tm), Pad(0, Left), out);
    OneFlag(c, msg, tm);
  }

  lemma EmittedText(f: Field, pad: Pad, out: Out)
    ensures EmitField(f, pad, out) == Append(out, FieldText(f, pad))
    ensures pad.width == 0 ==> EmitField(f, pad, out) == Append(out, TextOf(f))
  {
    AppendTwice(out, "", "");
    if !f.Nothing? && pad.width == 0 { assert Padded(pad, f.size, f.text) == f.text; }
  }

  lemma PaddedFront(side: string, digits: string, c: char, rest: string)
    ensures var p := ("%" + (side + (digits + [c]))) + rest; p[0] == '%' && p[1..] == side + (digits + ([c] + rest))
  {
    assert ("%" + (side + (digits + [c]))) + rest == "%" + (side + (digits + ([c] + rest)));
  }

  function FieldText(f: Field, pad: Pad): string {
    if f.Nothing? then "" else Padded(pad, f.size, f.text)
  }

  lemma AlignedThen(side: Side, width: nat, c: char, rest: string, msg: Message, tm: Tm, out: Out)
    requires width <= 64 && IsFieldFlag(c)
    ensures Interpret(("%" + (SideText(side) + (Digits(width) + [c]))) + rest, msg, tm, out)
            == Interpret(rest, msg, tm, Append(out, FieldText(FieldOf(c, msg, tm), Pad(width, side))))
  {
    var p := ("%" + (SideText(side) + (Digits(width) + [c]))) + rest;
    PaddedFront(SideText(side), Digits(width), c, rest);
    NoSpecialLetter(c);
    PadSpecReadsBack(side, width, [c] + rest);
    FieldThen(p, Pad(width, side), c, rest, msg, tm, out);
    EmittedText(FieldOf(c, msg, tm), Pad(width, side), out);
  }

  lemma NoFlagThen(c: char, rest: string, msg: Message, tm: Tm, out: Out)
    requires ValidPart(NoFlag(c))
    ensures Interpret(['%', c] + rest, msg, tm, out) == Interpret(rest, msg, tm, Append(out, ['%', c]))
  {
    var p := ['%', c] + rest;
    assert p[1..] == [c] + rest;
    LettersAreFlags(c);
    NoPadding(c, rest);
    FlagThen(p, Pad(0, Left), c, rest, msg, tm, out);
  }

  lemma PartThen(x: Part, rest: string, msg: Message, tm: Tm, out: Out)
    requires ValidPart(x)
    ensures Interpret(PrintPart(x) + rest, msg, tm, out) == Interpret(rest, msg, tm, Append(out, PartText(x, msg, tm)))
  {
    match x
    case Text(s) => TextThen(s, rest, msg, tm, out);
    case Show(c) =>
      LettersAreFlags(c);
      ShowThen(c, rest, msg, tm, out);
    case Aligned(side, width, c) =>
      LettersAreFlags(c);
      OneFlag(c, msg, tm);
      NothingIsNoLine(c, msg, tm);
      AlignedThen(side, width, c, rest, msg, tm, out);
    case NoFlag(c) => NoFlagThen(c, rest, msg, tm, out);
  }

  /** A written pattern, and whatever follows it, prints its parts one after the other. */
  lemma {:induction false} PartsThen(xs: seq<Part>, rest: string, msg: Message, tm: Tm, out: Out)
    requires ValidParts(xs)
    ensures Interpret(PrintParts(xs) + rest, msg, tm, out)
            == Interpret(rest, msg, tm, Append(out, PartsText(xs, msg, tm)))
  {
    if xs == [] {
      Regrouped("", "", rest);
      AppendTwice(out, "", "");
    } else {
      var text := PartText(xs[0], msg, tm);
      Regrouped(PrintPart(xs[0]), PrintParts(xs[1..]), rest);
      PartThen(xs[0], PrintParts(xs[1..]) + rest, msg, tm, out);
      PartsThen(xs[1..], rest, msg, tm, Append(out, text));
      AppendTwice(out, text, PartsText(xs[1..], msg, tm));
    }
  }

  /** End to end: in any run of messages, from the moment some message has been outside second 0, message k
      prints as the parts of the pattern for it, and the end of the line. */
  lemma RunPrintsParts(xs: seq<Part>, eol: string, tmOf: int -> Tm, msgs: seq<Message>, k: nat)
    requires ValidParts(xs) && k < |msgs| && StartedBy(msgs, k)
    ensures var fs := Compile(PrintParts(xs), "");
            Texts(Initial(|fs|), fs, eol, tmOf, msgs)[k].text
            == PartsText(xs, msgs[k], tmOf(Seconds(msgs[k].time))) + eol
  {
    var tm := tmOf(Seconds(msgs[k].time));
    CachesAreTransparent(PrintParts(xs), eol, tmOf, msgs, k);
    PartsThen(xs, "", msgs[k], tm, EMPTY);
    Regrouped("", "", PartsText(xs, msgs[k], tm));
    assert PrintParts(xs) + "" == PrintParts(xs);
  }

  // ---------------------------------------------------------------- colour

  /** Between `%^` and `%$` the text of the parts is the range to be coloured, exactly. */
  lemma ColouredExactly(xs: seq<Part>, msg: Message, tm: Tm, out: Out)
    requires ValidParts(xs)
    ensures var text := PartsText(xs, msg, tm);
            Interpret(['%', '^'] + (PrintParts(xs) + (['%', '$'] + "")), msg, tm, out)
            == Out(out.text + text, |out.text|, |out.text| + |text|)
  {
    var p := ['%', '^'] + (PrintParts(xs) + (['%', '$'] + ""));
    var start := out.(rangeStart := |out.text|);
    var full := Append(start, PartsText(xs, msg, tm));
    OtherThen('^', PrintParts(xs) + (['%', '$'] + ""), msg, tm, out);
    PartsThen(xs, ['%', '$'] + "", msg, tm, start);
    OtherThen('$', "", msg, tm, full);
  }

  lemma OtherThen(c: char, rest: string, msg: Message, tm: Tm, out: Out)
    requires c in OTHER_LETTERS
    ensures Interpret(['%', c] + rest, msg, tm, out)
            == Interpret(rest, msg, tm, EmitFlag(c, Pad(0, Left), msg, tm, out))
  {
    var p := ['%', c] + rest;
    assert p[1..] == [c] + rest;
    NoPadding(c, rest);
    FlagThen(p, Pad(0, Left), c, rest, msg, tm, out);
  }

  /** A percent sign at the end, with a padding or not, prints nothing. */
  lemma TrailingPercent(side: Side, width: nat, msg: Message, tm: Tm, out: Out)
    ensures Interpret("%", msg, tm, out) == out
    ensures Interpret("%" + (SideText(side) + (Digits(width) + "")), msg, tm, out) == out
  {
    var p := "%" + (SideText(side) + (Digits(width) + ""));
    PadSpecReadsBack(side, width, "");
    assert p[1..] == SideText(side) + (Digits(width) + "");
    assert "%"[1..] == "";
  }

  // ---------------------------------------------------------------- the default format

  /** The parts of the default format: date, time, milliseconds, level, source. */
  ghost predicate AreFull(p: seq<string>, msg: Message, tm: Tm) {
    && |p| == 5 && Three(p[0], tm.year + 1900, tm.mon + 1, tm.mday, 1, "-") && IsTime(p[1], tm)
    && Numeral(p[2], LowBits(Rest(msg.time, 1000000), 0x1_0000_0000), 3)
    && LevelNamed(p[3]) == msg.level && (p[3] == "off" <==> msg.level == Off)
    && (if msg.source.line == 0 then p[4] == "" else IsPlace(p[4], msg.source))
  }

  ghost predicate IsPlace(s: string, src: Source) {
    exists b, n :: AreBaseAndLine(b, n, src) && s == "[" + b + ":" + n + "] "
  }

  ghost predicate AreBaseAndLine(b: string, n: string, src: Source) {
    IsBasename(b, src.filename) && Numeral(n, src.line, 1)
  }

  function Tag(name: string): string { if name == "" then "" else "[" + name + "] " }

  function FullBehind(date: string, p: seq<string>, name: string, payload: string): Out
    requires |p| == 5
  {
    var head := date + p[2] + "] " + Tag(name) + "[";
    Out(head + p[3] + "] " + p[4] + payload, |head|, |head| + |p[3]|)
  }

  /** The parts put together. */
  function FullOf(before: string, p: seq<string>, name: string, payload: string): Out
    requires |p| == 5
  {
    FullBehind(before + "[" + p[0] + " " + p[1] + ".", p, name, payload)
  }

  /** `%+` prints date, time and milliseconds, the name if there is one, the level, the source if there is
      one, and the message, in this order; exactly the level is to be coloured. */
  lemma DefaultFormat(c: char, msg: Message, tm: Tm, out: Out)
    requires c == '+'
    ensures exists p :: AreFull(p, msg, tm)
                        && Interpret(['%', c] + "", msg, tm, out) == FullOf(out.text, p, msg.name, msg.payload)
  {
    OtherThen(c, "", msg, tm, out);
    PartsOfFull(msg, tm);
    FullIsJoined(msg, tm, out);
  }

  function DateText(tm: Tm): string { AppendInt(tm.year + 1900) + "-" + Pad2(tm.mon + 1) + "-" + Pad2(tm.mday) }

  lemma DateIsThree(tm: Tm)
    ensures Three(DateText(tm), tm.year + 1900, tm.mon + 1, tm.mday, 1, "-")
  {
    AppendIntIsNumeral(tm.year + 1900);
    Pad2IsNumeral(tm.mon + 1);
    Pad2IsNumeral(tm.mday);
    JoinedThree(AppendInt(tm.year + 1900), Pad2(tm.mon + 1), Pad2(tm.mday), tm.year + 1900, tm.mon + 1, tm.mday, 1,
                "-");
  }

  lemma Bracketed(o: string, y: string, m: string, d: string, t: string)
    ensures o + ("[" + y + "-" + m + "-" + d + " " + t + ".") == o + "[" + (y + "-" + m + "-" + d) + " " + t + "."
  {
    assert "[" + y + "-" + m + "-" + d == "[" + (y + "-" + m + "-" + d);
  }

  function PlaceText(src: Source): string {
    if src.line == 0 then "" else "[" + Basename(src.filename) + ":" + AppendInt(src.line) + "] "
  }

  lemma PlaceIsRead(src: Source)
    ensures if src.line == 0 then PlaceText(src) == "" else IsPlace(PlaceText(src), src)
  {
    BasenameFound(src.filename);
    AppendIntIsNumeral(src.line);
    assert AreBaseAndLine(Basename(src.filename), AppendInt(src.line), src);
  }

  function FullParts(msg: Message, tm: Tm): seq<string> {
    [DateText(tm), Time(tm), PadUint(Unsigned32(Fraction(msg.time, 1000000)), 3), LEVELS[LevelIndex(msg.level)],
     PlaceText(msg.source)]
  }

  lemma PartsOfFull(msg: Message, tm: Tm)
    ensures AreFull(FullParts(msg, tm), msg, tm)
  {
    DateIsThree(tm);
    ThreeNumbers(tm.hour, tm.min, tm.sec, ":");
    MillisecondText(msg.time);
    LevelsRead(msg.level);
    PlaceIsRead(msg.source);
    FiveParts(DateText(tm), Time(tm), PadUint(Unsigned32(Fraction(msg.time, 1000000)), 3),
              LEVELS[LevelIndex(msg.level)], PlaceText(msg.source), msg, tm);
  }

  lemma FiveParts(date: string, time: string, ms: string, level: string, place: string, msg: Message, tm: Tm)
    requires Three(date, tm.year + 1900, tm.mon + 1, tm.mday, 1, "-") && IsTime(time, tm)
    requires Numeral(ms, LowBits(Rest(msg.time, 1000000), 0x1_0000_0000), 3)
    requires LevelNamed(level) == msg.level && (level == "off" <==> msg.level == Off)
    requires if msg.source.line == 0 then place == "" else IsPlace(place, msg.source)
    ensures AreFull([date, time, ms, level, place], msg, tm)
  {
    var p := [date, time, ms, level, place];
    assert p[0] == date && p[1] == time && p[2] == ms && p[3] == level && p[4] == place;
  }

  lemma MillisecondText(time: int)
    ensures Numeral(PadUint(Unsigned32(Fraction(time, 1000000)), 3), LowBits(Rest(time, 1000000), 0x1_0000_0000), 3)
  {
    FractionText('e', time);
  }

  lemma FullIsJoined(msg: Message, tm: Tm, out: Out)
    ensures Full(msg, tm, out) == FullOf(out.text, FullParts(msg, tm), msg.name, msg.payload)
  {
    DatePartIs(tm, out.text);
    AfterDateIs(msg, tm, Append(out, DatePart(tm)));
  }

  lemma DatePartIs(tm: Tm, before: string)
    ensures before + DatePart(tm) == before + "[" + DateText(tm) + " " + Time(tm) + "."
  {
    Bracketed(before, AppendInt(tm.year + 1900), Pad2(tm.mon + 1), Pad2(tm.mday), Time(tm));
  }

  lemma AfterDateIs(msg: Message, tm: Tm, out: Out)
    ensures AfterDate(msg, out) == FullBehind(out.text, FullParts(msg, tm), msg.name, msg.payload)
  {}
}
