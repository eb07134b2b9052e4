/** The specification parser undoes the printer, and the number parser accepts exactly the ints. */
module FormatSpecProofs {
  import opened Decimal
  import opened FormatSpec

  // ---------------------------------------------------------------- numbers

  lemma {:induction false} DigitRunOf(a: string, rest: string)
    requires AllDigits(a) && (rest == [] || !IsDigit(rest[0]))
    ensures DigitRun(a + rest) == |a|
  {
    if a == [] {
      assert a + rest == rest;
    } else {
      assert (a + rest)[1..] == a[1..] + rest;
      assert forall i :: 0 <= i < |a[1..]| ==> a[1..][i] == a[i + 1];
      DigitRunOf(a[1..], rest);
    }
  }

  lemma {:induction false} NameRunOf(a: string, rest: string)
    requires (forall i :: 0 <= i < |a| ==> IsNameChar(a[i])) && (rest == [] || !IsNameChar(rest[0]))
    ensures NameRun(a + rest) == |a|
  {
    if a == [] {
      assert a + rest == rest;
    } else {
      assert (a + rest)[1..] == a[1..] + rest;
      assert forall i :: 0 <= i < |a[1..]| ==> a[1..][i] == a[i + 1];
      NameRunOf(a[1..], rest);
    }
  }

  lemma ParseIntPrinted(n: nat, rest: string)
    requires n <= INT_MAX && (rest == [] || !IsDigit(rest[0]))
    ensures IsDigit((Digits(n) + rest)[0])
    ensures ParseInt(Digits(n) + rest) == Ok((n, rest))
  {
    var s := Digits(n) + rest;
    DigitsAreDigits(n);
    DigitsReadBack(n);
    assert s[0] == Digits(n)[0];
    if s[0] == '0' {
      assert n == 0 && |Digits(n)| == 1 && s[1..] == rest;
    } else {
      DigitRunOf(Digits(n), rest);
      assert s[..|Digits(n)|] == Digits(n) && s[|Digits(n)|..] == rest;
    }
  }

  /** A digit run without a leading zero is accepted exactly when its value is an int. */
  lemma ParseIntAccepts(a: string, rest: string)
    requires a != [] && AllDigits(a) && a[0] != '0' && (rest == [] || !IsDigit(rest[0]))
    ensures IsDigit((a + rest)[0])
    ensures ParseInt(a + rest).Ok? <==> Value(a) <= INT_MAX
    ensures ParseInt(a + rest).Ok? ==> ParseInt(a + rest).value == (Value(a), rest)
  {
    var s := a + rest;
    assert s[0] == a[0];
    DigitRunOf(a, rest);
    assert s[..|a|] == a && s[|a|..] == rest;
  }

  // ---------------------------------------------------------------- ids

  lemma ParseArgIdPrinted(id: Id, rest: string)
    requires ValidId(id) && rest != [] && (rest[0] == '}' || rest[0] == ':')
    ensures ParseArgId(PrintId(id) + rest) == Ok((id, rest))
  {
    var s := PrintId(id) + rest;
    match id
    case AutoId =>
      assert s == rest;
    case NumId(n) =>
      ParseIntPrinted(n, rest);
    case NameId(name) =>
      NameRunOf(name, rest);
      assert s[0] == name[0] && s[..|name|] == name && s[|name|..] == rest;
  }

  lemma ParseDynamicPrinted(id: Id, rest: string, ctx: int)
    requires ValidId(id)
    ensures ParseDynamic(PrintId(id) + (['}'] + rest), ctx) ==
            match Resolve(id, ctx)
            case Ok((arg, ctx')) => Ok((arg, rest, ctx'))
            case Err(m) => Err(m)
  {
    ParseArgIdPrinted(id, ['}'] + rest);
    assert (['}'] + rest)[1..] == rest;
  }

  // ---------------------------------------------------------------- the parts, last first

  // What follows a width or a precision: never a digit.
  predicate EndsCount(s: string) {
    s != [] && !IsDigit(s[0]) && s[0] != '{'
  }

  lemma ParseTypePrinted(x: Syntax, post: string, specs: Specs, ctx: int)
    requires ValidSyntax(x) && specs.typ == NO_TYPE
    ensures ParseType(PrintType(x) + (['}'] + post), specs, ctx) == Ok((specs.(typ := x.typ), ['}'] + post, ctx))
    ensures EndsCount(PrintType(x) + (['}'] + post)) && (PrintType(x) + (['}'] + post))[0] != '.'
  {
    var s := PrintType(x) + (['}'] + post);
    if x.typ == NO_TYPE {
      assert s == ['}'] + post;
    } else {
      assert s[0] == x.typ && s[1..] == ['}'] + post;
    }
  }

  lemma DynamicFront(id: Id, rest: string)
    ensures var s := PrintCount(Dynamic(id)) + rest;
            s[0] == '{' && s[1..] == PrintId(id) + (['}'] + rest)
  {
    assert PrintCount(Dynamic(id)) + rest == ['{'] + (PrintId(id) + (['}'] + rest));
  }

  lemma ParseWidthPrinted(c: Count, rest: string, specs: Specs, ctx: int)
    requires ValidCount(c, 0) && EndsCount(rest) && specs.widthRef == NoRef
    ensures PrintCount(c) + rest != []
    ensures ParseWidth(PrintCount(c) + rest, specs, ctx) ==
            match CountContext(c, ctx)
            case Ok((w, ctx')) => Ok((WithWidth(c, specs).(widthRef := w), rest, ctx'))
            case Err(m) => Err(m)
  {
    match c
    case Absent =>
      assert PrintCount(c) + rest == rest;
    case Literal(n) =>
      ParseIntPrinted(n, rest);
    case Dynamic(id) =>
      ParseDynamicWidth(id, rest, specs, ctx);
  }

  lemma ParseDynamicWidth(id: Id, rest: string, specs: Specs, ctx: int)
    requires ValidId(id)
    ensures ParseWidth(PrintCount(Dynamic(id)) + rest, specs, ctx) ==
            match Resolve(id, ctx)
            case Ok((w, ctx')) => Ok((specs.(widthRef := w), rest, ctx'))
            case Err(m) => Err(m)
  {
    DynamicFront(id, rest);
    ParseDynamicPrinted(id, rest, ctx);
  }

  lemma ParsePrecisionPrinted(c: Count, rest: string, specs: Specs, ctx: int)
    requires ValidCount(c, 0) && !c.Absent? && EndsCount(rest) && specs.precisionRef == NoRef
    ensures ParsePrecision(PrintCount(c) + rest, specs, ctx) ==
            match CountContext(c, ctx)
            case Ok((p, ctx')) => Ok((WithPrecision(c, specs).(precisionRef := p), rest, ctx'))
            case Err(m) => Err(m)
  {
    match c
    case Literal(n) =>
      ParseIntPrinted(n, rest);
    case Dynamic(id) =>
      ParseDynamicPrecision(id, rest, specs, ctx);
  }

  lemma ParseDynamicPrecision(id: Id, rest: string, specs: Specs, ctx: int)
    requires ValidId(id)
    ensures ParsePrecision(PrintCount(Dynamic(id)) + rest, specs, ctx) ==
            match Resolve(id, ctx)
            case Ok((p, ctx')) => Ok((specs.(precisionRef := p), rest, ctx'))
            case Err(m) => Err(m)
  {
    DynamicFront(id, rest);
    ParseDynamicPrinted(id, rest, ctx);
  }

  // The fields set by width, precision and type, in that order.
  function TailMeaning(x: Syntax, specs: Specs, ctx: int): Result<(Specs, int)> {
    var (w, ctx1) :- CountContext(x.width, ctx);
    var (p, ctx2) :- CountContext(x.precision, ctx1);
    Ok((WithPrecision(x.precision, WithWidth(x.width, specs)).(
          typ := x.typ, widthRef := w, precisionRef := p), ctx2))
  }

  function Then(r: Result<(Specs, int)>, rest: string): Result<(Specs, string, int)> {
    match r
    case Ok((specs, ctx)) => Ok((specs, rest, ctx))
    case Err(m) => Err(m)
  }

  predicate Fresh(specs: Specs) {
    specs.typ == NO_TYPE && specs.widthRef == NoRef && specs.precisionRef == NoRef
  }

  lemma ParseTailPrinted(x: Syntax, post: string, specs: Specs, ctx: int)
    requires ValidSyntax(x) && Fresh(specs)
    ensures ParseTail(PrintTail(x) + (['}'] + post), specs, ctx) == Then(TailMeaning(x, specs, ctx), ['}'] + post)
  {
    if x.precision.Absent? { ParseWidthTail(x, post, specs, ctx); } else { ParseDottedTail(x, post, specs, ctx); }
  }

  lemma TextOfTail(a: string, c: string, end: string)
    ensures ((a + []) + c) + end == a + (c + end)
  {}

  lemma TextOfDottedTail(a: string, b: string, c: string, end: string)
    ensures ((a + (['.'] + b)) + c) + end == a + (['.'] + (b + (c + end)))
  {}

  lemma ParseWidthTail(x: Syntax, post: string, specs: Specs, ctx: int)
    requires ValidSyntax(x) && Fresh(specs) && x.precision.Absent?
    ensures ParseTail(PrintTail(x) + (['}'] + post), specs, ctx) == Then(TailMeaning(x, specs, ctx), ['}'] + post)
  {
    var typed := PrintType(x) + (['}'] + post);
    ParseTypePrinted(x, post, specs, ctx);
    TextOfTail(PrintCount(x.width), PrintType(x), ['}'] + post);
    ParseWidthPrinted(x.width, typed, specs, ctx);
    if CountContext(x.width, ctx).Ok? {
      var (w, ctx1) := CountContext(x.width, ctx).value;
      ParseTypePrinted(x, post, WithWidth(x.width, specs).(widthRef := w), ctx1);
    }
  }

  lemma ParseDottedTail(x: Syntax, post: string, specs: Specs, ctx: int)
    requires ValidSyntax(x) && Fresh(specs) && !x.precision.Absent?
    ensures ParseTail(PrintTail(x) + (['}'] + post), specs, ctx) == Then(TailMeaning(x, specs, ctx), ['}'] + post)
  {
    var dotted := ['.'] + (PrintCount(x.precision) + (PrintType(x) + (['}'] + post)));
    TextOfDottedTail(PrintCount(x.width), PrintCount(x.precision), PrintType(x), ['}'] + post);
    ParseWidthPrinted(x.width, dotted, specs, ctx);
    if CountContext(x.width, ctx).Ok? {
      var (w, ctx1) := CountContext(x.width, ctx).value;
      ParseDotted(x, post, WithWidth(x.width, specs).(widthRef := w), ctx1);
    }
  }

  lemma ParseDotted(x: Syntax, post: string, specs: Specs, ctx: int)
    requires ValidSyntax(x) && !x.precision.Absent? && specs.typ == NO_TYPE && specs.precisionRef == NoRef
    ensures var s := ['.'] + (PrintCount(x.precision) + (PrintType(x) + (['}'] + post)));
            s[0] == '.'
            && match CountContext(x.precision, ctx)
               case Ok((p, ctx')) =>
                 ParsePrecision(s[1..], specs, ctx).Ok?
                 && (var (specs1, s1, ctx1) := ParsePrecision(s[1..], specs, ctx).value;
                     ctx1 == ctx' && ParseType(s1, specs1, ctx1)
                     == Ok((WithPrecision(x.precision, specs).(precisionRef := p, typ := x.typ), ['}'] + post, ctx')))
               case Err(m) => ParsePrecision(s[1..], specs, ctx) == Err(m)
  {
    var typed := PrintType(x) + (['}'] + post);
    assert (['.'] + (PrintCount(x.precision) + typed))[1..] == PrintCount(x.precision) + typed;
    ParseTypePrinted(x, post, specs, ctx);
    ParsePrecisionPrinted(x.precision, typed, specs, ctx);
    if CountContext(x.precision, ctx).Ok? {
      var (p, ctx') := CountContext(x.precision, ctx).value;
      ParseTypePrinted(x, post, WithPrecision(x.precision, specs).(precisionRef := p), ctx');
    }
  }

  lemma TailFront(x: Syntax, post: string)
    requires ValidSyntax(x)
    ensures var s := PrintTail(x) + (['}'] + post);
            s != [] && (s[0] == '0' ==> x.zero) && s[0] != '#' && s[0] != '+' && s[0] != '-' && s[0] != ' '
            && AlignOf(s[0]) == Default
  {
    var s := PrintTail(x) + (['}'] + post);
    match x.width
    case Literal(n) =>
      DigitsReadBack(n);
      DigitsAreDigits(n);
      assert s[0] == Digits(n)[0];
    case Dynamic(id) =>
      assert s[0] == '{';
    case Absent =>
      if !x.precision.Absent? {
        assert s[0] == '.';
      } else if x.typ != NO_TYPE {
        assert s[0] == x.typ;
      } else {
        assert s == ['}'] + post;
      }
  }

  function Zeroed(x: Syntax, specs: Specs): Specs {
    if x.zero then specs.(align := Numeric, fill := '0') else specs
  }

  lemma ParseZeroPrinted(x: Syntax, post: string, specs: Specs, ctx: int)
    requires ValidSyntax(x) && Fresh(specs)
    ensures ParseZero(PrintZero(x) + (['}'] + post), specs, ctx)
         == Then(TailMeaning(x, Zeroed(x, specs), ctx), ['}'] + post)
  {
    var tail := PrintTail(x) + (['}'] + post);
    TailFront(x, post);
    if x.zero {
      assert PrintZero(x) + (['}'] + post) == ['0'] + tail;
    } else {
      assert PrintZero(x) + (['}'] + post) == tail;
    }
    ParseTailPrinted(x, post, Zeroed(x, specs), ctx);
  }

  lemma ZeroFront(x: Syntax, post: string)
    requires ValidSyntax(x)
    ensures var s := PrintZero(x) + (['}'] + post);
            s != [] && s[0] != '#' && s[0] != '+' && s[0] != '-' && s[0] != ' ' && AlignOf(s[0]) == Default
  {
    var s := PrintZero(x) + (['}'] + post);
    TailFront(x, post);
    if x.zero {
      assert s[0] == '0';
    } else {
      assert s == PrintTail(x) + (['}'] + post);
    }
  }

  function Hashed(x: Syntax, specs: Specs): Specs {
    if x.hash then specs.(flags := specs.flags.(hash := true)) else specs
  }

  lemma ParseHashPrinted(x: Syntax, post: string, specs: Specs, ctx: int)
    requires ValidSyntax(x) && Fresh(specs)
    ensures ParseHash(PrintHash(x) + (['}'] + post), specs, ctx)
         == Then(TailMeaning(x, Zeroed(x, Hashed(x, specs)), ctx), ['}'] + post)
  {
    var zero := PrintZero(x) + (['}'] + post);
    ZeroFront(x, post);
    if x.hash {
      assert PrintHash(x) + (['}'] + post) == ['#'] + zero;
    } else {
      assert PrintHash(x) + (['}'] + post) == zero;
    }
    ParseZeroPrinted(x, post, Hashed(x, specs), ctx);
  }

  lemma HashFront(x: Syntax, post: string)
    requires ValidSyntax(x)
    ensures var s := PrintHash(x) + (['}'] + post);
            s != [] && s[0] != '+' && s[0] != '-' && s[0] != ' ' && AlignOf(s[0]) == Default
  {
    var s := PrintHash(x) + (['}'] + post);
    ZeroFront(x, post);
    if x.hash {
      assert s[0] == '#';
    } else {
      assert s == PrintZero(x) + (['}'] + post);
    }
  }

  function Signed(x: Syntax, specs: Specs): Specs {
    match x.sign
    case NoSign => specs
    case Plus => specs.(flags := specs.flags.(sign := true, plus := true))
    case Minus => specs.(flags := specs.flags.(minus := true))
    case Space => specs.(flags := specs.flags.(sign := true))
  }

  lemma ParseSignPrinted(x: Syntax, post: string, specs: Specs)
    requires ValidSyntax(x)
    ensures var s := PrintSign(x.sign) + (PrintHash(x) + (['}'] + post));
            s != [] && AlignOf(s[0]) == Default
            && ParseSign(s, specs) == (Signed(x, specs), PrintHash(x) + (['}'] + post))
  {
    var rest := PrintHash(x) + (['}'] + post);
    var s := PrintSign(x.sign) + rest;
    HashFront(x, post);
    if x.sign == NoSign {
      assert s == rest;
    } else {
      assert s[1..] == rest;
    }
  }

  // The character after the first one is never an alignment when none is written.
  lemma SecondIsNoAlign(x: Syntax, post: string)
    requires ValidSyntax(x)
    ensures var s := PrintSign(x.sign) + (PrintHash(x) + (['}'] + post));
            |s| > 1 && s[0] != '}' ==> AlignOf(s[1]) == Default
  {
    var rest := PrintHash(x) + (['}'] + post);
    var s := PrintSign(x.sign) + rest;
    HashFront(x, post);
    if x.sign != NoSign {
      assert s[1] == rest[0];
    } else {
      assert s == rest;
      ZeroFront(x, post);
      var zero := PrintZero(x) + (['}'] + post);
      if x.hash {
        assert s[1] == zero[0];
      } else {
        assert s == zero;
        TailFront(x, post);
        if x.zero {
          assert s[1] == (PrintTail(x) + (['}'] + post))[0];
        } else {
          SecondOfTail(x, post);
          assert s == PrintTail(x) + (['}'] + post);
        }
      }
    }
  }

  // What is printed from the point of the precision on.
  function PrintDotted(x: Syntax): string {
    (if x.precision.Absent? then [] else ['.'] + PrintCount(x.precision)) + PrintType(x)
  }

  lemma SecondOfTail(x: Syntax, post: string)
    requires ValidSyntax(x)
    ensures var s := PrintTail(x) + (['}'] + post);
            |s| > 1 && s[0] != '}' ==> AlignOf(s[1]) == Default
  {
    var rest := PrintDotted(x) + (['}'] + post);
    assert PrintTail(x) + (['}'] + post) == PrintCount(x.width) + rest;
    FrontsOfDotted(x, post);
    if x.width.Absent? {
      assert PrintCount(x.width) + rest == rest;
    } else {
      SecondOfCount(x.width, 0, rest);
    }
  }

  // Neither the first nor the second character from the point on is an alignment.
  lemma FrontsOfDotted(x: Syntax, post: string)
    requires ValidSyntax(x)
    ensures var s := PrintDotted(x) + (['}'] + post);
            s != [] && AlignOf(s[0]) == Default && (|s| > 1 && s[0] != '}' ==> AlignOf(s[1]) == Default)
  {
    var typed := PrintType(x) + (['}'] + post);
    if x.precision.Absent? {
      assert PrintDotted(x) + (['}'] + post) == typed;
      assert x.typ != NO_TYPE ==> typed[1] == '}';
    } else {
      SecondOfCount(x.precision, 0, typed);
      assert PrintDotted(x) + (['}'] + post) == ['.'] + (PrintCount(x.precision) + typed);
    }
  }

  lemma SecondOfNumber(n: nat, rest: string)
    requires rest != []
    ensures var s := Digits(n) + rest;
            AlignOf(s[0]) == Default && (AlignOf(rest[0]) == Default ==> AlignOf(s[1]) == Default)
  {
    DigitsAreDigits(n);
    var s := Digits(n) + rest;
    assert s[0] == Digits(n)[0];
    assert s[1] == if |Digits(n)| > 1 then Digits(n)[1] else rest[0];
  }

  // Neither the first nor the second character of a written width or precision is an alignment.
  lemma SecondOfCount(c: Count, least: nat, rest: string)
    requires ValidCount(c, least) && rest != []
    ensures !c.Absent? ==> AlignOf((PrintCount(c) + rest)[0]) == Default
    ensures !c.Absent? && AlignOf(rest[0]) == Default ==> AlignOf((PrintCount(c) + rest)[1]) == Default
  {
    var s := PrintCount(c) + rest;
    match c
    case Absent =>
    case Literal(n) => SecondOfNumber(n, rest);
    case Dynamic(id) =>
      assert s == ['{'] + (PrintId(id) + (['}'] + rest));
      match id
      case AutoId => assert s[1] == '}';
      case NumId(n) =>
        DigitsAreDigits(n);
        assert s[1] == Digits(n)[0];
      case NameId(name) => assert s[1] == name[0];
  }

  lemma ParseAlignPrinted(x: Syntax, post: string)
    requires ValidSyntax(x)
    ensures var rest := PrintSign(x.sign) + (PrintHash(x) + (['}'] + post));
            var s := PrintAlign(x.align) + rest;
            s != [] && (s[0] != '}' ==> ParseAlign(s, DEFAULT_SPECS) == Ok((WithAlign(x.align, DEFAULT_SPECS), rest)))
            && (s[0] == '}' ==> x.align == NoAlign)
  {
    var rest := PrintSign(x.sign) + (PrintHash(x) + (['}'] + post));
    var s := PrintAlign(x.align) + rest;
    ParseSignPrinted(x, post, DEFAULT_SPECS);
    match x.align
    case NoAlign =>
      assert s == rest;
      SecondIsNoAlign(x, post);
    case JustAlign(a) =>
      assert s[0] == PrintAlignChar(a) && s[1] == rest[0] && s[1..] == rest;
    case FillAlign(c, a) =>
      assert s[0] == c && s[1] == PrintAlignChar(a) && s[2..] == rest;
  }

  /** Parsing a printed specification yields its meaning, references numbered and all, or the
      numbering error it must raise; the closing brace and what follows are left over. */
  lemma ParseSpecsPrinted(x: Syntax, post: string, ctx: int)
    requires ValidSyntax(x)
    ensures ParseSpecs(PrintSpecs(x) + (['}'] + post), ctx) == Then(Meaning(x, ctx), ['}'] + post)
  {
    var end := ['}'] + post;
    var rest := PrintSign(x.sign) + (PrintHash(x) + end);
    assert PrintSpecs(x) + end == PrintAlign(x.align) + rest;
    ParseAlignPrinted(x, post);
    if (PrintAlign(x.align) + rest)[0] == '}' {
      assert PrintAlign(x.align) + rest == rest;
      EmptySyntax(x, post);
    } else {
      ParseNonemptySpecs(x, post, ctx, PrintAlign(x.align) + rest);
    }
  }

  lemma ParseNonemptySpecs(x: Syntax, post: string, ctx: int, s: string)
    requires ValidSyntax(x) && s != [] && s[0] != '}'
    requires ParseAlign(s, DEFAULT_SPECS)
          == Ok((WithAlign(x.align, DEFAULT_SPECS), PrintSign(x.sign) + (PrintHash(x) + (['}'] + post))))
    ensures ParseSpecs(s, ctx) == Then(Meaning(x, ctx), ['}'] + post)
  {
    var specs := WithAlign(x.align, DEFAULT_SPECS);
    ParseSignPrinted(x, post, specs);
    ParseHashPrinted(x, post, Signed(x, specs), ctx);
    MeaningByParts(x, ctx);
  }

  lemma MeaningByParts(x: Syntax, ctx: int)
    ensures TailMeaning(x, Zeroed(x, Hashed(x, Signed(x, WithAlign(x.align, DEFAULT_SPECS)))), ctx) == Meaning(x, ctx)
  {
    var flagged := Hashed(x, Signed(x, WithAlign(x.align, DEFAULT_SPECS)));
    assert flagged == WithAlign(x.align, DEFAULT_SPECS).(flags := SignFlags(x.sign, x.hash));
  }

  lemma EmptySyntax(x: Syntax, post: string)
    requires ValidSyntax(x) && x.align == NoAlign
    requires (PrintSign(x.sign) + (PrintHash(x) + (['}'] + post)))[0] == '}'
    ensures x == Syntax(NoAlign, NoSign, false, false, Absent, Absent, NO_TYPE)
    ensures PrintSign(x.sign) + (PrintHash(x) + (['}'] + post)) == ['}'] + post
  {
    var rest := PrintHash(x) + (['}'] + post);
    assert x.sign == NoSign;
    assert PrintSign(x.sign) + rest == rest;
    EmptyHash(x, post);
  }

  lemma EmptyHash(x: Syntax, post: string)
    requires ValidSyntax(x) && (PrintHash(x) + (['}'] + post))[0] == '}'
    ensures !x.hash && !x.zero && x.width == Absent && x.precision == Absent && x.typ == NO_TYPE
    ensures PrintHash(x) + (['}'] + post) == ['}'] + post
  {
    var end := ['}'] + post;
    assert !x.hash;
    assert PrintHash(x) + end == PrintZero(x) + end;
    EmptyZero(x, post);
  }

  lemma EmptyZero(x: Syntax, post: string)
    requires ValidSyntax(x) && (PrintZero(x) + (['}'] + post))[0] == '}'
    ensures !x.zero && x.width == Absent && x.precision == Absent && x.typ == NO_TYPE
    ensures PrintZero(x) + (['}'] + post) == ['}'] + post
  {
    var end := ['}'] + post;
    assert !x.zero;
    assert PrintZero(x) + end == PrintTail(x) + end;
    if !(x.width == Absent && x.precision == Absent && x.typ == NO_TYPE) { TailShows(x, post); }
    assert PrintTail(x) == [];
  }

  lemma TailShows(x: Syntax, post: string)
    requires ValidSyntax(x) && !(x.width == Absent && x.precision == Absent && x.typ == NO_TYPE)
    ensures (PrintTail(x) + (['}'] + post))[0] != '}'
  {
    var s := PrintTail(x) + (['}'] + post);
    match x.width
    case Literal(n) =>
      DigitsAreDigits(n);
      assert s[0] == Digits(n)[0];
    case Dynamic(id) =>
      assert s[0] == '{';
    case Absent =>
      if !x.precision.Absent? {
        assert s[0] == '.';
      } else if x.typ != NO_TYPE {
        assert s[0] == x.typ;
      }
  }
}
