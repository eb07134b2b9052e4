/** Exactly which strings the parser accepts: those of the grammar, that is, the printed ones. */
module FormatGrammar {
  import opened Decimal
  import opened Numerals
  import opened FormatSpec
  import opened FormatString
  import opened FormatReferences

  // ---------------------------------------------------------------- numbers and ids

  lemma IntWasPrinted(s: string, n: nat, rest: string)
    requires s != [] && IsDigit(s[0]) && ParseInt(s) == Ok((n, rest))
    ensures s == Digits(n) + rest && n <= INT_MAX && (n == 0 ==> s[0] == '0')
  {
    if s[0] == '0' {
      assert Digits(0) == ['0'];
    } else {
      var run := s[..DigitRun(s)];
      assert DigitRun(s) > 0 && run[0] == s[0];
      ShortestIsDigits(run);
      assert s == run + s[DigitRun(s)..];
      DigitsReadBack(0);
      assert Digits(0) == ['0'];
    }
  }

  lemma {:induction false} NameRunIsName(s: string)
    ensures forall i :: 0 <= i < NameRun(s) ==> IsNameChar(s[i])
  {
    if s != [] && IsNameChar(s[0]) {
      NameRunIsName(s[1..]);
      assert forall i :: 0 < i < NameRun(s) ==> s[i] == s[1..][i - 1];
    }
  }

  lemma IdWasPrinted(s: string, id: Id, rest: string)
    requires s != [] && ParseArgId(s) == Ok((id, rest))
    ensures ValidId(id) && s == PrintId(id) + rest
  {
    if s[0] == '}' || s[0] == ':' {
      assert PrintId(id) + rest == rest;
    } else if IsDigit(s[0]) {
      var (n, tail) := ParseInt(s).value;
      IntWasPrinted(s, n, tail);
    } else {
      NameRunIsName(s);
      assert s == s[..NameRun(s)] + s[NameRun(s)..];
    }
  }

  // ---------------------------------------------------------------- the parts of a specification

  lemma DynamicWasPrinted(s: string, ctx: int) returns (id: Id)
    requires ParseDynamic(s, ctx).Ok?
    ensures ValidId(id) && ['{'] + s == PrintCount(Dynamic(id)) + ParseDynamic(s, ctx).value.1
  {
    var (i, rest) := ParseArgId(s).value;
    id := i;
    IdWasPrinted(s, id, rest);
    FirstApart(rest);
    Braced(PrintId(id), rest[1..]);
  }

  lemma Braced(a: string, b: string)
    ensures ['{'] + (a + (['}'] + b)) == (['{'] + a + ['}']) + b
  {}

  lemma WidthWasPrinted(s: string, specs: Specs, ctx: int) returns (c: Count)
    requires s != [] && ParseWidth(s, specs, ctx).Ok?
    ensures var r := ParseWidth(s, specs, ctx).value;
            s == PrintCount(c) + r.1 && r.0.typ == specs.typ && ValidCount(c, if s[0] == '0' then 0 else 1)
  {
    if IsDigit(s[0]) {
      var (n, rest) := ParseInt(s).value;
      IntWasPrinted(s, n, rest);
      c := Literal(n);
    } else if s[0] == '{' {
      var id := DynamicWasPrinted(s[1..], ctx);
      assert s == ['{'] + s[1..];
      c := Dynamic(id);
    } else {
      c := Absent;
      assert PrintCount(c) + s == s;
    }
  }

  lemma PrecisionWasPrinted(s: string, specs: Specs, ctx: int) returns (c: Count)
    requires ParsePrecision(s, specs, ctx).Ok?
    ensures var r := ParsePrecision(s, specs, ctx).value;
            s == PrintCount(c) + r.1 && r.0.typ == specs.typ && ValidCount(c, 0) && !c.Absent?
  {
    if IsDigit(s[0]) {
      var (n, rest) := ParseInt(s).value;
      IntWasPrinted(s, n, rest);
      c := Literal(n);
    } else {
      var id := DynamicWasPrinted(s[1..], ctx);
      assert s == ['{'] + s[1..];
      c := Dynamic(id);
    }
  }

  predicate LetterOrNone(typ: char) { typ == NO_TYPE || IsLetter(typ) }

  function TypeText(typ: char): string { if typ == NO_TYPE then [] else [typ] }

  lemma TypeWasPrinted(s: string, specs: Specs, ctx: int)
    requires '\0' !in s && specs.typ == NO_TYPE
    ensures var r := ParseType(s, specs, ctx).value; s == TypeText(r.0.typ) + r.1
  {
    if s != [] && s[0] != '}' { assert s == [s[0]] + s[1..]; }
  }

  function DotText(p: Count): string { if p.Absent? then [] else ['.'] + PrintCount(p) }

  /** What follows the width. */
  function AfterWidth(s: string, specs: Specs, ctx: int): Result<(Specs, string, int)> {
    if s == [] then Ok((specs, s, ctx))
    else if s[0] == '.' then
      var (specs, s, ctx) :- ParsePrecision(s[1..], specs, ctx);
      ParseType(s, specs, ctx)
    else ParseType(s, specs, ctx)
  }

  lemma TailIsWidthFirst(s: string, specs: Specs, ctx: int)
    requires s != []
    ensures ParseWidth(s, specs, ctx).Err? ==> ParseTail(s, specs, ctx).Err?
    ensures ParseWidth(s, specs, ctx).Ok? ==>
              var r := ParseWidth(s, specs, ctx).value; ParseTail(s, specs, ctx) == AfterWidth(r.1, r.0, r.2)
  {}

  lemma DottedWasPrinted(s: string, specs: Specs, ctx: int) returns (p: Count)
    requires s != [] && s[0] == '.' && '\0' !in s && ParsePrecision(s[1..], specs, ctx).Ok?
    ensures var r := ParsePrecision(s[1..], specs, ctx).value;
            s == DotText(p) + r.1 && '\0' !in r.1 && r.0.typ == specs.typ && ValidCount(p, 0)
  {
    p := PrecisionWasPrinted(s[1..], specs, ctx);
    var rest := ParsePrecision(s[1..], specs, ctx).value.1;
    Behind(['.'], PrintCount(p), rest);
    FirstApart(s);
    NoneBehind(s, ['.'] + PrintCount(p), rest);
  }

  lemma AfterWidthWasPrinted(s: string, specs: Specs, ctx: int) returns (p: Count)
    requires AfterWidth(s, specs, ctx).Ok? && '\0' !in s && specs.typ == NO_TYPE
    ensures var r := AfterWidth(s, specs, ctx).value;
            s == DotText(p) + (TypeText(r.0.typ) + r.1) && ValidCount(p, 0)
  {
    p := Absent;
    if s != [] && s[0] == '.' {
      p := DottedWasPrinted(s, specs, ctx);
      var (specs', s', ctx') := ParsePrecision(s[1..], specs, ctx).value;
      TypeWasPrinted(s', specs', ctx');
    } else if s != [] {
      TypeWasPrinted(s, specs, ctx);
    }
  }

  /** What is read from the width on was printed. */
  lemma TailWasPrinted(s: string, specs: Specs, ctx: int) returns (w: Count, p: Count)
    requires ParseTail(s, specs, ctx).Ok? && '\0' !in s && specs.typ == NO_TYPE
    ensures var r := ParseTail(s, specs, ctx).value;
            && s == (PrintCount(w) + DotText(p) + TypeText(r.0.typ)) + r.1
            && ValidCount(w, if s != [] && s[0] == '0' then 0 else 1) && ValidCount(p, 0)
  {
    w, p := Absent, Absent;
    if s != [] {
      TailIsWidthFirst(s, specs, ctx);
      w := WidthWasPrinted(s, specs, ctx);
      var (specs', s', ctx') := ParseWidth(s, specs, ctx).value;
      NoneBehind(s, PrintCount(w), s');
      p := AfterWidthWasPrinted(s', specs', ctx');
      var r := AfterWidth(s', specs', ctx').value;
      Regroup(PrintCount(w), DotText(p), TypeText(r.0.typ), r.1);
    }
  }

  lemma NoneBehind(s: string, a: string, b: string)
    requires '\0' !in s && s == a + b
    ensures '\0' !in b
  {
    assert forall i :: 0 <= i < |b| ==> b[i] == s[|a| + i];
  }

  lemma Regroup(a: string, b: string, c: string, d: string)
    ensures a + (b + (c + d)) == (a + b + c) + d
  {}

  // ---------------------------------------------------------------- the whole specification

  function TailSyntax(w: Count, p: Count, typ: char, zero: bool): Syntax {
    Syntax(NoAlign, NoSign, false, zero, w, p, typ)
  }

  lemma TailPrints(x: Syntax)
    ensures PrintZero(x) == (if x.zero then ['0'] else []) + PrintTail(x)
    ensures PrintTail(x) == PrintCount(x.width) + DotText(x.precision) + TypeText(x.typ)
  {}

  /** The part from the hash on. */
  lemma HashWasPrinted(s: string, specs: Specs, ctx: int) returns (x: Syntax)
    requires ParseHash(s, specs, ctx).Ok? && '\0' !in s && specs.typ == NO_TYPE
    requires LetterOrNone(ParseHash(s, specs, ctx).value.0.typ)
    ensures s == PrintHash(x) + ParseHash(s, specs, ctx).value.1
    ensures ValidSyntax(x) && x.align == NoAlign && x.sign == NoSign
  {
    var hash := s != [] && s[0] == '#';
    var s1 := if hash then s[1..] else s;
    var specs1 := if hash then specs.(flags := specs.flags.(hash := true)) else specs;
    var front := if hash then ['#'] else [];
    OneCharFront(s, '#');
    NoneBehind(s, front, s1);
    var y := ZeroWasPrinted(s1, specs1, ctx);
    x := y.(hash := hash);
    assert PrintHash(x) == front + PrintZero(y);
    Behind(front, PrintZero(y), ParseZero(s1, specs1, ctx).value.1);
  }

  lemma OneCharFront(s: string, c: char)
    ensures var found := s != [] && s[0] == c; s == (if found then [c] else []) + (if found then s[1..] else s)
  {}

  lemma Behind(a: string, b: string, c: string)
    ensures a + (b + c) == (a + b) + c
  {}

  lemma ZeroWasPrinted(s: string, specs: Specs, ctx: int) returns (x: Syntax)
    requires ParseZero(s, specs, ctx).Ok? && '\0' !in s && specs.typ == NO_TYPE
    requires LetterOrNone(ParseZero(s, specs, ctx).value.0.typ)
    ensures s == PrintZero(x) + ParseZero(s, specs, ctx).value.1
    ensures ValidSyntax(x) && x.align == NoAlign && x.sign == NoSign
  {
    var zero := s != [] && s[0] == '0';
    var s1 := if zero then s[1..] else s;
    var specs1 := if zero then specs.(align := Numeric, fill := '0') else specs;
    var front := if zero then ['0'] else [];
    OneCharFront(s, '0');
    NoneBehind(s, front, s1);
    var w, p := TailWasPrinted(s1, specs1, ctx);
    var r := ParseTail(s1, specs1, ctx).value;
    x := TailSyntax(w, p, r.0.typ, zero);
    TailPrints(x);
    Behind(front, PrintTail(x), r.1);
  }

  lemma SignWasPrinted(s: string, specs: Specs) returns (sign: Sign)
    requires s != []
    ensures s == PrintSign(sign) + ParseSign(s, specs).1 && ParseSign(s, specs).0.typ == specs.typ
  {
    sign := if s[0] == '+' then Plus else if s[0] == '-' then Minus else if s[0] == ' ' then Space else NoSign;
    assert sign != NoSign ==> s == [s[0]] + s[1..];
  }

  lemma AlignWasPrinted(s: string) returns (a: AlignSyntax)
    requires s != [] && s[0] != '}' && ParseAlign(s, DEFAULT_SPECS).Ok?
    ensures var r := ParseAlign(s, DEFAULT_SPECS).value; s == PrintAlign(a) + r.1 && r.0.typ == NO_TYPE
    ensures (a.JustAlign? ==> a.a != Default)
            && (a.FillAlign? ==> a.a != Default && a.c != '{' && a.c != '}')
  {
    a := NoAlign;
    if |s| > 1 && AlignOf(s[1]) != Default {
      a := FillAlign(s[0], AlignOf(s[1]));
      assert s == [s[0], s[1]] + s[2..];
    } else if AlignOf(s[0]) != Default {
      a := JustAlign(AlignOf(s[0]));
      assert s == [s[0]] + s[1..];
    }
  }

  const EMPTY := Syntax(NoAlign, NoSign, false, false, Absent, Absent, NO_TYPE)

  lemma EmptyPrintsNothing()
    ensures ValidSyntax(EMPTY) && PrintHash(EMPTY) == [] && PrintSpecs(EMPTY) == []
  {}

  /** Every specification that is read, with a letter for a type or none, was printed. */
  lemma SpecsWerePrinted(s: string, ctx: int) returns (x: Syntax)
    requires ParseSpecs(s, ctx).Ok? && '\0' !in s && LetterOrNone(ParseSpecs(s, ctx).value.0.typ)
    ensures ValidSyntax(x) && s == PrintSpecs(x) + ParseSpecs(s, ctx).value.1
  {
    x := EMPTY;
    EmptyPrintsNothing();
    if s != [] && s[0] != '}' {
      var a := AlignWasPrinted(s);
      var (specs1, s1) := ParseAlign(s, DEFAULT_SPECS).value;
      NoneBehind(s, PrintAlign(a), s1);
      if s1 == [] {
        x := EMPTY.(align := a);
        OnlyAlign(a);
      } else {
        x := SignedWasPrinted(s1, specs1, ctx);
        x := x.(align := a);
        WithAlignment(x, PrintSign(x.sign) + PrintHash(x), ParseSpecs(s, ctx).value.1);
      }
    }
  }

  lemma OnlyAlign(a: AlignSyntax)
    ensures PrintSpecs(EMPTY.(align := a)) == PrintAlign(a)
  {
    assert PrintHash(EMPTY.(align := a)) == [];
  }

  lemma WithAlignment(x: Syntax, signed: string, rest: string)
    requires signed == PrintSign(x.sign) + PrintHash(x)
    ensures PrintAlign(x.align) + (signed + rest) == PrintSpecs(x) + rest
  {}

  lemma SignedWasPrinted(s: string, specs: Specs, ctx: int) returns (x: Syntax)
    requires s != [] && '\0' !in s && specs.typ == NO_TYPE
    requires var (specs', s') := ParseSign(s, specs);
             ParseHash(s', specs', ctx).Ok? && LetterOrNone(ParseHash(s', specs', ctx).value.0.typ)
    ensures var (specs', s') := ParseSign(s, specs);
            ValidSyntax(x) && x.align == NoAlign
            && s == (PrintSign(x.sign) + PrintHash(x)) + ParseHash(s', specs', ctx).value.1
  {
    var (specs', s') := ParseSign(s, specs);
    var sign := SignWasPrinted(s, specs);
    NoneBehind(s, PrintSign(sign), s');
    var y := HashWasPrinted(s', specs', ctx);
    x := y.(sign := sign);
    assert PrintHash(x) == PrintHash(y);
  }

  // ---------------------------------------------------------------- fields and strings

  /** The type, where one is written, is a letter. */
  predicate LetterType(p: Piece) { p.Field? && p.specs.Some? ==> LetterOrNone(p.specs.value.typ) }

  ghost predicate LetterTypes(ps: seq<Piece>) { forall i :: 0 <= i < |ps| ==> LetterType(ps[i]) }

  lemma FieldWasPrinted(s: string, ctx: int) returns (x: Item)
    requires s != [] && ParseField(s, ctx).Ok? && '\0' !in s && LetterType(ParseField(s, ctx).value.0)
    ensures ValidItem(x) && x.Hole? && ['{'] + s == PrintItem(x) + ParseField(s, ctx).value.1
  {
    var (id, rest) := ParseArgId(s).value;
    var (arg, ctx1) := Resolve(id, ctx).value;
    IdWasPrinted(s, id, rest);
    FieldParts(s, ctx, id, rest, arg, ctx1);
    if rest[0] == '}' {
      x := Hole(id, None);
      assert rest == ['}'] + rest[1..];
      Bracketed(PrintId(id), ['}'], rest[1..]);
    } else {
      NoneBehind(s, PrintId(id), rest);
      var spec := ColonWasPrinted(rest, ctx1);
      x := Hole(id, Some(spec));
      Bracketed(PrintId(id), PrintRest(Some(spec)), ParseSpecs(rest[1..], ctx1).value.1[1..]);
    }
  }

  lemma ColonWasPrinted(s: string, ctx: int) returns (x: Syntax)
    requires s != [] && s[0] == ':' && '\0' !in s && ParseSpecs(s[1..], ctx).Ok?
    requires var (specs, end, _) := ParseSpecs(s[1..], ctx).value; LetterOrNone(specs.typ) && end != [] && end[0] == '}'
    ensures ValidSyntax(x) && s == PrintRest(Some(x)) + ParseSpecs(s[1..], ctx).value.1[1..]
  {
    FirstApart(s);
    NoneBehind(s, [':'], s[1..]);
    x := SpecsWerePrinted(s[1..], ctx);
    var end := ParseSpecs(s[1..], ctx).value.1;
    FirstApart(end);
    Colon(PrintSpecs(x), end[1..]);
  }

  lemma FirstApart(s: string)
    requires s != []
    ensures s == [s[0]] + s[1..]
  {}

  lemma Bracketed(a: string, b: string, c: string)
    ensures ['{'] + (a + (b + c)) == (['{'] + (a + b)) + c
  {}

  lemma Colon(a: string, b: string)
    ensures [':'] + (a + (['}'] + b)) == ([':'] + (a + ['}'])) + b
  {}

  lemma CharWasPrinted(s: string)
    requires s != [] && s[0] != '{' && s[0] != '}'
    ensures s == PrintItem(Char(s[0])) + s[1..]
  {}

  lemma DoubleWasPrinted(s: string)
    requires |s| > 1 && s[0] == s[1] && (s[0] == '{' || s[0] == '}')
    ensures s == PrintItem(Char(s[0])) + s[2..]
  {}

  /** Every string that is accepted, with letters for types, was printed. */
  lemma {:induction false} StringWasPrinted(s: string, ctx: int) returns (xs: seq<Item>)
    requires Parse(s, ctx).Ok? && '\0' !in s && LetterTypes(Parse(s, ctx).value)
    ensures ValidItems(xs) && s == PrintItems(xs)
    decreases |s|
  {
    xs := [];
    if s != [] {
      var x, rest, ctx' := Char(s[0]), s[1..], ctx;
      if s[0] == '{' && s[1] != '{' {
        assert s == ['{'] + s[1..];
        NoneBehind(s, ['{'], s[1..]);
        var f := ParseField(s[1..], ctx).value;
        FirstLetterType(f.0, Parse(f.1, f.2).value);
        x := FieldWasPrinted(s[1..], ctx);
        rest, ctx' := f.1, f.2;
      } else if s[0] == '{' || s[0] == '}' {
        DoubleWasPrinted(s);
        rest := s[2..];
        FirstLetterType(Lit(s[0]), Parse(rest, ctx).value);
      } else {
        CharWasPrinted(s);
        FirstLetterType(Lit(s[0]), Parse(rest, ctx).value);
      }
      NoneBehind(s, PrintItem(x), rest);
      var tail := StringWasPrinted(rest, ctx');
      xs := [x] + tail;
      assert xs[1..] == tail;
    }
  }

  lemma FirstLetterType(p: Piece, ps: seq<Piece>)
    ensures LetterTypes([p] + ps) <==> LetterType(p) && LetterTypes(ps)
  {
    if LetterTypes([p] + ps) {
      forall i | 0 <= i < |ps| ensures LetterType(ps[i]) { assert ([p] + ps)[i + 1] == ps[i]; }
      assert ([p] + ps)[0] == p;
    }
  }

  lemma {:induction false} PrintedTypes(xs: seq<Item>, ctx: int)
    requires ValidItems(xs) && ItemsMeaning(xs, ctx).Ok?
    ensures LetterTypes(ItemsMeaning(xs, ctx).value)
  {
    if xs != [] {
      var (piece, ctx') := ItemMeaning(xs[0], ctx).value;
      ItemMatches(xs[0], ctx);
      PrintedTypes(xs[1..], ctx');
      FirstLetterType(piece, ItemsMeaning(xs[1..], ctx').value);
    }
  }

  /** s is a written list of texts and fields whose ids are not both automatic and numbered. */
  ghost predicate InGrammar(s: string) {
    exists xs :: ValidItems(xs) && s == PrintItems(xs) && !Mixes(ItemsIds(xs))
  }

  lemma PrintedUnlessMixed(xs: seq<Item>)
    requires ValidItems(xs)
    ensures Parse(PrintItems(xs), 0).Ok? <==> !Mixes(ItemsIds(xs))
  {
    PrintedAcceptedExactly(xs);
  }

  lemma AcceptedIsInGrammar(s: string, r: Result<seq<Piece>>)
    requires '\0' !in s && r == Parse(s, 0) && r.Ok? && LetterTypes(r.value)
    ensures InGrammar(s)
  {
    var xs := StringWasPrinted(s, 0);
    PrintedUnlessMixed(xs);
  }

  lemma GrammarIsAccepted(s: string, r: Result<seq<Piece>>)
    requires InGrammar(s) && r == Parse(s, 0)
    ensures r.Ok? && LetterTypes(r.value)
  {
    var xs :| ValidItems(xs) && s == PrintItems(xs) && !Mixes(ItemsIds(xs));
    PrintedUnlessMixed(xs);
    ParsePrinted(xs, 0);
    PrintedTypes(xs, 0);
  }

  /** The parser accepts a string, with letters for types, exactly when it is in the grammar. */
  lemma AcceptedExactly(s: string)
    requires '\0' !in s
    ensures Parse(s, 0).Ok? && LetterTypes(Parse(s, 0).value) <==> InGrammar(s)
  {
    var r := Parse(s, 0);
    if r.Ok? && LetterTypes(r.value) { AcceptedIsInGrammar(s, r); }
    if InGrammar(s) { GrammarIsAccepted(s, r); }
  }
}
