/** Which error a broken format string raises, behind any accepted beginning. */
module FormatErrors {
  import opened Decimal
  import opened FormatSpec
  import opened FormatSpecProofs
  import opened FormatString

  // ---------------------------------------------------------------- behind a beginning

  /** A printed list followed by anything. */
  function MeaningThen(xs: seq<Item>, t: string, ctx: int): Result<seq<Piece>> {
    if xs == [] then Parse(t, ctx)
    else
      var (piece, ctx') :- ItemMeaning(xs[0], ctx);
      Prepend([piece], MeaningThen(xs[1..], t, ctx'))
  }

  lemma Regrouped(a: string, b: string, c: string)
    ensures (a + b) + c == a + (b + c) && [] + c == c
  {}

  lemma {:induction false} PrintedThen(xs: seq<Item>, t: string, ctx: int)
    requires ValidItems(xs)
    ensures Parse(PrintItems(xs) + t, ctx) == MeaningThen(xs, t, ctx)
  {
    if xs == [] {
      Regrouped([], [], t);
    } else {
      var post := PrintItems(xs[1..]) + t;
      Regrouped(PrintItem(xs[0]), PrintItems(xs[1..]), t);
      FirstThen(xs[0], post, ctx);
      if ItemMeaning(xs[0], ctx).Ok? { PrintedThen(xs[1..], t, ItemMeaning(xs[0], ctx).value.1); }
    }
  }

  lemma FirstThen(x: Item, post: string, ctx: int)
    requires ValidItem(x)
    ensures ItemMeaning(x, ctx).Err? ==> Parse(PrintItem(x) + post, ctx) == Err(ItemMeaning(x, ctx).message)
    ensures ItemMeaning(x, ctx).Ok? ==>
              var (piece, ctx') := ItemMeaning(x, ctx).value;
              Parse(PrintItem(x) + post, ctx) == Prepend([piece], Parse(post, ctx'))
  {
    var s := PrintItem(x) + post;
    if x.Char? {
      assert s[|PrintItem(x)|..] == post;
    } else {
      HoleText(x, post);
      ParseHolePrinted(x, post, ctx);
    }
  }

  lemma {:induction false} ErrorStays(xs: seq<Item>, t: string, ctx: int, m: string)
    requires Numberable(ItemsIds(xs), ctx) && Parse(t, AfterIds(ItemsIds(xs), ctx)) == Err(m)
    ensures MeaningThen(xs, t, ctx) == Err(m)
  {
    if xs != [] {
      ItemMeaningNumbers(xs[0], ctx);
      NumberableAppend(ItemIds(xs[0]), ItemsIds(xs[1..]), ctx);
      AfterBoth(ItemIds(xs[0]), ItemsIds(xs[1..]), ctx);
      ErrorStays(xs[1..], t, ItemMeaning(xs[0], ctx).value.1, m);
    }
  }

  lemma {:induction false} AfterBoth(a: seq<Id>, b: seq<Id>, ctx: int)
    ensures AfterIds(a + b, ctx) == AfterIds(b, AfterIds(a, ctx))
  {
    if a == [] {
      assert a + b == b;
    } else {
      AfterBoth(a[1..], b, AfterId(a[0], ctx));
      assert (a + b)[1..] == a[1..] + b;
    }
  }

  /** An error is the same behind any beginning that can be numbered. */
  lemma ErrorBehind(xs: seq<Item>, t: string, m: string)
    requires ValidItems(xs) && Numberable(ItemsIds(xs), 0) && Parse(t, AfterIds(ItemsIds(xs), 0)) == Err(m)
    ensures Parse(PrintItems(xs) + t, 0) == Err(m)
  {
    PrintedThen(xs, t, 0);
    ErrorStays(xs, t, 0, m);
  }

  // ---------------------------------------------------------------- the errors

  /** A closing brace that is not doubled. */
  lemma LoneClosingBrace(rest: string, ctx: int)
    requires rest == [] || rest[0] != '}'
    ensures Parse(['}'] + rest, ctx) == Err("unmatched '}' in format string")
  {}

  lemma NothingBehindBrace(s: string, ctx: int)
    requires s == "{"
    ensures Parse(s, ctx) == Err("invalid format string")
  {}

  lemma FieldError(t: string, ctx: int, m: string)
    requires t != [] && t[0] != '{' && ParseField(t, ctx) == Err(m)
    ensures Parse(['{'] + t, ctx) == Err(m)
  {
    assert (['{'] + t)[1..] == t;
  }

  /** One of the 26 small or 26 capital letters, or an underscore. */
  predicate StartsName(c: char) {
    c == '_' || 0 <= c as int - 'a' as int < 26 || 0 <= c as int - 'A' as int < 26
  }

  /** Neither the end of an id nor the start of a number or a name. */
  lemma NoId(c: char, rest: string, ctx: int)
    requires c != '{' && c != '}' && c != ':' && !IsDigit(c) && !StartsName(c)
    ensures Parse(['{'] + ([c] + rest), ctx) == Err("invalid format string")
  {
    FieldError([c] + rest, ctx, "invalid format string");
  }

  /** A name starts with a letter or an underscore, and digits may follow. */
  lemma NamesAre(c: char, d: char)
    ensures ParseArgId([c] + "}") == Ok((NameId([c]), "}")) <==> StartsName(c)
    ensures StartsName(c) ==>
              (ParseArgId([c] + ([d] + "}")) == Ok((NameId([c, d]), "}")) <==> StartsName(d) || IsDigit(d))
  {
    if StartsName(c) {
      var s := [c] + "}";
      assert s[1..] == "}" && NameRun("}") == 0 && s[..1] == [c];
      var s2 := [c] + ([d] + "}");
      assert s2[1..] == [d] + "}" && ([d] + "}")[1..] == "}";
      if IsNameChar(d) {
        assert NameRun(s2) == 2 && s2[..2] == [c, d] && s2[2..] == "}";
      } else {
        assert NameRun(s2) == 1 && |s2[..1]| == 1;
      }
    }
  }

  lemma NumberNotEnded(n: nat, rest: string, ctx: int)
    requires n <= 2147483647 && (rest == [] || (rest[0] != '}' && rest[0] != ':' && !IsDigit(rest[0])))
    ensures Parse(['{'] + (Digits(n) + rest), ctx) == Err("invalid format string")
  {
    var t := Digits(n) + rest;
    ParseIntPrinted(n, rest);
    FieldError(t, ctx, "invalid format string");
  }

  lemma NumberTooBig(n: nat, rest: string, ctx: int)
    requires n > 2147483647 && (rest == [] || !IsDigit(rest[0]))
    ensures Parse(['{'] + (Digits(n) + rest), ctx) == Err("number is too big")
  {
    DigitsReadBack(n);
    DigitsAreDigits(n);
    ParseIntAccepts(Digits(n), rest);
    FieldError(Digits(n) + rest, ctx, "number is too big");
  }

  lemma NameNotEnded(name: string, rest: string, ctx: int)
    requires ValidId(NameId(name)) && (rest == [] || (rest[0] != '}' && rest[0] != ':' && !IsNameChar(rest[0])))
    ensures Parse(['{'] + (name + rest), ctx) == Err("missing '}' in format string")
  {
    var t := name + rest;
    NameRunOf(name, rest);
    assert t[0] == name[0] && t[..|name|] == name && t[|name|..] == rest;
    FieldParts(t, ctx, NameId(name), rest, NameRef(name), ctx);
    FieldError(t, ctx, "missing '}' in format string");
  }

  /** An error in the specification of a field. */
  lemma SpecError(id: Id, s: string, ctx: int, m: string)
    requires ValidId(id) && Resolve(id, ctx).Ok?
    requires ClosedField(ParseSpecs(s, Resolve(id, ctx).value.1), Resolve(id, ctx).value.0) == Err(m)
    ensures Parse(['{'] + (PrintId(id) + ([':'] + s)), ctx) == Err(m)
  {
    var (arg, ctx1) := Resolve(id, ctx).value;
    var t := PrintId(id) + ([':'] + s);
    ParseArgIdPrinted(id, [':'] + s);
    assert ([':'] + s)[1..] == s;
    FieldParts(t, ctx, id, [':'] + s, arg, ctx1);
    IdFront(id, [':'] + s);
    FieldError(t, ctx, m);
  }

  /** A specification that starts with its width, its precision or its type. */
  lemma OnlyTail(s: string, ctx: int)
    requires s != [] && AlignOf(s[0]) == Default && (|s| > 1 ==> AlignOf(s[1]) == Default)
    requires s[0] != '}' && s[0] != '+' && s[0] != '-' && s[0] != ' ' && s[0] != '#' && s[0] != '0'
    ensures ParseSpecs(s, ctx) == ParseTail(s, DEFAULT_SPECS, ctx)
  {}

  /** A brace cannot be a fill. */
  lemma BraceAsFill(id: Id, a: Align, rest: string, ctx: int)
    requires ValidId(id) && Resolve(id, ctx).Ok? && a != Default
    ensures Parse(['{'] + (PrintId(id) + ([':'] + (['{', PrintAlignChar(a)] + rest))), ctx)
            == Err("invalid fill character '{'")
  {
    SpecError(id, ['{', PrintAlignChar(a)] + rest, ctx, "invalid fill character '{'");
  }

  /** A point with no precision behind it. */
  lemma PrecisionMissing(id: Id, rest: string, ctx: int)
    requires ValidId(id) && Resolve(id, ctx).Ok?
    requires rest == [] || (!IsDigit(rest[0]) && rest[0] != '{' && AlignOf(rest[0]) == Default)
    ensures Parse(['{'] + (PrintId(id) + ([':'] + (['.'] + rest))), ctx) == Err("missing precision specifier")
  {
    var s := ['.'] + rest;
    assert s[1..] == rest;
    OnlyTail(s, Resolve(id, ctx).value.1);
    assert ParseTail(s, DEFAULT_SPECS, Resolve(id, ctx).value.1) == Err("missing precision specifier");
    SpecError(id, s, ctx, "missing precision specifier");
  }

  /** A type with something else than a closing brace behind it, or nothing. */
  lemma SpecNotEnded(id: Id, typ: char, rest: string, ctx: int)
    requires ValidId(id) && Resolve(id, ctx).Ok? && IsLetter(typ)
    requires rest == [] || (rest[0] != '}' && AlignOf(rest[0]) == Default)
    ensures Parse(['{'] + (PrintId(id) + ([':'] + ([typ] + rest))), ctx) == Err("missing '}' in format string")
  {
    var s, ctx1 := [typ] + rest, Resolve(id, ctx).value.1;
    assert s[1..] == rest;
    OnlyTail(s, ctx1);
    assert ParseTail(s, DEFAULT_SPECS, ctx1) == Ok((DEFAULT_SPECS.(typ := typ), rest, ctx1));
    SpecError(id, s, ctx, "missing '}' in format string");
  }

  /** A width in braces that holds more than an id. */
  lemma DynamicNotEnded(id: Id, width: Id, rest: string, ctx: int)
    requires ValidId(id) && ValidId(width) && Resolve(id, ctx).Ok? && Resolve(width, Resolve(id, ctx).value.1).Ok?
    ensures Parse(['{'] + (PrintId(id) + ([':'] + (['{'] + (PrintId(width) + ([':'] + rest))))), ctx)
            == Err("invalid format string")
  {
    var inner, ctx1 := PrintId(width) + ([':'] + rest), Resolve(id, ctx).value.1;
    var s := ['{'] + inner;
    assert s[1..] == inner;
    ParseArgIdPrinted(width, [':'] + rest);
    NoAlignment(width, [':'] + rest);
    assert ParseDynamic(inner, ctx1) == Err("invalid format string");
    assert ParseTail(s, DEFAULT_SPECS, ctx1) == Err("invalid format string");
    assert s[0] == '{' && s[1] == inner[0];
    OnlyTail(s, ctx1);
    SpecError(id, s, ctx, "invalid format string");
  }

  lemma NoAlignment(id: Id, rest: string)
    requires ValidId(id) && rest != [] && rest[0] == ':'
    ensures AlignOf((PrintId(id) + rest)[0]) == Default
  {
    match id
    case AutoId => assert PrintId(id) + rest == rest;
    case NumId(n) =>
      DigitsAreDigits(n);
      assert (PrintId(id) + rest)[0] == Digits(n)[0];
    case NameId(name) => assert (PrintId(id) + rest)[0] == name[0];
  }
}
