/** Format strings: literal text with doubled braces, and replacement fields. */
module FormatString {
  import opened Decimal
  import opened FormatSpec
  import opened FormatSpecProofs

  // What the handler is told, with text cut into characters.
  datatype Piece = Lit(c: char) | Field(arg: ArgRef, specs: Option<Specs>)

  /** A field, after its opening brace. */
  function ParseField(s: string, ctx: int): (r: Result<(Piece, string, int)>)
    requires s != []
    ensures r.Ok? ==> |r.value.1| < |s|
  {
    var (id, rest) :- ParseArgId(s);
    var (arg, ctx1) :- Resolve(id, ctx);
    if rest != [] && rest[0] == '}' then Ok((Field(arg, None), rest[1..], ctx1))
    else if rest != [] && rest[0] == ':' then
      var (specs, rest2, ctx2) :- ParseSpecs(rest[1..], ctx1);
      if rest2 == [] || rest2[0] != '}' then Err("missing '}' in format string")
      else Ok((Field(arg, Some(specs)), rest2[1..], ctx2))
    else Err("missing '}' in format string")
  }

  function Prepend(pieces: seq<Piece>, r: Result<seq<Piece>>): Result<seq<Piece>> {
    match r
    case Ok(rest) => Ok(pieces + rest)
    case Err(m) => Err(m)
  }

  /** The naive reading, one character at a time. */
  function Parse(s: string, ctx: int): Result<seq<Piece>>
    decreases |s|
  {
    if s == [] then Ok([])
    else if s[0] == '{' then
      if |s| == 1 then Err("invalid format string")
      else if s[1] == '{' then Prepend([Lit('{')], Parse(s[2..], ctx))
      else
        var (field, rest, ctx') :- ParseField(s[1..], ctx);
        Prepend([field], Parse(rest, ctx'))
    else if s[0] == '}' then
      if |s| == 1 || s[1] != '}' then Err("unmatched '}' in format string")
      else Prepend([Lit('}')], Parse(s[2..], ctx))
    else Prepend([Lit(s[0])], Parse(s[1..], ctx))
  }

  // ---------------------------------------------------------------- no string mixes the two numberings

  predicate Legal(arg: ArgRef, ctx: int) {
    arg.IndexRef? ==> if arg.automatic then ctx >= 0 && arg.index == ctx else ctx <= 0
  }

  function After(arg: ArgRef, ctx: int): int {
    if !arg.IndexRef? then ctx else if arg.automatic then ctx + 1 else -1
  }

  predicate LegalRun(args: seq<ArgRef>, ctx: int) {
    args == [] || (Legal(args[0], ctx) && LegalRun(args[1..], After(args[0], ctx)))
  }

  // The references of a piece in the order they are numbered: argument, width, precision.
  function Refs(p: Piece): seq<ArgRef> {
    match p
    case Lit(_) => []
    case Field(arg, None) => [arg]
    case Field(arg, Some(specs)) => [arg, specs.widthRef, specs.precisionRef]
  }

  function AllRefs(ps: seq<Piece>): seq<ArgRef> {
    if ps == [] then [] else Refs(ps[0]) + AllRefs(ps[1..])
  }

  /** Either every index is automatic and the k-th one is k, or none is automatic. */
  predicate Unmixed(args: seq<ArgRef>) {
    Counted(args, 0) || AllManual(args)
  }

  predicate Counted(args: seq<ArgRef>, k: nat) {
    args == [] ||
    if args[0].IndexRef? then args[0].automatic && args[0].index == k && Counted(args[1..], k + 1)
    else Counted(args[1..], k)
  }

  predicate AllManual(args: seq<ArgRef>) {
    forall i :: 0 <= i < |args| ==> args[i].IndexRef? ==> !args[i].automatic
  }

  lemma {:induction false} LegalRunAppend(a: seq<ArgRef>, b: seq<ArgRef>, ctx: int)
    requires LegalRun(a, ctx) && LegalRun(b, AfterAll(a, ctx))
    ensures LegalRun(a + b, ctx)
  {
    if a == [] {
      assert a + b == b;
    } else {
      LegalRunAppend(a[1..], b, After(a[0], ctx));
      assert (a + b)[1..] == a[1..] + b;
    }
  }

  function AfterAll(args: seq<ArgRef>, ctx: int): int {
    if args == [] then ctx else AfterAll(args[1..], After(args[0], ctx))
  }

  lemma ResolveIsLegal(id: Id, ctx: int)
    ensures Resolve(id, ctx).Ok? ==>
              Legal(Resolve(id, ctx).value.0, ctx) && Resolve(id, ctx).value.1 == After(Resolve(id, ctx).value.0, ctx)
  {}

  predicate LegalSpecs(specs: Specs, ctx: int, ctx': int) {
    && Legal(specs.widthRef, ctx) && Legal(specs.precisionRef, After(specs.widthRef, ctx))
    && ctx' == After(specs.precisionRef, After(specs.widthRef, ctx))
  }

  lemma ParseDynamicIsLegal(s: string, ctx: int)
    ensures var r := ParseDynamic(s, ctx);
            r.Ok? ==> r.value.0 != NoRef && Legal(r.value.0, ctx) && r.value.2 == After(r.value.0, ctx)
  {
    if s != [] && ParseArgId(s).Ok? {
      ResolveIsLegal(ParseArgId(s).value.0, ctx);
    }
  }

  lemma ParseWidthIsLegal(s: string, specs: Specs, ctx: int)
    requires s != [] && specs.widthRef == NoRef
    ensures var r := ParseWidth(s, specs, ctx);
            r.Ok? ==> Legal(r.value.0.widthRef, ctx) && r.value.2 == After(r.value.0.widthRef, ctx)
                      && r.value.0.precisionRef == specs.precisionRef
  {
    if s[0] == '{' {
      ParseDynamicIsLegal(s[1..], ctx);
    }
  }

  lemma ParsePrecisionIsLegal(s: string, specs: Specs, ctx: int)
    requires specs.precisionRef == NoRef
    ensures var r := ParsePrecision(s, specs, ctx);
            r.Ok? ==> Legal(r.value.0.precisionRef, ctx) && r.value.2 == After(r.value.0.precisionRef, ctx)
                      && r.value.0.widthRef == specs.widthRef
  {
    if s != [] && s[0] == '{' {
      ParseDynamicIsLegal(s[1..], ctx);
    }
  }

  lemma ParseTailIsLegal(s: string, specs: Specs, ctx: int)
    requires specs.widthRef == NoRef && specs.precisionRef == NoRef
    ensures var r := ParseTail(s, specs, ctx); r.Ok? ==> LegalSpecs(r.value.0, ctx, r.value.2)
  {
    if s != [] && ParseWidth(s, specs, ctx).Ok? {
      ParseWidthIsLegal(s, specs, ctx);
      var (specs1, s1, ctx1) := ParseWidth(s, specs, ctx).value;
      if s1 != [] && s1[0] == '.' {
        ParsePrecisionIsLegal(s1[1..], specs1, ctx1);
      }
    }
  }

  lemma ParseSpecsIsLegal(s: string, ctx: int)
    ensures var r := ParseSpecs(s, ctx); r.Ok? ==> LegalSpecs(r.value.0, ctx, r.value.2)
  {
    if s != [] && s[0] != '}' && ParseAlign(s, DEFAULT_SPECS).Ok? {
      var (specs, rest) := ParseAlign(s, DEFAULT_SPECS).value;
      if rest != [] {
        var (specs1, rest1) := ParseSign(rest, specs);
        ParseHashIsLegal(rest1, specs1, ctx);
      }
    }
  }

  lemma ParseHashIsLegal(s: string, specs: Specs, ctx: int)
    requires specs.widthRef == NoRef && specs.precisionRef == NoRef
    ensures var r := ParseHash(s, specs, ctx); r.Ok? ==> LegalSpecs(r.value.0, ctx, r.value.2)
  {
    var hashed := s != [] && s[0] == '#';
    var specs1 := if hashed then specs.(flags := specs.flags.(hash := true)) else specs;
    var s1 := if hashed then s[1..] else s;
    if s1 != [] && s1[0] == '0' {
      ParseTailIsLegal(s1[1..], specs1.(align := Numeric, fill := '0'), ctx);
    } else {
      ParseTailIsLegal(s1, specs1, ctx);
    }
  }

  lemma ParseFieldIsLegal(s: string, ctx: int)
    requires s != []
    ensures var r := ParseField(s, ctx);
            r.Ok? ==> LegalRun(Refs(r.value.0), ctx) && r.value.2 == AfterAll(Refs(r.value.0), ctx)
  {
    if ParseField(s, ctx).Ok? {
      var (id, rest) := ParseArgId(s).value;
      ResolveIsLegal(id, ctx);
      var (arg, ctx1) := Resolve(id, ctx).value;
      if rest[0] == '}' {
        OneRef(arg, ctx);
      } else {
        ParseSpecsIsLegal(rest[1..], ctx1);
        var (specs, rest2, ctx2) := ParseSpecs(rest[1..], ctx1).value;
        ThreeRefs(arg, specs.widthRef, specs.precisionRef, ctx);
      }
    }
  }

  lemma OneRef(a: ArgRef, ctx: int)
    ensures LegalRun([a], ctx) <==> Legal(a, ctx)
    ensures AfterAll([a], ctx) == After(a, ctx)
  {
    assert [a][1..] == [];
  }

  lemma ThreeRefs(a: ArgRef, b: ArgRef, c: ArgRef, ctx: int)
    ensures LegalRun([a, b, c], ctx) <==>
            Legal(a, ctx) && Legal(b, After(a, ctx)) && Legal(c, After(b, After(a, ctx)))
    ensures AfterAll([a, b, c], ctx) == After(c, After(b, After(a, ctx)))
  {
    OneRef(c, After(b, After(a, ctx)));
    assert [b, c][1..] == [c];
    assert LegalRun([b, c], After(a, ctx)) <==> Legal(b, After(a, ctx)) && Legal(c, After(b, After(a, ctx)));
    assert AfterAll([b, c], After(a, ctx)) == After(c, After(b, After(a, ctx)));
    assert [a, b, c][1..] == [b, c];
  }

  lemma {:induction false} ParseIsLegal(s: string, ctx: int)
    ensures Parse(s, ctx).Ok? ==> LegalRun(AllRefs(Parse(s, ctx).value), ctx)
    decreases |s|
  {
    if Parse(s, ctx).Ok? && s != [] {
      if s[0] == '{' && s[1] != '{' {
        ParseFieldIsLegal(s[1..], ctx);
        var (field, rest, ctx') := ParseField(s[1..], ctx).value;
        ParseIsLegal(rest, ctx');
        var tail := Parse(rest, ctx').value;
        assert ([field] + tail)[1..] == tail;
        LegalRunAppend(Refs(field), AllRefs(tail), ctx);
      } else {
        var rest := if s[0] == '{' || s[0] == '}' then s[2..] else s[1..];
        ParseIsLegal(rest, ctx);
        var tail := Parse(rest, ctx).value;
        assert Parse(s, ctx).value[1..] == tail;
        assert Refs(Parse(s, ctx).value[0]) + AllRefs(tail) == AllRefs(tail);
      }
    }
  }

  lemma {:induction false} LegalRunIsUnmixed(args: seq<ArgRef>, ctx: int)
    requires LegalRun(args, ctx)
    ensures ctx < 0 ==> AllManual(args)
    ensures ctx > 0 ==> Counted(args, ctx)
    ensures ctx == 0 ==> Unmixed(args)
  {
    if args != [] {
      LegalRunIsUnmixed(args[1..], After(args[0], ctx));
      assert forall i :: 0 < i < |args| ==> args[i] == args[1..][i - 1];
    }
  }

  /** No accepted string mixes automatic and numbered arguments, and the k-th automatic reference,
      dynamic widths and precisions included, is argument k. */
  lemma AcceptedIsUnmixed(s: string)
    ensures Parse(s, 0).Ok? ==> Unmixed(AllRefs(Parse(s, 0).value))
  {
    ParseIsLegal(s, 0);
    if Parse(s, 0).Ok? {
      LegalRunIsUnmixed(AllRefs(Parse(s, 0).value), 0);
    }
  }

  // ---------------------------------------------------------------- the printer and its inverse

  datatype Item = Char(c: char) | Hole(id: Id, spec: Option<Syntax>)

  predicate ValidItem(x: Item) {
    x.Hole? ==> ValidId(x.id) && (x.spec.Some? ==> ValidSyntax(x.spec.value))
  }

  predicate ValidItems(xs: seq<Item>) {
    forall i :: 0 <= i < |xs| ==> ValidItem(xs[i])
  }

  function PrintItem(x: Item): string {
    match x
    case Char(c) => if c == '{' || c == '}' then [c, c] else [c]
    case Hole(id, spec) => ['{'] + (PrintId(id) + PrintRest(spec))
  }

  // What is printed after the id of a field.
  function PrintRest(spec: Option<Syntax>): string {
    match spec
    case None => ['}']
    case Some(x) => [':'] + (PrintSpecs(x) + ['}'])
  }

  function PrintItems(xs: seq<Item>): string {
    if xs == [] then [] else PrintItem(xs[0]) + PrintItems(xs[1..])
  }

  // An item with its references numbered from ctx.
  function ItemMeaning(x: Item, ctx: int): Result<(Piece, int)> {
    match x
    case Char(c) => Ok((Lit(c), ctx))
    case Hole(id, spec) =>
      var (arg, ctx1) :- Resolve(id, ctx);
      match spec
      case None => Ok((Field(arg, None), ctx1))
      case Some(x) =>
        var (specs, ctx2) :- Meaning(x, ctx1);
        Ok((Field(arg, Some(specs)), ctx2))
  }

  function ItemsMeaning(xs: seq<Item>, ctx: int): Result<seq<Piece>> {
    if xs == [] then Ok([])
    else
      var (piece, ctx') :- ItemMeaning(xs[0], ctx);
      Prepend([piece], ItemsMeaning(xs[1..], ctx'))
  }

  lemma IdFront(id: Id, rest: string)
    requires ValidId(id) && rest != [] && (rest[0] == '}' || rest[0] == ':')
    ensures (PrintId(id) + rest)[0] != '{'
  {
    match id
    case AutoId =>
      assert PrintId(id) + rest == rest;
    case NumId(n) =>
      DigitsAreDigits(n);
      assert (PrintId(id) + rest)[0] == Digits(n)[0];
    case NameId(name) =>
      assert (PrintId(id) + rest)[0] == name[0];
  }

  // The reading of a field, given how its id and what follows it are read.
  function AfterParse(r: Result<(Piece, int)>, post: string): Result<(Piece, string, int)> {
    match r
    case Ok((piece, ctx)) => Ok((piece, post, ctx))
    case Err(m) => Err(m)
  }

  lemma ParsePlainHole(id: Id, post: string, ctx: int)
    requires ValidId(id)
    ensures ParseField(PrintId(id) + (['}'] + post), ctx) == AfterParse(ItemMeaning(Hole(id, None), ctx), post)
  {
    ParseArgIdPrinted(id, ['}'] + post);
    assert (['}'] + post)[1..] == post;
  }

  /** The reading of a field from the reading of its parts. */
  lemma FieldParts(t: string, ctx: int, id: Id, rest: string, arg: ArgRef, ctx1: int)
    requires t != [] && ParseArgId(t) == Ok((id, rest)) && Resolve(id, ctx) == Ok((arg, ctx1))
    ensures rest != [] && rest[0] == '}' ==> ParseField(t, ctx) == Ok((Field(arg, None), rest[1..], ctx1))
    ensures rest == [] || (rest[0] != '}' && rest[0] != ':') ==>
              ParseField(t, ctx) == Err("missing '}' in format string")
    ensures rest != [] && rest[0] == ':' ==> ParseField(t, ctx) == ClosedField(ParseSpecs(rest[1..], ctx1), arg)
  {}

  // A field with a specification, which must be followed by a closing brace.
  function ClosedField(r: Result<(Specs, string, int)>, arg: ArgRef): Result<(Piece, string, int)> {
    match r
    case Err(m) => Err(m)
    case Ok((specs, rest, ctx)) =>
      if rest == [] || rest[0] != '}' then Err("missing '}' in format string")
      else Ok((Field(arg, Some(specs)), rest[1..], ctx))
  }

  lemma ClosedMeaning(r: Result<(Specs, int)>, post: string, arg: ArgRef)
    ensures r.Ok? ==> ClosedField(Then(r, ['}'] + post), arg) == Ok((Field(arg, Some(r.value.0)), post, r.value.1))
    ensures r.Err? ==> ClosedField(Then(r, ['}'] + post), arg) == Err(r.message)
  {}

  lemma ParseSpecHole(id: Id, spec: Syntax, post: string, ctx: int)
    requires ValidId(id) && ValidSyntax(spec)
    ensures ParseField(PrintId(id) + ([':'] + (PrintSpecs(spec) + (['}'] + post))), ctx)
         == AfterParse(ItemMeaning(Hole(id, Some(spec)), ctx), post)
  {
    var inner := PrintSpecs(spec) + (['}'] + post);
    ParseArgIdPrinted(id, [':'] + inner);
    assert ([':'] + inner)[1..] == inner;
    if Resolve(id, ctx).Ok? {
      var (arg, ctx1) := Resolve(id, ctx).value;
      FieldParts(PrintId(id) + ([':'] + inner), ctx, id, [':'] + inner, arg, ctx1);
      ParseSpecsPrinted(spec, post, ctx1);
      ClosedMeaning(Meaning(spec, ctx1), post, arg);
    }
  }

  lemma HoleText(x: Item, post: string)
    requires ValidItem(x) && x.Hole?
    ensures var s := PrintItem(x) + post;
            |s| > 1 && s[0] == '{' && s[1] != '{' && s[1..] == PrintId(x.id) + (PrintRest(x.spec) + post)
  {
    BracedText(PrintId(x.id), PrintRest(x.spec), post);
    IdFront(x.id, PrintRest(x.spec) + post);
  }

  lemma BracedText(a: string, b: string, c: string)
    ensures (['{'] + (a + b)) + c == ['{'] + (a + (b + c)) && ((['{'] + (a + b)) + c)[1..] == a + (b + c)
  {}

  lemma ParseHolePrinted(x: Item, post: string, ctx: int)
    requires ValidItem(x) && x.Hole?
    ensures ParseField(PrintId(x.id) + (PrintRest(x.spec) + post), ctx) == AfterParse(ItemMeaning(x, ctx), post)
  {
    match x.spec
    case None =>
      ParsePlainHole(x.id, post, ctx);
    case Some(spec) =>
      assert PrintRest(x.spec) + post == [':'] + (PrintSpecs(spec) + (['}'] + post));
      ParseSpecHole(x.id, spec, post, ctx);
  }

  /** Parsing a printed list gives back its text and fields with the references numbered, or the
      very numbering error the list deserves. */
  lemma {:induction false} ParsePrinted(xs: seq<Item>, ctx: int)
    requires ValidItems(xs)
    ensures Parse(PrintItems(xs), ctx) == ItemsMeaning(xs, ctx)
  {
    if xs != [] {
      var x, post := xs[0], PrintItems(xs[1..]);
      var s := PrintItem(x) + post;
      if x.Char? {
        ParsePrinted(xs[1..], ctx);
        assert s[|PrintItem(x)|..] == post;
      } else {
        HoleText(x, post);
        ParseHolePrinted(x, post, ctx);
        if ItemMeaning(x, ctx).Ok? {
          ParsePrinted(xs[1..], ItemMeaning(x, ctx).value.1);
        }
      }
    }
  }

  // ---------------------------------------------------------------- exactly which lists are accepted

  function CountIds(c: Count): seq<Id> {
    if c.Dynamic? then [c.id] else []
  }

  function ItemIds(x: Item): seq<Id> {
    match x
    case Char(_) => []
    case Hole(id, None) => [id]
    case Hole(id, Some(spec)) => [id] + CountIds(spec.width) + CountIds(spec.precision)
  }

  function ItemsIds(xs: seq<Item>): seq<Id> {
    if xs == [] then [] else ItemIds(xs[0]) + ItemsIds(xs[1..])
  }

  // Whether the ids can be numbered from ctx.
  predicate Acceptable(ids: seq<Id>, ctx: int) {
    forall i :: 0 <= i < |ids| ==>
      (ids[i].AutoId? ==> ctx >= 0 && forall j :: 0 <= j < |ids| ==> !ids[j].NumId?)
      && (ids[i].NumId? ==> ctx <= 0)
  }

  function AfterId(id: Id, ctx: int): int {
    if id.AutoId? then ctx + 1 else if id.NumId? then -1 else ctx
  }

  function AfterIds(ids: seq<Id>, ctx: int): int {
    if ids == [] then ctx else AfterIds(ids[1..], AfterId(ids[0], ctx))
  }

  predicate Numberable(ids: seq<Id>, ctx: int) {
    ids == [] || (Resolve(ids[0], ctx).Ok? && Numberable(ids[1..], AfterId(ids[0], ctx)))
  }

  lemma {:induction false} NumberableAppend(a: seq<Id>, b: seq<Id>, ctx: int)
    ensures Numberable(a + b, ctx) <==> Numberable(a, ctx) && Numberable(b, AfterIds(a, ctx))
  {
    if a == [] {
      assert a + b == b;
    } else {
      NumberableAppend(a[1..], b, AfterId(a[0], ctx));
      assert (a + b)[1..] == a[1..] + b;
    }
  }

  lemma {:induction false} NumberableIsAcceptable(ids: seq<Id>, ctx: int)
    requires ctx >= -1
    ensures Numberable(ids, ctx) <==> Acceptable(ids, ctx)
  {
    if ids != [] {
      NumberableIsAcceptable(ids[1..], AfterId(ids[0], ctx));
      assert forall i :: 0 < i < |ids| ==> ids[i] == ids[1..][i - 1];
      if Acceptable(ids, ctx) {
        assert Resolve(ids[0], ctx).Ok?;
        assert Acceptable(ids[1..], AfterId(ids[0], ctx));
      }
    }
  }

  lemma ItemMeaningNumbers(x: Item, ctx: int)
    ensures ItemMeaning(x, ctx).Ok? <==> Numberable(ItemIds(x), ctx)
    ensures ItemMeaning(x, ctx).Ok? ==> ItemMeaning(x, ctx).value.1 == AfterIds(ItemIds(x), ctx)
  {
    match x
    case Char(_) =>
    case Hole(id, None) => assert [id][1..] == [];
    case Hole(id, Some(spec)) => SpecHoleNumbers(id, spec, ctx);
  }

  lemma FirstNumbers(id: Id, ids: seq<Id>, ctx: int)
    ensures Numberable([id] + ids, ctx) <==> Resolve(id, ctx).Ok? && Numberable(ids, AfterId(id, ctx))
    ensures AfterIds([id] + ids, ctx) == AfterIds(ids, AfterId(id, ctx))
    ensures Resolve(id, ctx).Ok? ==> Resolve(id, ctx).value.1 == AfterId(id, ctx)
  {
    assert ([id] + ids)[1..] == ids;
  }

  lemma SpecHoleNumbers(id: Id, spec: Syntax, ctx: int)
    ensures var x := Hole(id, Some(spec));
            && (ItemMeaning(x, ctx).Ok? <==> Numberable(ItemIds(x), ctx))
            && (ItemMeaning(x, ctx).Ok? ==> ItemMeaning(x, ctx).value.1 == AfterIds(ItemIds(x), ctx))
  {
    var ids := CountIds(spec.width) + CountIds(spec.precision);
    assert ItemIds(Hole(id, Some(spec))) == [id] + ids;
    FirstNumbers(id, ids, ctx);
    MeaningNumbers(spec, AfterId(id, ctx));
  }

  lemma MeaningNumbers(x: Syntax, ctx: int)
    ensures var ids := CountIds(x.width) + CountIds(x.precision);
            (Meaning(x, ctx).Ok? <==> Numberable(ids, ctx))
            && (Meaning(x, ctx).Ok? ==> Meaning(x, ctx).value.1 == AfterIds(ids, ctx))
  {
    CountNumbers(x.width, CountIds(x.precision), ctx);
    if CountContext(x.width, ctx).Ok? {
      CountNumbers(x.precision, [], CountContext(x.width, ctx).value.1);
    }
  }

  lemma CountNumbers(c: Count, rest: seq<Id>, ctx: int)
    ensures CountContext(c, ctx).Ok? <==> Numberable(CountIds(c), ctx)
    ensures CountContext(c, ctx).Ok? ==> CountContext(c, ctx).value.1 == AfterIds(CountIds(c), ctx)
    ensures Numberable(CountIds(c) + rest, ctx)
            <==> CountContext(c, ctx).Ok? && Numberable(rest, AfterIds(CountIds(c), ctx))
    ensures AfterIds(CountIds(c) + rest, ctx) == AfterIds(rest, AfterIds(CountIds(c), ctx))
  {
    NumberableAppend(CountIds(c), rest, ctx);
    if c.Dynamic? {
      assert (CountIds(c) + rest)[1..] == rest;
      assert CountIds(c)[1..] == [];
    } else {
      assert CountIds(c) + rest == rest;
    }
  }

  lemma {:induction false} ItemsMeaningNumbers(xs: seq<Item>, ctx: int)
    ensures ItemsMeaning(xs, ctx).Ok? <==> Numberable(ItemsIds(xs), ctx)
  {
    if xs != [] {
      ItemMeaningNumbers(xs[0], ctx);
      NumberableAppend(ItemIds(xs[0]), ItemsIds(xs[1..]), ctx);
      if ItemMeaning(xs[0], ctx).Ok? {
        ItemsMeaningNumbers(xs[1..], ItemMeaning(xs[0], ctx).value.1);
      }
    }
  }

  /** A printed list is accepted exactly when it does not use both automatic and numbered ids. */
  lemma PrintedAcceptedExactly(xs: seq<Item>)
    requires ValidItems(xs)
    ensures Parse(PrintItems(xs), 0).Ok? <==>
            !(exists i, j :: 0 <= i < |ItemsIds(xs)| && 0 <= j < |ItemsIds(xs)|
                             && ItemsIds(xs)[i].AutoId? && ItemsIds(xs)[j].NumId?)
  {
    ParsePrinted(xs, 0);
    ItemsMeaningNumbers(xs, 0);
    NumberableIsAcceptable(ItemsIds(xs), 0);
  }
}
