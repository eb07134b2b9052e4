/** Replacement-field specifications: argument ids, fill, alignment, sign, width, precision, type.
    The parsers are written on the remaining input; an error aborts the parse, as the thrown
    format_error does. */
module FormatSpec {
  import opened Decimal

  const INT_MAX: nat := 0x7FFF_FFFF

  datatype Result<T> = Ok(value: T) | Err(message: string) {
    predicate IsFailure() {
      Err?
    }

    function PropagateFailure<U>(): Result<U>
      requires Err?
    {
      Err(message)
    }

    function Extract(): T
      requires Ok?
    {
      value
    }
  }

  datatype Option<T> = None | Some(value: T)

  datatype Align = Default | Left | Right | Center | Numeric

  datatype Flags = Flags(sign: bool, plus: bool, minus: bool, hash: bool)

  // A reference to an argument, as written (Id) and as resolved by the context (ArgRef). An index
  // remembers whether it was handed out automatically.
  datatype Id = AutoId | NumId(index: nat) | NameId(name: string)

  datatype ArgRef = NoRef | IndexRef(index: nat, automatic: bool) | NameRef(name: string)

  datatype Specs = Specs(
    width: nat, fill: char, align: Align, precision: int, flags: Flags, typ: char,
    widthRef: ArgRef, precisionRef: ArgRef)

  const NO_TYPE: char := '\0'

  const DEFAULT_SPECS: Specs :=
    Specs(0, ' ', Default, -1, Flags(false, false, false, false), NO_TYPE, NoRef, NoRef)

  // ---------------------------------------------------------------- argument numbering

  /** next_arg_id_: the next automatic index, or -1 once a number has been used. */
  function NextArgId(ctx: int): Result<(ArgRef, int)> {
    if ctx >= 0 then Ok((IndexRef(ctx, true), ctx + 1))
    else Err("cannot switch from manual to automatic argument indexing")
  }

  function CheckArgId(ctx: int, index: nat): Result<(ArgRef, int)> {
    if ctx > 0 then Err("cannot switch from automatic to manual argument indexing")
    else Ok((IndexRef(index, false), -1))
  }

  function Resolve(id: Id, ctx: int): Result<(ArgRef, int)> {
    match id
    case AutoId => NextArgId(ctx)
    case NumId(n) => CheckArgId(ctx, n)
    case NameId(s) => Ok((NameRef(s), ctx))
  }

  // ---------------------------------------------------------------- numbers and ids

  predicate IsNameStart(c: char) {
    'a' <= c <= 'z' || 'A' <= c <= 'Z' || c == '_'
  }

  predicate IsNameChar(c: char) {
    IsNameStart(c) || IsDigit(c)
  }

  /** The length of the longest digit run at the front. */
  function DigitRun(s: string): (n: nat)
    ensures n <= |s| && AllDigits(s[..n])
    ensures n < |s| ==> !IsDigit(s[n])
  {
    if s == [] || !IsDigit(s[0]) then 0 else 1 + DigitRun(s[1..])
  }

  function NameRun(s: string): (n: nat)
    ensures n <= |s|
  {
    if s == [] || !IsNameChar(s[0]) then 0 else 1 + NameRun(s[1..])
  }

  /** What a number is meant to be: a lone 0, or a digit run whose value fits in an int. */
  function ParseInt(s: string): (r: Result<(nat, string)>)
    requires s != [] && IsDigit(s[0])
    ensures r.Ok? ==> |r.value.1| < |s|
  {
    if s[0] == '0' then Ok((0, s[1..]))
    else
      var n := DigitRun(s);
      var v: nat := (ValueNonnegative(s[..n]); Value(s[..n]));
      if v <= INT_MAX then Ok((v, s[n..])) else Err("number is too big")
  }

  function ParseArgId(s: string): (r: Result<(Id, string)>)
    requires s != []
    ensures r.Ok? ==> |r.value.1| <= |s|
  {
    if s[0] == '}' || s[0] == ':' then Ok((AutoId, s))
    else if IsDigit(s[0]) then
      var (n, rest) :- ParseInt(s);
      if rest == [] || (rest[0] != '}' && rest[0] != ':') then Err("invalid format string")
      else Ok((NumId(n), rest))
    else if !IsNameStart(s[0]) then Err("invalid format string")
    else Ok((NameId(s[..NameRun(s)]), s[NameRun(s)..]))
  }

  // ---------------------------------------------------------------- the specification parser

  function AlignOf(c: char): Align {
    if c == '<' then Left else if c == '>' then Right else if c == '=' then Numeric
    else if c == '^' then Center else Default
  }

  /** The second character is looked at first: if it is an alignment, the first one is the fill. */
  function ParseAlign(s: string, specs: Specs): (r: Result<(Specs, string)>)
    requires s != []
    ensures r.Ok? ==> |r.value.1| <= |s|
  {
    if |s| > 1 && AlignOf(s[1]) != Default then
      if s[0] == '{' then Err("invalid fill character '{'")
      else Ok((specs.(fill := s[0], align := AlignOf(s[1])), s[2..]))
    else if AlignOf(s[0]) != Default then Ok((specs.(align := AlignOf(s[0])), s[1..]))
    else Ok((specs, s))
  }

  function ParseSign(s: string, specs: Specs): (r: (Specs, string))
    requires s != []
    ensures |r.1| <= |s|
  {
    if s[0] == '+' then (specs.(flags := specs.flags.(sign := true, plus := true)), s[1..])
    else if s[0] == '-' then (specs.(flags := specs.flags.(minus := true)), s[1..])
    else if s[0] == ' ' then (specs.(flags := specs.flags.(sign := true)), s[1..])
    else (specs, s)
  }

  // An argument reference in braces, after its opening brace.
  function ParseDynamic(s: string, ctx: int): (r: Result<(ArgRef, string, int)>)
    ensures r.Ok? ==> |r.value.1| <= |s|
  {
    if s == [] then Err("invalid format string")
    else
      var (id, rest) :- ParseArgId(s);
      var (arg, ctx') :- Resolve(id, ctx);
      if rest == [] || rest[0] != '}' then Err("invalid format string")
      else Ok((arg, rest[1..], ctx'))
  }

  function ParseWidth(s: string, specs: Specs, ctx: int): (r: Result<(Specs, string, int)>)
    requires s != []
    ensures r.Ok? ==> |r.value.1| <= |s|
  {
    if IsDigit(s[0]) then
      var (n, rest) :- ParseInt(s);
      Ok((specs.(width := n), rest, ctx))
    else if s[0] == '{' then
      var (arg, rest, ctx') :- ParseDynamic(s[1..], ctx);
      Ok((specs.(widthRef := arg), rest, ctx'))
    else Ok((specs, s, ctx))
  }

  // The part after the point.
  function ParsePrecision(s: string, specs: Specs, ctx: int): (r: Result<(Specs, string, int)>)
    ensures r.Ok? ==> |r.value.1| <= |s|
  {
    if s != [] && IsDigit(s[0]) then
      var (n, rest) :- ParseInt(s);
      Ok((specs.(precision := n), rest, ctx))
    else if s != [] && s[0] == '{' then
      var (arg, rest, ctx') :- ParseDynamic(s[1..], ctx);
      Ok((specs.(precisionRef := arg), rest, ctx'))
    else Err("missing precision specifier")
  }

  function ParseType(s: string, specs: Specs, ctx: int): (r: Result<(Specs, string, int)>)
    ensures r.Ok? ==> |r.value.1| <= |s|
  {
    if s != [] && s[0] != '}' then Ok((specs.(typ := s[0]), s[1..], ctx)) else Ok((specs, s, ctx))
  }

  function ParseTail(s: string, specs: Specs, ctx: int): (r: Result<(Specs, string, int)>)
    ensures r.Ok? ==> |r.value.1| <= |s|
  {
    if s == [] then Ok((specs, s, ctx))
    else
      var (specs, s, ctx) :- ParseWidth(s, specs, ctx);
      if s == [] then Ok((specs, s, ctx))
      else if s[0] == '.' then
        var (specs, s, ctx) :- ParsePrecision(s[1..], specs, ctx);
        ParseType(s, specs, ctx)
      else ParseType(s, specs, ctx)
  }

  function ParseZero(s: string, specs: Specs, ctx: int): (r: Result<(Specs, string, int)>)
    ensures r.Ok? ==> |r.value.1| <= |s|
  {
    if s != [] && s[0] == '0' then ParseTail(s[1..], specs.(align := Numeric, fill := '0'), ctx)
    else ParseTail(s, specs, ctx)
  }

  function ParseHash(s: string, specs: Specs, ctx: int): (r: Result<(Specs, string, int)>)
    ensures r.Ok? ==> |r.value.1| <= |s|
  {
    if s != [] && s[0] == '#' then ParseZero(s[1..], specs.(flags := specs.flags.(hash := true)), ctx)
    else ParseZero(s, specs, ctx)
  }

  /** Everything between the colon and the closing brace. */
  function ParseSpecs(s: string, ctx: int): (r: Result<(Specs, string, int)>)
    ensures r.Ok? ==> |r.value.1| <= |s|
  {
    if s == [] || s[0] == '}' then Ok((DEFAULT_SPECS, s, ctx))
    else
      var (specs, s) :- ParseAlign(s, DEFAULT_SPECS);
      if s == [] then Ok((specs, s, ctx))
      else
        var (specs, s) := ParseSign(s, specs);
        ParseHash(s, specs, ctx)
  }

  // ---------------------------------------------------------------- the printer

  datatype Sign = NoSign | Plus | Minus | Space

  datatype AlignSyntax = NoAlign | JustAlign(a: Align) | FillAlign(c: char, a: Align)

  // A width or precision as written: absent, a number, or a reference to an argument.
  datatype Count = Absent | Literal(n: nat) | Dynamic(id: Id)

  datatype Syntax = Syntax(
    align: AlignSyntax, sign: Sign, hash: bool, zero: bool, width: Count, precision: Count, typ: char)

  predicate ValidId(id: Id) {
    match id
    case AutoId => true
    case NumId(n) => n <= INT_MAX
    case NameId(s) => s != [] && IsNameStart(s[0]) && forall i :: 0 <= i < |s| ==> IsNameChar(s[i])
  }

  predicate ValidCount(c: Count, least: nat) {
    match c
    case Absent => true
    case Literal(n) => least <= n <= INT_MAX
    case Dynamic(id) => ValidId(id)
  }

  predicate IsLetter(c: char) {
    'a' <= c <= 'z' || 'A' <= c <= 'Z'
  }

  /** Every specification the grammar can express: any fill but a brace, a width from 1, or from 0 behind
      a 0 flag, a letter type. */
  predicate ValidSyntax(x: Syntax) {
    && (x.align.JustAlign? ==> x.align.a != Default)
    && (x.align.FillAlign? ==> x.align.a != Default && x.align.c != '{' && x.align.c != '}')
    && ValidCount(x.width, if x.zero then 0 else 1) && ValidCount(x.precision, 0)
    && (x.typ == NO_TYPE || IsLetter(x.typ))
  }

  function PrintAlignChar(a: Align): char {
    match a
    case Left => '<'
    case Right => '>'
    case Numeric => '='
    case Center => '^'
    case Default => ' '
  }

  function PrintId(id: Id): string {
    match id
    case AutoId => []
    case NumId(n) => Digits(n)
    case NameId(s) => s
  }

  function PrintCount(c: Count): string {
    match c
    case Absent => []
    case Literal(n) => Digits(n)
    case Dynamic(id) => ['{'] + PrintId(id) + ['}']
  }

  function PrintAlign(x: AlignSyntax): string {
    match x
    case NoAlign => []
    case JustAlign(a) => [PrintAlignChar(a)]
    case FillAlign(c, a) => [c, PrintAlignChar(a)]
  }

  function PrintSign(x: Sign): string {
    match x
    case NoSign => []
    case Plus => ['+']
    case Minus => ['-']
    case Space => [' ']
  }

  function PrintType(x: Syntax): string {
    if x.typ == NO_TYPE then [] else [x.typ]
  }

  function PrintTail(x: Syntax): string {
    PrintCount(x.width) + (if x.precision.Absent? then [] else ['.'] + PrintCount(x.precision)) + PrintType(x)
  }

  function PrintZero(x: Syntax): string {
    (if x.zero then ['0'] else []) + PrintTail(x)
  }

  function PrintHash(x: Syntax): string {
    (if x.hash then ['#'] else []) + PrintZero(x)
  }

  function PrintSpecs(x: Syntax): string {
    PrintAlign(x.align) + (PrintSign(x.sign) + PrintHash(x))
  }

  // ---------------------------------------------------------------- what a specification means

  function WithAlign(x: AlignSyntax, specs: Specs): Specs {
    match x
    case NoAlign => specs
    case JustAlign(a) => specs.(align := a)
    case FillAlign(c, a) => specs.(align := a, fill := c)
  }

  function SignFlags(x: Sign, hash: bool): Flags {
    Flags(x.Plus? || x.Space?, x.Plus?, x.Minus?, hash)
  }

  // The effect of a width or precision on the argument numbering.
  function CountContext(c: Count, ctx: int): Result<(ArgRef, int)> {
    if c.Dynamic? then Resolve(c.id, ctx) else Ok((NoRef, ctx))
  }

  function WithWidth(c: Count, specs: Specs): Specs {
    if c.Literal? then specs.(width := c.n) else specs
  }

  function WithPrecision(c: Count, specs: Specs): Specs {
    if c.Literal? then specs.(precision := c.n) else specs
  }

  /** The fields of x: a 0 overrides fill and alignment, and the references are numbered left to right. */
  function Meaning(x: Syntax, ctx: int): Result<(Specs, int)> {
    var aligned := WithAlign(x.align, DEFAULT_SPECS);
    var zeroed := if x.zero then aligned.(align := Numeric, fill := '0') else aligned;
    var (w, ctx1) :- CountContext(x.width, ctx);
    var (p, ctx2) :- CountContext(x.precision, ctx1);
    Ok((WithPrecision(x.precision, WithWidth(x.width, zeroed)).(
          flags := SignFlags(x.sign, x.hash), typ := x.typ, widthRef := w, precisionRef := p), ctx2))
  }
}
