/** The parser as it runs: iterators that advance, two searches per stretch of text, and a handler
    that numbers arguments and collects the pieces. It is proved equal to the naive reading. */
module FormatParser {
  import opened FormatSpec
  import opened FormatSpecParser
  import opened FormatString

  // ---------------------------------------------------------------- text

  function Texts(t: string): seq<Piece> {
    seq(|t|, i requires 0 <= i < |t| => Lit(t[i]))
  }

  lemma TextsAppend(a: string, b: string)
    ensures Texts(a + b) == Texts(a) + Texts(b)
  {}

  // The naive reading of a stretch without opening braces.
  function TextPieces(t: string): Result<seq<Piece>> {
    if t == [] then Ok([])
    else if t[0] == '}' then
      if |t| == 1 || t[1] != '}' then Err("unmatched '}' in format string")
      else Prepend([Lit('}')], TextPieces(t[2..]))
    else Prepend([Lit(t[0])], TextPieces(t[1..]))
  }

  function Chain(a: Result<seq<Piece>>, b: Result<seq<Piece>>): Result<seq<Piece>> {
    match a
    case Ok(ps) => Prepend(ps, b)
    case Err(m) => Err(m)
  }

  lemma PrependPrepend(a: seq<Piece>, b: seq<Piece>, r: Result<seq<Piece>>)
    ensures Prepend(a, Prepend(b, r)) == Prepend(a + b, r)
    ensures Prepend([], r) == r
  {
    if r.Ok? {
      assert a + (b + r.value) == (a + b) + r.value;
      assert [] + r.value == r.value;
    }
  }

  lemma {:induction false} ParseStretch(t: string, rest: string, ctx: int)
    requires '{' !in t && (rest == [] || rest[0] == '{')
    ensures Parse(t + rest, ctx) == Chain(TextPieces(t), Parse(rest, ctx))
    decreases |t|
  {
    var s := t + rest;
    if t == [] {
      assert s == rest;
      PrependPrepend([], [], Parse(rest, ctx));
    } else {
      var k := if t[0] == '}' then 2 else 1;
      assert s[0] == t[0];
      if k <= |t| {
        assert s[k..] == t[k..] + rest;
        ParseStretch(t[k..], rest, ctx);
        assert k == 2 ==> s[1] == t[1];
        if TextPieces(t[k..]).Ok? {
          PrependPrepend([Lit(t[0])], TextPieces(t[k..]).value, Parse(rest, ctx));
        }
      } else {
        assert |s| == 1 || s[1] == rest[0];
      }
    }
  }

  // A stretch up to a closing brace is plain.
  lemma {:induction false} PlainStretch(a: string, b: string)
    requires '}' !in a
    ensures TextPieces(a + b) == Prepend(Texts(a), TextPieces(b))
  {
    if a == [] {
      assert a + b == b && Texts(a) == [];
      PrependPrepend([], [], TextPieces(b));
    } else {
      assert (a + b)[1..] == a[1..] + b;
      PlainStretch(a[1..], b);
      PrependPrepend([Lit(a[0])], Texts(a[1..]), TextPieces(b));
      assert [Lit(a[0])] + Texts(a[1..]) == Texts(a);
    }
  }

  method Find(s: string, first: nat, last: nat, c: char) returns (found: bool, out: nat)
    requires first <= last <= |s|
    ensures first <= out <= last && c !in s[first..out]
    ensures found ==> out < last && s[out] == c
    ensures !found ==> out == last
  {
    out := first;
    while out != last
      invariant first <= out <= last && c !in s[first..out]
    {
      if s[out] == c {
        return true, out;
      }
      out := out + 1;
    }
    found := false;
  }

  // ---------------------------------------------------------------- the handler and the parser

  // What reading a field from start must have done to the handler.
  ghost predicate FieldRead(error: Option<string>, s: string, start: nat, p: nat, ctx: int, ctx': int,
                            told: seq<Piece>, pieces: seq<Piece>)
    requires start < |s|
  {
    match ParseField(s[start..], ctx)
    case Err(m) => error == Some(m)
    case Ok((field, rest, ctx1)) =>
      error == None && start <= p < |s| && rest == s[p + 1..] && ctx' == ctx1 && pieces == told + [field]
  }

  ghost predicate SpecsRead(error: Option<string>, s: string, start: nat, p: nat, arg: ArgRef, ctx: int, ctx': int,
                            told: seq<Piece>, pieces: seq<Piece>)
    requires start <= |s|
  {
    match ParseSpecs(s[start..], ctx)
    case Err(m) => error == Some(m)
    case Ok((specs, rest, ctx1)) =>
      if rest == [] || rest[0] != '}' then error == Some("missing '}' in format string")
      else
        error == None && start <= p < |s| && rest == s[p..] && ctx' == ctx1
        && pieces == told + [Field(arg, Some(specs))]
  }

  lemma SpecsToField(error: Option<string>, s: string, start: nat, colon: nat, p: nat, id: Id, arg: ArgRef,
                     ctx: int, ctx1: int, ctx2: int, told: seq<Piece>, pieces: seq<Piece>)
    requires start <= colon < |s| && s[colon] == ':'
    requires ParseArgId(s[start..]) == Ok((id, s[colon..])) && Resolve(id, ctx) == Ok((arg, ctx1))
    requires SpecsRead(error, s, colon + 1, p, arg, ctx1, ctx2, told, pieces)
    ensures FieldRead(error, s, start, p, ctx, ctx2, told, pieces)
  {
    FieldParts(s[start..], ctx, id, s[colon..], arg, ctx1);
    assert s[colon..][1..] == s[colon + 1..];
    if error.None? {
      assert s[p..][1..] == s[p + 1..];
    }
  }

  lemma PlainField(s: string, start: nat, at: nat, id: Id, arg: ArgRef, ctx: int, ctx1: int, told: seq<Piece>)
    requires start <= at < |s| && s[at] == '}'
    requires ParseArgId(s[start..]) == Ok((id, s[at..])) && Resolve(id, ctx) == Ok((arg, ctx1))
    ensures FieldRead(None, s, start, at, ctx, ctx1, told, told + [Field(arg, None)])
  {
    FieldParts(s[start..], ctx, id, s[at..], arg, ctx1);
    assert s[at..][1..] == s[at + 1..];
  }

  lemma UnclosedField(s: string, start: nat, at: nat, id: Id, arg: ArgRef, ctx: int, ctx1: int, told: seq<Piece>)
    requires start <= at <= |s| && start < |s| && (at < |s| ==> s[at] != '}' && s[at] != ':')
    requires ParseArgId(s[start..]) == Ok((id, s[at..])) && Resolve(id, ctx) == Ok((arg, ctx1))
    ensures FieldRead(Some("missing '}' in format string"), s, start, at, ctx, ctx1, told, told)
  {
    FieldParts(s[start..], ctx, id, s[at..], arg, ctx1);
  }

  lemma EscapeStep(s: string, brace: nat, ctx: int, told: seq<Piece>)
    requires brace < |s| && s[brace] == '{' && (brace + 1 < |s| ==> s[brace + 1] == '{')
    ensures if brace + 1 == |s| then BraceRead(Some("invalid format string"), s, brace, brace + 1, ctx, ctx, told, told)
            else BraceRead(None, s, brace, brace + 2, ctx, ctx, told, told + [Lit('{')])
  {
    BraceStep(told, s, brace, ctx);
  }

  lemma FieldStep(s: string, brace: nat, p: nat, ctx: int, ctx': int, told: seq<Piece>, pieces: seq<Piece>,
                  error: Option<string>)
    requires brace + 1 < |s| && s[brace] == '{' && s[brace + 1] != '{'
    requires FieldRead(error, s, brace + 1, p, ctx, ctx', told, pieces)
    ensures BraceRead(error, s, brace, p + 1, ctx, ctx', told, pieces)
  {
    BraceStep(told, s, brace, ctx);
  }

  /** The formatting context: argument numbering and what has been told so far. */
  class Handler {
    var nextArgId: int
    var pieces: seq<Piece>

    constructor ()
      ensures nextArgId == 0 && pieces == []
    {
      nextArgId := 0;
      pieces := [];
    }

    method OnText(text: string)
      modifies this`pieces
      ensures pieces == old(pieces) + Texts(text)
    {
      var i := 0;
      while i < |text|
        invariant 0 <= i <= |text|
        invariant pieces == old(pieces) + Texts(text[..i])
      {
        pieces := pieces + [Lit(text[i])];
        TextsAppend(text[..i], [text[i]]);
        assert text[..i + 1] == text[..i] + [text[i]];
        i := i + 1;
      }
      assert text[..|text|] == text;
    }

    /** next_arg_id and check_arg_id. */
    method OnArgId(id: Id) returns (r: Result<ArgRef>)
      modifies this`nextArgId
      ensures r.Ok? ==> Resolve(id, old(nextArgId)) == Ok((r.value, nextArgId))
      ensures r.Err? ==> Resolve(id, old(nextArgId)) == Err(r.message) && nextArgId == old(nextArgId)
    {
      r, nextArgId := NumberArg(id, nextArgId);
    }

    /** The local writer: text in which every closing brace must be doubled. */
    method Write(s: string, first: nat, last: nat) returns (error: Option<string>)
      requires first <= last <= |s|
      modifies this`pieces
      ensures error.None? ==> Prepend(old(pieces), TextPieces(s[first..last])) == Ok(pieces)
      ensures error.Some? ==> TextPieces(s[first..last]) == Err(error.value)
    {
      var begin := first;
      ghost var all := TextPieces(s[first..last]);
      if begin == last {
        assert s[first..last] == [] && pieces + [] == pieces;
        return None;
      }
      while true
        invariant first <= begin <= last
        invariant Prepend(old(pieces), all) == Prepend(pieces, TextPieces(s[begin..last]))
        decreases last - begin
      {
        var found, p := Find(s, begin, last, '}');
        CloseStep(pieces, s, begin, p, last);
        if !found {
          OnText(s[begin..last]);
          return None;
        }
        p := p + 1;
        if p == last || s[p] != '}' {
          return Some("unmatched '}' in format string");
        }
        OnText(s[begin..p]);
        begin := p + 1;
      }
    }

    /** A field from the character after its opening brace; returns the position of its closing brace. */
    method Replacement(s: string, start: nat) returns (error: Option<string>, p: nat)
      requires start < |s|
      modifies this
      ensures FieldRead(error, s, start, p, old(nextArgId), nextArgId, old(pieces), pieces)
    {
      var id, next := ParseArgIdAt(s, start);
      p := next;
      if id.Err? {
        return Some(id.message), p;
      }
      ghost var ctx := nextArgId;
      var arg := OnArgId(id.value);
      if arg.Err? {
        return Some(arg.message), p;
      }
      error, p := FieldEnd(s, start, next, id.value, arg.value, ctx);
    }

    /** What follows the argument id: a closing brace, or a colon and a specification. */
    method FieldEnd(s: string, ghost start: nat, at: nat, ghost id: Id, arg: ArgRef, ghost ctx: int)
        returns (error: Option<string>, p: nat)
      requires start <= at <= |s| && start < |s|
      requires ParseArgId(s[start..]) == Ok((id, s[at..])) && Resolve(id, ctx) == Ok((arg, nextArgId))
      modifies this
      ensures FieldRead(error, s, start, p, ctx, nextArgId, old(pieces), pieces)
    {
      p := at;
      ghost var ctx1, told := nextArgId, pieces;
      if p < |s| && s[p] == ':' {
        error, p := SpecsEnd(s, start, at, id, arg, ctx);
      } else if p < |s| && s[p] == '}' {
        pieces := pieces + [Field(arg, None)];
        PlainField(s, start, at, id, arg, ctx, ctx1, told);
        error := None;
      } else {
        UnclosedField(s, start, at, id, arg, ctx, ctx1, told);
        error := Some("missing '}' in format string");
      }
    }

    method SpecsEnd(s: string, ghost start: nat, colon: nat, ghost id: Id, arg: ArgRef, ghost ctx: int)
        returns (error: Option<string>, p: nat)
      requires start <= colon < |s| && s[colon] == ':'
      requires ParseArgId(s[start..]) == Ok((id, s[colon..])) && Resolve(id, ctx) == Ok((arg, nextArgId))
      modifies this
      ensures FieldRead(error, s, start, p, ctx, nextArgId, old(pieces), pieces)
    {
      ghost var ctx1, told := nextArgId, pieces;
      error, p := OnFormatSpecs(arg, s, colon + 1);
      SpecsToField(error, s, start, colon, p, id, arg, ctx, ctx1, nextArgId, told, pieces);
    }

    /** The specification from the character after the colon. */
    method OnFormatSpecs(arg: ArgRef, s: string, start: nat) returns (error: Option<string>, p: nat)
      requires start <= |s|
      modifies this
      ensures SpecsRead(error, s, start, p, arg, old(nextArgId), nextArgId, old(pieces), pieces)
    {
      var h := new SpecHandler(nextArgId);
      error, p := h.ParseFormatSpecs(s, start);
      if error.Some? {
        return;
      }
      if p == |s| || s[p] != '}' {
        return Some("missing '}' in format string"), p;
      }
      nextArgId := h.ctx;
      pieces := pieces + [Field(arg, Some(h.specs))];
    }

    /** The text up to the next opening brace, found by a first search, then searched for closing ones. */
    method ToBrace(s: string, begin: nat) returns (error: Option<string>, p: nat)
      requires begin < |s|
      modifies this`pieces
      ensures error.Some? ==> Parse(s[begin..], nextArgId) == Err(error.value)
      ensures error.None? ==>
                begin <= p <= |s| && (p < |s| ==> s[p] == '{') && TextRead(s, begin, p, nextArgId, old(pieces), pieces)
    {
      p := begin;
      if s[begin] != '{' {
        var found, out := Find(s, begin, |s|, '{');
        p := out;
      }
      StretchStep(pieces, s, begin, p, nextArgId);
      error := Write(s, begin, p);
    }

    /** The escape or field at an opening brace. */
    method AtBrace(s: string, brace: nat) returns (error: Option<string>, next: nat)
      requires brace < |s| && s[brace] == '{'
      modifies this
      ensures BraceRead(error, s, brace, next, old(nextArgId), nextArgId, old(pieces), pieces)
    {
      if brace + 1 == |s| || s[brace + 1] == '{' {
        error, next := Escape(s, brace);
      } else {
        error, next := FieldAt(s, brace);
      }
    }

    method FieldAt(s: string, brace: nat) returns (error: Option<string>, next: nat)
      requires brace + 1 < |s| && s[brace] == '{' && s[brace + 1] != '{'
      modifies this
      ensures BraceRead(error, s, brace, next, old(nextArgId), nextArgId, old(pieces), pieces)
    {
      ghost var ctx, told := nextArgId, pieces;
      error, next := Replacement(s, brace + 1);
      FieldStep(s, brace, next, ctx, nextArgId, told, pieces, error);
      next := next + 1;
    }

    method Escape(s: string, brace: nat) returns (error: Option<string>, next: nat)
      requires brace < |s| && s[brace] == '{' && (brace + 1 < |s| ==> s[brace + 1] == '{')
      modifies this`pieces
      ensures BraceRead(error, s, brace, next, nextArgId, nextArgId, old(pieces), pieces)
    {
      EscapeStep(s, brace, nextArgId, pieces);
      if brace + 1 == |s| {
        return Some("invalid format string"), brace + 1;
      }
      ghost var told := pieces;
      OnText(['{']);
      assert pieces == told + [Lit('{')];
      return None, brace + 2;
    }

    /** The whole parse. On success the handler holds exactly the naive reading, and on failure the
        error is the one the naive reading reports. */
    method ParseFormatString(s: string) returns (error: Option<string>)
      requires nextArgId == 0 && pieces == []
      modifies this
      ensures Parse(s, 0) == if error.None? then Ok(pieces) else Err(error.value)
    {
      var begin := 0;
      PrependPrepend([], [], Parse(s, 0));
      assert s[0..] == s;
      while begin != |s|
        invariant 0 <= begin <= |s|
        invariant Advanced(s, 0, begin, 0, nextArgId, [], pieces)
        decreases |s| - begin
      {
        var p;
        error, p := ToBrace(s, begin);
        if error.Some? || p == |s| {
          return;
        }
        error, begin := AtBrace(s, p);
        if error.Some? {
          return;
        }
      }
      assert s[begin..] == [] && pieces + [] == pieces;
      return None;
    }
  }

  // Reading s[begin..] after `told` comes to reading s[next..] after `pieces`.
  ghost predicate Advanced(s: string, begin: nat, next: nat, ctx: int, ctx': int, told: seq<Piece>, pieces: seq<Piece>)
    requires begin <= next <= |s|
  {
    Prepend(told, Parse(s[begin..], ctx)) == Prepend(pieces, Parse(s[next..], ctx'))
  }

  ghost predicate BraceRead(error: Option<string>, s: string, brace: nat, next: nat, ctx: int, ctx': int,
                            told: seq<Piece>, pieces: seq<Piece>)
    requires brace < |s|
  {
    if error.Some? then Parse(s[brace..], ctx) == Err(error.value)
    else brace < next <= |s| && Advanced(s, brace, next, ctx, ctx', told, pieces)
  }

  ghost predicate TextRead(s: string, begin: nat, p: nat, ctx: int, told: seq<Piece>, pieces: seq<Piece>)
    requires begin <= p <= |s|
  {
    Prepend(told, Parse(s[begin..], ctx)) == if p == |s| then Ok(pieces) else Prepend(pieces, Parse(s[p..], ctx))
  }

  /** One search for a closing brace: none, a lone one, or a pair. */
  lemma CloseStep(told: seq<Piece>, s: string, begin: nat, p: nat, last: nat)
    requires begin <= p <= last <= |s| && '}' !in s[begin..p] && (p < last ==> s[p] == '}')
    ensures p == last ==> Prepend(told, TextPieces(s[begin..last])) == Ok(told + Texts(s[begin..last]))
    ensures p < last && (p + 1 == last || s[p + 1] != '}') ==>
              TextPieces(s[begin..last]) == Err("unmatched '}' in format string")
    ensures p < last && p + 1 < last && s[p + 1] == '}' ==>
              Prepend(told, TextPieces(s[begin..last]))
              == Prepend(told + Texts(s[begin..p + 1]), TextPieces(s[p + 2..last]))
  {
    var a, b := s[begin..p], s[p..last];
    assert s[begin..last] == a + b;
    PlainStretch(a, b);
    PrependPrepend(told, Texts(a), TextPieces(b));
    if p == last {
      assert b == [] && told + Texts(a) + [] == told + Texts(a);
    } else if p + 1 < last && s[p + 1] == '}' {
      assert b[2..] == s[p + 2..last] && b[1] == '}';
      TextsAppend(a, ['}']);
      assert Texts(['}']) == [Lit('}')];
      assert s[begin..p + 1] == a + ['}'];
      PrependPrepend(told + Texts(a), [Lit('}')], TextPieces(b[2..]));
      assert told + Texts(a) + [Lit('}')] == told + Texts(a + ['}']);
    }
  }

  // Reading on behind a field.
  function AfterField(told: seq<Piece>, r: Result<(Piece, string, int)>): Result<seq<Piece>> {
    match r
    case Ok((field, rest, ctx)) => Prepend(told + [field], Parse(rest, ctx))
    case Err(m) => Err(m)
  }

  // Reading on behind a stretch of text.
  function AfterText(r: Result<seq<Piece>>, s: string, ctx: int): Result<seq<Piece>> {
    match r
    case Ok(ps) => if s == [] then Ok(ps) else Prepend(ps, Parse(s, ctx))
    case Err(m) => Err(m)
  }

  /** Reading on from an opening brace. */
  lemma BraceStep(told: seq<Piece>, s: string, p: nat, ctx: int)
    requires p < |s| && s[p] == '{'
    ensures p + 1 == |s| ==> Parse(s[p..], ctx) == Err("invalid format string")
    ensures p + 1 < |s| && s[p + 1] == '{' ==>
              Prepend(told, Parse(s[p..], ctx)) == Prepend(told + [Lit('{')], Parse(s[p + 2..], ctx))
    ensures p + 1 < |s| && s[p + 1] != '{' ==>
              Prepend(told, Parse(s[p..], ctx)) == AfterField(told, ParseField(s[p + 1..], ctx))
  {
    var t := s[p..];
    assert t[1..] == s[p + 1..];
    if |t| > 1 && t[1] == '{' {
      assert t[2..] == s[p + 2..];
      PrependPrepend(told, [Lit('{')], Parse(s[p + 2..], ctx));
    } else if |t| > 1 && ParseField(t[1..], ctx).Ok? {
      var (field, rest, ctx') := ParseField(t[1..], ctx).value;
      PrependPrepend(told, [field], Parse(rest, ctx'));
    }
  }

  /** Reading on from begin: first the stretch up to p, then the brace at p. */
  lemma StretchStep(told: seq<Piece>, s: string, begin: nat, p: nat, ctx: int)
    requires begin <= p <= |s| && '{' !in s[begin..p] && (p < |s| ==> s[p] == '{')
    ensures Prepend(told, Parse(s[begin..], ctx)) == AfterText(Prepend(told, TextPieces(s[begin..p])), s[p..], ctx)
  {
    assert s[begin..] == s[begin..p] + s[p..];
    ParseStretch(s[begin..p], s[p..], ctx);
    var a := TextPieces(s[begin..p]);
    if a.Ok? {
      PrependPrepend(told, a.value, Parse(s[p..], ctx));
      assert p == |s| ==> s[p..] == [] && told + a.value + [] == told + a.value;
    }
  }
}
