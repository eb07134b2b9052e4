/** The specification parser as it runs: a position that advances, and a handler that stores what is
    found and numbers the arguments referred to. It is proved equal to the naive reading. */
module FormatSpecParser {
  import opened Decimal
  import opened FormatSpec
  import opened FormatSpecProofs

  // ---------------------------------------------------------------- numbers and ids

  lemma {:induction false} ValueGrows(a: string, k: nat)
    requires k < |a| && AllDigits(a)
    ensures Value(a) >= 10 * Value(a[..k])
    decreases |a|
  {
    var b := a[..|a| - 1];
    ValueNonnegative(b);
    if k < |b| {
      ValueGrows(b, k);
      assert b[..k] == a[..k];
      ValueNonnegative(a[..k]);
    } else {
      assert b == a[..k];
    }
  }

  lemma RunIs(t: string, n: nat)
    requires n <= |t| && AllDigits(t[..n]) && (n == |t| || !IsDigit(t[n]))
    ensures DigitRun(t) == n
  {
    DigitRunOf(t[..n], t[n..]);
    assert t[..n] + t[n..] == t;
  }

  lemma RunInside(s: string, start: nat, end: nat)
    requires start < end <= |s| && AllDigits(s[start..end]) && (end == |s| || !IsDigit(s[end])) && s[start] != '0'
    ensures IsDigit(s[start..][0]) && s[start..][0] != '0'
    ensures ParseInt(s[start..]) == if Value(s[start..end]) <= INT_MAX then Ok((Value(s[start..end]), s[end..]))
                                    else Err("number is too big")
  {
    var t := s[start..];
    assert t[..end - start] == s[start..end] && t[end - start..] == s[end..];
    assert t[0] == s[start..end][0];
    RunIs(t, end - start);
    ValueNonnegative(s[start..end]);
  }

  // A run of which a proper prefix is already too big is rejected.
  lemma TooBig(t: string, k: nat)
    requires k < |t| && AllDigits(t[..k]) && IsDigit(t[k]) && t[0] != '0' && IsDigit(t[0])
    requires Value(t[..k]) > INT_MAX / 10
    ensures ParseInt(t) == Err("number is too big")
  {
    var n := DigitRun(t);
    assert forall j :: 0 <= j <= k ==> IsDigit(t[j]) by {
      assert forall j :: 0 <= j < k ==> t[j] == t[..k][j];
    }
    assert n > k;
    ValueGrows(t[..n], k);
    assert t[..n][..k] == t[..k];
  }

  lemma DigitStep(s: string, start: nat, i: nat)
    requires start <= i < |s| && AllDigits(s[start..i]) && IsDigit(s[i]) && s[start] != '0'
    ensures AllDigits(s[start..i + 1])
    ensures Value(s[start..i + 1]) == 10 * Value(s[start..i]) + DigitValue(s[i])
    ensures IsDigit(s[start..][0])
    ensures Value(s[start..i]) > INT_MAX / 10 ==> ParseInt(s[start..]) == Err("number is too big")
  {
    var a := s[start..i];
    assert s[start..i + 1] == a + [s[i]];
    ValueAppend(a, s[i]);
    assert i > start ==> s[start] == a[0];
    if Value(a) > INT_MAX / 10 {
      TooBigFrom(s, start, i);
    }
  }

  lemma TooBigFrom(s: string, start: nat, i: nat)
    requires start <= i < |s| && AllDigits(s[start..i]) && IsDigit(s[i]) && s[start] != '0' && IsDigit(s[start])
    requires Value(s[start..i]) > INT_MAX / 10
    ensures ParseInt(s[start..]) == Err("number is too big")
  {
    var t := s[start..];
    assert t[..i - start] == s[start..i] && t[i - start] == s[i];
    TooBig(t, i - start);
  }

  // What reading a number from start must return: the value and where it ends, or the error.
  ghost predicate IntRead(r: Result<nat>, s: string, start: nat, begin: nat)
    requires start < |s| && IsDigit(s[start])
  {
    match ParseInt(s[start..])
    case Ok((v, rest)) => r == Ok(v) && start < begin <= |s| && rest == s[begin..]
    case Err(m) => r == Err(m)
  }

  ghost predicate IdRead(r: Result<Id>, s: string, start: nat, it: nat)
    requires start < |s|
  {
    match ParseArgId(s[start..])
    case Ok((id, rest)) => r == Ok(id) && start <= it <= |s| && rest == s[it..]
    case Err(m) => r == Err(m)
  }

  /** Accumulates digits in an unsigned: the test against INT_MAX / 10 keeps it below 2^32. */
  method ParseNonnegativeInt(s: string, start: nat) returns (r: Result<nat>, begin: nat)
    requires start < |s| && IsDigit(s[start])
    ensures IntRead(r, s, start, begin)
  {
    begin := start;
    if s[begin] == '0' {
      assert s[start..][1..] == s[start + 1..];
      return Ok(0), begin + 1;
    }
    var value: nat := 0;
    while true
      invariant start <= begin < |s| && IsDigit(s[begin])
      invariant AllDigits(s[start..begin]) && value == Value(s[start..begin])
      invariant value < 0x1_0000_0000
      decreases |s| - begin
    {
      DigitStep(s, start, begin);
      if value > INT_MAX / 10 {
        return Err("number is too big"), begin;
      }
      value := value * 10 + DigitValue(s[begin]);
      begin := begin + 1;
      if begin == |s| || !IsDigit(s[begin]) {
        break;
      }
    }
    RunInside(s, start, begin);
    r := if value > INT_MAX then Err("number is too big") else Ok(value);
  }

  lemma NameIs(t: string, n: nat)
    requires n <= |t| && (forall i :: 0 <= i < n ==> IsNameChar(t[i])) && (n == |t| || !IsNameChar(t[n]))
    ensures NameRun(t) == n
  {
    NameRunOf(t[..n], t[n..]);
    assert t[..n] + t[n..] == t;
  }

  method ParseArgIdAt(s: string, start: nat) returns (r: Result<Id>, it: nat)
    requires start < |s|
    ensures IdRead(r, s, start, it)
  {
    var c := s[start];
    if c == '}' || c == ':' {
      return Ok(AutoId), start;
    }
    if IsDigit(c) {
      var n, end := ParseNonnegativeInt(s, start);
      if n.Err? {
        return Err(n.message), start;
      }
      if end == |s| || (s[end] != '}' && s[end] != ':') {
        return Err("invalid format string"), start;
      }
      return Ok(NumId(n.value)), end;
    }
    if !IsNameStart(c) {
      return Err("invalid format string"), start;
    }
    it := start + 1;
    while it != |s| && IsNameChar(s[it])
      invariant start < it <= |s|
      invariant forall i :: 0 <= i < it - start ==> IsNameChar(s[start..][i])
    {
      it := it + 1;
    }
    NameIs(s[start..], it - start);
    assert s[start..][..it - start] == s[start..it] && s[start..][it - start..] == s[it..];
    r := Ok(NameId(s[start..it]));
  }

  // ---------------------------------------------------------------- the specification

  /** next_arg_id and check_arg_id. */
  method NumberArg(id: Id, ctx: int) returns (r: Result<ArgRef>, next: int)
    ensures r.Ok? ==> Resolve(id, ctx) == Ok((r.value, next))
    ensures r.Err? ==> Resolve(id, ctx) == Err(r.message) && next == ctx
  {
    next := ctx;
    match id
    case AutoId =>
      if ctx < 0 {
        return Err("cannot switch from manual to automatic argument indexing"), ctx;
      }
      r, next := Ok(IndexRef(ctx, true)), ctx + 1;
    case NumId(n) =>
      if ctx > 0 {
        return Err("cannot switch from automatic to manual argument indexing"), ctx;
      }
      r, next := Ok(IndexRef(n, false)), -1;
    case NameId(name) => r := Ok(NameRef(name));
  }

  /** What a part of the parser must have done: stored the specs, numbered the arguments and stopped
      where the naive reading does, or reported its error. */
  ghost predicate Read(error: Option<string>, s: string, it: nat, specs: Specs, ctx: int,
                       r: Result<(Specs, string, int)>) {
    match r
    case Ok((sp, rest, c)) => error == None && it <= |s| && rest == s[it..] && specs == sp && ctx == c
    case Err(m) => error == Some(m)
  }

  function WithContext(r: Result<(Specs, string)>, ctx: int): Result<(Specs, string, int)> {
    match r
    case Ok((specs, rest)) => Ok((specs, rest, ctx))
    case Err(m) => Err(m)
  }

  ghost predicate DynamicRead(r: Result<ArgRef>, s: string, it: nat, ctx: int, d: Result<(ArgRef, string, int)>) {
    match d
    case Ok((arg, rest, c)) => r == Ok(arg) && it <= |s| && rest == s[it..] && ctx == c
    case Err(m) => r == Err(m)
  }

  /** The handler: the specification so far, and the argument numbering of the parse context. */
  class SpecHandler {
    var specs: Specs
    var ctx: int

    constructor (ctx: int)
      ensures specs == DEFAULT_SPECS && this.ctx == ctx
    {
      specs, this.ctx := DEFAULT_SPECS, ctx;
    }

    /** Fill and alignment: the second character is tried first, then the first one. */
    method ParseAlign(s: string, begin: nat) returns (error: Option<string>, it: nat)
      requires begin < |s|
      modifies this`specs
      ensures Read(error, s, it, specs, ctx, WithContext(FormatSpec.ParseAlign(s[begin..], old(specs)), ctx))
    {
      var i := if begin + 1 != |s| then 1 else 0;
      it := begin;
      while true
        invariant 0 <= i <= 1 && begin + i < |s| && it == begin && specs == old(specs)
        invariant i == 0 && begin + 1 < |s| ==> AlignOf(s[begin + 1]) == Default
        decreases i
      {
        var align := AlignOf(s[begin + i]);
        if align != Default {
          if i > 0 {
            if s[begin] == '{' {
              return Some("invalid fill character '{'"), begin;
            }
            it := begin + 2;
            specs := specs.(fill := s[begin]);
          } else {
            it := begin + 1;
          }
          specs := specs.(align := align);
          break;
        }
        if i == 0 {
          break;
        }
        i := i - 1;
      }
      error := None;
    }

    /** A reference in braces, from behind the opening brace. */
    method ParseDynamic(s: string, begin: nat) returns (r: Result<ArgRef>, it: nat)
      requires begin <= |s|
      modifies this`ctx
      ensures DynamicRead(r, s, it, ctx, FormatSpec.ParseDynamic(s[begin..], old(ctx)))
    {
      it := begin;
      if begin == |s| {
        return Err("invalid format string"), it;
      }
      var id;
      id, it := ParseArgIdAt(s, begin);
      if id.Err? {
        return Err(id.message), it;
      }
      r, ctx := NumberArg(id.value, ctx);
      if r.Err? {
        return;
      }
      if it == |s| || s[it] != '}' {
        return Err("invalid format string"), it;
      }
      it := it + 1;
    }

    method ParseWidth(s: string, begin: nat) returns (error: Option<string>, it: nat)
      requires begin < |s|
      modifies this
      ensures Read(error, s, it, specs, ctx, FormatSpec.ParseWidth(s[begin..], old(specs), old(ctx)))
    {
      it := begin;
      if IsDigit(s[begin]) {
        var n;
        n, it := ParseNonnegativeInt(s, begin);
        if n.Err? {
          return Some(n.message), it;
        }
        specs := specs.(width := n.value);
      } else if s[begin] == '{' {
        assert s[begin..][1..] == s[begin + 1..];
        var arg;
        arg, it := ParseDynamic(s, begin + 1);
        if arg.Err? {
          return Some(arg.message), it;
        }
        specs := specs.(widthRef := arg.value);
      }
      error := None;
    }

    /** The precision, from behind the point. */
    method ParsePrecision(s: string, begin: nat) returns (error: Option<string>, it: nat)
      requires begin <= |s|
      modifies this
      ensures Read(error, s, it, specs, ctx, FormatSpec.ParsePrecision(s[begin..], old(specs), old(ctx)))
    {
      it := begin;
      if begin < |s| && IsDigit(s[begin]) {
        var n;
        n, it := ParseNonnegativeInt(s, begin);
        if n.Err? {
          return Some(n.message), it;
        }
        specs := specs.(precision := n.value);
      } else if begin < |s| && s[begin] == '{' {
        assert s[begin..][1..] == s[begin + 1..];
        var arg;
        arg, it := ParseDynamic(s, begin + 1);
        if arg.Err? {
          return Some(arg.message), it;
        }
        specs := specs.(precisionRef := arg.value);
      } else {
        return Some("missing precision specifier"), it;
      }
      error := None;
    }

    method ParseType(s: string, begin: nat) returns (it: nat)
      requires begin <= |s|
      modifies this`specs
      ensures Read(None, s, it, specs, ctx, FormatSpec.ParseType(s[begin..], old(specs), ctx))
    {
      it := begin;
      if it != |s| && s[it] != '}' {
        assert s[begin..][1..] == s[begin + 1..];
        specs := specs.(typ := s[it]);
        it := it + 1;
      }
    }

    /** Width, precision and type. */
    method ParseTail(s: string, begin: nat) returns (error: Option<string>, it: nat)
      requires begin <= |s|
      modifies this
      ensures Read(error, s, it, specs, ctx, FormatSpec.ParseTail(s[begin..], old(specs), old(ctx)))
    {
      it := begin;
      if it == |s| {
        return None, it;
      }
      error, it := ParseWidth(s, it);
      if error.Some? || it == |s| {
        return;
      }
      if s[it] == '.' {
        assert s[it..][1..] == s[it + 1..];
        error, it := ParsePrecision(s, it + 1);
        if error.Some? {
          return;
        }
      }
      it := ParseType(s, it);
    }

    /** The flags # and 0 and what follows; a 0 sets fill and alignment. */
    method ParseFlags(s: string, begin: nat) returns (error: Option<string>, it: nat)
      requires begin <= |s|
      modifies this
      ensures Read(error, s, it, specs, ctx, ParseHash(s[begin..], old(specs), old(ctx)))
    {
      it := begin;
      if it != |s| && s[it] == '#' {
        assert s[it..][1..] == s[it + 1..];
        specs := specs.(flags := specs.flags.(hash := true));
        it := it + 1;
      }
      if it != |s| && s[it] == '0' {
        assert s[it..][1..] == s[it + 1..];
        specs := specs.(align := Numeric, fill := '0');
        it := it + 1;
      }
      error, it := ParseTail(s, it);
    }

    method ParseSign(s: string, begin: nat) returns (it: nat)
      requires begin < |s|
      modifies this`specs
      ensures it <= |s| && (specs, s[it..]) == FormatSpec.ParseSign(s[begin..], old(specs))
    {
      it := begin;
      assert s[begin..][1..] == s[begin + 1..];
      if s[it] == '+' {
        specs := specs.(flags := specs.flags.(sign := true, plus := true));
        it := it + 1;
      } else if s[it] == '-' {
        specs := specs.(flags := specs.flags.(minus := true));
        it := it + 1;
      } else if s[it] == ' ' {
        specs := specs.(flags := specs.flags.(sign := true));
        it := it + 1;
      }
    }

    /** The whole specification, from behind the colon. */
    method ParseFormatSpecs(s: string, begin: nat) returns (error: Option<string>, it: nat)
      requires begin <= |s| && specs == DEFAULT_SPECS
      modifies this
      ensures Read(error, s, it, specs, ctx, ParseSpecs(s[begin..], old(ctx)))
    {
      it := begin;
      if it == |s| || s[it] == '}' {
        return None, it;
      }
      error, it := ParseAlign(s, it);
      if error.Some? || it == |s| {
        return;
      }
      it := ParseSign(s, it);
      error, it := ParseFlags(s, it);
    }
  }
}
