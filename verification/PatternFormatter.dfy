/** The pattern formatter: a list of compiled formatters, and the caches they work with. */
module PatternFormatter {
  import opened Decimal
  import opened Padding
  import opened Flags
  import opened PatternCompiler
  import opened DateCache

  /** Reading a padding spec moves the position past it. */
  method HandlePadSpec(pattern: string, start: nat) returns (pad: Pad, it: nat)
    requires start <= |pattern|
    ensures start <= it <= |pattern| && PadSpec(pattern[start..]) == (pad, pattern[it..])
  {
    it := start;
    if it == |pattern| {
      return NO_PAD, it;
    }
    var side := Left;
    if pattern[it] == '-' { side, it := Right, it + 1; }
    else if pattern[it] == '=' { side, it := Center, it + 1; }
    assert PadSide(pattern[start..]) == (side, pattern[it..]);
    var width: nat;
    width, it := ReadWidth(pattern, it);
    pad := Pad(if width < MAX_WIDTH then width else MAX_WIDTH, side);
  }

  method ReadWidth(pattern: string, start: nat) returns (width: nat, it: nat)
    requires start <= |pattern|
    ensures start <= it <= |pattern| && ScanWidth(pattern[start..], 0) == (width, pattern[it..])
  {
    it := start;
    if it == |pattern| || !IsDigit(pattern[it]) {
      return 0, it;
    }
    ghost var rest := pattern[it..];
    width := pattern[it] as int - '0' as int;
    it := it + 1;
    while it < |pattern| && IsDigit(pattern[it])
      invariant start < it <= |pattern| && 0 <= width < SIZE_MAX1
      invariant ScanWidth(rest, 0) == ScanWidth(pattern[it..], width)
    {
      assert pattern[it..][1..] == pattern[it + 1..];
      width := (width * 10 + (pattern[it] as int - '0' as int)) % SIZE_MAX1;
      it := it + 1;
    }
  }

  class PatternFormatter {
    const pattern: string
    const eol: string
    const tmOf: int -> Tm
    var formatters: seq<Formatter>
    var caches: seq<Cache>
    var cachedTm: Tm
    var lastLogSecs: int

    ghost predicate Valid()
      reads this
    {
      formatters == Compile(pattern, "") && |caches| == |formatters|
    }

    ghost function CacheState(): State
      reads this
    {
      State(Clock(cachedTm, lastLogSecs), caches)
    }

    /** `tmOf` converts a second into a broken-down time, local or universal. */
    constructor (pattern: string, eol: string, tmOf: int -> Tm)
      ensures Valid() && this.pattern == pattern && this.eol == eol && this.tmOf == tmOf
      ensures CacheState() == Initial(|Compile(pattern, "")|)
    {
      this.pattern, this.eol, this.tmOf := pattern, eol, tmOf;
      cachedTm, lastLogSecs := ZERO_TM, 0;
      formatters, caches := [], [];
      new;
      CompilePattern();
    }

    /** Without a pattern the list is set up directly, as the pattern `%+` would. */
    constructor Default(eol: string, tmOf: int -> Tm)
      ensures Valid() && this.pattern == "%+" && this.eol == eol && this.tmOf == tmOf
      ensures CacheState() == Initial(1)
    {
      this.pattern, this.eol, this.tmOf := "%+", eol, tmOf;
      cachedTm, lastLogSecs := ZERO_TM, 0;
      formatters, caches := [Flag('+', NO_PAD)], seq(1, _ => NO_CACHE);
      new;
      DefaultIsCompiled();
    }

    method CompilePattern()
      modifies this`formatters, this`caches
      ensures formatters == Compile(pattern, "") && caches == seq(|formatters|, _ => NO_CACHE)
    {
      var it: nat := 0;
      var userChars := "";
      formatters := [];
      assert pattern[0..] == pattern;
      while it < |pattern|
        invariant 0 <= it <= |pattern|
        invariant Compiled(formatters, pattern, it, userChars)
      {
        if pattern[it] == '%' {
          ghost var done, user := formatters, userChars;
          if userChars != "" {
            formatters, userChars := formatters + [Chars(userChars)], "";
          }
          assert formatters == done + Flush(user);
          var pad, at := HandlePadSpec(pattern, it + 1);
          CompileAtPercent(done, pattern, it, user, pad, at);
          if at == |pattern| {
            break;
          }
          formatters := formatters + [HandleFlag(pattern[at], pad)];
          it := at + 1;
        } else {
          CompileAtChar(formatters, pattern, it, userChars);
          userChars := userChars + [pattern[it]];
          it := it + 1;
        }
      }
      if userChars != "" {
        formatters := formatters + [Chars(userChars)];
      }
      caches := seq(|formatters|, _ => NO_CACHE);
    }

    method Format(msg: Message, dest: Out) returns (out: Out)
      requires Valid()
      modifies this`cachedTm, this`lastLogSecs, this`caches
      ensures Valid() && FormatMsg(old(CacheState()), formatters, eol, tmOf, msg, dest) == (CacheState(), out)
    {
      var secs := Seconds(msg.time);
      if secs != lastLogSecs {
        cachedTm, lastLogSecs := tmOf(secs), secs;
      }
      out := RunFormatters(msg, dest);
      out := Append(out, eol);
    }

    method RunFormatters(msg: Message, dest: Out) returns (out: Out)
      requires Valid()
      modifies this`caches
      ensures |caches| == |formatters| && RunCached(formatters, old(caches), msg, cachedTm, dest) == (caches, out)
    {
      out := dest;
      ghost var all := RunCached(formatters, caches, msg, cachedTm, dest);
      AllToRun(formatters, caches, msg, cachedTm, dest);
      for i := 0 to |formatters|
        invariant |caches| == |formatters| && LeftToRun(all, formatters, caches, i, msg, cachedTm, out)
      {
        RunStep(all, formatters, caches, i, msg, cachedTm, out);
        var (c, o) := EmitCached(formatters[i], caches[i], msg, cachedTm, out);
        caches, out := caches[i := c], o;
      }
      NothingToRun(all, formatters, caches, msg, cachedTm, out);
    }
  }

  /** `all` is what running formatters i and later still has to give. */
  ghost predicate LeftToRun(all: (seq<Cache>, Out), fs: seq<Formatter>, cs: seq<Cache>, i: nat, msg: Message, tm: Tm,
                            out: Out)
    requires AllWellFormed(fs) && |cs| == |fs| && i <= |fs|
  {
    var (rest, o) := RunCached(fs[i..], cs[i..], msg, tm, out);
    all == (cs[..i] + rest, o)
  }

  lemma AllToRun(fs: seq<Formatter>, cs: seq<Cache>, msg: Message, tm: Tm, out: Out)
    requires AllWellFormed(fs) && |cs| == |fs|
    ensures LeftToRun(RunCached(fs, cs, msg, tm, out), fs, cs, 0, msg, tm, out)
  {
    assert fs[0..] == fs && cs[0..] == cs;
    var (r, o) := RunCached(fs, cs, msg, tm, out);
    assert cs[..0] + r == r;
  }

  lemma RunStep(all: (seq<Cache>, Out), fs: seq<Formatter>, cs: seq<Cache>, i: nat, msg: Message, tm: Tm, out: Out)
    requires AllWellFormed(fs) && |cs| == |fs| && i < |fs| && LeftToRun(all, fs, cs, i, msg, tm, out)
    ensures var (c, o) := EmitCached(fs[i], cs[i], msg, tm, out);
            LeftToRun(all, fs, cs[i := c], i + 1, msg, tm, o)
  {
    var (c, o) := EmitCached(fs[i], cs[i], msg, tm, out);
    assert fs[i..][1..] == fs[i + 1..] && cs[i..][1..] == cs[i + 1..];
    var next := cs[i := c];
    assert next[i + 1..] == cs[i + 1..] && next[..i + 1] == cs[..i] + [c];
    var (rest, _) := RunCached(fs[i + 1..], cs[i + 1..], msg, tm, o);
    assert cs[..i] + ([c] + rest) == cs[..i] + [c] + rest;
  }

  lemma NothingToRun(all: (seq<Cache>, Out), fs: seq<Formatter>, cs: seq<Cache>, msg: Message, tm: Tm, out: Out)
    requires AllWellFormed(fs) && |cs| == |fs| && LeftToRun(all, fs, cs, |fs|, msg, tm, out)
    ensures all == (cs, out)
  {
    assert fs[|fs|..] == [] && cs[..|fs|] + [] == cs;
  }

  /** The formatters so far and those for the rest, after the characters collected, are the compiled pattern. */
  ghost predicate Compiled(done: seq<Formatter>, p: string, it: nat, user: string)
    requires it <= |p|
  {
    done + Compile(p[it..], user) == Compile(p, "")
  }

  lemma CompileAtChar(done: seq<Formatter>, p: string, it: nat, user: string)
    requires it < |p| && p[it] != '%' && Compiled(done, p, it, user)
    ensures Compiled(done, p, it + 1, user + [p[it]])
  {
    assert p[it..][1..] == p[it + 1..];
  }

  lemma CompileAtPercent(done: seq<Formatter>, p: string, it: nat, user: string, pad: Pad, at: nat)
    requires it < at <= |p| && p[it] == '%' && PadSpec(p[it + 1..]) == (pad, p[at..]) && Compiled(done, p, it, user)
    ensures if at == |p| then done + Flush(user) == Compile(p, "")
            else Compiled(done + Flush(user) + [HandleFlag(p[at], pad)], p, at + 1, "")
  {
    var q := p[it..];
    assert q[1..] == p[it + 1..];
    PadSpecIsShorter(q[1..]);
    if at < |p| {
      assert p[at..][1..] == p[at + 1..];
      Regrouped(done, Flush(user), [HandleFlag(p[at], pad)], Compile(p[at + 1..], ""));
    }
  }

  lemma Regrouped(a: seq<Formatter>, b: seq<Formatter>, c: seq<Formatter>, d: seq<Formatter>)
    ensures a + (b + c + d) == a + b + c + d
  {}

  lemma DefaultIsCompiled()
    ensures Compile("%+", "") == [Flag('+', NO_PAD)]
  {
    var p := "%+";
    assert p[1..] == "+" && "+"[1..] == "";
    assert PadSpec("+") == (NO_PAD, "+");
    assert Compile("", "") == [];
  }
}
