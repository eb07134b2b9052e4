/** The two caches of date text, the broken-down time of the pattern formatter and the date part kept by
    each `%+` formatter, and the proof that they change nothing. */
module DateCache {
  import opened Padding
  import opened Flags
  import opened PatternCompiler

  /** The last second converted and its broken-down time. */
  datatype Clock = Clock(tm: Tm, lastSecs: int)

  /** One `%+` formatter's date part and the second it belongs to; empty until first used. */
  datatype Cache = Cache(timestamp: int, text: string)

  const NO_CACHE := Cache(0, "")
  const START := Clock(ZERO_TM, 0)

  /** The clock is set only when the second changes. */
  function Tick(k: Clock, secs: int, tmOf: int -> Tm): Clock {
    if secs != k.lastSecs then Clock(tmOf(secs), secs) else k
  }

  function Refresh(c: Cache, secs: int, tm: Tm): Cache {
    if c.timestamp != secs || c.text == "" then Cache(secs, DatePart(tm)) else c
  }

  predicate IsFull(f: Formatter) { f.Flag? && f.c == '+' }

  function EmitCached(f: Formatter, c: Cache, msg: Message, tm: Tm, out: Out): (Cache, Out)
    requires WellFormed(f)
  {
    if IsFull(f) then
      var c' := Refresh(c, Seconds(msg.time), tm);
      (c', AfterDate(msg, Append(out, c'.text)))
    else (c, Emit(f, msg, tm, out))
  }

  /** Running the formatters one after the other, each with its own cache. */
  function RunCached(fs: seq<Formatter>, cs: seq<Cache>, msg: Message, tm: Tm, out: Out): (r: (seq<Cache>, Out))
    requires AllWellFormed(fs) && |cs| == |fs|
    ensures |r.0| == |fs|
  {
    if fs == [] then ([], out)
    else
      var (c, o) := EmitCached(fs[0], cs[0], msg, tm, out);
      var (cs', o') := RunCached(fs[1..], cs[1..], msg, tm, o);
      ([c] + cs', o')
  }

  datatype State = State(clock: Clock, caches: seq<Cache>)

  function Initial(n: nat): State { State(START, seq(n, _ => NO_CACHE)) }

  function FormatMsg(s: State, fs: seq<Formatter>, eol: string, tmOf: int -> Tm, msg: Message,
                     dest: Out): (r: (State, Out))
    requires AllWellFormed(fs) && |s.caches| == |fs|
    ensures |r.0.caches| == |fs|
  {
    var k := Tick(s.clock, Seconds(msg.time), tmOf);
    var (cs, out) := RunCached(fs, s.caches, msg, k.tm, dest);
    (State(k, cs), Append(out, eol))
  }

  // ---------------------------------------------------------------- the invariant

  /** Every cache is unused, or holds the date part of the clock's current second. */
  ghost predicate Coherent(fs: seq<Formatter>, cs: seq<Cache>, k: Clock) {
    |cs| == |fs| && forall i :: 0 <= i < |cs| ==> Current(fs[i], cs[i], k)
  }

  ghost predicate Current(f: Formatter, c: Cache, k: Clock) {
    c.text == "" || (IsFull(f) && c == Cache(k.lastSecs, DatePart(k.tm)))
  }

  /** The clock shows the broken-down time of its second, or none but second 0 has been seen and it is zeroed. */
  ghost predicate ClockIs(k: Clock, started: bool, tmOf: int -> Tm) {
    if started then k.tm == tmOf(k.lastSecs) else k == START
  }

  lemma OneCachedIsDirect(f: Formatter, c: Cache, k: Clock, tmOf: int -> Tm, msg: Message, out: Out)
    requires WellFormed(f) && Current(f, c, k)
    ensures var k' := Tick(k, Seconds(msg.time), tmOf);
            var (c', out') := EmitCached(f, c, msg, k'.tm, out);
            out' == Emit(f, msg, k'.tm, out) && Current(f, c', k')
  {}

  /** With coherent caches the cached run prints what the run without caches prints. */
  lemma {:induction false} CachedRunIsDirect(fs: seq<Formatter>, cs: seq<Cache>, k: Clock, tmOf: int -> Tm,
                                             msg: Message, out: Out)
    requires AllWellFormed(fs) && Coherent(fs, cs, k)
    ensures var k' := Tick(k, Seconds(msg.time), tmOf);
            var (cs', out') := RunCached(fs, cs, msg, k'.tm, out);
            out' == RunAll(fs, msg, k'.tm, out) && Coherent(fs, cs', k')
  {
    if fs != [] {
      var k' := Tick(k, Seconds(msg.time), tmOf);
      var (c, o) := EmitCached(fs[0], cs[0], msg, k'.tm, out);
      OneCachedIsDirect(fs[0], cs[0], k, tmOf, msg, out);
      CachedRunIsDirect(fs[1..], cs[1..], k, tmOf, msg, o);
    }
  }

  /** The broken-down time a message is printed with: the one of its own second, unless no message so far
      has been outside second 0. */
  function Shown(started: bool, msg: Message, tmOf: int -> Tm): Tm {
    if started || Seconds(msg.time) != 0 then tmOf(Seconds(msg.time)) else ZERO_TM
  }

  /** One message: the invariant is kept, and the text is the one computed from scratch. */
  lemma FormatIsFromScratch(pattern: string, s: State, started: bool, eol: string, tmOf: int -> Tm, msg: Message,
                            dest: Out)
    requires Coherent(Compile(pattern, ""), s.caches, s.clock) && ClockIs(s.clock, started, tmOf)
    ensures var (s', out) := FormatMsg(s, Compile(pattern, ""), eol, tmOf, msg, dest);
            && out == Append(Interpret(pattern, msg, Shown(started, msg, tmOf), dest), eol)
            && Coherent(Compile(pattern, ""), s'.caches, s'.clock)
            && ClockIs(s'.clock, started || Seconds(msg.time) != 0, tmOf)
  {
    var k := Tick(s.clock, Seconds(msg.time), tmOf);
    CachedRunIsDirect(Compile(pattern, ""), s.caches, s.clock, tmOf, msg, dest);
    CompiledMeansTheSame(pattern, "", msg, k.tm, dest);
    assert dest.text + "" == dest.text;
  }

  // ---------------------------------------------------------------- whole runs

  const EMPTY := Out("", 0, 0)

  /** The texts of a run of messages, each formatted into a new buffer. */
  function Texts(s: State, fs: seq<Formatter>, eol: string, tmOf: int -> Tm, msgs: seq<Message>): (r: seq<Out>)
    requires AllWellFormed(fs) && |s.caches| == |fs|
    ensures |r| == |msgs|
    decreases |msgs|
  {
    if msgs == [] then []
    else
      var (s', out) := FormatMsg(s, fs, eol, tmOf, msgs[0], EMPTY);
      [out] + Texts(s', fs, eol, tmOf, msgs[1..])
  }

  /** Some message up to and including number k lies outside second 0. */
  ghost predicate StartedBy(msgs: seq<Message>, k: nat)
    requires k < |msgs|
  {
    exists j :: 0 <= j <= k && Seconds(msgs[j].time) != 0
  }

  lemma {:induction false} RunFromScratch(pattern: string, s: State, started: bool, eol: string, tmOf: int -> Tm,
                                          msgs: seq<Message>, k: nat)
    requires Coherent(Compile(pattern, ""), s.caches, s.clock) && ClockIs(s.clock, started, tmOf)
    requires k < |msgs|
    ensures Texts(s, Compile(pattern, ""), eol, tmOf, msgs)[k]
            == Append(Interpret(pattern, msgs[k],
                                if started || StartedBy(msgs, k) then tmOf(Seconds(msgs[k].time))
                                else ZERO_TM, EMPTY), eol)
    decreases |msgs|
  {
    FormatIsFromScratch(pattern, s, started, eol, tmOf, msgs[0], EMPTY);
    if k > 0 {
      var s' := FormatMsg(s, Compile(pattern, ""), eol, tmOf, msgs[0], EMPTY).0;
      var started' := started || Seconds(msgs[0].time) != 0;
      RunFromScratch(pattern, s', started', eol, tmOf, msgs[1..], k - 1);
      LaterStarted(msgs, k);
    }
  }

  lemma LaterStarted(msgs: seq<Message>, k: nat)
    requires 0 < k < |msgs|
    ensures StartedBy(msgs, k) <==> Seconds(msgs[0].time) != 0 || StartedBy(msgs[1..], k - 1)
  {
    if j :| 0 <= j <= k && Seconds(msgs[j].time) != 0 {
      assert j > 0 ==> Seconds(msgs[1..][j - 1].time) != 0;
    }
    if j :| 0 <= j <= k - 1 && Seconds(msgs[1..][j].time) != 0 {
      assert Seconds(msgs[j + 1].time) != 0;
    }
  }

  /** The caches are transparent: in any run, forwards or backwards in time, message k prints as if
      converted from scratch, from the moment some message has been outside second 0; before that, it
      prints with a zeroed broken-down time. */
  lemma CachesAreTransparent(pattern: string, eol: string, tmOf: int -> Tm, msgs: seq<Message>, k: nat)
    requires k < |msgs|
    ensures Texts(Initial(|Compile(pattern, "")|), Compile(pattern, ""), eol, tmOf, msgs)[k]
            == Append(Interpret(pattern, msgs[k],
                                if StartedBy(msgs, k) then tmOf(Seconds(msgs[k].time)) else ZERO_TM, EMPTY), eol)
  {
    RunFromScratch(pattern, Initial(|Compile(pattern, "")|), false, eol, tmOf, msgs, k);
  }

  /** The condition matters: a first message stamped in second 0 prints the year 1900 under the pattern
      `%Y`, though the calendar says 1970. */
  lemma {:induction false} SecondZeroPrints1900(p: string, tmOf: int -> Tm, msgs: seq<Message>)
    requires p == "%Y" && msgs != [] && Seconds(msgs[0].time) == 0 && tmOf(0).year == 70
    ensures Texts(Initial(|Compile(p, "")|), Compile(p, ""), "", tmOf, msgs)[0].text == "1900"
    ensures Interpret(p, msgs[0], tmOf(0), EMPTY).text == "1970"
  {
    FirstInSecondZero(p, tmOf, msgs);
    YearPrinted(p, msgs[0], ZERO_TM);
    YearPrinted(p, msgs[0], tmOf(0));
  }

  lemma YearPrinted(p: string, msg: Message, tm: Tm)
    requires p == "%Y"
    ensures tm.year == 0 ==> Interpret(p, msg, tm, EMPTY).text == "1900"
    ensures tm.year == 70 ==> Interpret(p, msg, tm, EMPTY).text == "1970"
  {
    YearPattern(p, msg, tm);
    TwoYears();
  }

  lemma TwoYears()
    ensures AppendInt(1900) == "1900" && AppendInt(1970) == "1970"
  {}

  lemma {:induction false} FirstInSecondZero(p: string, tmOf: int -> Tm, msgs: seq<Message>)
    requires msgs != [] && Seconds(msgs[0].time) == 0
    ensures Texts(Initial(|Compile(p, "")|), Compile(p, ""), "", tmOf, msgs)[0]
            == Interpret(p, msgs[0], ZERO_TM, EMPTY)
  {
    CachesAreTransparent(p, "", tmOf, msgs, 0);
    assert !StartedBy(msgs, 0);
    var t := Interpret(p, msgs[0], ZERO_TM, EMPTY).text;
    assert t + "" == t;
  }

  lemma {:induction false} YearPattern(p: string, msg: Message, tm: Tm)
    requires p == "%Y"
    ensures Interpret(p, msg, tm, EMPTY).text == AppendInt(tm.year + 1900)
  {
    assert p[1..] == "Y";
    assert PadSpec("Y") == (Pad(0, Left), "Y");
    assert "Y"[1..] == "";
    var t := AppendInt(tm.year + 1900);
    assert Padded(Pad(0, Left), 4, t) == t;
    assert "" + t == t;
  }
}
