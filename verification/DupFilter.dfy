/** The duplicate filter: a message equal to the last one forwarded is skipped while it is recent, and the
    number skipped is reported before the next message forwarded. */
module DupFilter {

  datatype Msg = Msg(payload: string, time: int)

  /** What reaches the sinks behind the filter. */
  datatype Event =
    | Skipped(n: nat)
    | Forward(msg: Msg)

  datatype State = State(last: Msg, skips: nat, out: seq<Event>)

  /** Default-constructed members: an empty payload at the epoch. */
  const NONE := Msg("", 0)

  const INITIAL := State(NONE, 0, [])

  function Passes(last: Msg, maxSkip: int, m: Msg): bool {
    m.time - last.time > maxSkip || m.payload != last.payload
  }

  function Step(s: State, maxSkip: int, m: Msg): State {
    if Passes(s.last, maxSkip, m)
    then State(m, 0, s.out + (if s.skips > 0 then [Skipped(s.skips)] else []) + [Forward(m)])
    else s.(skips := s.skips + 1)
  }

  class DupFilterSink {
    const maxSkipDuration: int
    var lastMsgTime: int
    var lastMsgPayload: string
    var skipCounter: nat
    var forwarded: seq<Event>

    ghost function Contents(): State
      reads this
    {
      State(Msg(lastMsgPayload, lastMsgTime), skipCounter, forwarded)
    }

    constructor (maxSkipDuration: int)
      ensures this.maxSkipDuration == maxSkipDuration && Contents() == INITIAL
    {
      this.maxSkipDuration := maxSkipDuration;
      lastMsgTime, lastMsgPayload, skipCounter, forwarded := 0, "", 0, [];
    }

    predicate Filter(m: Msg)
      reads this
    {
      m.time - lastMsgTime > maxSkipDuration || m.payload != lastMsgPayload
    }

    method SinkIt(m: Msg)
      modifies this
      ensures Contents() == Step(old(Contents()), maxSkipDuration, m)
    {
      if !Filter(m) {
        skipCounter := skipCounter + 1;
        return;
      }
      if skipCounter > 0 {
        forwarded := forwarded + [Skipped(skipCounter)];
      }
      forwarded := forwarded + [Forward(m)];
      lastMsgTime, skipCounter, lastMsgPayload := m.time, 0, m.payload;
    }
  }

  // ---------------------------------------------------------------- nothing is lost

  function Run(s: State, maxSkip: int, msgs: seq<Msg>): State
    decreases |msgs|
  {
    if msgs == [] then s else Run(Step(s, maxSkip, msgs[0]), maxSkip, msgs[1..])
  }

  function Payloads(msgs: seq<Msg>): (r: seq<string>)
    ensures |r| == |msgs|
  {
    seq(|msgs|, i requires 0 <= i < |msgs| => msgs[i].payload)
  }

  function Copies(p: string, n: nat): seq<string> {
    seq(n, _ => p)
  }

  function LastPayload(out: seq<Event>): string {
    if out == [] then ""
    else if out[|out| - 1].Forward? then out[|out| - 1].msg.payload
    else LastPayload(out[..|out| - 1])
  }

  /** The output with each report replaced by copies of the payload forwarded before it. */
  function Expand(out: seq<Event>): seq<string> {
    if out == [] then []
    else
      var before := out[..|out| - 1];
      Expand(before) + ExpandEvent(out[|out| - 1], LastPayload(before))
  }

  function ExpandEvent(e: Event, last: string): seq<string> {
    match e
    case Skipped(n) => Copies(last, n)
    case Forward(m) => [m.payload]
  }

  lemma ExpandOne(out: seq<Event>, e: Event)
    ensures Expand(out + [e]) == Expand(out) + ExpandEvent(e, LastPayload(out))
    ensures LastPayload(out + [e]) == if e.Forward? then e.msg.payload else LastPayload(out)
  {
    assert (out + [e])[..|out|] == out;
  }

  /** What has been received: the output expanded, and the copies not yet reported. */
  ghost predicate Explains(s: State, received: seq<string>) {
    s.last.payload == LastPayload(s.out) && received == Expand(s.out) + Copies(s.last.payload, s.skips)
  }

  lemma ExpandStep(out: seq<Event>, n: nat, m: Msg)
    ensures var out' := out + (if n > 0 then [Skipped(n)] else []) + [Forward(m)];
            Expand(out') == Expand(out) + Copies(LastPayload(out), n) + [m.payload] && LastPayload(out') == m.payload
  {
    if n > 0 {
      ExpandOne(out, Skipped(n));
      ExpandOne(out + [Skipped(n)], Forward(m));
    } else {
      assert out + [] == out && Expand(out) + Copies(LastPayload(out), n) == Expand(out);
      ExpandOne(out, Forward(m));
    }
  }

  lemma NoCopies(a: seq<string>, p: string)
    ensures a + Copies(p, 0) == a
  {}

  lemma OneMoreCopy(a: seq<string>, p: string, n: nat)
    ensures a + Copies(p, n) + [p] == a + Copies(p, n + 1)
  {
    assert Copies(p, n) + [p] == Copies(p, n + 1);
  }

  lemma StepExplains(s: State, maxSkip: int, m: Msg, received: seq<string>)
    requires Explains(s, received)
    ensures Explains(Step(s, maxSkip, m), received + [m.payload])
  {
    if Passes(s.last, maxSkip, m) {
      ExpandStep(s.out, s.skips, m);
      NoCopies(Expand(Step(s, maxSkip, m).out), m.payload);
    } else {
      OneMoreCopy(Expand(s.out), m.payload, s.skips);
    }
  }

  lemma {:induction false} RunExplains(s: State, maxSkip: int, msgs: seq<Msg>, received: seq<string>)
    requires Explains(s, received)
    ensures Explains(Run(s, maxSkip, msgs), received + Payloads(msgs))
    decreases |msgs|
  {
    if msgs == [] {
      assert received + Payloads(msgs) == received;
    } else {
      StepExplains(s, maxSkip, msgs[0], received);
      RunExplains(Step(s, maxSkip, msgs[0]), maxSkip, msgs[1..], received + [msgs[0].payload]);
      assert received + [msgs[0].payload] + Payloads(msgs[1..]) == received + Payloads(msgs);
    }
  }

  /** In every run the payloads received are the output with its reports expanded, followed by
      `skip_counter_` copies of the last payload. */
  lemma NothingIsLost(maxSkip: int, msgs: seq<Msg>)
    ensures var s := Run(INITIAL, maxSkip, msgs);
            Payloads(msgs) == Expand(s.out) + Copies(s.last.payload, s.skips)
  {
    assert Explains(INITIAL, []);
    RunExplains(INITIAL, maxSkip, msgs, []);
    assert [] + Payloads(msgs) == Payloads(msgs);
  }

  // ---------------------------------------------------------------- what gets through

  /** The messages forwarded, behind the fictitious one the filter starts from. */
  function Forwarded(out: seq<Event>): (r: seq<Msg>)
    ensures |r| >= 1
  {
    if out == [] then [NONE]
    else
      var before := Forwarded(out[..|out| - 1]);
      if out[|out| - 1].Forward? then before + [out[|out| - 1].msg] else before
  }

  /** Reports count at least one message, never stand side by side, and are followed by a message. */
  ghost predicate ReportsAlternate(out: seq<Event>) {
    forall i :: 0 <= i < |out| && out[i].Skipped? ==> out[i].n > 0 && i + 1 < |out| && out[i + 1].Forward?
  }

  ghost predicate Spaced(fs: seq<Msg>, maxSkip: int) {
    forall i :: 0 < i < |fs| ==> fs[i].time - fs[i - 1].time > maxSkip || fs[i].payload != fs[i - 1].payload
  }

  ghost predicate Filtered(s: State, maxSkip: int) {
    && Forwarded(s.out)[|Forwarded(s.out)| - 1] == s.last
    && Spaced(Forwarded(s.out), maxSkip) && ReportsAlternate(s.out)
  }

  lemma ForwardedOne(out: seq<Event>, e: Event)
    ensures Forwarded(out + [e]) == Forwarded(out) + if e.Forward? then [e.msg] else []
  {
    assert (out + [e])[..|out|] == out;
  }

  lemma ForwardedStep(out: seq<Event>, n: nat, m: Msg)
    ensures Forwarded(out + (if n > 0 then [Skipped(n)] else []) + [Forward(m)]) == Forwarded(out) + [m]
  {
    if n > 0 {
      ForwardedOne(out, Skipped(n));
      ForwardedOne(out + [Skipped(n)], Forward(m));
    } else {
      assert out + [] == out;
      ForwardedOne(out, Forward(m));
    }
  }

  lemma ReportsStep(out: seq<Event>, n: nat, m: Msg)
    requires ReportsAlternate(out)
    ensures ReportsAlternate(out + (if n > 0 then [Skipped(n)] else []) + [Forward(m)])
  {}

  lemma SpacedStep(fs: seq<Msg>, maxSkip: int, m: Msg)
    requires fs != [] && Spaced(fs, maxSkip) && Passes(fs[|fs| - 1], maxSkip, m)
    ensures Spaced(fs + [m], maxSkip)
  {}

  lemma StepFilters(s: State, maxSkip: int, m: Msg)
    requires Filtered(s, maxSkip)
    ensures Filtered(Step(s, maxSkip, m), maxSkip)
  {
    if Passes(s.last, maxSkip, m) {
      ForwardedStep(s.out, s.skips, m);
      ReportsStep(s.out, s.skips, m);
      SpacedStep(Forwarded(s.out), maxSkip, m);
    }
  }

  lemma {:induction false} RunFilters(s: State, maxSkip: int, msgs: seq<Msg>)
    requires Filtered(s, maxSkip)
    ensures Filtered(Run(s, maxSkip, msgs), maxSkip)
    decreases |msgs|
  {
    if msgs != [] {
      StepFilters(s, maxSkip, msgs[0]);
      RunFilters(Step(s, maxSkip, msgs[0]), maxSkip, msgs[1..]);
    }
  }

  /** Two messages forwarded one after the other with equal payloads are more than max_skip_duration apart. */
  lemma EqualNeighboursAreApart(maxSkip: int, msgs: seq<Msg>, i: nat)
    requires i + 1 < |Forwarded(Run(INITIAL, maxSkip, msgs).out)|
    requires var f := Forwarded(Run(INITIAL, maxSkip, msgs).out); f[i].payload == f[i + 1].payload
    ensures var f := Forwarded(Run(INITIAL, maxSkip, msgs).out); f[i + 1].time - f[i].time > maxSkip
  {
    assert Filtered(INITIAL, maxSkip);
    RunFilters(INITIAL, maxSkip, msgs);
    var f := Forwarded(Run(INITIAL, maxSkip, msgs).out);
  }

  lemma {:induction false} RunAppends(s: State, maxSkip: int, msgs: seq<Msg>, m: Msg)
    ensures Run(s, maxSkip, msgs + [m]) == Step(Run(s, maxSkip, msgs), maxSkip, m)
    decreases |msgs|
  {
    if msgs == [] {
      assert msgs + [m] == [m];
      assert [m][1..] == [];
    } else {
      RunAppends(Step(s, maxSkip, msgs[0]), maxSkip, msgs[1..], m);
      assert (msgs + [m])[1..] == msgs[1..] + [m];
    }
  }

  /** After any run the next message is forwarded exactly when it is more than max_skip_duration later than
      the last one forwarded or differs from it, an old duplicate thus again; otherwise nothing is put out. */
  lemma ForwardedExactly(maxSkip: int, msgs: seq<Msg>, m: Msg)
    ensures var before, after := Run(INITIAL, maxSkip, msgs).out, Run(INITIAL, maxSkip, msgs + [m]).out;
            var f := Forwarded(before)[|Forwarded(before)| - 1];
            if m.time - f.time > maxSkip || m.payload != f.payload
            then after != [] && after[|after| - 1] == Forward(m) && Forwarded(after) == Forwarded(before) + [m]
            else after == before
  {
    assert Filtered(INITIAL, maxSkip);
    RunFilters(INITIAL, maxSkip, msgs);
    RunAppends(INITIAL, maxSkip, msgs, m);
    var s := Run(INITIAL, maxSkip, msgs);
    ForwardedStep(s.out, s.skips, m);
  }

  /** The first message is compared with an empty one at the epoch. */
  lemma FirstForwarded(maxSkip: int, m: Msg)
    ensures Run(INITIAL, maxSkip, [m]).out == if m.time > maxSkip || m.payload != "" then [Forward(m)] else []
  {
    assert [m][1..] == [];
    assert Run(INITIAL, maxSkip, [m]) == Step(INITIAL, maxSkip, m);
    assert [] + [] + [Forward(m)] == [Forward(m)];
  }

  /** The example of the header: three equal messages in quick succession and a different one. Two are
      reported as skipped. */
  lemma ThreeHellosSkipTwo(maxSkip: int, t: int)
    requires maxSkip >= 2
    ensures var hello, other := "Hello", "Different Hello";
            Run(INITIAL, maxSkip, [Msg(hello, t), Msg(hello, t + 1), Msg(hello, t + 2), Msg(other, t + 3)]).out
            == [Forward(Msg(hello, t)), Skipped(2), Forward(Msg(other, t + 3))]
  {
    var a, b, c, d := Msg("Hello", t), Msg("Hello", t + 1), Msg("Hello", t + 2), Msg("Different Hello", t + 3);
    assert |d.payload| != |a.payload|;
    var s1 := Step(INITIAL, maxSkip, a);
    assert s1 == State(a, 0, [Forward(a)]);
    var s2 := Step(s1, maxSkip, b);
    var s3 := Step(s2, maxSkip, c);
    assert s3 == State(a, 2, [Forward(a)]);
    var s4 := Step(s3, maxSkip, d);
    assert s4.out == [Forward(a), Skipped(2), Forward(d)];
    var msgs := [a, b, c, d];
    assert msgs[1..] == [b, c, d] && [b, c, d][1..] == [c, d] && [c, d][1..] == [d] && [d][1..] == [];
    assert Run(INITIAL, maxSkip, msgs) == Run(s1, maxSkip, [b, c, d]) == Run(s2, maxSkip, [c, d]);
    assert Run(s2, maxSkip, [c, d]) == Run(s3, maxSkip, [d]);
    assert Run(s3, maxSkip, [d]) == Run(s4, maxSkip, []);
  }
}
