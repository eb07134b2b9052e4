/** Messages are taken in the order in which they were accepted; one worker also processes them so. */
module AsyncOrder {
  import opened Counting
  import opened AsyncPool
  import opened AsyncInvariant
  import opened AsyncShutdown

  /** `c` consists of `a` and `b`, each in its own order. */
  ghost predicate Interleaves<T>(a: seq<T>, b: seq<T>, c: seq<T>)
    decreases |c|
  {
    if c == [] then a == [] && b == []
    else
      var n, x := |c| - 1, c[|c| - 1];
      || (a != [] && a[|a| - 1] == x && Interleaves(a[..|a| - 1], b, c[..n]))
      || (b != [] && b[|b| - 1] == x && Interleaves(a, b[..|b| - 1], c[..n]))
  }

  lemma LeftAppended<T>(a: seq<T>, b: seq<T>, c: seq<T>, x: T)
    requires Interleaves(a, b, c)
    ensures Interleaves(a + [x], b, c + [x])
  {
    assert (a + [x])[..|a|] == a && (c + [x])[..|c|] == c;
  }

  lemma RightAppended<T>(a: seq<T>, b: seq<T>, c: seq<T>, x: T)
    requires Interleaves(a, b, c)
    ensures Interleaves(a, b + [x], c + [x])
  {
    assert (b + [x])[..|b|] == b && (c + [x])[..|c|] == c;
  }

  lemma {:induction false} InterleavedAlone<T>(a: seq<T>, c: seq<T>)
    requires Interleaves(a, [], c)
    ensures a == c
    decreases |c|
  {
    if c != [] { InterleavedAlone(a[..|a| - 1], c[..|c| - 1]); }
  }

  /** `waiting` is the end of `all`, and what comes before it consists of `taken` and `dropped`. */
  ghost predicate InOrderOf<T(!new)>(taken: seq<T>, dropped: seq<T>, waiting: seq<T>, all: seq<T>) {
    exists gone :: all == gone + waiting && Interleaves(taken, dropped, gone)
  }

  lemma Added<T(!new)>(taken: seq<T>, dropped: seq<T>, waiting: seq<T>, all: seq<T>, x: T)
    requires InOrderOf(taken, dropped, waiting, all)
    ensures InOrderOf(taken, dropped, waiting + [x], all + [x])
  {
    var gone :| all == gone + waiting && Interleaves(taken, dropped, gone);
    assert all + [x] == gone + (waiting + [x]);
  }

  lemma Taken<T(!new)>(taken: seq<T>, dropped: seq<T>, waiting: seq<T>, all: seq<T>)
    requires InOrderOf(taken, dropped, waiting, all) && waiting != []
    ensures InOrderOf(taken + [waiting[0]], dropped, waiting[1..], all)
  {
    var gone :| all == gone + waiting && Interleaves(taken, dropped, gone);
    LeftAppended(taken, dropped, gone, waiting[0]);
    assert all == (gone + [waiting[0]]) + waiting[1..];
  }

  lemma Dropped<T(!new)>(taken: seq<T>, dropped: seq<T>, waiting: seq<T>, all: seq<T>)
    requires InOrderOf(taken, dropped, waiting, all) && waiting != []
    ensures InOrderOf(taken, dropped + [waiting[0]], waiting[1..], all)
  {
    var gone :| all == gone + waiting && Interleaves(taken, dropped, gone);
    RightAppended(taken, dropped, gone, waiting[0]);
    assert all == (gone + [waiting[0]]) + waiting[1..];
  }

  lemma {:induction false} TakenByAll<T(!new)>(taken: seq<T>, dropped: seq<T>, waiting: seq<T>, all: seq<T>)
    requires InOrderOf(taken, dropped, waiting, all)
    ensures Interleaves(taken + waiting, dropped, all)
    decreases |waiting|
  {
    if waiting == [] {
      var gone :| all == gone + waiting && Interleaves(taken, dropped, gone);
      assert taken + waiting == taken && all == gone;
    } else {
      Taken(taken, dropped, waiting, all);
      TakenByAll(taken + [waiting[0]], dropped, waiting[1..], all);
      assert (taken + [waiting[0]]) + waiting[1..] == taken + waiting;
    }
  }

  // ---------------------------------------------------------------- any number of workers

  /** The queue holds the newest accepted messages; those before it were taken or dropped, in order. */
  ghost predicate InOrder(s: State) { InOrderOf(s.taken, s.dropped, s.queue, s.accepted) }

  lemma PushKeepsOrder(s: State, m: Msg)
    requires |s.queue| <= s.cap && InOrder(s)
    ensures InOrder(Push(s, m))
  {
    Added(s.taken, s.dropped, s.queue, s.accepted, m);
    if |s.queue| == s.cap { Dropped(s.taken, s.dropped, s.queue + [m], s.accepted + [m]); }
  }

  lemma PopKeepsOrder(s: State, w: nat)
    requires InOrder(s) && Enabled(s, WorkerLocks(w))
    ensures InOrder(WorkerLocked(s, w))
  {
    if s.queue != [] { Taken(s.taken, s.dropped, s.queue, s.accepted); }
  }

  predicate SameMessages(s: State, t: State) {
    t.accepted == s.accepted && t.queue == s.queue && t.taken == s.taken && t.dropped == s.dropped
  }

  /** Only the critical sections move messages; one of a pusher pushes its message or moves nothing. */
  lemma OtherStepsMoveNothing(s: State, a: Action)
    requires Enabled(s, a) && !a.WorkerLocks?
    ensures || SameMessages(Next(s, a), s)
            || (a.ProducerLocks? && SameMessages(Next(s, a), Push(s, s.producers[a.p].m)))
            || (a.DestructorLocks? && SameMessages(Next(s, a), Push(s, Terminate)))
  {}

  lemma StepKeepsOrder(s: State, a: Action)
    requires |s.queue| <= s.cap && InOrder(s) && Enabled(s, a)
    ensures InOrder(Next(s, a))
  {
    if a.WorkerLocks? {
      PopKeepsOrder(s, a.w);
    } else {
      OtherStepsMoveNothing(s, a);
      PushKeepsOrder(s, if a.ProducerLocks? then s.producers[a.p].m else Terminate);
    }
  }

  // ---------------------------------------------------------------- one worker

  function InHand(w: Worker): (r: seq<Msg>) {
    match w
    case Popped(m) => [m]
    case Busy(m) => [m]
    case _ => []
  }

  /** What the worker has taken it has processed, in order, but for the message in its hands. */
  ghost predicate OneByOne(s: State) { |s.workers| == 1 && s.taken == s.processed + InHand(s.workers[0]) }

  lemma StepKeepsOneByOne(s: State, a: Action)
    requires OneByOne(s) && Enabled(s, a)
    ensures OneByOne(Next(s, a))
  {
    if ByWorker(a) {
      assert a.w == 0;
      if a.WorkerNotifies? { PopNotifiedMoves(s, a.target); }
    }
  }

  /** In every run, whatever the number of workers, messages leave the queue in the order of acceptance. */
  lemma {:induction false} RunKeepsOrder(s: State, acts: seq<Action>)
    requires Inv(s) && InOrder(s) && IsRun(s, acts)
    ensures InOrder(After(s, acts)) && (OneByOne(s) ==> OneByOne(After(s, acts)))
    decreases |acts|
  {
    if acts != [] {
      StepKeepsInv(s, acts[0]);
      StepKeepsOrder(s, acts[0]);
      if OneByOne(s) { StepKeepsOneByOne(s, acts[0]); }
      RunKeepsOrder(Next(s, acts[0]), acts[1..]);
    }
  }

  lemma NewPoolInOrder(cap: nat, threads: nat, producers: nat)
    requires 1 <= threads <= 1000
    ensures InOrder(Create(cap, threads, producers).s)
    ensures threads == 1 ==> OneByOne(Create(cap, threads, producers).s)
  {
    var s := Create(cap, threads, producers).s;
    assert s.accepted == [] + s.queue && Interleaves(s.taken, s.dropped, []);
  }

  /** What is processed, in the worker's hands or queued, in this order. */
  function Line(s: State): seq<Msg>
    requires |s.workers| == 1
  {
    s.processed + InHand(s.workers[0]) + s.queue
  }

  /** With one worker, the messages processed, the one in hand and the queue are the accepted ones less
      those dropped, in the order of acceptance. */
  lemma OneWorkerIsFifo(s: State)
    requires InOrder(s) && OneByOne(s)
    ensures Interleaves(Line(s), s.dropped, s.accepted)
  {
    TakenByAll(s.taken, s.dropped, s.queue, s.accepted);
  }

  // ---------------------------------------------------------------- posts that block

  /** Every post blocks while the queue is full. */
  predicate Blocks(acts: seq<Action>) {
    forall i :: 0 <= i < |acts| && acts[i].Post? ==> acts[i].block
  }

  ghost predicate NoneDropped(s: State) {
    s.dropped == [] && forall p :: 0 <= p < |s.producers| && s.producers[p].Wanting? ==> s.producers[p].block
  }

  lemma StepDropsNone(s: State, a: Action)
    requires NoneDropped(s) && Enabled(s, a) && (a.Post? ==> a.block)
    ensures NoneDropped(Next(s, a))
  {}

  lemma {:induction false} RunDropsNone(s: State, acts: seq<Action>)
    requires NoneDropped(s) && IsRun(s, acts) && Blocks(acts)
    ensures NoneDropped(After(s, acts))
    decreases |acts|
  {
    if acts != [] {
      StepDropsNone(s, acts[0]);
      assert forall i :: 0 <= i < |acts[1..]| ==> acts[1..][i] == acts[i + 1];
      RunDropsNone(Next(s, acts[0]), acts[1..]);
    }
  }

  lemma NothingMissing(s: State)
    requires Inv(s) && InOrder(s) && OneByOne(s) && s.dropped == []
    ensures s.accepted == Line(s) && (Finished(s) ==> s.accepted == s.processed)
  {
    OneWorkerIsFifo(s);
    InterleavedAlone(Line(s), s.accepted);
    if Finished(s) { AllHaveExited(s); }
  }

  lemma BlockingRunIsFifo(s: State, acts: seq<Action>)
    requires Inv(s) && InOrder(s) && OneByOne(s) && NoneDropped(s) && IsRun(s, acts) && Blocks(acts)
    ensures var t := After(s, acts);
            |t.workers| == 1 && t.accepted == Line(t) && (Finished(t) ==> t.accepted == t.processed)
  {
    RunKeepsInv(s, acts);
    RunKeepsOrder(s, acts);
    RunDropsNone(s, acts);
    NothingMissing(After(s, acts));
  }

  /** The default pool, one worker and blocking posts, processes exactly what it accepts and in that
      order: at every moment all but the message in hand and the queue, and everything at the end. */
  lemma BlockingPoolIsFifo(cap: nat, threads: nat, producers: nat, acts: seq<Action>)
    requires threads == 1 && IsRun(Create(cap, threads, producers).s, acts) && Blocks(acts)
    ensures var t := After(Create(cap, threads, producers).s, acts);
            |t.workers| == 1 && t.accepted == Line(t) && (Finished(t) ==> t.accepted == t.processed)
  {
    InitialInv(cap, threads, producers);
    NewPoolInOrder(cap, threads, producers);
    BlockingRunIsFifo(Create(cap, threads, producers).s, acts);
  }

  // ---------------------------------------------------------------- two workers

  ghost predicate Reaches(s: State, t: State) { exists acts :: IsRun(s, acts) && After(s, acts) == t }

  lemma Reached(s: State, a: Action, t: State)
    requires Enabled(s, a) && Reaches(Next(s, a), t)
    ensures Reaches(s, t)
  {
    var acts :| IsRun(Next(s, a), acts) && After(Next(s, a), acts) == t;
    assert ([a] + acts)[1..] == acts;
    assert IsRun(s, [a] + acts) && After(s, [a] + acts) == t;
  }

  /** One producer and two workers that nobody sleeps among. */
  function Pool2(q: seq<Msg>, p: Producer, v: Worker, w: Worker, acc: seq<Msg>, tkn: seq<Msg>, done: seq<Msg>): State {
    State(2, q, [p], [v, w], NotStarted, true, if p.Idle? then 1 else 2, acc, tkn, done, [])
  }

  lemma Posted(q: seq<Msg>, m: Msg, acc: seq<Msg>, t: State)
    requires |q| < 2 && !m.Terminate? && Reaches(Pool2(q + [m], Idle, Ready, Ready, acc + [m], [], []), t)
    ensures Reaches(Pool2(q, Idle, Ready, Ready, acc, [], []), t)
  {
    var s := Pool2(q, Idle, Ready, Ready, acc, [], []);
    var s1 := Next(s, Post(0, m, true));
    assert s1 == Pool2(q, Wanting(m, true), Ready, Ready, acc, [], []);
    var s2 := Next(s1, ProducerLocks(0));
    assert s2 == Pool2(q + [m], Notifying, Ready, Ready, acc + [m], [], []);
    SumIsZero(s2.workers, WorkerWaits);
    assert Next(s2, ProducerNotifies(0, NoOne)) == Pool2(q + [m], Idle, Ready, Ready, acc + [m], [], []);
    Reached(s2, ProducerNotifies(0, NoOne), t);
    Reached(s1, ProducerLocks(0), t);
    Reached(s, Post(0, m, true), t);
  }

  lemma FirstTakes(a: Msg, b: Msg, t: State)
    requires Reaches(Pool2([b], Idle, Busy(a), Ready, [a, b], [a], []), t)
    ensures Reaches(Pool2([a, b], Idle, Ready, Ready, [a, b], [], []), t)
  {
    var s := Pool2([a, b], Idle, Ready, Ready, [a, b], [], []);
    var s1 := Next(s, WorkerLocks(0));
    assert s1 == Pool2([b], Idle, Popped(a), Ready, [a, b], [a], []);
    SumIsZero(s1.producers, ProducerSleeps);
    assert Next(s1, WorkerNotifies(0, NoOne)) == Pool2([b], Idle, Busy(a), Ready, [a, b], [a], []);
    Reached(s1, WorkerNotifies(0, NoOne), t);
    Reached(s, WorkerLocks(0), t);
  }

  lemma SecondTakes(a: Msg, b: Msg, t: State)
    requires Reaches(Pool2([], Idle, Busy(a), Busy(b), [a, b], [a, b], []), t)
    ensures Reaches(Pool2([b], Idle, Busy(a), Ready, [a, b], [a], []), t)
  {
    var s := Pool2([b], Idle, Busy(a), Ready, [a, b], [a], []);
    var s1 := Next(s, WorkerLocks(1));
    assert s1 == Pool2([], Idle, Busy(a), Popped(b), [a, b], [a, b], []);
    SumIsZero(s1.producers, ProducerSleeps);
    assert Next(s1, WorkerNotifies(1, NoOne)) == Pool2([], Idle, Busy(a), Busy(b), [a, b], [a, b], []);
    Reached(s1, WorkerNotifies(1, NoOne), t);
    Reached(s, WorkerLocks(1), t);
  }

  /** The second worker finishes before the first. */
  lemma SecondFinishes(a: Msg, b: Msg)
    requires !b.Terminate?
    ensures Reaches(Pool2([], Idle, Busy(a), Busy(b), [a, b], [a, b], []),
                    Pool2([], Idle, Busy(a), Ready, [a, b], [a, b], [b]))
  {
    var s := Pool2([], Idle, Busy(a), Busy(b), [a, b], [a, b], []);
    var t := Pool2([], Idle, Busy(a), Ready, [a, b], [a, b], [b]);
    assert IsRun(t, []) && After(t, []) == t;
    assert Next(s, WorkerProcesses(1)) == t;
    Reached(s, WorkerProcesses(1), t);
  }

  /** With two workers the order of processing may differ: both take a message, and the second is faster. */
  lemma TwoWorkersReorder(a: Msg, b: Msg)
    requires !a.Terminate? && !b.Terminate?
    ensures exists t :: Reaches(Create(2, 2, 1).s, t) && t.accepted == t.taken == [a, b] && t.processed == [b]
  {
    var t := Pool2([], Idle, Busy(a), Ready, [a, b], [a, b], [b]);
    SecondFinishes(a, b);
    SecondTakes(a, b, t);
    FirstTakes(a, b, t);
    assert [a] + [b] == [a, b] && [] + [a] == [a];
    Posted([a], b, [a], t);
    Posted([], a, [], t);
    assert Create(2, 2, 1).s == Pool2([], Idle, Ready, Ready, [], [], []);
  }
}
