/** The invariant of the asynchronous pipeline is inductive: a new pool has it and every step keeps it. */
module AsyncInvariant {
  import opened Counting
  import opened AsyncPool

  lemma InitialInv(cap: nat, threads: nat, producers: nat)
    requires 1 <= threads <= 1000
    ensures Inv(Create(cap, threads, producers).s)
  {
    var s := Create(cap, threads, producers).s;
    SumIsZero(s.workers, WorkerWaits);
    SumIsZero(s.workers, WorkerExited);
    SumIsZero(s.producers, ProducerSleeps);
    SumIsZero(s.producers, ProducerPosting);
    forall m ensures ConservedAt(s, m) { SumIsZero(s.workers, Holds(m)); }
  }

  lemma WorkerMoved(ws: seq<Worker>, w: nat, x: Worker)
    requires w < |ws|
    ensures Sum(ws[w := x], WorkerWaits) == Sum(ws, WorkerWaits) - WorkerWaits(ws[w]) + WorkerWaits(x)
    ensures Sum(ws[w := x], WorkerRoused) == Sum(ws, WorkerRoused) - WorkerRoused(ws[w]) + WorkerRoused(x)
    ensures Sum(ws[w := x], WorkerPopped) == Sum(ws, WorkerPopped) - WorkerPopped(ws[w]) + WorkerPopped(x)
    ensures Sum(ws[w := x], WorkerExited) == Sum(ws, WorkerExited) - WorkerExited(ws[w]) + WorkerExited(x)
  {
    SumUpdate(ws, w, x, WorkerWaits);
    SumUpdate(ws, w, x, WorkerRoused);
    SumUpdate(ws, w, x, WorkerPopped);
    SumUpdate(ws, w, x, WorkerExited);
  }

  lemma ProducerMoved(ps: seq<Producer>, p: nat, x: Producer)
    requires p < |ps|
    ensures Sum(ps[p := x], ProducerSleeps) == Sum(ps, ProducerSleeps) - ProducerSleeps(ps[p]) + ProducerSleeps(x)
    ensures Sum(ps[p := x], ProducerWoken) == Sum(ps, ProducerWoken) - ProducerWoken(ps[p]) + ProducerWoken(x)
    ensures Sum(ps[p := x], ProducerNotifying)
            == Sum(ps, ProducerNotifying) - ProducerNotifying(ps[p]) + ProducerNotifying(x)
  {
    SumUpdate(ps, p, x, ProducerSleeps);
    SumUpdate(ps, p, x, ProducerWoken);
    SumUpdate(ps, p, x, ProducerNotifying);
  }

  lemma PushNotifiedMoves(s: State, t: Target)
    requires PushTarget(s, t)
    ensures var n := PushNotified(s, t); n == s.(workers := n.workers)
    ensures SleepingWorkers(s) == 0 || PushTokens(PushNotified(s, t)) == PushTokens(s) + 1
    ensures SleepingWorkers(PushNotified(s, t)) <= SleepingWorkers(s)
    ensures Sum(PushNotified(s, t).workers, WorkerPopped) == Sum(s.workers, WorkerPopped)
    ensures Sum(PushNotified(s, t).workers, WorkerExited) == Sum(s.workers, WorkerExited)
  {
    if t.ToWorker? { WorkerMoved(s.workers, t.w, Roused(false)); }
  }

  lemma PopNotifiedMoves(s: State, t: Target)
    requires PopTarget(s, t)
    ensures var n := PopNotified(s, t); n == s.(producers := n.producers, dtor := n.dtor)
    ensures SleepingPushers(s) == 0 || PopTokens(PopNotified(s, t)) == PopTokens(s) + 1
    ensures SleepingPushers(PopNotified(s, t)) <= SleepingPushers(s)
    ensures PushTokens(PopNotified(s, t)) == PushTokens(s)
  {
    if t.ToProducer? { ProducerMoved(s.producers, t.p, Woken(s.producers[t.p].m)); }
  }

  predicate ByProducer(a: Action) { a.Post? || a.ProducerLocks? || a.ProducerWakes? || a.ProducerNotifies? }

  predicate ByWorker(a: Action) { a.WorkerLocks? || a.WorkerWakes? || a.WorkerNotifies? || a.WorkerProcesses? }

  predicate ByDestructor(a: Action) { !ByProducer(a) && !ByWorker(a) }

  // ---------------------------------------------------------------- no wake-up is lost

  lemma PushKeepsWakeup(s: State, p: nat, m: Msg)
    requires Shaped(s) && NoLostWakeup(s) && p < |s.producers| && ProducerNotifying(s.producers[p]) == 0
    requires ProducerSleeps(s.producers[p]) == 0
    ensures NoLostWakeup(WithProducer(Push(s, m), p, Notifying))
  {
    ProducerMoved(s.producers, p, Notifying);
  }

  lemma FullKeepsWakeup(s: State, p: nat, m: Msg)
    requires Shaped(s) && NoLostWakeup(s) && p < |s.producers| && ProducerNotifying(s.producers[p]) == 0
    requires |s.queue| == s.cap
    ensures NoLostWakeup(WithProducer(s, p, Sleeping(m)))
  {
    ProducerMoved(s.producers, p, Sleeping(m));
  }

  lemma ProducerKeepsWakeup(s: State, a: Action)
    requires Shaped(s) && NoLostWakeup(s) && Enabled(s, a) && ByProducer(a)
    ensures NoLostWakeup(Next(s, a))
  {
    match a
    case Post(p, m, block) => ProducerMoved(s.producers, p, Wanting(m, block));
    case ProducerLocks(p) =>
      PushKeepsWakeup(s, p, s.producers[p].m);
      if |s.queue| >= s.cap { FullKeepsWakeup(s, p, s.producers[p].m); }
    case ProducerWakes(p) => ProducerMoved(s.producers, p, Woken(s.producers[p].m));
    case ProducerNotifies(p, t) =>
      PushNotifiedMoves(s, t);
      ProducerMoved(s.producers, p, Idle);
  }

  lemma PopKeepsWakeup(s: State, w: nat)
    requires Shaped(s) && NoLostWakeup(s) && Enabled(s, WorkerLocks(w))
    ensures NoLostWakeup(WorkerLocked(s, w))
  {
    if s.queue == [] {
      WorkerMoved(s.workers, w, Ready);
      WorkerMoved(s.workers, w, Waiting);
    } else {
      WorkerMoved(s.workers, w, Popped(s.queue[0]));
    }
  }

  lemma WorkerKeepsWakeup(s: State, a: Action)
    requires Shaped(s) && NoLostWakeup(s) && Enabled(s, a) && ByWorker(a)
    ensures NoLostWakeup(Next(s, a))
  {
    match a
    case WorkerLocks(w) => PopKeepsWakeup(s, w);
    case WorkerWakes(w, timedOut) => WorkerMoved(s.workers, w, Roused(timedOut));
    case WorkerNotifies(w, t) =>
      PopNotifiedMoves(s, t);
      WorkerMoved(s.workers, w, Busy(s.workers[w].m));
    case WorkerProcesses(w) => WorkerMoved(s.workers, w, if s.workers[w].m.Terminate? then Exited else Ready);
  }

  lemma DestructorKeepsWakeup(s: State, a: Action)
    requires Shaped(s) && NoLostWakeup(s) && Enabled(s, a) && ByDestructor(a)
    ensures NoLostWakeup(Next(s, a))
  {
    if a.DestructorNotifies? { PushNotifiedMoves(s, a.target); }
  }

  // ---------------------------------------------------------------- every message is somewhere

  lemma PushConserves(s: State, m: Msg, k: Msg)
    requires |s.queue| <= s.cap && ConservedAt(s, k)
    ensures ConservedAt(Push(s, m), k)
  {
    SumAppend(s.queue, m, Is(k));
    SumAppend(s.accepted, m, Is(k));
    SumAppend(s.dropped, (s.queue + [m])[0], Is(k));
  }

  lemma PopConserves(s: State, w: nat, k: Msg)
    requires ConservedAt(s, k) && Enabled(s, WorkerLocks(w))
    ensures ConservedAt(WorkerLocked(s, w), k)
  {
    if s.queue == [] {
      SumUpdate(s.workers, w, if s.workers[w] == Roused(true) then Ready else Waiting, Holds(k));
    } else {
      SumUpdate(s.workers, w, Popped(s.queue[0]), Holds(k));
    }
  }

  lemma ProcessingConserves(s: State, w: nat, k: Msg)
    requires ConservedAt(s, k) && Enabled(s, WorkerProcesses(w))
    ensures ConservedAt(Next(s, WorkerProcesses(w)), k)
  {
    SumUpdate(s.workers, w, if s.workers[w].m.Terminate? then Exited else Ready, Holds(k));
    SumAppend(s.processed, s.workers[w].m, Is(k));
  }

  lemma WorkerConserves(s: State, a: Action, k: Msg)
    requires ConservedAt(s, k) && Enabled(s, a) && ByWorker(a)
    ensures ConservedAt(Next(s, a), k)
  {
    match a
    case WorkerLocks(w) => PopConserves(s, w, k);
    case WorkerWakes(w, timedOut) => SumUpdate(s.workers, w, Roused(timedOut), Holds(k));
    case WorkerNotifies(w, t) =>
      PopNotifiedMoves(s, t);
      SumUpdate(s.workers, w, Busy(s.workers[w].m), Holds(k));
    case WorkerProcesses(w) => ProcessingConserves(s, w, k);
  }

  lemma PushNotifiedConserves(s: State, t: Target, k: Msg)
    requires PushTarget(s, t) && ConservedAt(s, k)
    ensures ConservedAt(PushNotified(s, t), k)
  {
    if t.ToWorker? { SumUpdate(s.workers, t.w, Roused(false), Holds(k)); }
  }

  lemma ProducerLockConserves(s: State, p: nat, k: Msg)
    requires |s.queue| <= s.cap && ConservedAt(s, k) && Enabled(s, ProducerLocks(p))
    ensures ConservedAt(ProducerLocked(s, p), k)
  {
    PushConserves(s, s.producers[p].m, k);
  }

  lemma ProducerConserves(s: State, a: Action, k: Msg)
    requires |s.queue| <= s.cap && ConservedAt(s, k) && Enabled(s, a) && ByProducer(a)
    ensures ConservedAt(Next(s, a), k)
  {
    if a.ProducerLocks? { ProducerLockConserves(s, a.p, k); }
    if a.ProducerNotifies? { PushNotifiedConserves(s, a.target, k); }
  }

  lemma DestructorLockConserves(s: State, k: Msg)
    requires |s.queue| <= s.cap && ConservedAt(s, k) && Enabled(s, DestructorLocks)
    ensures ConservedAt(DestructorLocked(s), k)
  {
    PushConserves(s, Terminate, k);
  }

  lemma DestructorConserves(s: State, a: Action, k: Msg)
    requires |s.queue| <= s.cap && ConservedAt(s, k) && Enabled(s, a) && ByDestructor(a)
    ensures ConservedAt(Next(s, a), k)
  {
    if a.DestructorLocks? { DestructorLockConserves(s, k); }
    if a.DestructorNotifies? { PushNotifiedConserves(s, a.target, k); }
  }

  lemma ConservedKept(s: State, a: Action)
    requires Shaped(s) && Conserved(s) && Enabled(s, a)
    ensures Conserved(Next(s, a))
  {
    forall k ensures ConservedAt(Next(s, a), k) {
      if ByProducer(a) { ProducerConserves(s, a, k); }
      else if ByWorker(a) { WorkerConserves(s, a, k); }
      else { DestructorConserves(s, a, k); }
    }
  }

  // ---------------------------------------------------------------- terminate messages

  /** Before the destructor starts no terminate message exists anywhere. */
  lemma NoTerminateYet(s: State)
    requires Counted(s) && Conserved(s) && s.dtor.NotStarted?
    ensures forall i :: 0 <= i < |s.queue| ==> !s.queue[i].Terminate?
    ensures Sum(s.workers, Holds(Terminate)) == 0 && Sum(s.workers, WorkerExited) == 0
  {
    assert ConservedAt(s, Terminate);
    SumIsZero(s.queue, Is(Terminate));
    forall i | 0 <= i < |s.queue| ensures !s.queue[i].Terminate? {
      assert Is(Terminate)(s.queue[i]) == 0;
    }
  }

  lemma PushNotifiedKeepsCount(s: State, t: Target)
    requires Counted(s) && Ordered(s) && PushTarget(s, t)
    ensures Counted(PushNotified(s, t)) && Ordered(PushNotified(s, t))
  {
    PushNotifiedMoves(s, t);
    if t.ToWorker? { SumUpdate(s.workers, t.w, Roused(false), Holds(Terminate)); }
  }

  lemma PushKeepsTerminates(s: State, m: Msg)
    requires !m.Terminate? && forall i :: 0 <= i < |s.queue| ==> !s.queue[i].Terminate?
    ensures Count(Push(s, m).accepted, Terminate) == Count(s.accepted, Terminate)
    ensures Count(Push(s, m).dropped, Terminate) == Count(s.dropped, Terminate)
  {
    SumAppend(s.accepted, m, Is(Terminate));
    SumAppend(s.dropped, (s.queue + [m])[0], Is(Terminate));
  }

  lemma ProducerLockKeepsCount(s: State, p: nat)
    requires Counted(s) && Conserved(s) && PostsOver(s) && Ordered(s) && Enabled(s, ProducerLocks(p))
    ensures Counted(ProducerLocked(s, p)) && Ordered(ProducerLocked(s, p))
  {
    NoTerminateYet(s);
    PushKeepsTerminates(s, s.producers[p].m);
  }

  lemma ProducerKeepsCount(s: State, a: Action)
    requires Counted(s) && Conserved(s) && PostsOver(s) && Ordered(s) && Enabled(s, a) && ByProducer(a)
    ensures Counted(Next(s, a)) && Ordered(Next(s, a))
  {
    if a.ProducerLocks? { ProducerLockKeepsCount(s, a.p); }
    if a.ProducerNotifies? { PushNotifiedKeepsCount(s, a.target); }
  }

  lemma WorkerLockKeepsCount(s: State, w: nat)
    requires Counted(s) && Ordered(s) && Enabled(s, WorkerLocks(w))
    ensures Counted(WorkerLocked(s, w)) && Ordered(WorkerLocked(s, w))
  {
    var x := WorkerLocked(s, w).workers[w];
    WorkerMoved(s.workers, w, x);
    SumUpdate(s.workers, w, x, Holds(Terminate));
  }

  lemma ProcessingKeepsCount(s: State, w: nat)
    requires Counted(s) && Ordered(s) && Enabled(s, WorkerProcesses(w))
    ensures Counted(Next(s, WorkerProcesses(w))) && Ordered(Next(s, WorkerProcesses(w)))
  {
    var x := if s.workers[w].m.Terminate? then Exited else Ready;
    WorkerMoved(s.workers, w, x);
    SumUpdate(s.workers, w, x, Holds(Terminate));
    SumAppend(s.processed, s.workers[w].m, Is(Terminate));
  }

  lemma WorkerKeepsCount(s: State, a: Action)
    requires Counted(s) && Ordered(s) && Enabled(s, a) && ByWorker(a)
    ensures Counted(Next(s, a)) && Ordered(Next(s, a))
  {
    match a
    case WorkerLocks(w) => WorkerLockKeepsCount(s, w);
    case WorkerWakes(w, timedOut) =>
      WorkerMoved(s.workers, w, Roused(timedOut));
      SumUpdate(s.workers, w, Roused(timedOut), Holds(Terminate));
    case WorkerNotifies(w, t) =>
      PopNotifiedMoves(s, t);
      PopNotifiedKeepsLeft(s, t);
      WorkerMoved(s.workers, w, Busy(s.workers[w].m));
      SumUpdate(s.workers, w, Busy(s.workers[w].m), Holds(Terminate));
    case WorkerProcesses(w) => ProcessingKeepsCount(s, w);
  }

  lemma PopNotifiedKeepsLeft(s: State, t: Target)
    requires PopTarget(s, t)
    ensures var d := PopNotified(s, t).dtor; Left(d) == Left(s.dtor) && (d.NotStarted? <==> s.dtor.NotStarted?)
  {}

  lemma TerminatePushed(s: State)
    requires |s.queue| < s.cap && Counted(s) && Ordered(s) && Left(s.dtor) > 0
    ensures Counted(DestructorPushed(s)) && Ordered(DestructorPushed(s))
  {
    SumAppend(s.accepted, Terminate, Is(Terminate));
  }

  lemma DestructorKeepsCount(s: State, a: Action)
    requires Shaped(s) && Counted(s) && Conserved(s) && Ordered(s) && Enabled(s, a) && ByDestructor(a)
    ensures Counted(Next(s, a)) && Ordered(Next(s, a))
  {
    if a.DestructorLocks? && s.dtor.left > 0 && |s.queue| < s.cap { TerminatePushed(s); }
    if a.DestructorNotifies? { PushNotifiedKeepsCount(s, a.target); }
    if a.DestructorStarts? { NoTerminateYet(s); }
  }

  // ---------------------------------------------------------------- the whole invariant

  lemma PopNotifiedKeepsShape(s: State, t: Target)
    requires Shaped(s) && PostsOver(s) && PopTarget(s, t)
    ensures Shaped(PopNotified(s, t)) && PostsOver(PopNotified(s, t))
  {}

  lemma WorkerKeepsShape(s: State, a: Action)
    requires Shaped(s) && PostsOver(s) && Enabled(s, a) && ByWorker(a)
    ensures Shaped(Next(s, a)) && PostsOver(Next(s, a))
  {
    if a.WorkerNotifies? {
      PopNotifiedKeepsShape(s, a.target);
      PopNotifiedMoves(s, a.target);
    }
  }

  lemma PushKeepsShape(s: State, p: nat)
    requires Shaped(s) && PostsOver(s) && Enabled(s, ProducerLocks(p))
    ensures Shaped(ProducerLocked(s, p)) && PostsOver(ProducerLocked(s, p))
  {}

  lemma ProducerKeepsShape(s: State, a: Action)
    requires Shaped(s) && PostsOver(s) && Owned(s) && Enabled(s, a) && ByProducer(a)
    ensures Shaped(Next(s, a)) && PostsOver(Next(s, a))
  {
    if a.ProducerLocks? { PushKeepsShape(s, a.p); }
  }

  /** When no owner is left, no post is in progress. */
  lemma NoOwnerNoPost(s: State)
    requires Owned(s) && s.owners == 0
    ensures forall p :: 0 <= p < |s.producers| ==> s.producers[p].Idle?
  {
    SumIsZero(s.producers, ProducerPosting);
    forall p | 0 <= p < |s.producers| ensures s.producers[p].Idle? {
      assert ProducerPosting(s.producers[p]) == 0;
    }
  }

  lemma DestructorKeepsShape(s: State, a: Action)
    requires Shaped(s) && PostsOver(s) && Owned(s) && Enabled(s, a) && ByDestructor(a)
    ensures Shaped(Next(s, a)) && PostsOver(Next(s, a))
  {
    if a.DestructorStarts? { NoOwnerNoPost(s); }
  }

  /** Owners are counted right: each post in progress holds one. */
  lemma OwnersCounted(s: State, a: Action)
    requires Owned(s) && Enabled(s, a)
    ensures Owned(Next(s, a))
  {
    if ByProducer(a) {
      ProducerKeepsOwners(s, a);
    } else if a.WorkerNotifies? && a.target.ToProducer? {
      SumUpdate(s.producers, a.target.p, Woken(s.producers[a.target.p].m), ProducerPosting);
    }
  }

  lemma ProducerKeepsOwners(s: State, a: Action)
    requires Owned(s) && Enabled(s, a) && ByProducer(a)
    ensures Owned(Next(s, a))
  {
    SumUpdate(s.producers, a.p, Next(s, a).producers[a.p], ProducerPosting);
    if a.ProducerNotifies? { PushNotifiedMoves(s, a.target); }
  }

  /** Every step keeps the invariant. */
  lemma StepKeepsInv(s: State, a: Action)
    requires Inv(s) && Enabled(s, a)
    ensures Inv(Next(s, a))
  {
    ConservedKept(s, a);
    OwnersCounted(s, a);
    if ByProducer(a) {
      ProducerKeepsShape(s, a);
      ProducerKeepsWakeup(s, a);
      ProducerKeepsCount(s, a);
    } else if ByWorker(a) {
      WorkerKeepsShape(s, a);
      WorkerKeepsWakeup(s, a);
      WorkerKeepsCount(s, a);
    } else {
      DestructorKeepsShape(s, a);
      DestructorKeepsWakeup(s, a);
      DestructorKeepsCount(s, a);
    }
  }

  /** The invariant holds at the end, hence at every point, of every run. */
  lemma {:induction false} RunKeepsInv(s: State, acts: seq<Action>)
    requires Inv(s) && IsRun(s, acts)
    ensures Inv(After(s, acts))
    decreases |acts|
  {
    if acts != [] {
      StepKeepsInv(s, acts[0]);
      RunKeepsInv(Next(s, acts[0]), acts[1..]);
    }
  }
}
