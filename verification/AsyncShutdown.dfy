/** What the pool's invariant gives: it never gets stuck with work left, and a shutdown terminates and
    drains the queue. */
module AsyncShutdown {
  import opened Counting
  import opened AsyncPool
  import opened AsyncInvariant

  /** The steps the code takes by itself: not a caller's post or destruction, not a time-out or a wake-up
      for no reason. */
  predicate Useful(a: Action) {
    !a.Post? && !a.CreatorReleases? && !a.DestructorStarts? && !Wakes(a)
  }

  predicate Wakes(a: Action) { a.ProducerWakes? || a.WorkerWakes? || a.DestructorWakes? }

  ghost predicate Finished(s: State) { s.dtor == Joining(|s.workers|) }

  ghost predicate Finishes(s: State, acts: seq<Action>) { IsRun(s, acts) && Finished(After(s, acts)) }

  /** Nothing queued, nobody posting, every worker waiting for work. */
  ghost predicate AtRest(s: State) {
    && s.dtor.NotStarted? && s.queue == []
    && (forall p :: 0 <= p < |s.producers| ==> s.producers[p].Idle?)
    && (forall w :: 0 <= w < |s.workers| ==> s.workers[w].Waiting?)
  }

  // ---------------------------------------------------------------- no deadlock

  lemma SomePushTarget(s: State) returns (t: Target)
    ensures PushTarget(s, t)
  {
    SumIsZero(s.workers, WorkerWaits);
    if w :| 0 <= w < |s.workers| && s.workers[w].Waiting? { t := ToWorker(w); } else { t := NoOne; }
  }

  lemma SomePopTarget(s: State) returns (t: Target)
    ensures PopTarget(s, t)
  {
    SumIsZero(s.producers, ProducerSleeps);
    if s.dtor.Blocked? { t := ToDestructor; }
    else if p :| 0 <= p < |s.producers| && s.producers[p].Sleeping? { t := ToProducer(p); }
    else { t := NoOne; }
  }

  ghost predicate AllAsleep(s: State) {
    && (forall p :: 0 <= p < |s.producers| ==> s.producers[p].Idle? || s.producers[p].Sleeping?)
    && (forall w :: 0 <= w < |s.workers| ==> s.workers[w].Waiting? || s.workers[w].Exited?)
    && (s.dtor.NotStarted? || s.dtor.Blocked? || s.dtor.Joining?)
  }

  lemma SomebodyAwake(s: State) returns (a: Action)
    requires !AllAsleep(s)
    ensures Useful(a) && Enabled(s, a)
  {
    if p :| 0 <= p < |s.producers| && !s.producers[p].Idle? && !s.producers[p].Sleeping? {
      if s.producers[p].Notifying? {
        var t := SomePushTarget(s);
        a := ProducerNotifies(p, t);
      } else {
        a := ProducerLocks(p);
      }
    } else if w :| 0 <= w < |s.workers| && !s.workers[w].Waiting? && !s.workers[w].Exited? {
      if s.workers[w].Popped? {
        var t := SomePopTarget(s);
        a := WorkerNotifies(w, t);
      } else {
        a := if s.workers[w].Busy? then WorkerProcesses(w) else WorkerLocks(w);
      }
    } else if s.dtor.Announcing? {
      var t := SomePushTarget(s);
      a := DestructorNotifies(t);
    } else {
      a := DestructorLocks;
    }
  }

  /** With everybody asleep a waiting worker means an empty queue, and a blocked pusher a full one. */
  lemma SleepersAgree(s: State)
    requires NoLostWakeup(s) && AllAsleep(s)
    ensures PushTokens(s) == 0 && PopTokens(s) == 0
    ensures SleepingWorkers(s) > 0 ==> s.queue == []
    ensures SleepingPushers(s) > 0 ==> s.cap <= |s.queue|
  {
    SumIsZero(s.producers, ProducerNotifying);
    SumIsZero(s.producers, ProducerWoken);
    SumIsZero(s.workers, WorkerRoused);
    SumIsZero(s.workers, WorkerPopped);
  }

  /** With an empty queue and all asleep, the terminate messages pushed are the workers that exited. */
  lemma NoneInFlight(s: State)
    requires Inv(s) && AllAsleep(s) && s.queue == []
    ensures Count(s.accepted, Terminate) == Sum(s.workers, WorkerExited)
  {
    assert ConservedAt(s, Terminate);
    SumIsZero(s.workers, Holds(Terminate));
    assert Count(s.queue, Terminate) == 0;
  }

  lemma ExitedCount(s: State)
    ensures Sum(s.workers, WorkerExited) <= |s.workers|
    ensures Sum(s.workers, WorkerExited) == |s.workers| <==> forall w :: 0 <= w < |s.workers| ==> s.workers[w].Exited?
    ensures Sum(s.workers, WorkerExited) == 0 <==> forall w :: 0 <= w < |s.workers| ==> !s.workers[w].Exited?
    ensures SleepingWorkers(s) == 0 <==> forall w :: 0 <= w < |s.workers| ==> !s.workers[w].Waiting?
  {
    SumIsFull(s.workers, WorkerExited);
    SumIsZero(s.workers, WorkerExited);
    SumIsZero(s.workers, WorkerWaits);
  }

  lemma AllExitedJoins(s: State)
    requires Inv(s) && AllAsleep(s) && SleepingWorkers(s) == 0
    ensures s.dtor.Joining? && forall w :: 0 <= w < |s.workers| ==> s.workers[w].Exited?
  {
    ExitedCount(s);
    assert ConservedAt(s, Terminate);
  }

  lemma EmptyQueueRests(s: State)
    requires Inv(s) && AllAsleep(s) && SleepingWorkers(s) > 0 && s.cap >= 1
    ensures AtRest(s)
  {
    SleepersAgree(s);
    NoneInFlight(s);
    ExitedCount(s);
    SumIsZero(s.producers, ProducerSleeps);
  }

  /** No deadlock: with room for one message, a reachable state is at rest, or finished, or the code can
      take a step without waiting for a time-out. */
  lemma Progress(s: State) returns (a: Action)
    requires Inv(s) && s.cap >= 1 && !AtRest(s) && !Finished(s)
    ensures Useful(a) && Enabled(s, a)
  {
    if AllAsleep(s) {
      if SleepingWorkers(s) > 0 { EmptyQueueRests(s); }
      AllExitedJoins(s);
      a := DestructorJoins;
    } else {
      a := SomebodyAwake(s);
    }
  }

  // ---------------------------------------------------------------- shutdown terminates

  function WorkerWeight(w: Worker): nat {
    match w
    case Ready => 1
    case Roused(timedOut) => if timedOut then 2 else 1
    case Popped(_) => 4
    case Busy(_) => 2
    case _ => 0
  }

  function DestructorWeight(d: Destructor, n: nat): nat {
    match d
    case NotStarted => 0
    case Posting(left) => n + 7 * left + 1
    case Blocked(left) => n + 7 * left
    case Unblocked(left) => n + 7 * left + 1
    case Announcing(left) => n + 7 * left + 3
    case Joining(joined) => if joined <= n then n - joined else 0
  }

  function Measure(s: State): nat {
    Sum(s.workers, WorkerWeight) + 4 * |s.queue| + DestructorWeight(s.dtor, |s.workers|)
  }

  lemma PushNotifiedWeighs(s: State, t: Target)
    requires PushTarget(s, t)
    ensures Sum(PushNotified(s, t).workers, WorkerWeight) <= Sum(s.workers, WorkerWeight) + 1
    ensures |PushNotified(s, t).workers| == |s.workers|
  {
    if t.ToWorker? { SumUpdate(s.workers, t.w, Roused(false), WorkerWeight); }
  }

  lemma PopWeighs(s: State, w: nat)
    requires Enabled(s, WorkerLocks(w))
    ensures Measure(WorkerLocked(s, w)) < Measure(s)
  {
    SumUpdate(s.workers, w, WorkerLocked(s, w).workers[w], WorkerWeight);
  }

  lemma NotifyWeighs(s: State, w: nat, t: Target)
    requires !s.dtor.NotStarted? && Enabled(s, WorkerNotifies(w, t))
    ensures Measure(Next(s, WorkerNotifies(w, t))) < Measure(s)
  {
    SumUpdate(s.workers, w, Busy(s.workers[w].m), WorkerWeight);
  }

  lemma WorkerWeighs(s: State, a: Action)
    requires !s.dtor.NotStarted? && Enabled(s, a) && ByWorker(a)
    ensures Measure(Next(s, a)) <= Measure(s) + if Wakes(a) then 2 else -1
  {
    match a
    case WorkerLocks(w) => PopWeighs(s, w);
    case WorkerWakes(w, timedOut) => SumUpdate(s.workers, w, Roused(timedOut), WorkerWeight);
    case WorkerNotifies(w, t) => NotifyWeighs(s, w, t);
    case WorkerProcesses(w) => SumUpdate(s.workers, w, Next(s, a).workers[w], WorkerWeight);
  }

  lemma DestructorWeighs(s: State, a: Action)
    requires Inv(s) && !s.dtor.NotStarted? && Enabled(s, a) && ByDestructor(a)
    ensures Measure(Next(s, a)) <= Measure(s) + if Wakes(a) then 1 else -1
  {
    if a.DestructorNotifies? { PushNotifiedWeighs(s, a.target); }
  }

  /** Once the destructor runs, every useful step brings the end nearer; a wake-up sets it back by at most 2. */
  lemma StepWeighs(s: State, a: Action)
    requires Inv(s) && !s.dtor.NotStarted? && Enabled(s, a)
    ensures (Useful(a) || Wakes(a)) && !Next(s, a).dtor.NotStarted?
    ensures Measure(Next(s, a)) <= Measure(s) + if Wakes(a) then 2 else -1
  {
    if ByWorker(a) { WorkerWeighs(s, a); }
    else if ByDestructor(a) { DestructorWeighs(s, a); }
  }

  function WakeUps(acts: seq<Action>): nat {
    if acts == [] then 0 else (if Wakes(acts[0]) then 1 else 0) + WakeUps(acts[1..])
  }

  /** A shutdown takes a bounded number of steps: at most the measure plus three for each wake-up by time
      or for no reason. */
  lemma {:induction false} ShutdownIsBounded(s: State, acts: seq<Action>)
    requires Inv(s) && !s.dtor.NotStarted? && IsRun(s, acts)
    ensures |acts| + Measure(After(s, acts)) <= Measure(s) + 3 * WakeUps(acts)
    decreases |acts|
  {
    if acts != [] {
      StepWeighs(s, acts[0]);
      StepKeepsInv(s, acts[0]);
      ShutdownIsBounded(Next(s, acts[0]), acts[1..]);
    }
  }

  lemma {:induction false} WorkersWeigh(ws: seq<Worker>)
    ensures Sum(ws, WorkerWeight) <= 4 * |ws|
  {
    if ws != [] { WorkersWeigh(ws[1..]); }
  }

  lemma ShutdownBudget(s: State)
    requires Inv(s) && Enabled(s, DestructorStarts)
    ensures Measure(Next(s, DestructorStarts)) <= 4 * s.cap + 12 * |s.workers| + 1
  {
    WorkersWeigh(s.workers);
  }

  lemma {:induction false} RunToTheEnd(s: State) returns (acts: seq<Action>)
    requires Inv(s) && !s.dtor.NotStarted? && s.cap >= 1
    ensures Finishes(s, acts)
    decreases Measure(s)
  {
    if Finished(s) {
      acts := [];
    } else {
      var a := Progress(s);
      StepWeighs(s, a);
      StepKeepsInv(s, a);
      var rest := RunToTheEnd(Next(s, a));
      acts := [a] + rest;
      assert acts[1..] == rest;
    }
  }

  lemma {:induction false} CapacityIsFixed(s: State, acts: seq<Action>)
    requires IsRun(s, acts)
    ensures After(s, acts).cap == s.cap && |After(s, acts).workers| == |s.workers|
    decreases |acts|
  {
    if acts != [] {
      StepKeepsCapacity(s, acts[0]);
      CapacityIsFixed(Next(s, acts[0]), acts[1..]);
    }
  }

  lemma StepKeepsCapacity(s: State, a: Action)
    requires Enabled(s, a)
    ensures Next(s, a).cap == s.cap && |Next(s, a).workers| == |s.workers|
  {}

  lemma TerminatesCounted(q: seq<Msg>)
    requires q != [] && q[0].Terminate?
    ensures Sum(q, Is(Terminate)) > 0
  {
    assert Is(Terminate)(q[0]) == 1;
  }

  lemma AllHaveExited(s: State)
    requires Inv(s) && Finished(s)
    ensures s.cap > 0 && s.queue == []
    ensures Count(s.processed, Terminate) == Count(s.accepted, Terminate) == |s.workers|
    ensures forall m :: Sum(s.workers, Holds(m)) == 0
  {
    ExitedCount(s);
    assert ConservedAt(s, Terminate);
    if s.queue != [] { TerminatesCounted(s.queue); }
    forall m ensures Sum(s.workers, Holds(m)) == 0 { SumIsZero(s.workers, Holds(m)); }
  }

  /** A shutdown can run to its end exactly when the queue has room for at least one message; with a
      queue of size 0 it blocks for ever. */
  lemma ShutdownCanFinish(s: State)
    requires Inv(s) && !s.dtor.NotStarted?
    ensures s.cap >= 1 <==> exists acts :: Finishes(s, acts)
  {
    if s.cap >= 1 {
      var acts := RunToTheEnd(s);
      assert Finishes(s, acts);
    } else {
      forall acts | Finishes(s, acts) ensures false {
        RunKeepsInv(s, acts);
        CapacityIsFixed(s, acts);
        AllHaveExited(After(s, acts));
      }
    }
  }

  // ---------------------------------------------------------------- shutdown drains

  /** Once the destructor runs nothing but terminate messages is accepted, and nothing is dropped. */
  lemma StepDropsNothing(s: State, a: Action, m: Msg)
    requires Inv(s) && !s.dtor.NotStarted? && Enabled(s, a) && !m.Terminate?
    ensures Next(s, a).dropped == s.dropped && Count(Next(s, a).accepted, m) == Count(s.accepted, m)
  {
    if a.DestructorLocks? { SumAppend(s.accepted, Terminate, Is(m)); }
  }

  lemma {:induction false} RunDropsNothing(s: State, acts: seq<Action>, m: Msg)
    requires Inv(s) && !s.dtor.NotStarted? && IsRun(s, acts) && !m.Terminate?
    ensures After(s, acts).dropped == s.dropped && Count(After(s, acts).accepted, m) == Count(s.accepted, m)
    decreases |acts|
  {
    if acts != [] {
      StepDropsNothing(s, acts[0], m);
      StepWeighs(s, acts[0]);
      StepKeepsInv(s, acts[0]);
      RunDropsNothing(Next(s, acts[0]), acts[1..], m);
    }
  }

  /** Every log or flush message that is queued, or in a worker's hands, when the destructor runs has been
      processed when the last join returns; the queue is empty, and the workers took one terminate message each. */
  lemma ShutdownDrains(s: State, acts: seq<Action>, m: Msg)
    requires Inv(s) && !s.dtor.NotStarted? && Finishes(s, acts) && !m.Terminate?
    ensures var t := After(s, acts);
            && t.queue == [] && t.dropped == s.dropped
            && Count(t.processed, m) == Count(s.processed, m) + Sum(s.workers, Holds(m)) + Count(s.queue, m)
            && Count(t.processed, Terminate) == |t.workers|
            && (forall w :: 0 <= w < |t.workers| ==> t.workers[w].Exited?)
  {
    var t := After(s, acts);
    RunKeepsInv(s, acts);
    RunDropsNothing(s, acts, m);
    AllHaveExited(t);
    assert ConservedAt(s, m) && ConservedAt(t, m);
  }
}
