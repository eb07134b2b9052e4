/** The asynchronous pipeline as a state machine: producers post through a bounded queue guarded by one
    mutex and two condition variables, workers drain it, and the pool's destructor asks every worker to
    terminate and joins it. A step is one critical section, one notification after unlocking, one wake-up
    (by time or for no reason), or the processing of one message. */
module AsyncPool {
  import CircularQueue
  import opened Counting

  datatype Msg = Log(id: nat) | Flush(id: nat) | Terminate

  datatype Producer =
    | Idle
    | Wanting(m: Msg, block: bool)
    | Sleeping(m: Msg)
    | Woken(m: Msg)
    | Notifying

  /** A worker woken with `timedOut` gives up its wait when it finds the queue empty. */
  datatype Worker =
    | Ready
    | Waiting
    | Roused(timedOut: bool)
    | Popped(m: Msg)
    | Busy(m: Msg)
    | Exited

  /** The destructor; `left` terminate messages are still to be pushed. */
  datatype Destructor =
    | NotStarted
    | Posting(left: nat)
    | Blocked(left: nat)
    | Unblocked(left: nat)
    | Announcing(left: nat)
    | Joining(joined: nat)

  /** The messages accepted, taken by workers, processed and dropped are kept in the order in which that happened.
      `owners` counts the shared pointers to the pool: its creator's, while `held`, and one locked from
      a weak pointer for each post in progress. */
  datatype State = State(
    cap: nat, queue: seq<Msg>,
    producers: seq<Producer>, workers: seq<Worker>, dtor: Destructor, held: bool, owners: int,
    accepted: seq<Msg>, taken: seq<Msg>, processed: seq<Msg>, dropped: seq<Msg>)

  datatype Target = NoOne | ToWorker(w: nat) | ToProducer(p: nat) | ToDestructor

  datatype Action =
    | Post(p: nat, m: Msg, block: bool)
    | ProducerLocks(p: nat)
    | ProducerWakes(p: nat)
    | ProducerNotifies(p: nat, target: Target)
    | WorkerLocks(w: nat)
    | WorkerWakes(w: nat, timedOut: bool)
    | WorkerNotifies(w: nat, target: Target)
    | WorkerProcesses(w: nat)
    | CreatorReleases
    | DestructorStarts
    | DestructorLocks
    | DestructorWakes
    | DestructorNotifies(target: Target)
    | DestructorJoins

  // ---------------------------------------------------------------- counts

  function WorkerWaits(w: Worker): nat { if w.Waiting? then 1 else 0 }
  function WorkerRoused(w: Worker): nat { if w.Roused? then 1 else 0 }
  function WorkerPopped(w: Worker): nat { if w.Popped? then 1 else 0 }
  function WorkerExited(w: Worker): nat { if w.Exited? then 1 else 0 }
  function ProducerSleeps(p: Producer): nat { if p.Sleeping? then 1 else 0 }
  function ProducerWoken(p: Producer): nat { if p.Woken? then 1 else 0 }
  function ProducerPosting(p: Producer): nat { if p.Idle? then 0 else 1 }
  function ProducerNotifying(p: Producer): nat { if p.Notifying? then 1 else 0 }

  function Holds(m: Msg): Worker -> nat {
    (w: Worker) => if w == Popped(m) || w == Busy(m) then 1 else 0
  }

  function Is(m: Msg): Msg -> nat {
    (x: Msg) => if x == m then 1 else 0
  }

  function Count(s: seq<Msg>, m: Msg): nat { Sum(s, Is(m)) }

  function SleepingWorkers(s: State): nat { Sum(s.workers, WorkerWaits) }

  function SleepingPushers(s: State): nat {
    Sum(s.producers, ProducerSleeps) + if s.dtor.Blocked? then 1 else 0
  }

  /** What may still take an item without a new notification: push notifications to come, workers awake. */
  function PushTokens(s: State): nat {
    Sum(s.producers, ProducerNotifying) + Sum(s.workers, WorkerRoused) + if s.dtor.Announcing? then 1 else 0
  }

  function PopTokens(s: State): nat {
    Sum(s.workers, WorkerPopped) + Sum(s.producers, ProducerWoken) + if s.dtor.Unblocked? then 1 else 0
  }

  function Left(d: Destructor): nat {
    match d
    case Posting(n) => n
    case Blocked(n) => n
    case Unblocked(n) => n
    case Announcing(n) => n
    case _ => 0
  }

  // ---------------------------------------------------------------- steps

  /** A pool is refused unless it has 1 to 1000 workers. */
  datatype Creation = Created(s: State) | InvalidThreads

  function Create(cap: nat, threads: nat, producers: nat): Creation {
    if threads == 0 || threads > 1000 then InvalidThreads
    else Created(State(cap, [], seq(producers, _ => Idle), seq(threads, _ => Ready), NotStarted, true, 1,
                       [], [], [], []))
  }

  /** A notification wakes one sleeper of the right kind, and is lost only if there is none. */
  predicate PushTarget(s: State, t: Target) {
    match t
    case NoOne => SleepingWorkers(s) == 0
    case ToWorker(w) => w < |s.workers| && s.workers[w].Waiting?
    case _ => false
  }

  predicate PopTarget(s: State, t: Target) {
    match t
    case NoOne => SleepingPushers(s) == 0
    case ToProducer(p) => p < |s.producers| && s.producers[p].Sleeping?
    case ToDestructor => s.dtor.Blocked?
    case _ => false
  }

  /** A post starts by locking the weak pointer, which fails once no owner is left (the logger then throws,
      and nothing changes here); the destructor starts when the last owner has gone. */
  predicate Enabled(s: State, a: Action) {
    match a
    case Post(p, m, _) => p < |s.producers| && s.producers[p].Idle? && s.owners > 0 && !m.Terminate?
    case ProducerLocks(p) => p < |s.producers| && (s.producers[p].Wanting? || s.producers[p].Woken?)
    case ProducerWakes(p) => p < |s.producers| && s.producers[p].Sleeping?
    case ProducerNotifies(p, t) => p < |s.producers| && s.producers[p].Notifying? && PushTarget(s, t)
    case WorkerLocks(w) => w < |s.workers| && (s.workers[w].Ready? || s.workers[w].Roused?)
    case WorkerWakes(w, _) => w < |s.workers| && s.workers[w].Waiting?
    case WorkerNotifies(w, t) => w < |s.workers| && s.workers[w].Popped? && PopTarget(s, t)
    case WorkerProcesses(w) => w < |s.workers| && s.workers[w].Busy?
    case CreatorReleases => s.held
    case DestructorStarts => s.dtor.NotStarted? && s.owners == 0
    case DestructorLocks => s.dtor.Posting? || s.dtor.Unblocked?
    case DestructorWakes => s.dtor.Blocked?
    case DestructorNotifies(t) => s.dtor.Announcing? && PushTarget(s, t)
    case DestructorJoins => s.dtor.Joining? && s.dtor.joined < |s.workers| && s.workers[s.dtor.joined].Exited?
  }

  function WithProducer(s: State, p: nat, x: Producer): State
    requires p < |s.producers|
  {
    s.(producers := s.producers[p := x])
  }

  function WithWorker(s: State, w: nat, x: Worker): State
    requires w < |s.workers|
  {
    s.(workers := s.workers[w := x])
  }

  function Push(s: State, m: Msg): State {
    s.(queue := CircularQueue.Pushed(s.queue, s.cap, m), accepted := s.accepted + [m],
       dropped := if |s.queue| < s.cap then s.dropped else s.dropped + [(s.queue + [m])[0]])
  }

  function PushNotified(s: State, t: Target): State
    requires PushTarget(s, t)
  {
    if t.NoOne? then s else WithWorker(s, t.w, Roused(false))
  }

  function PopNotified(s: State, t: Target): State
    requires PopTarget(s, t)
  {
    match t
    case NoOne => s
    case ToProducer(p) => WithProducer(s, p, Woken(s.producers[p].m))
    case ToDestructor => s.(dtor := Unblocked(s.dtor.left))
  }

  /** One critical section of `enqueue` or `enqueue_nowait`: a blocking push sleeps on a full queue, the
      other one drops the oldest item. */
  function ProducerLocked(s: State, p: nat): State
    requires Enabled(s, ProducerLocks(p))
  {
    var x := s.producers[p];
    if (x.Woken? || x.block) && |s.queue| >= s.cap then WithProducer(s, p, Sleeping(x.m))
    else WithProducer(Push(s, x.m), p, Notifying)
  }

  /** One critical section of `dequeue_for`. */
  function WorkerLocked(s: State, w: nat): State
    requires Enabled(s, WorkerLocks(w))
  {
    if s.queue == [] then WithWorker(s, w, if s.workers[w] == Roused(true) then Ready else Waiting)
    else WithWorker(s.(queue := s.queue[1..], taken := s.taken + [s.queue[0]]), w, Popped(s.queue[0]))
  }

  function DestructorLocked(s: State): State
    requires Enabled(s, DestructorLocks)
  {
    if s.dtor.left == 0 then s.(dtor := Joining(0))
    else if |s.queue| >= s.cap then s.(dtor := Blocked(s.dtor.left))
    else DestructorPushed(s)
  }

  function DestructorPushed(s: State): State
    requires Left(s.dtor) > 0
  {
    Push(s, Terminate).(dtor := Announcing(Left(s.dtor) - 1))
  }

  function Next(s: State, a: Action): State
    requires Enabled(s, a)
  {
    match a
    case Post(p, m, block) => WithProducer(s, p, Wanting(m, block)).(owners := s.owners + 1)
    case ProducerLocks(p) => ProducerLocked(s, p)
    case ProducerWakes(p) => WithProducer(s, p, Woken(s.producers[p].m))
    case ProducerNotifies(p, t) => WithProducer(PushNotified(s, t), p, Idle).(owners := s.owners - 1)
    case WorkerLocks(w) => WorkerLocked(s, w)
    case WorkerWakes(w, timedOut) => WithWorker(s, w, Roused(timedOut))
    case WorkerNotifies(w, t) => WithWorker(PopNotified(s, t), w, Busy(s.workers[w].m))
    case WorkerProcesses(w) =>
      var m := s.workers[w].m;
      WithWorker(s.(processed := s.processed + [m]), w, if m.Terminate? then Exited else Ready)
    case CreatorReleases => s.(held := false, owners := s.owners - 1)
    case DestructorStarts => s.(dtor := Posting(|s.workers|))
    case DestructorLocks => DestructorLocked(s)
    case DestructorWakes => s.(dtor := Unblocked(s.dtor.left))
    case DestructorNotifies(t) => PushNotified(s, t).(dtor := Posting(s.dtor.left))
    case DestructorJoins => s.(dtor := Joining(s.dtor.joined + 1))
  }

  predicate IsRun(s: State, acts: seq<Action>)
    decreases |acts|
  {
    acts == [] || (Enabled(s, acts[0]) && IsRun(Next(s, acts[0]), acts[1..]))
  }

  function After(s: State, acts: seq<Action>): State
    requires IsRun(s, acts)
    decreases |acts|
  {
    if acts == [] then s else After(Next(s, acts[0]), acts[1..])
  }

  // ---------------------------------------------------------------- invariants

  /** No wake-up is lost: a waiting worker means every queued item has somebody coming for it, and a
      waiting pusher means every free slot does. */
  ghost predicate NoLostWakeup(s: State) {
    && (SleepingWorkers(s) > 0 ==> |s.queue| <= PushTokens(s))
    && (SleepingPushers(s) > 0 ==> s.cap <= |s.queue| + PopTokens(s))
  }

  /** Every message accepted is in exactly one place. */
  ghost predicate Conserved(s: State) {
    forall m :: ConservedAt(s, m)
  }

  ghost predicate ConservedAt(s: State, m: Msg) {
    Count(s.accepted, m) == Count(s.processed, m) + Count(s.dropped, m) + Sum(s.workers, Holds(m)) + Count(s.queue, m)
  }

  /** Terminate messages: none before the destructor, then one for each worker; each makes one worker exit. */
  ghost predicate Counted(s: State) {
    && Count(s.accepted, Terminate) + Left(s.dtor) == (if s.dtor.NotStarted? then 0 else |s.workers|)
    && Count(s.dropped, Terminate) == 0
    && Count(s.processed, Terminate) == Sum(s.workers, WorkerExited)
    && (s.cap == 0 ==> Count(s.accepted, Terminate) == 0)
  }

  predicate PostsNoTerminate(p: Producer) {
    match p
    case Wanting(m, _) => !m.Terminate?
    case Sleeping(m) => !m.Terminate?
    case Woken(m) => !m.Terminate?
    case _ => true
  }

  /** No caller posts a terminate message, and none posts once the destructor runs. */
  ghost predicate PostsOver(s: State) {
    && (forall p :: 0 <= p < |s.producers| ==> PostsNoTerminate(s.producers[p]))
    && (!s.dtor.NotStarted? ==> forall p :: 0 <= p < |s.producers| ==> s.producers[p].Idle?)
  }

  /** Behind a terminate message there are only terminate messages. */
  ghost predicate Ordered(s: State) {
    && (forall i, j :: 0 <= i < j < |s.queue| && s.queue[i].Terminate? ==> s.queue[j].Terminate?)
    && (Sum(s.workers, Holds(Terminate)) + Sum(s.workers, WorkerExited) > 0 ==>
          forall i :: 0 <= i < |s.queue| ==> s.queue[i].Terminate?)
  }

  /** The owners are the creator and the posts in progress, and none is left once the destructor runs. */
  ghost predicate Owned(s: State) {
    && s.owners == Sum(s.producers, ProducerPosting) + (if s.held then 1 else 0)
    && (!s.dtor.NotStarted? ==> s.owners == 0)
  }

  ghost predicate Shaped(s: State) {
    && |s.workers| >= 1 && |s.queue| <= s.cap
    && (s.dtor.Joining? ==> s.dtor.joined <= |s.workers| && forall i :: 0 <= i < s.dtor.joined ==> s.workers[i].Exited?)
    && (s.dtor.Blocked? || s.dtor.Unblocked? ==> s.dtor.left > 0)
  }

  ghost predicate Inv(s: State) {
    Shaped(s) && Owned(s) && NoLostWakeup(s) && Conserved(s) && Counted(s) && PostsOver(s) && Ordered(s)
  }
}
