/** What becomes of a post: a blocking one waits for room, any other one gets in at once at the cost of the
    oldest message, and none is lost, duplicated or overtaken by a later one of its producer. */
module AsyncPosts {
  import opened Counting
  import opened AsyncPool
  import opened AsyncInvariant
  import opened AsyncShutdown

  // ---------------------------------------------------------------- one critical section

  /** The overrun policy: the message is queued last and its producer goes on to notify, whatever the queue
      holds; the oldest message is dropped exactly when the queue was full. */
  lemma OverrunGetsIn(s: State, p: nat, m: Msg)
    requires |s.queue| <= s.cap && s.cap >= 1
    requires p < |s.producers| && s.producers[p] == Wanting(m, false)
    ensures var t := Next(s, ProducerLocks(p));
            && t.producers[p] == Notifying
            && t.queue != [] && t.queue[|t.queue| - 1] == m && t.accepted == s.accepted + [m]
            && (if |s.queue| == s.cap
                then t.queue[..|t.queue| - 1] == s.queue[1..] && t.dropped == s.dropped + [s.queue[0]]
                else t.queue[..|t.queue| - 1] == s.queue && t.dropped == s.dropped)
  {
    assert (s.queue + [m])[0] == if s.queue == [] then m else s.queue[0];
  }

  /** The blocking policy: with a full queue the producer sleeps, keeping its message, and nothing else
      changes; with room the message is queued last. */
  lemma BlockingWaitsForRoom(s: State, p: nat, m: Msg)
    requires |s.queue| <= s.cap && p < |s.producers|
    requires s.producers[p] == Wanting(m, true) || s.producers[p] == Woken(m)
    ensures var t := Next(s, ProducerLocks(p));
            if |s.queue| == s.cap then t == s.(producers := s.producers[p := Sleeping(m)])
            else t == s.(producers := s.producers[p := Notifying], queue := s.queue + [m], accepted := s.accepted + [m])
  {}

  /** A worker takes the oldest message; it sleeps only on an empty queue, and gives up when woken by time. */
  lemma DequeueTakesOrWaits(s: State, w: nat)
    requires Enabled(s, WorkerLocks(w))
    ensures var t := Next(s, WorkerLocks(w));
            if s.queue != [] then t.workers[w] == Popped(s.queue[0]) && s.queue == [s.queue[0]] + t.queue
            else t.queue == [] && t.workers[w] == if s.workers[w] == Roused(true) then Ready else Waiting
  {}

  // ---------------------------------------------------------------- runs without blocking posts

  /** No post blocks. */
  predicate Overruns(acts: seq<Action>) {
    forall i :: 0 <= i < |acts| && acts[i].Post? ==> !acts[i].block
  }

  ghost predicate NoneWaits(s: State) {
    forall p :: 0 <= p < |s.producers| ==>
      !s.producers[p].Sleeping? && !s.producers[p].Woken? && (s.producers[p].Wanting? ==> !s.producers[p].block)
  }

  lemma StepNeverWaits(s: State, a: Action)
    requires NoneWaits(s) && Enabled(s, a) && (a.Post? ==> !a.block)
    ensures NoneWaits(Next(s, a))
  {}

  /** In a run whose posts all overrun, no producer ever sleeps, however full the queue. */
  lemma {:induction false} RunNeverWaits(s: State, acts: seq<Action>)
    requires NoneWaits(s) && IsRun(s, acts) && Overruns(acts)
    ensures NoneWaits(After(s, acts))
    decreases |acts|
  {
    if acts != [] {
      StepNeverWaits(s, acts[0]);
      assert forall i :: 0 <= i < |acts[1..]| ==> acts[1..][i] == acts[i + 1];
      RunNeverWaits(Next(s, acts[0]), acts[1..]);
    }
  }

  // ---------------------------------------------------------------- no post is lost or made up

  /** The message a producer still has to get in. */
  function Pending(x: Producer): (r: seq<Msg>) {
    match x
    case Wanting(m, _) => [m]
    case Sleeping(m) => [m]
    case Woken(m) => [m]
    case _ => []
  }

  function Pends(m: Msg): Producer -> nat {
    (x: Producer) => if Pending(x) == [m] then 1 else 0
  }

  function TimesPosted(acts: seq<Action>, m: Msg): nat {
    if acts == [] then 0 else (if acts[0].Post? && acts[0].m == m then 1 else 0) + TimesPosted(acts[1..], m)
  }

  /** How often m has been accepted or is about to be. */
  function Entered(s: State, m: Msg): nat { Count(s.accepted, m) + Sum(s.producers, Pends(m)) }

  /** Nothing is posted or accepted from s to t. */
  ghost predicate SamePosts(s: State, t: State) {
    && t.accepted == s.accepted && |t.producers| == |s.producers|
    && forall p :: 0 <= p < |s.producers| ==> Pending(t.producers[p]) == Pending(s.producers[p])
  }

  /** Only posting and pushing touch what is pending or accepted. */
  lemma OthersKeepPosts(s: State, a: Action)
    requires Enabled(s, a) && !a.Post? && !a.ProducerLocks? && !a.DestructorLocks?
    ensures SamePosts(s, Next(s, a))
  {}

  lemma SleepKeepsPosts(s: State, p: nat)
    requires Enabled(s, ProducerLocks(p)) && ProducerLocked(s, p).producers[p] != Notifying
    ensures SamePosts(s, ProducerLocked(s, p))
  {}

  /** A pusher that gets in: its message goes from pending to accepted. */
  lemma PushMovesPost(s: State, p: nat)
    requires Enabled(s, ProducerLocks(p)) && ProducerLocked(s, p).producers[p] == Notifying
    ensures var t := ProducerLocked(s, p);
            t.producers == s.producers[p := Notifying] && t.accepted == s.accepted + [s.producers[p].m]
  {}

  lemma SameEntered(s: State, t: State, m: Msg)
    requires SamePosts(s, t)
    ensures Entered(t, m) == Entered(s, m)
  {
    SumSame(s.producers, t.producers, Pends(m));
  }

  lemma ProducerLockAccounts(s: State, p: nat, m: Msg)
    requires Enabled(s, ProducerLocks(p))
    ensures Entered(ProducerLocked(s, p), m) == Entered(s, m)
  {
    if ProducerLocked(s, p).producers[p] == Notifying {
      PushMovesPost(s, p);
      SumUpdate(s.producers, p, Notifying, Pends(m));
      SumAppend(s.accepted, s.producers[p].m, Is(m));
    } else {
      SleepKeepsPosts(s, p);
      SameEntered(s, ProducerLocked(s, p), m);
    }
  }

  lemma PostAccounts(s: State, p: nat, k: Msg, block: bool, m: Msg)
    requires Enabled(s, Post(p, k, block))
    ensures Entered(Next(s, Post(p, k, block)), m) == Entered(s, m) + if k == m then 1 else 0
  {
    SumUpdate(s.producers, p, Wanting(k, block), Pends(m));
  }

  lemma DestructorLockAccounts(s: State, m: Msg)
    requires Enabled(s, DestructorLocks) && !m.Terminate?
    ensures Entered(DestructorLocked(s), m) == Entered(s, m)
  {
    SumAppend(s.accepted, Terminate, Is(m));
  }

  lemma StepAccounts(s: State, a: Action, m: Msg)
    requires Enabled(s, a) && !m.Terminate?
    ensures Entered(Next(s, a), m) == Entered(s, m) + if a.Post? && a.m == m then 1 else 0
  {
    match a
    case Post(p, k, block) => PostAccounts(s, p, k, block, m);
    case ProducerLocks(p) => ProducerLockAccounts(s, p, m);
    case DestructorLocks => DestructorLockAccounts(s, m);
    case _ =>
      OthersKeepPosts(s, a);
      SameEntered(s, Next(s, a), m);
  }

  /** Every message posted is accepted as often as it was posted, except while its producer still waits. */
  lemma {:induction false} PostsAreAccepted(s: State, acts: seq<Action>, m: Msg)
    requires IsRun(s, acts) && !m.Terminate?
    ensures Entered(After(s, acts), m) == Entered(s, m) + TimesPosted(acts, m)
    decreases |acts|
  {
    if acts != [] {
      StepAccounts(s, acts[0], m);
      PostsAreAccepted(Next(s, acts[0]), acts[1..], m);
    }
  }

  // ---------------------------------------------------------------- a producer's order

  /** The members of s that are in d, in order. */
  function Picked(s: seq<Msg>, d: Msg -> bool): seq<Msg> {
    if s == [] then []
    else Picked(s[..|s| - 1], d) + if d(s[|s| - 1]) then [s[|s| - 1]] else []
  }

  lemma PickedAppend(s: seq<Msg>, m: Msg, d: Msg -> bool)
    ensures Picked(s + [m], d) == Picked(s, d) + if d(m) then [m] else []
  {
    assert (s + [m])[..|s|] == s;
  }

  /** The messages of producer p in the order it posted them. */
  function PostedBy(p: nat, acts: seq<Action>): seq<Msg> {
    if acts == [] then [] else PostOf(p, acts[0]) + PostedBy(p, acts[1..])
  }

  /** d is about producer p: it posts only messages in d, and nobody else any. */
  predicate Owns(p: nat, d: Msg -> bool, a: Action) {
    a.Post? ==> (a.p == p <==> d(a.m))
  }

  ghost predicate PendingOwned(s: State, p: nat, d: Msg -> bool) {
    p < |s.producers| && !d(Terminate)
    && forall q :: 0 <= q < |s.producers| && Pending(s.producers[q]) != [] ==>
         (q == p <==> d(Pending(s.producers[q])[0]))
  }

  /** What p has got in, and what it is about to. */
  function Mine(s: State, p: nat, d: Msg -> bool): seq<Msg>
    requires p < |s.producers|
  {
    Picked(s.accepted, d) + Pending(s.producers[p])
  }

  lemma SameMine(s: State, t: State, p: nat, d: Msg -> bool)
    requires PendingOwned(s, p, d) && SamePosts(s, t)
    ensures PendingOwned(t, p, d) && Mine(t, p, d) == Mine(s, p, d)
  {}

  lemma LockKeepsMine(s: State, p: nat, d: Msg -> bool, q: nat)
    requires PendingOwned(s, p, d) && Enabled(s, ProducerLocks(q))
    ensures PendingOwned(ProducerLocked(s, q), p, d) && Mine(ProducerLocked(s, q), p, d) == Mine(s, p, d)
  {
    if ProducerLocked(s, q).producers[q] == Notifying {
      PushMovesPost(s, q);
      assert Pending(s.producers[q]) == [s.producers[q].m];
      PickedAppend(s.accepted, s.producers[q].m, d);
    } else {
      SleepKeepsPosts(s, q);
      SameMine(s, ProducerLocked(s, q), p, d);
    }
  }

  lemma DestructorAccepts(s: State)
    requires Enabled(s, DestructorLocks)
    ensures var t := DestructorLocked(s);
            t.producers == s.producers && (t.accepted == s.accepted || t.accepted == s.accepted + [Terminate])
  {}

  lemma OthersAccepted(s: State, t: State, p: nat, d: Msg -> bool, m: Msg)
    requires PendingOwned(s, p, d) && !d(m) && t.producers == s.producers
    requires t.accepted == s.accepted || t.accepted == s.accepted + [m]
    ensures PendingOwned(t, p, d) && Mine(t, p, d) == Mine(s, p, d)
  {
    PickedAppend(s.accepted, m, d);
  }

  lemma DestructorKeepsMine(s: State, p: nat, d: Msg -> bool)
    requires PendingOwned(s, p, d) && Enabled(s, DestructorLocks)
    ensures PendingOwned(DestructorLocked(s), p, d) && Mine(DestructorLocked(s), p, d) == Mine(s, p, d)
  {
    DestructorAccepts(s);
    OthersAccepted(s, DestructorLocked(s), p, d, Terminate);
  }

  lemma PostExtendsMine(s: State, p: nat, d: Msg -> bool, q: nat, m: Msg, block: bool)
    requires PendingOwned(s, p, d) && Enabled(s, Post(q, m, block)) && (q == p <==> d(m))
    ensures var t := Next(s, Post(q, m, block));
            PendingOwned(t, p, d) && Mine(t, p, d) == Mine(s, p, d) + if q == p then [m] else []
  {}

  /** What a step adds to the posts of p. */
  function PostOf(p: nat, a: Action): seq<Msg> { if a.Post? && a.p == p then [a.m] else [] }

  lemma StepKeepsMine(s: State, p: nat, d: Msg -> bool, a: Action)
    requires PendingOwned(s, p, d) && Enabled(s, a) && Owns(p, d, a)
    ensures PendingOwned(Next(s, a), p, d) && Mine(Next(s, a), p, d) == Mine(s, p, d) + PostOf(p, a)
  {
    match a
    case Post(q, m, block) => PostExtendsMine(s, p, d, q, m, block);
    case ProducerLocks(q) => LockKeepsMine(s, p, d, q);
    case DestructorLocks => DestructorKeepsMine(s, p, d);
    case _ =>
      OthersKeepPosts(s, a);
      SameMine(s, Next(s, a), p, d);
  }

  ghost predicate AllOwn(p: nat, d: Msg -> bool, acts: seq<Action>) {
    forall i :: 0 <= i < |acts| ==> Owns(p, d, acts[i])
  }

  lemma RestOwn(p: nat, d: Msg -> bool, acts: seq<Action>)
    requires acts != [] && AllOwn(p, d, acts)
    ensures Owns(p, d, acts[0]) && AllOwn(p, d, acts[1..])
  {}

  lemma Regrouped(a: seq<Msg>, b: seq<Msg>, c: seq<Msg>)
    ensures (a + b) + c == a + (b + c) && a + [] == a
  {}

  /** The messages of one producer are accepted in the order it posted them: what is accepted of them and
      the one it waits with are what there was and what it posted since. */
  lemma {:induction false} ProducerOrderIsKept(s: State, p: nat, d: Msg -> bool, acts: seq<Action>)
    requires PendingOwned(s, p, d) && IsRun(s, acts) && AllOwn(p, d, acts)
    ensures PendingOwned(After(s, acts), p, d)
    ensures Mine(After(s, acts), p, d) == Mine(s, p, d) + PostedBy(p, acts)
    decreases |acts|
  {
    if acts == [] {
      Regrouped(Mine(s, p, d), [], []);
    } else {
      RestOwn(p, d, acts);
      StepKeepsMine(s, p, d, acts[0]);
      ProducerOrderIsKept(Next(s, acts[0]), p, d, acts[1..]);
      Regrouped(Mine(s, p, d), PostOf(p, acts[0]), PostedBy(p, acts[1..]));
    }
  }

  // ---------------------------------------------------------------- what stays possible

  /** While its creator holds the pool, an idle producer can post; when the creator has let go and no post is
      in progress, the destructor can start. */
  lemma OwnersDecide(s: State, p: nat, m: Msg, block: bool)
    requires Inv(s) && p < |s.producers| && s.producers[p].Idle? && !m.Terminate?
    ensures s.held ==> Enabled(s, Post(p, m, block))
    ensures Enabled(s, DestructorStarts)
            <==> s.dtor.NotStarted? && !s.held && forall q :: 0 <= q < |s.producers| ==> s.producers[q].Idle?
  {
    SumIsZero(s.producers, ProducerPosting);
  }

  // ---------------------------------------------------------------- the pool's size

  /** A pool is refused exactly unless it has 1 to 1000 workers; otherwise it keeps the number of workers
      and the capacity asked for, and its queue never exceeds it. */
  lemma PoolIsAsAsked(cap: nat, threads: nat, producers: nat, acts: seq<Action>)
    ensures Create(cap, threads, producers).InvalidThreads? <==> !(1 <= threads <= 1000)
    ensures 1 <= threads <= 1000 && IsRun(Create(cap, threads, producers).s, acts) ==>
              var t := After(Create(cap, threads, producers).s, acts);
              |t.workers| == threads && |t.queue| <= cap
  {
    if 1 <= threads <= 1000 && IsRun(Create(cap, threads, producers).s, acts) {
      InitialInv(cap, threads, producers);
      RunKeepsInv(Create(cap, threads, producers).s, acts);
      CapacityIsFixed(Create(cap, threads, producers).s, acts);
    }
  }
}
