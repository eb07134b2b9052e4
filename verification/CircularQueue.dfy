/** The ring buffer under the message queue: one spare cell tells full from empty, and a push into a
    full buffer drops the oldest item. */
module CircularQueue {

  /** A push into a bounded queue that makes room by dropping the oldest item. */
  function Pushed<T>(q: seq<T>, capacity: nat, x: T): (r: seq<T>)
    ensures |q| < capacity ==> r == q + [x]
    ensures |q| == capacity ==> |r| == capacity
  {
    if |q| < capacity then q + [x] else (q + [x])[1..]
  }

  /** The cells from `head` up to but not including `tail`, going around the end. */
  ghost function Cells<T>(v: seq<T>, head: nat, tail: nat): (r: seq<T>)
    requires head < |v| && tail < |v|
    ensures |r| == if head <= tail then tail - head else |v| - head + tail
    ensures forall i :: 0 <= i < |r| ==> r[i] == v[if head + i < |v| then head + i else head + i - |v|]
  {
    if head <= tail then v[head..tail] else v[head..] + v[..tail]
  }

  function Next(i: nat, n: nat): nat {
    if i + 1 == n then 0 else i + 1
  }

  lemma NextIsModulo(i: nat, n: nat)
    requires i < n
    ensures (i + 1) % n == Next(i, n)
  {
    if i + 1 < n { SmallModulo(i + 1, n); }
  }

  lemma SmallModulo(i: nat, n: nat)
    requires i < n
    ensures i % n == i
  {}

  lemma FirstCell<T>(v: seq<T>, head: nat, tail: nat)
    requires head < |v| && tail < |v| && head != tail
    ensures Cells(v, head, tail) == [v[head]] + Cells(v, Next(head, |v|), tail)
  {}

  lemma OneMoreCell<T>(v: seq<T>, head: nat, tail: nat, item: T)
    requires head < |v| && tail < |v| && Next(tail, |v|) != head
    ensures Cells(v[tail := item], head, Next(tail, |v|)) == Cells(v, head, tail) + [item]
  {}

  lemma OverrunCell<T>(v: seq<T>, head: nat, tail: nat, item: T)
    requires head < |v| && tail < |v| && Next(tail, |v|) == head
    ensures Cells(v[tail := item], Next(head, |v|), head) == (Cells(v, head, tail) + [item])[1..]
  {
    if |v| == 1 {
      assert Cells(v[tail := item], Next(head, |v|), head) == [];
    } else {
      var v' := v[tail := item];
      var l, r := Cells(v', Next(head, |v|), head), (Cells(v, head, tail) + [item])[1..];
      assert |l| == |r| == |v| - 1;
      assert forall i :: 0 <= i < |r| ==> l[i] == r[i];
    }
  }

  class CircularQ<T(0)> {
    const maxItems: nat
    const v: array<T>
    var head: nat
    var tail: nat
    var overrunCounter: nat

    ghost predicate Valid()
      reads this
    {
      maxItems > 0 && v.Length == maxItems && head < maxItems && tail < maxItems
    }

    ghost function Capacity(): nat
      requires maxItems > 0
    {
      maxItems - 1
    }

    /** The items from the oldest to the newest. */
    ghost function Contents(): seq<T>
      reads this, v
      requires Valid()
    {
      Cells(v[..], head, tail)
    }

    constructor (capacity: nat)
      ensures Valid() && fresh(v) && Capacity() == capacity && Contents() == [] && overrunCounter == 0
    {
      maxItems := capacity + 1;
      v := new T[capacity + 1];
      head, tail, overrunCounter := 0, 0, 0;
    }

    method PushBack(item: T)
      requires Valid()
      modifies this`head, this`tail, this`overrunCounter, v
      ensures Valid() && Contents() == Pushed(old(Contents()), Capacity(), item)
      ensures overrunCounter == old(overrunCounter) + if |old(Contents())| == Capacity() then 1 else 0
    {
      ghost var was := v[..];
      v[tail] := item;
      assert v[..] == was[tail := item];
      NextIsModulo(tail, maxItems);
      tail := (tail + 1) % maxItems;
      if tail == head {
        OverrunCell(was, head, old(tail), item);
        NextIsModulo(head, maxItems);
        head := (head + 1) % maxItems;
        overrunCounter := overrunCounter + 1;
      } else {
        OneMoreCell(was, head, old(tail), item);
      }
    }

    /** Popping an empty buffer is undefined. */
    method PopFront() returns (item: T)
      requires Valid() && Contents() != []
      modifies this`head
      ensures Valid() && [item] + Contents() == old(Contents())
    {
      item := v[head];
      FirstCell(v[..], head, tail);
      NextIsModulo(head, maxItems);
      head := (head + 1) % maxItems;
    }

    method Empty() returns (r: bool)
      requires Valid()
      ensures r <==> Contents() == []
    {
      r := tail == head;
    }

    method Full() returns (r: bool)
      requires Valid()
      ensures r <==> |Contents()| == Capacity()
    {
      NextIsModulo(tail, maxItems);
      r := (tail + 1) % maxItems == head;
    }
  }

  // ---------------------------------------------------------------- whole runs

  datatype Op<T> = Push(x: T) | Pop

  /** What a run has done: the contents, everything pushed, the positions of the pops, the overruns. */
  datatype History<T> = History(contents: seq<T>, pushed: seq<T>, poppedAt: seq<nat>, overruns: nat)

  function Step<T>(h: History<T>, op: Op<T>, capacity: nat): History<T>
    requires op.Pop? ==> h.contents != [] && |h.contents| <= |h.pushed|
  {
    match op
    case Push(x) =>
      History(Pushed(h.contents, capacity, x), h.pushed + [x], h.poppedAt,
              if |h.contents| == capacity then h.overruns + 1 else h.overruns)
    case Pop =>
      History(h.contents[1..], h.pushed, h.poppedAt + [|h.pushed| - |h.contents|], h.overruns)
  }

  /** The contents are the newest items, the pops went through the older ones in order, and every item
      is either popped, still there, or counted as overrun. */
  ghost predicate Consistent<T>(h: History<T>, capacity: nat) {
    && |h.contents| <= capacity && |h.contents| <= |h.pushed|
    && h.contents == h.pushed[|h.pushed| - |h.contents|..]
    && |h.pushed| == |h.poppedAt| + |h.contents| + h.overruns
    && (forall i :: 0 <= i < |h.poppedAt| ==> h.poppedAt[i] < |h.pushed| - |h.contents|)
    && (forall i, j :: 0 <= i < j < |h.poppedAt| ==> h.poppedAt[i] < h.poppedAt[j])
  }

  function Run<T>(h: History<T>, ops: seq<Op<T>>, capacity: nat): (r: History<T>)
    requires LegalPops(h, ops, capacity)
    decreases |ops|
  {
    if ops == [] then h else Run(Step(h, ops[0], capacity), ops[1..], capacity)
  }

  predicate LegalPops<T>(h: History<T>, ops: seq<Op<T>>, capacity: nat)
    decreases |ops|
  {
    ops == [] ||
    ((ops[0].Pop? ==> h.contents != [] && |h.contents| <= |h.pushed|)
     && LegalPops(Step(h, ops[0], capacity), ops[1..], capacity))
  }

  lemma StepConsistent<T>(h: History<T>, op: Op<T>, capacity: nat)
    requires Consistent(h, capacity) && (op.Pop? ==> h.contents != [])
    ensures Consistent(Step(h, op, capacity), capacity)
  {
    if op.Push? {
      var p := h.pushed + [op.x];
      assert h.contents + [op.x] == p[|h.pushed| - |h.contents|..];
    }
  }

  /** From an empty buffer, any pushes and legal pops leave a consistent history. */
  lemma {:induction false} RunConsistent<T>(h: History<T>, ops: seq<Op<T>>, capacity: nat)
    requires Consistent(h, capacity) && LegalPops(h, ops, capacity)
    ensures Consistent(Run(h, ops, capacity), capacity)
    decreases |ops|
  {
    if ops != [] {
      StepConsistent(h, ops[0], capacity);
      RunConsistent(Step(h, ops[0], capacity), ops[1..], capacity);
    }
  }

  /** A run whose pushes find room loses nothing: the k-th pop takes the k-th item pushed. */
  lemma {:induction false} NoOverrunIsFifo<T>(h: History<T>, ops: seq<Op<T>>, capacity: nat)
    requires Consistent(h, capacity) && LegalPops(h, ops, capacity) && h.overruns == 0
             && PushesFindRoom(h, ops, capacity)
    ensures var r := Run(h, ops, capacity);
            r.overruns == 0 && |r.poppedAt| <= |r.pushed| && r.contents == r.pushed[|r.poppedAt|..]
            && forall i :: 0 <= i < |r.poppedAt| ==> r.poppedAt[i] == i
    decreases |ops|
  {
    if ops == [] {
      CountedUp(h.poppedAt, |h.pushed| - |h.contents|);
    } else {
      StepConsistent(h, ops[0], capacity);
      NoOverrunIsFifo(Step(h, ops[0], capacity), ops[1..], capacity);
    }
  }

  predicate PushesFindRoom<T>(h: History<T>, ops: seq<Op<T>>, capacity: nat)
    requires LegalPops(h, ops, capacity)
    decreases |ops|
  {
    ops == [] ||
    ((ops[0].Push? ==> |h.contents| < capacity) && PushesFindRoom(Step(h, ops[0], capacity), ops[1..], capacity))
  }

  // n increasing numbers below n are 0, 1, 2, ...
  lemma {:induction false} CountedUp(a: seq<nat>, n: nat)
    requires |a| == n && (forall i :: 0 <= i < n ==> a[i] < n) && (forall i, j :: 0 <= i < j < n ==> a[i] < a[j])
    ensures forall i :: 0 <= i < n ==> a[i] == i
  {
    if n > 0 {
      assert forall i :: 0 <= i < n - 1 ==> a[..n - 1][i] == a[i] < a[n - 1];
      CountedUp(a[..n - 1], n - 1);
      assert n > 1 ==> a[n - 2] == a[..n - 1][n - 2];
    }
  }
}
