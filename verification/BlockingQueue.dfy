/**
 spdlog's mpmc_blocking_queue. Every operation is one critical section, so an
 interleaving of producers and consumers is a sequence of atomic steps; a wait
 on a condition variable is a step that is enabled only when its predicate holds.
 */
module BlockingQueue {
  import opened CircularQueue

  datatype Removal<T> = Popped(item: T) | Overrun(item: T)

  /** What has gone through the queue so far; counters keep the resets, too. */
  datatype History<T> = History(
    pushed: seq<T>, removed: seq<Removal<T>>,
    offers: nat, accepted: nat, clearedOverruns: nat, clearedDiscards: nat)

  datatype Queue<T> = Queue(
    capacity: nat, items: seq<T>, overruns: nat, discards: nat, history: History<T>)

  datatype Op<T> =
    | Enqueue(item: T)
    | EnqueueNowait(item: T)
    | EnqueueIfHaveRoom(item: T)
    | Dequeue
    | DequeueTimeout
    | ResetOverruns
    | ResetDiscards

  ghost predicate Enabled<T>(q: Queue<T>, op: Op<T>) {
    match op
    case Enqueue(_) => |q.items| != q.capacity
    case Dequeue => q.items != []
    case DequeueTimeout => q.items == []
    case _ => true
  }

  ghost function Pushed<T>(q: Queue<T>, item: T): Queue<T> {
    var h := q.history;
    q.(items := Appended(q.items, q.capacity, item),
       overruns := q.overruns + if |q.items| == q.capacity then 1 else 0,
       history := h.(pushed := h.pushed + [item],
                     removed := h.removed + if |q.items| == q.capacity then [Overrun((q.items + [item])[0])] else []))
  }

  ghost function Step<T>(q: Queue<T>, op: Op<T>): Queue<T>
    requires Enabled(q, op)
  {
    var h := q.history;
    match op
    case Enqueue(item) => Pushed(q, item)
    case EnqueueNowait(item) => Pushed(q, item)
    case EnqueueIfHaveRoom(item) =>
      var q' := q.(history := h.(offers := h.offers + 1));
      if |q.items| != q.capacity then
        Pushed(q'.(history := q'.history.(accepted := h.accepted + 1)), item)
      else q'.(discards := q.discards + 1)
    case Dequeue =>
      q.(items := q.items[1..], history := h.(removed := h.removed + [Popped(q.items[0])]))
    case DequeueTimeout => q
    case ResetOverruns =>
      q.(overruns := 0, history := h.(clearedOverruns := h.clearedOverruns + q.overruns))
    case ResetDiscards =>
      q.(discards := 0, history := h.(clearedDiscards := h.clearedDiscards + q.discards))
  }

  ghost function New<T>(capacity: nat): Queue<T> {
    Queue(capacity, [], 0, 0, History([], [], 0, 0, 0, 0))
  }

  ghost predicate Allowed<T>(q: Queue<T>, ops: seq<Op<T>>)
    decreases |ops|
  {
    ops == [] || (Enabled(q, ops[0]) && Allowed(Step(q, ops[0]), ops[1..]))
  }

  ghost function Run<T>(q: Queue<T>, ops: seq<Op<T>>): Queue<T>
    requires Allowed(q, ops)
    decreases |ops|
  {
    if ops == [] then q else Run(Step(q, ops[0]), ops[1..])
  }

  // ---------- order and counting over every interleaving ----------

  ghost function Items<T>(removed: seq<Removal<T>>): seq<T> {
    if removed == [] then []
    else Items(removed[..|removed| - 1]) + [removed[|removed| - 1].item]
  }

  /** The values the consumers got, in order. */
  ghost function Pops<T>(removed: seq<Removal<T>>): seq<T> {
    if removed == [] then []
    else
      var last := removed[|removed| - 1];
      Pops(removed[..|removed| - 1]) + if last.Popped? then [last.item] else []
  }

  ghost predicate Consistent<T>(q: Queue<T>) {
    var h := q.history;
    && |q.items| <= q.capacity
    && Items(h.removed) + q.items == h.pushed
    && |h.pushed| == |Pops(h.removed)| + |q.items| + q.overruns + h.clearedOverruns
    && h.offers == h.accepted + q.discards + h.clearedDiscards
  }

  lemma RemoveOne<T>(removed: seq<Removal<T>>, r: Removal<T>)
    ensures Items(removed + [r]) == Items(removed) + [r.item]
    ensures Pops(removed + [r]) == Pops(removed) + if r.Popped? then [r.item] else []
  {
    assert (removed + [r])[..|removed|] == removed;
  }

  lemma PushedConsistent<T>(q: Queue<T>, item: T)
    requires Consistent(q)
    ensures Consistent(Pushed(q, item))
  {
    var h := q.history;
    assert h.removed + [] == h.removed;
    RemoveOne(h.removed, Overrun((q.items + [item])[0]));
  }

  lemma StepConsistent<T>(q: Queue<T>, op: Op<T>)
    requires Consistent(q) && Enabled(q, op)
    ensures Consistent(Step(q, op)) && Step(q, op).capacity == q.capacity
  {
    var h := q.history;
    match op
    case Enqueue(item) => PushedConsistent(q, item);
    case EnqueueNowait(item) => PushedConsistent(q, item);
    case EnqueueIfHaveRoom(item) =>
      if |q.items| != q.capacity {
        PushedConsistent(q.(history := h.(offers := h.offers + 1, accepted := h.accepted + 1)), item);
      }
    case Dequeue => RemoveOne(h.removed, Popped(q.items[0]));
    case _ =>
  }

  lemma {:induction false} RunConsistent<T>(q: Queue<T>, ops: seq<Op<T>>)
    requires Consistent(q) && Allowed(q, ops)
    ensures Consistent(Run(q, ops)) && Run(q, ops).capacity == q.capacity
    decreases |ops|
  {
    if ops != [] {
      StepConsistent(q, ops[0]);
      RunConsistent(Step(q, ops[0]), ops[1..]);
    }
  }

  /** Items leave in the order they came, and pushes, pops, overruns, offers and discards balance. */
  lemma FifoAndBalanced<T>(capacity: nat, ops: seq<Op<T>>)
    requires Allowed(New(capacity), ops)
    ensures Consistent(Run(New(capacity), ops))
  {
    RunConsistent(New(capacity), ops);
  }

  /** A blocking or a conditional enqueue never overwrites: what was stored stays stored. */
  lemma EnqueueNeverOverwrites<T>(q: Queue<T>, op: Op<T>)
    requires Consistent(q) && Enabled(q, op) && (op.Enqueue? || op.EnqueueIfHaveRoom?)
    ensures q.items <= Step(q, op).items && Step(q, op).overruns == q.overruns
    ensures op.Enqueue? ==> Step(q, op).items == q.items + [op.item]
  {
  }

  /** enqueue_if_have_room stores the item exactly when there is room, and else counts a discard. */
  lemma RoomDecides<T>(q: Queue<T>, item: T)
    requires Consistent(q)
    ensures var t := Step(q, EnqueueIfHaveRoom(item));
            && t.overruns == q.overruns
            && (|q.items| < q.capacity ==> t.items == q.items + [item] && t.discards == q.discards)
            && (|q.items| == q.capacity ==> t.items == q.items && t.discards == q.discards + 1)
  {
  }

  /** enqueue_nowait drops the oldest item, and counts it, exactly when there is no room. */
  lemma NowaitOverruns<T>(q: Queue<T>, item: T)
    requires Consistent(q)
    ensures var t := Step(q, EnqueueNowait(item));
            && t.discards == q.discards
            && (|q.items| < q.capacity ==> t.items == q.items + [item] && t.overruns == q.overruns)
            && (|q.items| == q.capacity ==> t.items == (q.items + [item])[1..] && t.overruns == q.overruns + 1)
  {
  }

  ghost predicate NoOverrun<T>(ops: seq<Op<T>>) {
    forall op <- ops :: !op.EnqueueNowait?
  }

  lemma {:induction false} RunWithoutOverrun<T>(q: Queue<T>, ops: seq<Op<T>>)
    requires Consistent(q) && Allowed(q, ops) && NoOverrun(ops)
    requires Pops(q.history.removed) == Items(q.history.removed)
    ensures Pops(Run(q, ops).history.removed) == Items(Run(q, ops).history.removed)
    decreases |ops|
  {
    if ops != [] {
      var op := ops[0];
      StepConsistent(q, op);
      if op.Dequeue? {
        RemoveOne(q.history.removed, Popped(q.items[0]));
      } else {
        assert q.history.removed + [] == q.history.removed;
      }
      RunWithoutOverrun(Step(q, op), ops[1..]);
    }
  }

  /** Without enqueue_nowait the consumers get every pushed item, in order, and the rest is still queued. */
  lemma NothingLostWithoutOverrun<T>(capacity: nat, ops: seq<Op<T>>)
    requires Allowed(New(capacity), ops) && NoOverrun(ops)
    ensures var q := Run(New(capacity), ops);
            Pops(q.history.removed) + q.items == q.history.pushed
  {
    RunConsistent(New(capacity), ops);
    RunWithoutOverrun(New(capacity), ops);
  }

  // ---------- the class ----------

  class MpmcBlockingQueue<T(0)> {
    var q: CircularQ<T>
    var discardCounter: nat
    ghost var history: History<T>

    ghost predicate Valid()
      reads this, q
    {
      q.Valid() && q.maxItems > 0
    }

    ghost function Abs(): Queue<T>
      requires Valid()
      reads this, q, q.v
    {
      Queue(q.Capacity(), q.Contents(), q.overrunCounter, discardCounter, history)
    }

    constructor (maxItems: nat)
      ensures Valid() && fresh(q) && fresh(q.v) && Abs() == New(maxItems)
    {
      q := new CircularQ(maxItems);
      discardCounter := 0;
      history := History([], [], 0, 0, 0, 0);
    }

    method Push(item: T)
      requires Valid()
      modifies this`history, q, q.v
      ensures Valid() && q == old(q) && q.v == old(q.v)
      ensures Abs() == Pushed(old(Abs()), item)
    {
      ghost var full := |q.Contents()| == q.Capacity();
      history := history.(pushed := history.pushed + [item],
                          removed := history.removed +
                            if full then [Overrun((q.Contents() + [item])[0])] else []);
      q.PushBack(item);
    }

    /** The guard is the predicate pop_cv waits for. */
    method Enqueue(item: T)
      requires Valid() && Enabled(Abs(), Op.Enqueue(item))
      modifies this, q, q.v
      ensures Valid() && q == old(q) && q.v == old(q.v)
      ensures Abs() == Step(old(Abs()), Op.Enqueue(item))
    {
      Push(item);
    }

    method EnqueueNowait(item: T)
      requires Valid()
      modifies this, q, q.v
      ensures Valid() && q == old(q) && q.v == old(q.v)
      ensures Abs() == Step(old(Abs()), Op.EnqueueNowait(item))
    {
      Push(item);
    }

    method EnqueueIfHaveRoom(item: T)
      requires Valid()
      modifies this, q, q.v
      ensures Valid() && q == old(q) && q.v == old(q.v)
      ensures Abs() == Step(old(Abs()), Op.EnqueueIfHaveRoom(item))
    {
      history := history.(offers := history.offers + 1);
      var pushed := false;
      var full := q.Full();
      if !full {
        history := history.(accepted := history.accepted + 1);
        Push(item);
        pushed := true;
      }
      if !pushed {
        discardCounter := discardCounter + 1;
      }
    }

    /** The guard is the predicate push_cv waits for. */
    method Dequeue() returns (item: T)
      requires Valid() && Abs().items != []
      modifies this, q
      ensures Valid() && q == old(q) && q.v == old(q.v)
      ensures item == old(Abs()).items[0]
      ensures Abs() == Step(old(Abs()), Op.Dequeue)
    {
      item := q.Front();
      history := history.(removed := history.removed + [Popped(item)]);
      q.PopFront();
    }

    /** wait_for gives up only while the queue is empty. */
    method DequeueFor(default: T) returns (ok: bool, item: T)
      requires Valid()
      modifies this, q
      ensures Valid() && q == old(q) && q.v == old(q.v)
      ensures ok <==> old(Abs()).items != []
      ensures ok ==> item == old(Abs()).items[0] && Abs() == Step(old(Abs()), Op.Dequeue)
      ensures !ok ==> Abs() == Step(old(Abs()), Op.DequeueTimeout)
    {
      var empty := q.Empty();
      if empty {
        return false, default;
      }
      item := Dequeue();
      ok := true;
    }

    method Size() returns (n: nat)
      requires Valid()
      ensures n == |Abs().items|
    {
      n := q.Size();
    }

    method ResetOverrunCounter()
      requires Valid()
      modifies this, q
      ensures Valid() && q == old(q) && q.v == old(q.v)
      ensures Abs() == Step(old(Abs()), Op.ResetOverruns)
    {
      history := history.(clearedOverruns := history.clearedOverruns + q.overrunCounter);
      q.ResetOverrunCounter();
    }

    method ResetDiscardCounter()
      requires Valid()
      modifies this
      ensures Valid() && q == old(q) && q.v == old(q.v)
      ensures Abs() == Step(old(Abs()), Op.ResetDiscards)
    {
      history := history.(clearedDiscards := history.clearedDiscards + discardCounter);
      discardCounter := 0;
    }
  }
}
