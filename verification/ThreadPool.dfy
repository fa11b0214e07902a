/** spdlog's thread_pool: workers over the blocking queue, and the shutdown protocol of its destructor. */
module ThreadPool {
  import opened Wrappers
  import B = BlockingQueue

  datatype Msg<T> = Log(payload: T) | Flush(payload: T) | Terminate

  datatype Policy = Block | OverrunOldest | DiscardNew

  /** posted and joined count the destructor's progress; taken is the workers' dequeues, in order. */
  datatype Pool<T> = Pool(
    queue: B.Queue<Msg<T>>, active: seq<bool>, posted: nat, joined: nat, taken: seq<(nat, Msg<T>)>)

  datatype Action<T> =
    | Produce(msg: Msg<T>, policy: Policy)
    | Take(worker: nat)
    | PostTerminate
    | Join

  function PolicyOp<T>(msg: Msg<T>, policy: Policy): B.Op<Msg<T>> {
    match policy
    case Block => B.Enqueue(msg)
    case OverrunOldest => B.EnqueueNowait(msg)
    case DiscardNew => B.EnqueueIfHaveRoom(msg)
  }

  /** Producers are gone once the destructor runs; they never post a terminate themselves. */
  ghost predicate Enabled<T>(p: Pool<T>, a: Action<T>) {
    match a
    case Produce(msg, policy) =>
      p.posted == 0 && msg != Terminate && B.Enabled(p.queue, PolicyOp(msg, policy))
    case Take(w) => w < |p.active| && p.active[w] && B.Enabled(p.queue, B.Dequeue)
    case PostTerminate => p.posted < |p.active| && B.Enabled(p.queue, B.Enqueue(Terminate))
    case Join => p.posted == |p.active| && p.joined < |p.active| && !p.active[p.joined]
  }

  ghost function Next<T>(p: Pool<T>, a: Action<T>): Pool<T>
    requires Enabled(p, a)
  {
    match a
    case Produce(msg, policy) => p.(queue := B.Step(p.queue, PolicyOp(msg, policy)))
    case Take(w) =>
      var msg := p.queue.items[0];
      p.(queue := B.Step(p.queue, B.Dequeue),
         active := p.active[w := msg != Terminate],
         taken := p.taken + [(w, msg)])
    case PostTerminate =>
      p.(queue := B.Step(p.queue, B.Enqueue(Terminate)), posted := p.posted + 1)
    case Join => p.(joined := p.joined + 1)
  }

  ghost predicate Allowed<T>(p: Pool<T>, actions: seq<Action<T>>)
    decreases |actions|
  {
    actions == [] || (Enabled(p, actions[0]) && Allowed(Next(p, actions[0]), actions[1..]))
  }

  ghost function Run<T>(p: Pool<T>, actions: seq<Action<T>>): Pool<T>
    requires Allowed(p, actions)
    decreases |actions|
  {
    if actions == [] then p else Run(Next(p, actions[0]), actions[1..])
  }

  ghost predicate IsShutdown<T>(actions: seq<Action<T>>) {
    forall a <- actions :: !a.Produce?
  }

  ghost predicate Done<T>(p: Pool<T>) {
    p.joined == |p.active|
  }

  // ---------- before the destructor ----------

  /** Every worker runs and no terminate is queued: what holds until the destructor starts. */
  ghost predicate Serving<T>(p: Pool<T>) {
    && p.posted == p.joined == 0
    && |p.active| > 0
    && (forall w :: 0 <= w < |p.active| ==> p.active[w])
    && Terminate !in p.queue.items
    && |p.queue.items| <= p.queue.capacity
  }

  lemma {:induction false} ServingReachable<T>(p: Pool<T>, actions: seq<Action<T>>)
    requires Serving(p) && Allowed(p, actions)
    requires forall a <- actions :: a.Produce? || a.Take?
    ensures Serving(Run(p, actions)) && Run(p, actions).queue.capacity == p.queue.capacity
    decreases |actions|
  {
    if actions != [] {
      var a := actions[0];
      assert Serving(Next(p, a)) by {
        if a.Produce? { assert Terminate !in p.queue.items + [a.msg]; }
      }
      ServingReachable(Next(p, a), actions[1..]);
    }
  }

  // ---------- what the overflow policies mean ----------

  /** What a run posts, terminates included. */
  ghost function Posted<T>(actions: seq<Action<T>>): seq<Msg<T>> {
    if actions == [] then []
    else
      (match actions[0]
       case Produce(msg, _) => [msg]
       case PostTerminate => [Terminate]
       case _ => [])
      + Posted(actions[1..])
  }

  ghost predicate OnlyBlocking<T>(actions: seq<Action<T>>) {
    forall a <- actions :: a.Produce? ==> a.policy == Block
  }

  /** Everything that ever got into the queue and was not overrun: what was taken, then what is queued. */
  ghost function Line<T>(p: Pool<T>): seq<Msg<T>> {
    Messages(p.taken) + p.queue.items
  }

  lemma StepKeepsPosted<T>(p: Pool<T>, a: Action<T>)
    requires Enabled(p, a) && (a.Produce? ==> a.policy == Block) && |p.queue.items| <= p.queue.capacity
    ensures var q := Next(p, a);
            && Line(q) == Line(p) + Posted([a])
            && q.queue.overruns == p.queue.overruns && q.queue.discards == p.queue.discards
            && |q.queue.items| <= q.queue.capacity
  {
    var q := Next(p, a);
    assert [a][1..] == [];
    match a
    case Take(w) =>
      assert Messages(q.taken) == Messages(p.taken) + [p.queue.items[0]];
      assert p.queue.items == [p.queue.items[0]] + p.queue.items[1..];
    case _ =>
      assert q.taken == p.taken;
  }

  lemma PostedCons<T>(actions: seq<Action<T>>)
    requires actions != []
    ensures Posted(actions) == Posted([actions[0]]) + Posted(actions[1..])
  {
    assert [actions[0]][1..] == [];
  }

  lemma Joins<T>(a: seq<T>, b: seq<T>, c: seq<T>)
    ensures (a + b) + c == a + (b + c)
  {
  }

  /**
   When every producer posts with `block`, nothing is lost, overrun or discarded: the messages taken, followed by the
   queue, are the posted ones in order, in every run.
   */
  lemma {:induction false} BlockingLosesNothing<T>(p: Pool<T>, actions: seq<Action<T>>)
    requires Allowed(p, actions) && OnlyBlocking(actions) && |p.queue.items| <= p.queue.capacity
    ensures Line(Run(p, actions)) == Line(p) + Posted(actions)
    ensures Run(p, actions).queue.overruns == p.queue.overruns && Run(p, actions).queue.discards == p.queue.discards
    decreases |actions|
  {
    if actions != [] {
      StepKeepsPosted(p, actions[0]);
      BlockingLosesNothing(Next(p, actions[0]), actions[1..]);
      PostedCons(actions);
      Joins(Line(p), Posted([actions[0]]), Posted(actions[1..]));
    }
  }

  /**
   A post waits exactly under `block` with a full queue. `discard_new` keeps all that is queued, overruns nothing and
   stores the message exactly when there is room; `overrun_oldest` always stores it, and drops the oldest exactly when
   there is no room.
   */
  lemma PoliciesMean<T>(p: Pool<T>, msg: Msg<T>)
    requires p.posted == 0 && msg != Terminate && |p.queue.items| <= p.queue.capacity
    ensures Enabled(p, Produce(msg, Block)) <==> |p.queue.items| < p.queue.capacity
    ensures Enabled(p, Produce(msg, DiscardNew)) && Enabled(p, Produce(msg, OverrunOldest))
    ensures var q, full := Next(p, Produce(msg, DiscardNew)).queue, |p.queue.items| == p.queue.capacity;
            && q.items == p.queue.items + (if full then [] else [msg])
            && q.overruns == p.queue.overruns && q.discards == p.queue.discards + if full then 1 else 0
    ensures var q, full := Next(p, Produce(msg, OverrunOldest)).queue, |p.queue.items| == p.queue.capacity;
            && q.items == (p.queue.items + [msg])[if full then 1 else 0..]
            && q.discards == p.queue.discards && q.overruns == p.queue.overruns + if full then 1 else 0
  {
  }

  // ---------- the shutdown ----------

  ghost function Terminates<T>(n: nat): seq<Msg<T>> {
    seq(n, _ => Terminate)
  }

  ghost function Messages<T>(taken: seq<(nat, Msg<T>)>): seq<Msg<T>> {
    seq(|taken|, i requires 0 <= i < |taken| => taken[i].1)
  }

  ghost function Stopped(active: seq<bool>): nat {
    if active == [] then 0 else (if active[0] then 0 else 1) + Stopped(active[1..])
  }

  ghost function Excess(a: nat, b: nat): nat {
    if a > b then a - b else 0
  }

  /** What the workers have taken since the destructor was entered. */
  ghost function Since<T>(start: Pool<T>, p: Pool<T>): seq<(nat, Msg<T>)>
    requires start.taken <= p.taken
  {
    p.taken[|start.taken|..]
  }

  /** start is the pool when its destructor was entered. */
  ghost predicate Shutting<T>(start: Pool<T>, p: Pool<T>) {
    && start.taken <= p.taken
    && |p.active| == |start.active|
    && p.joined <= |p.active| && p.posted <= |p.active|
    && (p.joined > 0 ==> p.posted == |p.active|)
    && (forall w :: 0 <= w < p.joined ==> !p.active[w])
    && Messages(Since(start, p)) + p.queue.items == start.queue.items + Terminates(p.posted)
    && Stopped(p.active) == Excess(|Since(start, p)|, |start.queue.items|)
    && (forall w :: 0 <= w < |p.active| ==>
          multiset(Since(start, p))[(w, Terminate)] == if p.active[w] then 0 else 1)
    && p.queue.capacity == start.queue.capacity
    && |p.queue.items| <= p.queue.capacity
  }

  lemma {:induction false} StoppedUpdate(active: seq<bool>, w: nat, b: bool)
    requires w < |active|
    ensures Stopped(active[w := b]) ==
            Stopped(active) - (if active[w] then 0 else 1) + (if b then 0 else 1)
  {
    if w > 0 {
      assert active[w := b][1..] == active[1..][w - 1 := b];
      StoppedUpdate(active[1..], w - 1, b);
    } else {
      assert active[w := b][1..] == active[1..];
    }
  }

  lemma {:induction false} AllActive(active: seq<bool>)
    requires forall w :: 0 <= w < |active| ==> active[w]
    ensures Stopped(active) == 0
  {
    if active != [] {
      AllActive(active[1..]);
    }
  }

  /** Counting finds a running worker, and says when one is left. */
  lemma {:induction false} SomeActive(active: seq<bool>) returns (w: nat)
    requires Stopped(active) < |active|
    ensures w < |active| && active[w]
  {
    if active[0] {
      w := 0;
    } else {
      w := SomeActive(active[1..]);
      w := w + 1;
    }
  }

  lemma {:induction false} StoppedBound(active: seq<bool>)
    ensures Stopped(active) <= |active|
    ensures Stopped(active) == |active| <==> forall w :: 0 <= w < |active| ==> !active[w]
  {
    if active != [] {
      StoppedBound(active[1..]);
      assert forall w :: 0 < w < |active| ==> active[w] == active[1..][w - 1];
    }
  }

  lemma ShutdownStarts<T>(p: Pool<T>)
    requires Serving(p)
    ensures Shutting(p, p)
  {
    AllActive(p.active);
    assert Messages(Since(p, p)) == [] && Terminates<T>(0) == [];
  }

  /** The message a worker takes is the next one of the fixed list. */
  lemma NextMessage<T>(start: Pool<T>, p: Pool<T>)
    requires Shutting(start, p) && p.queue.items != []
    requires Terminate !in start.queue.items
    ensures p.queue.items[0] == Terminate <==> |Since(start, p)| >= |start.queue.items|
    ensures forall w, msg :: Messages(Since(start, p) + [(w, msg)]) == Messages(Since(start, p)) + [msg]
  {
    var all := start.queue.items + Terminates(p.posted);
    assert all[|Since(start, p)|] == p.queue.items[0];
  }

  lemma TakeKeepsMessages<T>(start: Pool<T>, p: Pool<T>, w: nat)
    requires Serving(start) && Shutting(start, p) && Enabled(p, Take(w))
    ensures var q := Next(p, Take(w));
            && start.taken <= q.taken
            && Since(start, q) == Since(start, p) + [(w, p.queue.items[0])]
            && Messages(Since(start, q)) + q.queue.items == start.queue.items + Terminates(q.posted)
            && Stopped(q.active) == Excess(|Since(start, q)|, |start.queue.items|)
  {
    NextMessage(start, p);
    StoppedUpdate(p.active, w, p.queue.items[0] != Terminate);
    assert p.queue.items == [p.queue.items[0]] + p.queue.items[1..];
  }

  lemma TakeKeepsShutting<T>(start: Pool<T>, p: Pool<T>, w: nat)
    requires Serving(start) && Shutting(start, p) && Enabled(p, Take(w))
    ensures Shutting(start, Next(p, Take(w)))
  {
    TakeKeepsMessages(start, p, w);
    var q, msg := Next(p, Take(w)), p.queue.items[0];
    assert multiset(Since(start, q)) == multiset(Since(start, p)) + multiset{(w, msg)};
    forall u | 0 <= u < |q.active|
      ensures multiset(Since(start, q))[(u, Terminate)] == if q.active[u] then 0 else 1
    {
      assert u != w ==> q.active[u] == p.active[u];
    }
  }

  lemma StepKeepsShutting<T>(start: Pool<T>, p: Pool<T>, a: Action<T>)
    requires Serving(start) && Shutting(start, p) && Enabled(p, a) && !a.Produce?
    ensures Shutting(start, Next(p, a))
    ensures Measure(Next(p, a)) < Measure(p)
  {
    match a
    case Take(w) => TakeKeepsShutting(start, p, w);
    case PostTerminate =>
      var last: seq<Msg<T>> := [Terminate];
      assert Terminates<T>(p.posted + 1) == Terminates(p.posted) + last;
      assert Messages(Since(start, p)) + (p.queue.items + last) == (Messages(Since(start, p)) + p.queue.items) + last;
      assert (start.queue.items + Terminates(p.posted)) + last == start.queue.items + Terminates(p.posted + 1);
    case Join =>
  }

  /** Every step of the shutdown uses up part of this. */
  ghost function Measure<T>(p: Pool<T>): nat {
    2 * Excess(|p.active|, p.posted) + |p.queue.items| + Excess(|p.active|, p.joined)
  }

  /** The shutdown can always go on, as long as the queue has room for anything at all. */
  lemma NextAction<T>(start: Pool<T>, p: Pool<T>) returns (a: Action<T>)
    requires Serving(start) && Shutting(start, p) && !Done(p) && p.queue.capacity >= 1
    ensures Enabled(p, a) && !a.Produce?
  {
    assert |Messages(Since(start, p))| == |Since(start, p)|;
    StoppedBound(p.active);
    if p.posted < |p.active| {
      if |p.queue.items| < p.queue.capacity {
        a := PostTerminate;
      } else {
        var w := SomeActive(p.active);
        a := Take(w);
      }
    } else if p.active[p.joined] {
      a := Take(p.joined);
    } else {
      a := Join;
    }
  }

  lemma {:induction false} RunKeepsShutting<T>(start: Pool<T>, p: Pool<T>, actions: seq<Action<T>>)
    requires Serving(start) && Shutting(start, p) && Allowed(p, actions) && IsShutdown(actions)
    ensures Shutting(start, Run(p, actions))
    ensures Measure(Run(p, actions)) + |actions| <= Measure(p)
    decreases |actions|
  {
    if actions != [] {
      StepKeepsShutting(start, p, actions[0]);
      RunKeepsShutting(start, Next(p, actions[0]), actions[1..]);
    }
  }

  /** From any serving state: the destructor never blocks for good exactly when the queue can hold an item. */
  lemma DeadlockFreeIff<T>(start: Pool<T>)
    requires Serving(start)
    ensures (forall actions | Allowed(start, actions) && IsShutdown(actions) && !Done(Run(start, actions)) ::
               exists a :: Enabled(Run(start, actions), a) && !a.Produce?)
            <==> start.queue.capacity >= 1
  {
    ShutdownStarts(start);
    if start.queue.capacity >= 1 {
      forall actions | Allowed(start, actions) && IsShutdown(actions) && !Done(Run(start, actions))
        ensures exists a :: Enabled(Run(start, actions), a) && !a.Produce?
      {
        RunKeepsShutting(start, start, actions);
        var a := NextAction(start, Run(start, actions));
      }
    } else {
      var none: seq<Action<T>> := [];
      assert Allowed(start, none) && IsShutdown(none) && Run(start, none) == start;
      assert forall a :: Enabled(start, a) ==> a.Produce?;
    }
  }

  lemma DoneIsDrained<T>(start: Pool<T>, p: Pool<T>)
    requires Serving(start) && Shutting(start, p) && Done(p)
    ensures p.queue.items == []
    ensures Messages(Since(start, p)) == start.queue.items + Terminates(|p.active|)
    ensures forall w :: 0 <= w < |p.active| ==>
              !p.active[w] && multiset(Since(start, p))[(w, Terminate)] == 1
  {
    StoppedBound(p.active);
    assert |Messages(Since(start, p))| == |Since(start, p)|;
  }

  /** Every run of the shutdown is finite. */
  lemma ShutdownTerminates<T>(start: Pool<T>, actions: seq<Action<T>>)
    requires Serving(start)
    requires Allowed(start, actions) && IsShutdown(actions)
    ensures |actions| <= 3 * |start.active| + |start.queue.items|
  {
    ShutdownStarts(start);
    RunKeepsShutting(start, start, actions);
  }

  /**
   When the destructor returns, the queue is empty, every message that was queued was
   taken before any terminate, in order, and each worker took exactly one terminate.
   */
  lemma ShutdownDrains<T>(start: Pool<T>, actions: seq<Action<T>>)
    requires Serving(start)
    requires Allowed(start, actions) && IsShutdown(actions) && Done(Run(start, actions))
    ensures var p := Run(start, actions);
            && p.queue.items == []
            && start.taken <= p.taken
            && Messages(Since(start, p)) == start.queue.items + Terminates(|p.active|)
            && forall w :: 0 <= w < |p.active| ==>
                 !p.active[w] && multiset(Since(start, p))[(w, Terminate)] == 1
  {
    ShutdownStarts(start);
    RunKeepsShutting(start, start, actions);
    DoneIsDrained(start, Run(start, actions));
  }

  // ---------- the class ----------

  class ThreadPool<T(0)> {
    var q: B.MpmcBlockingQueue<Msg<T>>
    var active: seq<bool>
    var posted: nat
    var joined: nat
    ghost var taken: seq<(nat, Msg<T>)>

    ghost predicate Valid()
      reads this, q, q.q
    {
      q.Valid()
    }

    ghost function Abs(): Pool<T>
      requires Valid()
      reads this, q, q.q, q.q.v
    {
      Pool(q.Abs(), active, posted, joined, taken)
    }

    constructor (maxItems: nat, threads: nat)
      requires 1 <= threads <= 1000
      ensures Valid() && fresh(q) && fresh(q.q) && fresh(q.q.v)
      ensures |active| == threads && Serving(Abs()) && taken == []
      ensures q.Abs() == B.New(maxItems)
    {
      q := new B.MpmcBlockingQueue(maxItems);
      active := seq(threads, _ => true);
      posted, joined, taken := 0, 0, [];
    }

    /** The public constructor refuses a thread count outside 1 to 1000. */
    static method Create(maxItems: nat, threads: nat) returns (r: Option<ThreadPool<T>>)
      ensures r.Some? <==> 1 <= threads <= 1000
      ensures r.Some? ==>
                && fresh(r.value) && fresh(r.value.q) && fresh(r.value.q.q) && fresh(r.value.q.q.v)
                && r.value.Valid() && Serving(r.value.Abs()) && r.value.taken == []
    {
      if threads == 0 || threads > 1000 {
        return None;
      }
      var pool := new ThreadPool<T>(maxItems, threads);
      r := Some(pool);
    }

    method PostAsyncMsg(msg: Msg<T>, policy: Policy)
      requires Valid() && B.Enabled(q.Abs(), PolicyOp(msg, policy))
      modifies q, q.q, q.q.v
      ensures Valid() && q.q == old(q.q) && q.q.v == old(q.q.v)
      ensures q.Abs() == B.Step(old(q.Abs()), PolicyOp(msg, policy))
    {
      match policy
      case Block => q.Enqueue(msg);
      case OverrunOldest => q.EnqueueNowait(msg);
      case DiscardNew => q.EnqueueIfHaveRoom(msg);
    }

    /** One round of a worker's loop: false ends the worker. */
    method ProcessNextMsg(w: nat) returns (more: bool)
      requires Valid() && Enabled(Abs(), Take(w))
      modifies this, q, q.q
      ensures Valid() && q == old(q) && q.q == old(q.q) && q.q.v == old(q.q.v)
      ensures more == (old(q.Abs()).items[0] != Terminate)
      ensures Abs() == Next(old(Abs()), Take(w))
    {
      var incoming := q.Dequeue();
      taken := taken + [(w, incoming)];
      match incoming
      case Log(_) => more := true;
      case Flush(_) => more := true;
      case Terminate => more := false;
      active := active[w := more];
    }

    /** One pass of the destructor's first loop. */
    method PostTerminate()
      requires Valid() && Enabled(Abs(), Action.PostTerminate)
      modifies this, q, q.q, q.q.v
      ensures Valid() && q == old(q) && q.q == old(q.q) && q.q.v == old(q.q.v)
      ensures Abs() == Next(old(Abs()), Action.PostTerminate)
    {
      PostAsyncMsg(Terminate, Block);
      posted := posted + 1;
    }

    /** One pass of its second loop. */
    method JoinNext()
      requires Valid() && Enabled(Abs(), Join)
      modifies this
      ensures Valid() && q == old(q)
      ensures Abs() == Next(old(Abs()), Join)
    {
      joined := joined + 1;
    }

    method PostRound(ghost start: Pool<T>)
      requires Valid() && Serving(start) && Shutting(start, Abs()) && Enabled(Abs(), Action.PostTerminate)
      modifies this, q, q.q, q.q.v
      ensures Valid() && q == old(q) && q.q == old(q.q) && q.q.v == old(q.q.v)
      ensures Shutting(start, Abs()) && Measure(Abs()) < old(Measure(Abs()))
    {
      StepKeepsShutting(start, Abs(), Action.PostTerminate);
      PostTerminate();
    }

    method TakeRound(ghost start: Pool<T>, w: nat)
      requires Valid() && Serving(start) && Shutting(start, Abs()) && Enabled(Abs(), Take(w))
      modifies this, q, q.q, q.q.v
      ensures Valid() && q == old(q) && q.q == old(q.q) && q.q.v == old(q.q.v)
      ensures Shutting(start, Abs()) && Measure(Abs()) < old(Measure(Abs()))
    {
      StepKeepsShutting(start, Abs(), Take(w));
      var more := ProcessNextMsg(w);
    }

    method JoinRound(ghost start: Pool<T>)
      requires Valid() && Serving(start) && Shutting(start, Abs()) && Enabled(Abs(), Join)
      modifies this, q, q.q, q.q.v
      ensures Valid() && q == old(q) && q.q == old(q.q) && q.q.v == old(q.q.v)
      ensures Shutting(start, Abs()) && Measure(Abs()) < old(Measure(Abs()))
    {
      StepKeepsShutting(start, Abs(), Join);
      JoinNext();
    }

    /** Any one enabled step of the destructor or of a worker; the verifier shows that there is one. */
    method Round(ghost start: Pool<T>)
      requires Valid() && Serving(start) && Shutting(start, Abs())
      requires !Done(Abs()) && Abs().queue.capacity >= 1
      modifies this, q, q.q, q.q.v
      ensures Valid() && q == old(q) && q.q == old(q.q) && q.q.v == old(q.q.v)
      ensures Shutting(start, Abs()) && Measure(Abs()) < old(Measure(Abs()))
    {
      var size := q.Size();
      ghost var a := NextAction(start, Abs());
      assert a.Take? ==> active[a.worker] in active;
      if {
        case posted < |active| && size != q.q.maxItems - 1 =>
          PostRound(start);
        case size > 0 && true in active =>
          var w :| 0 <= w < |active| && active[w];
          TakeRound(start, w);
        case posted == |active| && joined < |active| && !active[joined] =>
          JoinRound(start);
      }
    }

    /** The destructor with its workers, under every schedule. */
    method Destroy()
      requires Valid() && Serving(Abs()) && Abs().queue.capacity >= 1
      modifies this, q, q.q, q.q.v
      ensures Valid() && Done(Abs()) && q.Abs().items == []
      ensures old(taken) <= taken
      ensures Messages(taken[|old(taken)|..]) == old(q.Abs().items) + Terminates(|active|)
      ensures forall w :: 0 <= w < |active| ==>
                !active[w] && multiset(taken[|old(taken)|..])[(w, Terminate)] == 1
    {
      ghost var start := Abs();
      ShutdownStarts(start);
      while joined < |active|
        invariant Valid() && q == old(q) && q.q == old(q.q) && q.q.v == old(q.q.v)
        invariant Shutting(start, Abs())
        decreases Measure(Abs())
      {
        Round(start);
      }
      DoneIsDrained(start, Abs());
    }
  }
}
