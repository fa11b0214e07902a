/**
 SmppCollisions lets the clock be set back. Here its readings never decrease: a colliding step then still loses a chunk,
 except in one case, which is stated exactly.
 */
module SmppSteadyClock {
  import opened Wrappers
  import opened SmppDelivery
  import opened SmppCollisions

  // ---------- readings that never decrease ----------

  function Clock<C>(now: int, e: Event<C>): int {
    match e
    case NewChunk(_, _, created, _) => created
    case GcTick(t, _, _) => t
    case _ => now
  }

  ghost predicate Steady<C>(now: int, es: seq<Event<C>>)
    decreases |es|
  {
    es == [] || (now <= Clock(now, es[0]) && Steady(Clock(now, es[0]), es[1..]))
  }

  function EndClock<C>(now: int, es: seq<Event<C>>): int
    decreases |es|
  {
    if es == [] then now else EndClock(Clock(now, es[0]), es[1..])
  }

  /** Nothing was stamped with a later time. */
  ghost predicate Seen<C>(s: State<C>, now: int) {
    forall c <- s.info :: s.info[c].lastSeen <= now
  }

  lemma StepSeen<C>(s: State<C>, e: Event<C>, now: int)
    requires Wf(s) && Enabled(s, e) && Seen(s, now) && now <= Clock(now, e)
    ensures Seen(Next(s, e), Clock(now, e))
  {
  }

  /** What the later results assume of the clock holds after every run with steady readings. */
  lemma {:induction false} RunSeen<C>(s: State<C>, es: seq<Event<C>>, now: int)
    requires Possible(s, es) && Seen(s, now) && Steady(now, es)
    ensures Seen(Run(s, es), EndClock(now, es))
    decreases |es|
  {
    if es != [] {
      StepSeen(s, es[0], now);
      RunSeen(Next(s, es[0]), es[1..], Clock(now, es[0]));
    }
  }

  /** t is reached with readings from `now` up to `end` and without further collisions. */
  ghost predicate Paced<C>(s: State<C>, now: int, es: seq<Event<C>>, t: State<C>, end: int) {
    Reaches(s, es, t) && Steady(now, es) && EndClock(now, es) <= end
  }

  lemma {:induction false} PacedAppend<C>(s: State<C>, now: int, es: seq<Event<C>>, t: State<C>, mid: int,
                                          fs: seq<Event<C>>, u: State<C>, end: int)
    requires Paced(s, now, es, t, mid) && Paced(t, mid, fs, u, end)
    ensures Paced(s, now, es + fs, u, end)
    decreases |es|
  {
    ReachesAppend(s, es, t, fs, u);
    ClockAppend(now, es, mid, fs);
  }

  lemma {:induction false} ClockAppend<C>(now: int, es: seq<Event<C>>, mid: int, fs: seq<Event<C>>)
    requires Steady(now, es) && EndClock(now, es) <= mid && Steady(mid, fs)
    ensures Steady(now, es + fs) && EndClock(now, es + fs) <= EndClock(mid, fs)
    decreases |es| + |fs|
  {
    if es != [] {
      assert (es + fs)[1..] == es[1..] + fs;
      ClockAppend(Clock(now, es[0]), es[1..], mid, fs);
    } else {
      assert es + fs == fs;
      if fs != [] && Clock(now, fs[0]) == now {
        ClockAppend(Clock(now, fs[0]), [], Clock(mid, fs[0]), fs[1..]);
        assert [] + fs[1..] == fs[1..];
      }
    }
  }

  lemma PacedOne<C>(s: State<C>, now: int, e: Event<C>)
    requires Wf(s) && Enabled(s, e) && Distinct(s, e) && now <= Clock(now, e)
    ensures Paced(s, now, [e], Next(s, e), Clock(now, e))
  {
    NextWf(s, e);
    var none: seq<Event<C>> := [];
    ReachesStep(s, e, none, Next(s, e));
    assert [e] + none == [e] && [e][1..] == none;
  }

  lemma {:induction false} NoReadings<C>(now: int, es: seq<Event<C>>)
    requires forall e <- es :: e.RunRetryJob?
    ensures Steady(now, es) && EndClock(now, es) == now
    decreases |es|
  {
    if es != [] {
      assert es == [es[0]] + es[1..];
      NoReadings(now, es[1..]);
    }
  }

  // ---------- the timer passes over chunks that use other sequences ----------

  /** Two unfinished chunks with the same sequence, and nobody else queued with it. */
  ghost predicate Pair<C>(s: State<C>, a: C, b: C) {
    && Wf(s) && a != b && a in s.info && b in s.info
    && s.info[a].sequence == s.info[b].sequence
    && !s.info[a].finished && !s.info[b].finished
    && (forall x <- s.gc :: Aside(s, a, b, x))
    && (forall x <- s.jobs :: Aside(s, a, b, x))
  }

  ghost predicate Aside<C>(s: State<C>, a: C, b: C, x: C)
    requires a in s.info && x in s.info
  {
    x == a || x == b || s.info[x].finished || s.info[x].sequence != s.info[a].sequence
  }

  /** Nothing that concerns the pair or its sequence has changed. */
  ghost predicate Untouched<C>(s: State<C>, t: State<C>, a: C, b: C)
    requires Pair(s, a, b)
  {
    var k := s.info[a].sequence;
    && Pair(t, a, b) && t.info[a] == s.info[a] && t.info[b] == s.info[b]
    && (k in t.pending <==> k in s.pending)
    && (forall j <- t.pending :: j in s.pending && t.pending[j] == s.pending[j])
    && (forall u <- t.acks :: u in s.acks && t.acks[u] == s.acks[u])
    && (forall u <- s.acks :: s.info[s.acks[u]].sequence == k ==> u in t.acks)
    && (a in t.retry <==> a in s.retry) && (b in t.retry <==> b in s.retry)
    && (a in t.jobs <==> a in s.jobs) && (b in t.jobs <==> b in s.jobs)
    && (a in t.dropped <==> a in s.dropped) && (b in t.dropped <==> b in s.dropped)
    && multiset(t.gc)[a] == multiset(s.gc)[a] && multiset(t.gc)[b] == multiset(s.gc)[b]
    && t.info.Keys == s.info.Keys
    && (forall x <- s.info :: t.info[x].sequence == s.info[x].sequence)
  }

  lemma TickPair<C>(s: State<C>, a: C, b: C, now: int, victim: Option<string>)
    requires Pair(s, a, b) && s.gc != [] && s.gc[0] != a && s.gc[0] != b
    requires Enabled(s, GcTick(now, true, victim))
    ensures var t := Next(s, GcTick(now, true, victim));
            && Pair(t, a, b) && t.info[a] == s.info[a] && t.info[b] == s.info[b]
            && |t.gc| >= |s.gc| - 1 && t.gc[..|s.gc| - 1] == s.gc[1..]
  {
    var e, c := GcTick(now, true, victim), s.gc[0];
    var t := Next(s, e);
    NextWf(s, e);
    assert c in s.gc && Aside(s, a, b, c);
    forall x | x in t.gc ensures Aside(t, a, b, x) {
      assert x in s.gc;
      assert Aside(s, a, b, x);
    }
    forall x | x in t.jobs ensures Aside(t, a, b, x) {
      assert x in s.jobs || x == c;
      assert Aside(s, a, b, x);
    }
  }

  lemma TickMaps<C>(s: State<C>, a: C, b: C, now: int, victim: Option<string>)
    requires Pair(s, a, b) && s.gc != [] && s.gc[0] != a && s.gc[0] != b
    requires Enabled(s, GcTick(now, true, victim))
    ensures var t, k := Next(s, GcTick(now, true, victim)), s.info[a].sequence;
            && (k in t.pending <==> k in s.pending)
            && (forall j <- t.pending :: j in s.pending && t.pending[j] == s.pending[j])
            && (forall u <- t.acks :: u in s.acks && t.acks[u] == s.acks[u])
            && (forall u <- s.acks :: s.info[s.acks[u]].sequence == k ==> u in t.acks)
  {
    assert s.gc[0] in s.gc && Aside(s, a, b, s.gc[0]);
  }

  lemma TickMembers<C>(s: State<C>, a: C, now: int, victim: Option<string>)
    requires Wf(s) && s.gc != [] && s.gc[0] != a
    requires Enabled(s, GcTick(now, true, victim))
    ensures var t := Next(s, GcTick(now, true, victim));
            && (a in t.retry <==> a in s.retry) && (a in t.jobs <==> a in s.jobs)
            && (a in t.dropped <==> a in s.dropped) && multiset(t.gc)[a] == multiset(s.gc)[a]
  {
    OtherCount(s.gc, s.gc[0], a);
  }

  lemma TickAside<C>(s: State<C>, a: C, b: C, now: int, victim: Option<string>)
    requires Pair(s, a, b) && s.gc != [] && s.gc[0] != a && s.gc[0] != b && Seen(s, now)
    requires Enabled(s, GcTick(now, true, victim))
    ensures var t := Next(s, GcTick(now, true, victim));
            && Untouched(s, t, a, b) && Seen(t, now)
            && |t.gc| >= |s.gc| - 1 && t.gc[..|s.gc| - 1] == s.gc[1..]
  {
    TickPair(s, a, b, now, victim);
    TickMaps(s, a, b, now, victim);
    TickMembers(s, a, now, victim);
    TickMembers(s, b, now, victim);
  }

  lemma UntouchedChain<C>(s: State<C>, t: State<C>, u: State<C>, a: C, b: C)
    requires Pair(s, a, b) && Untouched(s, t, a, b) && Untouched(t, u, a, b)
    ensures Untouched(s, u, a, b)
  {
  }

  /** q, one look later q', and i looks later r. */
  lemma MovedOn<C>(q: seq<C>, q': seq<C>, r: seq<C>, i: nat)
    requires 0 < i <= |q| && |q'| >= |q| - 1 && q'[..|q| - 1] == q[1..]
    ensures q'[..i - 1] == q[1..i]
    ensures |r| >= |q'| - (i - 1) && r[..|q'| - (i - 1)] == q'[i - 1..] ==> |r| >= |q| - i && r[..|q| - i] == q[i..]
  {
    assert q'[..i - 1] == q'[..|q| - 1][..i - 1];
    assert q[i..] == q[1..][i - 1..];
    if |r| >= |q'| - (i - 1) && r[..|q'| - (i - 1)] == q'[i - 1..] {
      assert r[..|q| - i] == r[..|q'| - (i - 1)][..|q| - i];
      assert q'[i - 1..][..|q| - i] == q'[..|q| - 1][i - 1..];
    }
  }

  /** The timer has passed the first i places of its queue. */
  ghost predicate Swept<C>(s: State<C>, t: State<C>, a: C, b: C, i: nat)
    requires Pair(s, a, b) && i <= |s.gc|
  {
    Untouched(s, t, a, b) && |t.gc| >= |s.gc| - i && t.gc[..|s.gc| - i] == s.gc[i..]
  }

  lemma SweptMore<C>(s: State<C>, s': State<C>, t: State<C>, a: C, b: C, i: nat)
    requires Pair(s, a, b) && 0 < i <= |s.gc| && Swept(s, s', a, b, 1) && Swept(s', t, a, b, i - 1)
    ensures Swept(s, t, a, b, i)
  {
    UntouchedChain(s, s', t, a, b);
    MovedOn(s.gc, s'.gc, t.gc, i);
  }

  /** The timer looks at the first i chunks of its queue, all at the same time. */
  lemma {:induction false} Sweep<C>(s: State<C>, a: C, b: C, i: nat, now: int, end: int)
    returns (es: seq<Event<C>>, t: State<C>)
    requires Pair(s, a, b) && Seen(s, end) && now <= end
    requires i <= |s.gc| && a !in s.gc[..i] && b !in s.gc[..i]
    ensures Paced(s, now, es, t, end) && Swept(s, t, a, b, i) && Seen(t, end)
    decreases i
  {
    if i == 0 {
      es, t := [], s;
    } else {
      var victim := SomeVictim(s, s.info[s.gc[0]].sequence);
      var e: Event<C> := GcTick(end, true, victim);
      TickAside(s, a, b, end, victim);
      PacedOne(s, now, e);
      var s' := Next(s, e);
      MovedOn(s.gc, s'.gc, s'.gc, i);
      assert s.gc[1..i] == s.gc[..i][1..];
      var rest;
      rest, t := Sweep(s', a, b, i - 1, end, end);
      SweptMore(s, s', t, a, b, i);
      PacedAppend(s, now, [e], s', end, rest, t, end);
      es := [e] + rest;
    }
  }

  /** The timer has fired for b, reached at place i of its queue. */
  ghost predicate Hit<C>(s: State<C>, t: State<C>, a: C, b: C, i: nat, victim: Option<string>)
    requires Pair(s, a, b) && i < |s.gc|
  {
    && Pair(t, a, b) && t.info[a] == s.info[a]
    && s.info[a].sequence !in t.pending
    && (forall j <- t.pending :: j in s.pending && t.pending[j] == s.pending[j])
    && (forall u <- t.acks :: u in s.acks && t.acks[u] == s.acks[u] && victim != Some(u))
    && (a in t.retry <==> a in s.retry) && b !in t.retry
    && (a in t.jobs <==> a in s.jobs)
    && multiset(t.jobs)[b] == (if s.info[b].retryNum < NUM_OF_RETRIES then 1 else 0)
    && (a in t.dropped <==> a in s.dropped)
    && (s.info[b].retryNum < NUM_OF_RETRIES ==> (b in t.dropped <==> b in s.dropped))
    && |t.gc| >= |s.gc| - i - 1 && t.gc[..|s.gc| - i - 1] == s.gc[i + 1..]
  }

  lemma FrontHit<C>(s: State<C>, a: C, b: C, now: int, victim: Option<string>)
    requires Pair(s, a, b) && s.gc != [] && s.gc[0] == b && b !in s.jobs && Seen(s, now)
    requires s.info[b].lastSeen + RETRY_INTERVAL < now && IsVictim(s, s.info[b].sequence, victim)
    ensures var e := GcTick(now, true, victim);
            Enabled(s, e) && Hit(s, Next(s, e), a, b, 0, victim) && Seen(Next(s, e), now)
  {
    var e := FireFront(s, now, victim);
    var t := Next(s, e);
    NextWf(s, e);
    assert s.gc == [b] + s.gc[1..];
    assert multiset(s.jobs)[b] == 0;
    forall x | x in t.gc ensures Aside(t, a, b, x) {
      assert x in s.gc;
      assert Aside(s, a, b, x);
    }
    forall x | x in t.jobs ensures Aside(t, a, b, x) {
      assert x in s.jobs || x == b;
      assert x in s.jobs ==> Aside(s, a, b, x);
    }
  }

  lemma HitAfter<C>(s: State<C>, s': State<C>, t: State<C>, a: C, b: C, i: nat, victim: Option<string>)
    requires Pair(s, a, b) && Untouched(s, s', a, b) && i < |s.gc|
    requires |s'.gc| >= |s.gc| - i && s'.gc[..|s.gc| - i] == s.gc[i..]
    requires Hit(s', t, a, b, 0, victim)
    ensures Hit(s, t, a, b, i, victim)
  {
    assert t.gc[..|s.gc| - i - 1] == s.gc[i + 1..] by {
      assert t.gc[..|s'.gc| - 1][..|s.gc| - i - 1] == s'.gc[1..][..|s.gc| - i - 1];
      assert s'.gc[..|s.gc| - i][1..] == s.gc[i..][1..];
    }
  }

  /** The timer reaches b and fires; it can meet the ack entry uid first, if that has the sequence of the pair. */
  lemma FireAt<C>(s: State<C>, a: C, b: C, i: nat, now: int, end: int, uid: Option<string>)
    returns (es: seq<Event<C>>, t: State<C>, victim: Option<string>)
    requires Pair(s, a, b) && Seen(s, end) && now <= end && b !in s.jobs
    requires i < |s.gc| && s.gc[i] == b && a !in s.gc[..i] && b !in s.gc[..i]
    requires s.info[b].lastSeen + RETRY_INTERVAL < end
    requires uid.Some? ==> uid.value in s.acks && s.info[s.acks[uid.value]].sequence == s.info[b].sequence
    ensures Paced(s, now, es, t, end) && Hit(s, t, a, b, i, victim) && Seen(t, end)
    ensures uid.Some? ==> victim == uid
  {
    var s';
    es, s' := Sweep(s, a, b, i, now, end);
    assert s'.gc[0] == b by { assert s'.gc[..|s.gc| - i][0] == s.gc[i..][0]; }
    if uid.Some? {
      victim := uid;
    } else {
      victim := SomeVictim(s', s'.info[b].sequence);
    }
    var e: Event<C> := GcTick(end, true, victim);
    FrontHit(s', a, b, end, victim);
    t := Next(s', e);
    HitAfter(s, s', t, a, b, i, victim);
    PacedOne(s', end, e);
    PacedAppend(s, now, es, s', end, [e], t, end);
    es := es + [e];
  }

  // ---------- ways to lose a chunk ----------

  /** a is only pending, or only accepted as uid; the timer of b, which comes before a in its queue, erases it. */
  lemma TimerErases<C>(s: State<C>, a: C, b: C, i: nat, now: int, uid: Option<string>)
    returns (es: seq<Event<C>>, t: State<C>, end: int)
    requires Pair(s, a, b) && Seen(s, now) && b !in s.jobs
    requires i < |s.gc| && s.gc[i] == b && a !in s.gc[..i] && b !in s.gc[..i]
    requires a !in s.retry && a !in s.jobs && a !in s.dropped
    requires forall j <- s.pending :: s.pending[j] == a ==> j == s.info[a].sequence
    requires forall u <- s.acks :: s.acks[u] == a ==> uid == Some(u)
    requires uid.Some? ==> uid.value in s.acks && s.acks[uid.value] == a
    ensures Paced(s, now, es, t, end) && Lost(t, a)
  {
    end := now + RETRY_INTERVAL + 1;
    var victim;
    es, t, victim := FireAt(s, a, b, i, now, end, uid);
  }

  /** a waits in the job queue and the timer watches b: once a is sent, the timer of b erases its entry. */
  lemma JobThenTimer<C>(s: State<C>, a: C, b: C, i: nat, now: int)
    returns (es: seq<Event<C>>, t: State<C>, end: int)
    requires Pair(s, a, b) && Seen(s, now) && b !in s.jobs
    requires i < |s.gc| && s.gc[i] == b && a !in s.gc[..i] && b !in s.gc[..i]
    requires multiset(s.jobs)[a] == 1 && a !in s.retry && a !in s.dropped
    requires s.info[a].sequence !in s.pending && (forall j <- s.pending :: s.pending[j] != a)
    requires forall u <- s.acks :: s.acks[u] != a
    ensures Paced(s, now, es, t, end) && Lost(t, a)
  {
    var j := OnlyAt(s.jobs, a);
    var s';
    es, s' := Work(s, j);
    NoReadings(now, es);
    assert Pair(s', a, b) by { WorkedPair(s, j, s', a, b); }
    var fs;
    fs, t, end := TimerErases(s', a, b, i, now, None);
    PacedAppend(s, now, es, s', now, fs, t, end);
    es := es + fs;
  }

  lemma WorkedPair<C>(s: State<C>, j: nat, t: State<C>, a: C, b: C)
    requires Pair(s, a, b) && j < |s.jobs| && Worked(s, j, t) && Wf(t)
    ensures Pair(t, a, b)
  {
    forall x | x in t.gc ensures Aside(t, a, b, x) {
      assert x in s.gc || x in s.jobs;
      assert Aside(s, a, b, x);
    }
    forall x | x in t.jobs ensures Aside(t, a, b, x) {
      assert x in s.jobs;
      assert Aside(s, a, b, x);
    }
  }

  // ---------- a collision under a steady clock ----------

  /** The situation right after c was created, at the time `now`, with the sequence of d. */
  ghost predicate Fresh<C>(s: State<C>, c: C, d: C, ok: bool, p: Place, now: int) {
    && Clash(s, c, d, ok, p) && Pair(s, c, d) && Seen(s, now)
    && multiset(s.gc)[c] == 1 && s.gc[|s.gc| - 1] == c
    && (if p == Job then multiset(s.jobs)[d] == 1 && d !in s.gc else d !in s.jobs && multiset(s.gc)[d] == 1)
  }

  lemma PairSwaps<C>(s: State<C>, a: C, b: C)
    requires Pair(s, a, b)
    ensures Pair(s, b, a)
  {
    forall x | x in s.gc ensures Aside(s, b, a, x) { assert Aside(s, a, b, x); }
    forall x | x in s.jobs ensures Aside(s, b, a, x) { assert Aside(s, a, b, x); }
  }

  lemma LastIsOnly<C>(q: seq<C>, c: C)
    requires multiset(q)[c] == 1 && q[|q| - 1] == c
    ensures c !in q[..|q| - 1]
  {
    assert q == q[..|q| - 1] + [c];
    assert c !in multiset(q[..|q| - 1]);
  }

  /** d has a retry job: it is refused because of c's entry, or its entry is erased by the timer of c. */
  lemma JobLoses<C>(s: State<C>, c: C, d: C, ok: bool, now: int)
    returns (es: seq<Event<C>>, t: State<C>, end: int)
    requires Fresh(s, c, d, ok, Job, now)
    ensures Paced(s, now, es, t, end) && Lost(t, d)
  {
    if ok {
      var i := OnlyAt(s.jobs, d);
      es, t := Work(s, i);
      end := now;
      NoReadings(now, es);
    } else {
      PairSwaps(s, c, d);
      LastIsOnly(s.gc, c);
      es, t, end := JobThenTimer(s, d, c, |s.gc| - 1, now);
    }
  }

  /** c was sent and d is watched: the timer of d erases c's entry. */
  lemma SentLoses<C>(s: State<C>, c: C, d: C, p: Place, now: int)
    returns (es: seq<Event<C>>, t: State<C>, end: int)
    requires Fresh(s, c, d, true, p, now) && p != Job && p != Pending
    ensures Paced(s, now, es, t, end) && Lost(t, c)
  {
    var i := OnlyAt(s.gc, d);
    LastIsOnly(s.gc, c);
    es, t, end := TimerErases(s, c, d, i, now, None);
  }

  ghost function UidOf(p: Place): Option<string> {
    if p.Ack? then Some(p.uid) else None
  }

  /** Where c is once the queue has moved on by i + 1. */
  lemma AfterMoving<C>(q: seq<C>, r: seq<C>, i: nat, c: C, d: C)
    requires multiset(q)[c] == 1 && q[|q| - 1] == c && i < |q| && q[i] == d && d !in q[i + 1..] && c != d
    requires |r| >= |q| - i - 1 && r[..|q| - i - 1] == q[i + 1..]
    ensures |q| - i - 2 >= 0 && r[|q| - i - 2] == c
    ensures c !in r[..|q| - i - 2] && d !in r[..|q| - i - 2]
  {
    LastIsOnly(q, c);
    var n := |q| - i - 1;
    assert r[..n][..n - 1] == q[i + 1..][..n - 1] == q[i + 1..|q| - 1];
    assert r[..n][n - 1] == q[i + 1..][n - 1];
    assert q[i + 1..|q| - 1] == q[..|q| - 1][i + 1..] == q[i + 1..][..n - 1];
  }

  /** c failed, and the timer of d fires and leaves d a retry: sent again, d is erased by the timer of c. */
  lemma RetryLoses<C>(s: State<C>, c: C, d: C, p: Place, now: int)
    returns (es: seq<Event<C>>, t: State<C>, end: int)
    requires Fresh(s, c, d, false, p, now) && p != Job && s.info[d].retryNum < NUM_OF_RETRIES
    ensures Paced(s, now, es, t, end) && Lost(t, d)
  {
    var i := OnlyAt(s.gc, d);
    LastIsOnly(s.gc, c);
    var mid := now + RETRY_INTERVAL + 1;
    var t1, victim;
    es, t1, victim := FireAt(s, c, d, i, now, mid, UidOf(p));
    AfterMoving(s.gc, t1.gc, i, c, d);
    PairSwaps(t1, c, d);
    NotAJob(s, d);
    var fs;
    fs, t, end := JobThenTimer(t1, d, c, |s.gc| - i - 2, mid);
    PacedAppend(s, now, es, t1, mid, fs, t, end);
    es := es + fs;
  }

  lemma FrontIdles<C>(s: State<C>, a: C, b: C, now: int, victim: Option<string>)
    requires Pair(s, a, b) && s.gc != [] && s.gc[0] == b && Seen(s, now)
    requires now <= s.info[b].lastSeen + RETRY_INTERVAL && IsVictim(s, s.info[b].sequence, victim)
    ensures var e := GcTick(now, true, victim);
            Enabled(s, e) && Next(s, e) == s.(gc := s.gc[1..] + [b]) && Untouched(s, Next(s, e), a, b)
  {
    var t := s.(gc := s.gc[1..] + [b]);
    IdleTick(s, now, victim);
    assert s.gc == [b] + s.gc[1..];
    assert multiset(t.gc) == multiset(s.gc);
    forall x | x in t.gc ensures Aside(t, a, b, x) {
      assert x in s.gc;
      assert Aside(s, a, b, x);
    }
    forall x | x in t.jobs ensures Aside(t, a, b, x) {
      assert Aside(s, a, b, x);
    }
  }

  /** While d is not due, a look at it puts it behind c. */
  lemma Postpone<C>(s: State<C>, c: C, d: C, i: nat, now: int)
    returns (es: seq<Event<C>>, t: State<C>)
    requires Pair(s, c, d) && Seen(s, now) && now <= s.info[d].lastSeen + RETRY_INTERVAL
    requires i < |s.gc| && s.gc[i] == d && c !in s.gc[..i] && d !in s.gc[..i]
    ensures Paced(s, now, es, t, now) && Untouched(s, t, c, d) && Seen(t, now)
    ensures |t.gc| >= |s.gc| - i && t.gc[..|s.gc| - i - 1] == s.gc[i + 1..] && t.gc[|t.gc| - 1] == d
  {
    var s';
    es, s' := Sweep(s, c, d, i, now, now);
    assert s'.gc[0] == d by { assert s'.gc[..|s.gc| - i][0] == s.gc[i..][0]; }
    var victim := SomeVictim(s', s'.info[d].sequence);
    var e: Event<C> := GcTick(now, true, victim);
    FrontIdles(s', c, d, now, victim);
    t := Next(s', e);
    UntouchedChain(s, s', t, c, d);
    assert t.gc[..|s.gc| - i - 1] == s.gc[i + 1..] by {
      assert t.gc[..|s.gc| - i - 1] == s'.gc[1..|s.gc| - i] == s'.gc[..|s.gc| - i][1..] == s.gc[i..][1..];
    }
    PacedOne(s', now, e);
    PacedAppend(s, now, es, s', now, [e], t, now);
    es := es + [e];
  }

  /** c failed, and d is not due yet: the timer of c comes first. */
  lemma NotDueLoses<C>(s: State<C>, c: C, d: C, p: Place, now: int)
    returns (es: seq<Event<C>>, t: State<C>, lost: C, end: int)
    requires Fresh(s, c, d, false, p, now) && p != Job && now <= s.info[d].lastSeen + RETRY_INTERVAL
    ensures Paced(s, now, es, t, end) && Lost(t, lost)
  {
    var i := OnlyAt(s.gc, d);
    LastIsOnly(s.gc, c);
    var t1;
    es, t1 := Postpone(s, c, d, i, now);
    AfterMoving(s.gc, t1.gc, i, c, d);
    var fs;
    if p == Retry {
      lost := c;
      fs, t, end := BothFailedLoses(t1, c, d, |s.gc| - i - 2, now);
    } else {
      lost := d;
      PairSwaps(t1, c, d);
      fs, t, end := TimerErases(t1, d, c, |s.gc| - i - 2, now, UidOf(p));
    }
    PacedAppend(s, now, es, t1, now, fs, t, end);
    es := es + fs;
  }

  /** Both failed, and the timer watches c before d: c is retried, and then erased by the timer of d. */
  lemma BothFailedLoses<C>(s: State<C>, c: C, d: C, i: nat, now: int)
    returns (es: seq<Event<C>>, t: State<C>, end: int)
    requires Pair(s, c, d) && Seen(s, now) && s.info[c].retryNum == 0
    requires i < |s.gc| && s.gc[i] == c && c !in s.gc[..i] && d !in s.gc[..i]
    requires multiset(s.gc)[c] == 1 && multiset(s.gc)[d] == 1 && s.gc[|s.gc| - 1] == d
    requires c !in s.jobs && d !in s.jobs && c !in s.dropped
    requires (forall j <- s.pending :: s.pending[j] != c) && (forall u <- s.acks :: s.acks[u] != c)
    ensures Paced(s, now, es, t, end) && Lost(t, c)
  {
    var mid := now + RETRY_INTERVAL + 1;
    PairSwaps(s, c, d);
    var t1, victim;
    es, t1, victim := FireAt(s, d, c, i, now, mid, None);
    var k := OnlyAt(s.gc, c);
    assert k == i;
    AfterMoving(s.gc, t1.gc, i, d, c);
    PairSwaps(t1, d, c);
    var fs;
    fs, t, end := JobThenTimer(t1, c, d, |s.gc| - i - 2, mid);
    PacedAppend(s, now, es, t1, mid, fs, t, end);
    es := es + fs;
  }

  lemma CollisionIsFresh<C>(s: State<C>, w: map<C, Place>, e: Event<C>, d: C, now: int)
    requires Inv(s, w) && e.NewChunk? && Enabled(s, e) && Seen(s, now) && now <= e.created
    requires d in s.info && Held(s, d) && s.info[d].sequence == e.sequence
    ensures Fresh(Next(s, e), e.c, d, e.ok, w[d], e.created)
  {
    var t := Next(s, e);
    NewChunkClashes(s, w, e, d);
    FreshIsNowhere(s, e.c);
    HeldIffInFlight(s, w, d);
    assert Good(s, d, w[d]);
    NotAJobOrOne(s, d);
    forall x | x in t.gc ensures Aside(t, e.c, d, x) {
      if x != e.c { QueuedAside(s, w, d, x); }
    }
    forall x | x in t.jobs ensures Aside(t, e.c, d, x) {
      QueuedAside(s, w, d, x);
    }
    assert multiset(s.gc + [e.c])[e.c] == 1 && multiset(s.gc + [e.c])[d] == multiset(s.gc)[d];
    assert multiset(t.gc)[d] == 0 ==> d !in t.gc by { assert d in t.gc ==> d in multiset(t.gc); }
    StepSeen(s, e, now);
  }

  lemma NotAJobOrOne<C>(s: State<C>, d: C)
    ensures multiset(s.jobs)[d] == 0 <==> d !in s.jobs
  {
    assert d in s.jobs <==> d in multiset(s.jobs);
  }

  lemma QueuedAside<C>(s: State<C>, w: map<C, Place>, d: C, x: C)
    requires Inv(s, w) && d in w && InFlight(w[d]) && (x in s.gc || x in s.jobs)
    ensures x == d || s.info[x].finished || s.info[x].sequence != s.info[d].sequence
  {
    assert Good(s, x, w[x]);
    assert x in s.gc ==> x in multiset(s.gc);
    assert x in s.jobs ==> x in multiset(s.jobs);
  }

  // ---------- the one collision that is tolerated ----------

  /**
   The step does not collide, or it creates a chunk whose first send fails, while the chunk with the same sequence is
   out of retries, due, and not waiting for its last one: the timer gives that one up before it gets to the new one.
   */
  ghost predicate Tolerable<C>(s: State<C>, e: Event<C>)
    requires Wf(s)
  {
    || Distinct(s, e)
    || (&& e.NewChunk? && !e.ok
        && forall d <- s.info :: Held(s, d) && s.info[d].sequence == e.sequence ==>
             && d !in s.jobs && s.info[d].retryNum == NUM_OF_RETRIES
             && s.info[d].lastSeen + RETRY_INTERVAL < e.created)
  }

  lemma FreshLoses<C>(s: State<C>, c: C, d: C, ok: bool, p: Place, now: int)
    returns (es: seq<Event<C>>, t: State<C>, lost: C, end: int)
    requires Fresh(s, c, d, ok, p, now) && s.info[d].retryNum <= NUM_OF_RETRIES
    requires ok || p == Job || s.info[d].retryNum < NUM_OF_RETRIES || now <= s.info[d].lastSeen + RETRY_INTERVAL
    ensures Paced(s, now, es, t, end) && Lost(t, lost)
  {
    if p == Job {
      lost := d;
      es, t, end := JobLoses(s, c, d, ok, now);
    } else if ok {
      lost := c;
      if p == Pending {
        es, t, end := [], s, now;
      } else {
        es, t, end := SentLoses(s, c, d, p, now);
      }
    } else if s.info[d].retryNum < NUM_OF_RETRIES {
      lost := d;
      es, t, end := RetryLoses(s, c, d, p, now);
    } else {
      es, t, lost, end := NotDueLoses(s, c, d, p, now);
    }
  }

  /** Every other colliding step has a steady continuation, with no further collision, that loses a chunk. */
  lemma SteadyCollisionLoses<C>(s: State<C>, w: map<C, Place>, e: Event<C>, now: int)
    returns (es: seq<Event<C>>, t: State<C>, end: int)
    requires Inv(s, w) && Enabled(s, e) && Seen(s, now) && now <= Clock(now, e) && !Tolerable(s, e)
    ensures Paced(Next(s, e), Clock(now, e), es, t, end) && !AllConserved(t)
  {
    NextWf(s, e);
    if e.NewChunk? {
      var d :| d in s.info && Held(s, d) && s.info[d].sequence == e.sequence
               && (e.ok || d in s.jobs || s.info[d].retryNum != NUM_OF_RETRIES
                   || e.created <= s.info[d].lastSeen + RETRY_INTERVAL);
      assert Good(s, d, w[d]);
      NotAJobOrOne(s, d);
      CollisionIsFresh(s, w, e, d, now);
      var lost;
      es, t, lost, end := FreshLoses(Next(s, e), e.c, d, e.ok, w[d], e.created);
      LostIsNotConserved(t, lost);
    } else {
      var c := s.pending[e.sequence];
      PendingIsPlaced(s, w, e.sequence);
      assert Good(s, c, w[c]);
      NotAJob(s, c);
      es, t, end := [], Next(s, e), now;
      LostIsNotConserved(t, c);
    }
  }

  // ---------- a tolerated collision loses nothing ----------

  /** d comes before c in the queue. */
  ghost predicate Ahead<C>(q: seq<C>, d: C, c: C) {
    exists i :: 0 <= i < |q| && q[i] == d && c !in q[..i]
  }

  /** c failed and waits; d shares its sequence, has no retry left, is due, and is looked at first. */
  ghost predicate Doomed<C>(s: State<C>, w: map<C, Place>, c: C, d: C, now: int) {
    && Base(s, w) && c != d && c in w && d in w
    && s.info[c].sequence == s.info[d].sequence
    && w[c] == Retry && InFlight(w[d]) && w[d] != Job
    && s.info[d].retryNum == NUM_OF_RETRIES && s.info[d].lastSeen + RETRY_INTERVAL < now
    && Ahead(s.gc, d, c)
    && SeparateBut(s, w, c, d)
  }

  ghost predicate SeparateBut<C>(s: State<C>, w: map<C, Place>, c: C, d: C)
    requires w.Keys == s.info.Keys
  {
    forall x, y :: x in w && y in w && InFlight(w[x]) && InFlight(w[y]) && s.info[x].sequence == s.info[y].sequence
                   ==> x == y || (x == c && y == d) || (x == d && y == c)
  }

  lemma DoomedIsSafe<C>(s: State<C>, w: map<C, Place>, c: C, d: C, now: int, e: Event<C>)
    requires Doomed(s, w, c, d, now) && Enabled(s, e) && Distinct(s, e)
    ensures Safe(s, w, e)
  {
    match e
    case NewChunk(_, k, _, _) =>
      if k in s.pending {
        PendingIsPlaced(s, w, k);
        assert Held(s, s.pending[k]);
      }
    case RunRetryJob(_) =>
      JobIsPlaced(s, w);
      var k := s.info[s.jobs[0]].sequence;
      if k in s.pending { PendingIsPlaced(s, w, k); }
    case GcTick(_, _, victim) =>
      if InFlight(w[s.gc[0]]) { DoomedOwnsEntries(s, w, c, d, now, victim); }
    case _ =>
  }

  lemma DoomedOwnsEntries<C>(s: State<C>, w: map<C, Place>, c: C, d: C, now: int, victim: Option<string>)
    requires Doomed(s, w, c, d, now) && s.gc != [] && InFlight(w[s.gc[0]])
    requires IsVictim(s, s.info[s.gc[0]].sequence, victim)
    ensures OwnEntries(s, s.gc[0], victim)
  {
    var x := s.gc[0];
    FrontIsNot(s.gc, d, c);
    if s.info[x].sequence in s.pending { PendingIsPlaced(s, w, s.info[x].sequence); }
    if victim.Some? {
      var y := s.acks[victim.value];
      assert Good(s, y, w[y]);
    }
  }

  lemma FrontIsNot<C>(q: seq<C>, d: C, c: C)
    requires Ahead(q, d, c) && c != d
    ensures q != [] && q[0] != c
  {
    var i :| 0 <= i < |q| && q[i] == d && c !in q[..i];
    assert i > 0 ==> q[..i][0] == q[0];
  }

  lemma StaysAhead<C>(q: seq<C>, d: C, c: C, more: seq<C>)
    requires Ahead(q, d, c)
    ensures Ahead(q + more, d, c)
    ensures q != [] && q[0] != d ==> Ahead(q[1..] + more, d, c)
  {
    var i :| 0 <= i < |q| && q[i] == d && c !in q[..i];
    assert (q + more)[i] == d && (q + more)[..i] == q[..i];
    if q[0] != d {
      var r := q[1..] + more;
      assert r[i - 1] == d && r[..i - 1] == q[..i][1..];
    }
  }

  lemma TickPlaceOfDue<C>(s: State<C>, w: map<C, Place>, c: C, d: C, now: int, e: Event<C>)
    requires Doomed(s, w, c, d, now) && Enabled(s, e) && e.GcTick? && now <= e.now && s.gc[0] == d
    ensures NextPlaces(s, w, e)[d] == Dropped
  {
    assert Good(s, d, w[d]);
    HeldIffInFlight(s, w, d);
  }

  lemma DoomedQueue<C>(s: State<C>, w: map<C, Place>, c: C, d: C, now: int, e: Event<C>)
    requires Doomed(s, w, c, d, now) && Enabled(s, e) && (e.GcTick? ==> s.gc[0] != d)
    ensures Ahead(Next(s, e).gc, d, c)
  {
    match e
    case NewChunk(x, _, _, _) => StaysAhead(s.gc, d, c, [x]);
    case RunRetryJob(_) => StaysAhead(s.gc, d, c, [s.jobs[0]]);
    case GcTick(_, _, _) =>
      StaysAhead(s.gc, d, c, []);
      StaysAhead(s.gc, d, c, [s.gc[0]]);
      assert s.gc[1..] + [] == s.gc[1..];
    case _ =>
  }

  lemma DoomedPlaces<C>(s: State<C>, w: map<C, Place>, c: C, d: C, now: int, e: Event<C>)
    requires Doomed(s, w, c, d, now) && Enabled(s, e) && (e.GcTick? ==> s.gc[0] != d)
    ensures var w' := NextPlaces(s, w, e);
            && c in w' && d in w' && w'[c] == Retry && w'[d] != Job && w'[d] != Dropped
            && d in Next(s, e).info && Next(s, e).info[d].(finished := s.info[d].finished) == s.info[d]
  {
    FrontIsNot(s.gc, d, c);
    assert Good(s, c, w[c]) && Good(s, d, w[d]);
    if e.RunRetryJob? { JobIsPlaced(s, w); }
  }

  lemma StepSeparateBut<C>(s: State<C>, w: map<C, Place>, c: C, d: C, e: Event<C>)
    requires Base(s, w) && Enabled(s, e) && Distinct(s, e) && SeparateBut(s, w, c, d)
    requires Safe(s, w, e)
    ensures Base(Next(s, e), NextPlaces(s, w, e)) && SeparateBut(Next(s, e), NextPlaces(s, w, e), c, d)
  {
    StepBase(s, w, e);
    var t, w' := Next(s, e), NextPlaces(s, w, e);
    forall x | x in w && (e.NewChunk? ==> x != e.c)
      ensures x in w' && (InFlight(w'[x]) ==> InFlight(w[x])) && t.info[x].sequence == s.info[x].sequence
    {
      StepFlight(s, w, e, x);
    }
    if e.NewChunk? {
      forall x | x in w && InFlight(w[x]) ensures s.info[x].sequence != e.sequence {
        HeldIffInFlight(s, w, x);
      }
    }
  }

  /** Each step leaves d doomed, or d is finished or given up and every sequence has one chunk again. */
  lemma DoomedStep<C>(s: State<C>, w: map<C, Place>, c: C, d: C, now: int, e: Event<C>)
    requires Doomed(s, w, c, d, now) && Enabled(s, e) && Distinct(s, e) && now <= Clock(now, e)
    ensures Doomed(Next(s, e), NextPlaces(s, w, e), c, d, Clock(now, e)) || Inv(Next(s, e), NextPlaces(s, w, e))
  {
    DoomedIsSafe(s, w, c, d, now, e);
    StepSeparateBut(s, w, c, d, e);
    if e.GcTick? && s.gc[0] == d {
      TickPlaceOfDue(s, w, c, d, now, e);
    } else {
      DoomedQueue(s, w, c, d, now, e);
      DoomedPlaces(s, w, c, d, now, e);
      StepFlight(s, w, e, c);
      StepFlight(s, w, e, d);
    }
  }

  lemma {:induction false} DoomedRun<C>(s: State<C>, w: map<C, Place>, c: C, d: C, now: int, es: seq<Event<C>>)
    requires Doomed(s, w, c, d, now) && Possible(s, es) && NoCollision(s, es) && Steady(now, es)
    ensures AllConserved(Run(s, es))
    decreases |es|
  {
    if es == [] {
      BaseConserves(s, w);
    } else {
      var e := es[0];
      DoomedStep(s, w, c, d, now, e);
      var t, w' := Next(s, e), NextPlaces(s, w, e);
      if Inv(t, w') {
        var w'' := RunKeeps(t, w', es[1..]);
        BaseConserves(Run(t, es[1..]), w'');
      } else {
        DoomedRun(t, w', c, d, Clock(now, e), es[1..]);
      }
    }
  }

  lemma ToleratedDooms<C>(s: State<C>, w: map<C, Place>, e: Event<C>, d: C)
    requires Inv(s, w) && e.NewChunk? && Enabled(s, e) && Tolerable(s, e) && !Distinct(s, e)
    requires d in s.info && Held(s, d) && s.info[d].sequence == e.sequence
    ensures Doomed(Next(s, e), NextPlaces(s, w, e), e.c, d, e.created)
  {
    StepBase(s, w, e);
    HeldIffInFlight(s, w, d);
    assert Good(s, d, w[d]);
    NotAJobOrOne(s, d);
    FreshIsNowhere(s, e.c);
    var i := OnlyAt(s.gc, d);
    var t := Next(s, e);
    assert t.gc[i] == d && t.gc[..i] == s.gc[..i];
    assert e.c !in s.gc;
  }

  ghost predicate SteadyKeepsAll<C>(s: State<C>, now: int, es: seq<Event<C>>) {
    Possible(s, es) && NoCollision(s, es) && Steady(now, es) ==> AllConserved(Run(s, es))
  }

  lemma ToleratedKeepsAll<C>(s: State<C>, w: map<C, Place>, e: Event<C>, now: int, es: seq<Event<C>>)
    requires Inv(s, w) && Enabled(s, e) && Tolerable(s, e)
    ensures SteadyKeepsAll(Next(s, e), Clock(now, e), es)
  {
    var t := Next(s, e);
    if Possible(t, es) && NoCollision(t, es) && Steady(Clock(now, e), es) {
      if Distinct(s, e) {
        StepKeeps(s, w, e);
        var w' := RunKeeps(t, NextPlaces(s, w, e), es);
        BaseConserves(Run(t, es), w');
      } else {
        var d :| d in s.info && Held(s, d) && s.info[d].sequence == e.sequence;
        ToleratedDooms(s, w, e, d);
        DoomedRun(t, NextPlaces(s, w, e), e.c, d, e.created, es);
      }
    }
  }

  /**
   With a clock that is never set back: from any good state, a step leaves every chunk conserved in every steady
   continuation without further collisions if and only if the step is tolerable.
   */
  lemma ConservedUnderSteadyClockIff<C>(s: State<C>, w: map<C, Place>, e: Event<C>, now: int)
    requires Inv(s, w) && Enabled(s, e) && Seen(s, now) && now <= Clock(now, e)
    ensures (forall es :: SteadyKeepsAll(Next(s, e), Clock(now, e), es)) <==> Tolerable(s, e)
  {
    if Tolerable(s, e) {
      forall es ensures SteadyKeepsAll(Next(s, e), Clock(now, e), es) {
        ToleratedKeepsAll(s, w, e, now, es);
      }
    } else {
      var es, t, end := SteadyCollisionLoses(s, w, e, now);
      assert !SteadyKeepsAll(Next(s, e), Clock(now, e), es);
    }
  }
}
