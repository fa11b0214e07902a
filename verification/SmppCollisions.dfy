/**
 What becomes of the machine in SmppDelivery when sequences or gateway uids do collide: which single steps lose a
 chunk, and that the assumption made there cannot be weakened. The clock is std::time, which may be set back, so the
 timer may be given any reading.
 */
module SmppCollisions {
  import opened Wrappers
  import opened SmppDelivery

  // ---------- one step, from any state ----------

  /** A freshly sent chunk is tracked exactly when no chunk already uses its sequence in pendingMsgQueue. */
  lemma NewChunkTrackedIff<C>(s: State<C>, e: Event<C>)
    requires Wf(s) && e.NewChunk? && Enabled(s, e)
    ensures Copies(Next(s, e), e.c) == 1 <==> (e.ok ==> e.sequence !in s.pending)
  {
    FreshIsNowhere(s, e.c);
    var t := Next(s, e);
    assert PendingKeys(t, e.c) == if e.ok && e.sequence !in s.pending then {e.sequence} else {};
    assert AckKeys(t, e.c) == {};
  }

  lemma SendCopies<C>(s: State<C>, c: C, ok: bool)
    requires Wf(s) && c in s.info
    ensures Copies(Send(s, c, ok), c)
            == Copies(s, c) + if (if ok then s.info[c].sequence in s.pending else c in s.retry) then 0 else 1
  {
    var k, t := s.info[c].sequence, Send(s, c, ok);
    assert AckKeys(t, c) == AckKeys(s, c);
    if ok && k !in s.pending {
      assert PendingKeys(t, c) == PendingKeys(s, c) + {k} && k !in PendingKeys(s, c);
    } else {
      assert PendingKeys(t, c) == PendingKeys(s, c);
    }
  }

  lemma JobTakenCopies<C>(s: State<C>)
    requires s.jobs != []
    ensures Copies(s.(jobs := s.jobs[1..]), s.jobs[0]) == Copies(s, s.jobs[0]) - 1
  {
    var c, t := s.jobs[0], s.(jobs := s.jobs[1..]);
    assert s.jobs == [c] + s.jobs[1..];
    assert PendingKeys(t, c) == PendingKeys(s, c) && AckKeys(t, c) == AckKeys(s, c);
  }

  /** A retried chunk keeps its owners exactly when its place is free: the sequence, or else its entry in retryMsgs. */
  lemma RetriedTrackedIff<C>(s: State<C>, e: Event<C>)
    requires Wf(s) && e.RunRetryJob? && Enabled(s, e)
    ensures Copies(Next(s, e), s.jobs[0]) == Copies(s, s.jobs[0])
            <==> if e.ok then s.info[s.jobs[0]].sequence !in s.pending else s.jobs[0] !in s.retry
  {
    JobTakenCopies(s);
    SendCopies(s.(jobs := s.jobs[1..]), s.jobs[0], e.ok);
  }

  lemma AckEnteredCopies<C>(s: State<C>, c: C, uid: string)
    requires uid !in s.acks
    ensures Copies(s.(acks := s.acks[uid := c]), c) == Copies(s, c) + 1
  {
    var t := s.(acks := s.acks[uid := c]);
    assert AckKeys(t, c) == AckKeys(s, c) + {uid} && uid !in AckKeys(s, c);
    assert PendingKeys(t, c) == PendingKeys(s, c);
  }

  lemma PendingErasedCopies<C>(s: State<C>, k: nat)
    requires k in s.pending
    ensures Copies(s.(pending := s.pending - {k}), s.pending[k]) == Copies(s, s.pending[k]) - 1
  {
    var c, t := s.pending[k], s.(pending := s.pending - {k});
    assert PendingKeys(t, c) == PendingKeys(s, c) - {k} && k in PendingKeys(s, c);
    assert AckKeys(t, c) == AckKeys(s, c);
  }

  /** An accepted chunk keeps its owners exactly when the gateway's uid is not already in ackMsgQueue. */
  lemma AcceptedTrackedIff<C>(s: State<C>, e: Event<C>)
    requires Wf(s) && e.SubmitResp? && e.status == 0 && e.sequence in s.pending
    ensures Copies(Next(s, e), s.pending[e.sequence]) == Copies(s, s.pending[e.sequence]) <==> e.uid !in s.acks
  {
    if e.uid in s.acks {
      PendingErasedCopies(s, e.sequence);
    } else {
      var c := s.pending[e.sequence];
      AckEnteredCopies(s, c, e.uid);
      PendingErasedCopies(s.(acks := s.acks[e.uid := c]), e.sequence);
    }
  }

  lemma CleanCopies<C>(s: State<C>, c: C, victim: Option<string>, d: C)
    requires Wf(s) && c in s.info && d != c
    requires IsVictim(s, s.info[c].sequence, victim)
    ensures Copies(Clean(s, c, victim), d) == Copies(s, d)
              - (if s.info[c].sequence in PendingKeys(s, d) then 1 else 0)
              - (if victim.Some? && victim.value in AckKeys(s, d) then 1 else 0)
  {
    var t := Clean(s, c, victim);
    assert PendingKeys(t, d) == PendingKeys(s, d) - {s.info[c].sequence};
    assert AckKeys(t, d) == if victim.Some? then AckKeys(s, d) - {victim.value} else AckKeys(s, d);
  }

  /** The timer's clean-up spares every other chunk exactly when the entries it erases are the chunk's own. */
  lemma CleanSparesOthersIff<C>(s: State<C>, c: C, victim: Option<string>)
    requires Wf(s) && c in s.info && IsVictim(s, s.info[c].sequence, victim)
    ensures (forall d :: d in s.info && d != c ==> Copies(Clean(s, c, victim), d) == Copies(s, d))
            <==> OwnEntries(s, c, victim)
  {
    forall d | d in s.info && d != c
      ensures Copies(Clean(s, c, victim), d) == Copies(s, d)
                - (if s.info[c].sequence in PendingKeys(s, d) then 1 else 0)
                - (if victim.Some? && victim.value in AckKeys(s, d) then 1 else 0)
    {
      CleanCopies(s, c, victim, d);
    }
    var k := s.info[c].sequence;
    if k in s.pending && s.pending[k] != c {
      assert k in PendingKeys(s, s.pending[k]);
    } else if victim.Some? && s.acks[victim.value] != c {
      assert victim.value in AckKeys(s, s.acks[victim.value]);
    }
  }

  // ---------- building continuations ----------

  /** t is reached from s by a run without further collisions. */
  ghost predicate Reaches<C>(s: State<C>, es: seq<Event<C>>, t: State<C>) {
    Possible(s, es) && NoCollision(s, es) && Run(s, es) == t
  }

  lemma ReachesStep<C>(s: State<C>, e: Event<C>, es: seq<Event<C>>, t: State<C>)
    requires Wf(s) && Enabled(s, e) && Distinct(s, e) && Reaches(Next(s, e), es, t)
    ensures Reaches(s, [e] + es, t)
  {
    assert ([e] + es)[1..] == es;
  }

  lemma {:induction false} ReachesAppend<C>(s: State<C>, es: seq<Event<C>>, t: State<C>,
                                            fs: seq<Event<C>>, u: State<C>)
    requires Reaches(s, es, t) && Reaches(t, fs, u)
    ensures Reaches(s, es + fs, u)
    decreases |es|
  {
    if es == [] {
      assert es + fs == fs;
    } else {
      var e, rest := es[0], es[1..];
      assert es + fs == [e] + (rest + fs);
      ReachesAppend(Next(s, e), rest, t, fs, u);
      ReachesStep(s, e, rest + fs, u);
    }
  }

  lemma SomeVictim<C>(s: State<C>, sequence: nat) returns (victim: Option<string>)
    requires Wf(s)
    ensures IsVictim(s, sequence, victim)
  {
    if u :| u in s.acks && s.info[s.acks[u]].sequence == sequence {
      victim := Some(u);
    } else {
      victim := None;
    }
  }

  lemma IdleTick<C>(s: State<C>, now: int, victim: Option<string>)
    requires Wf(s) && s.gc != [] && now <= s.info[s.gc[0]].lastSeen + RETRY_INTERVAL
    requires IsVictim(s, s.info[s.gc[0]].sequence, victim)
    ensures Enabled(s, GcTick(now, true, victim))
    ensures Next(s, GcTick(now, true, victim))
            == s.(gc := s.gc[1..] + if s.info[s.gc[0]].finished then [] else [s.gc[0]])
  {
    assert s.gc[1..] + [] == s.gc[1..];
  }

  /** Idle looks of the timer bring any unfinished chunk of its queue to the front and change nothing else. */
  lemma {:induction false} Rotate<C>(s: State<C>, i: nat) returns (es: seq<Event<C>>, g: seq<C>)
    requires Wf(s) && i < |s.gc| && !s.info[s.gc[i]].finished
    ensures Reaches(s, es, s.(gc := g)) && g != [] && g[0] == s.gc[i]
    ensures forall x <- s.gc :: s.info[x].finished || x in g
    decreases i
  {
    if i == 0 {
      es, g := [], s.gc;
      assert s.(gc := g) == s;
    } else {
      var c := s.gc[0];
      var victim := SomeVictim(s, s.info[c].sequence);
      var now := s.info[c].lastSeen + RETRY_INTERVAL;
      var e: Event<C> := GcTick(now, true, victim);
      IdleTick(s, now, victim);
      var s' := Next(s, e);
      assert s.gc == [c] + s.gc[1..];
      assert s'.gc[i - 1] == s.gc[i];
      var rest;
      rest, g := Rotate(s', i - 1);
      assert s'.(gc := g) == s.(gc := g);
      ReachesStep(s, e, rest, s.(gc := g));
      es := [e] + rest;
    }
  }

  /** What the timer leaves when it has fired for c. */
  ghost predicate Fired<C>(s: State<C>, c: C, victim: Option<string>, t: State<C>)
    requires Wf(s) && c in s.info
  {
    && t.info.Keys == s.info.Keys
    && (forall d :: d in s.info && d != c ==> t.info[d] == s.info[d])
    && !t.info[c].finished && t.info[c].sequence == s.info[c].sequence
    && t.pending == s.pending - {s.info[c].sequence}
    && t.acks == (if victim.Some? then s.acks - {victim.value} else s.acks)
    && t.retry == s.retry - {c}
    && t.jobs == s.jobs + (if s.info[c].retryNum < NUM_OF_RETRIES then [c] else [])
    && t.dropped == s.dropped + (if s.info[c].retryNum < NUM_OF_RETRIES then {} else {c})
    && (forall x <- s.gc :: x == c || s.info[x].finished || x in t.gc)
  }

  lemma FireFront<C>(s: State<C>, now: int, victim: Option<string>) returns (e: Event<C>)
    requires Wf(s) && s.gc != [] && !s.info[s.gc[0]].finished && s.info[s.gc[0]].lastSeen + RETRY_INTERVAL < now
    requires IsVictim(s, s.info[s.gc[0]].sequence, victim)
    ensures e == GcTick(now, true, victim)
    ensures Enabled(s, e) && Distinct(s, e) && Fired(s, s.gc[0], victim, Next(s, e))
  {
    e := GcTick(now, true, victim);
    assert s.gc == [s.gc[0]] + s.gc[1..];
  }

  /** The timer can fire for any unfinished chunk it watches. */
  lemma Fire<C>(s: State<C>, c: C, victim: Option<string>) returns (es: seq<Event<C>>, t: State<C>)
    requires Wf(s) && c in s.gc && !s.info[c].finished && IsVictim(s, s.info[c].sequence, victim)
    ensures Reaches(s, es, t) && Fired(s, c, victim, t)
  {
    var i :| 0 <= i < |s.gc| && s.gc[i] == c;
    var g;
    es, g := Rotate(s, i);
    var s' := s.(gc := g);
    var e := FireFront(s', s'.info[c].lastSeen + RETRY_INTERVAL + 1, victim);
    t := Next(s', e);
    NextWf(s', e);
    var none: seq<Event<C>> := [];
    ReachesStep(s', e, none, t);
    ReachesAppend(s, es, s', [e] + none, t);
    es := es + ([e] + none);
  }

  /** The retry worker has worked off job i: those before it failed to be sent, that one was sent. */
  ghost predicate Worked<C>(s: State<C>, i: nat, t: State<C>)
    requires Wf(s) && i < |s.jobs|
  {
    var c := s.jobs[i];
    && t.info == s.info && t.acks == s.acks && t.dropped == s.dropped
    && t.pending == (if s.info[c].sequence in s.pending then s.pending else s.pending[s.info[c].sequence := c])
    && t.jobs == s.jobs[i + 1..]
    && t.retry == s.retry + (set x | x in s.jobs[..i])
    && t.gc == s.gc + s.jobs[..i + 1]
  }

  lemma WorkedMore<C>(s: State<C>, i: nat, t: State<C>)
    requires Wf(s) && 0 < i < |s.jobs|
    requires var s' := Next(s, RunRetryJob(false)); Wf(s') && |s'.jobs| == |s.jobs| - 1 && Worked(s', i - 1, t)
    ensures Worked(s, i, t)
  {
    var s' := Next(s, RunRetryJob(false));
    assert s'.jobs[i - 1] == s.jobs[i] && s'.jobs[i..] == s.jobs[i + 1..];
    assert s.jobs[..i] == [s.jobs[0]] + s'.jobs[..i - 1];
    assert s.jobs[..i + 1] == [s.jobs[0]] + s'.jobs[..i];
    assert s'.gc + s'.jobs[..i] == s.gc + ([s.jobs[0]] + s'.jobs[..i]);
  }

  lemma {:induction false} Work<C>(s: State<C>, i: nat) returns (es: seq<Event<C>>, t: State<C>)
    requires Wf(s) && i < |s.jobs|
    ensures Reaches(s, es, t) && Worked(s, i, t) && forall e <- es :: e.RunRetryJob?
    decreases i
  {
    var e: Event<C> := RunRetryJob(i == 0);
    var s' := Next(s, e);
    NextWf(s, e);
    var rest: seq<Event<C>> := [];
    if i == 0 {
      t := s';
      assert s.jobs[..1] == [s.jobs[0]];
    } else {
      rest, t := Work(s', i - 1);
      WorkedMore(s, i, t);
    }
    ReachesStep(s, e, rest, t);
    es := [e] + rest;
  }

  // ---------- the assumption cannot be weakened ----------

  ghost predicate Lost<C>(s: State<C>, c: C) {
    c in s.info && !s.info[c].finished && c !in s.dropped && !Held(s, c)
  }

  lemma LostIsNotConserved<C>(s: State<C>, c: C)
    requires Lost(s, c)
    ensures !AllConserved(s)
  {
    NoCopyIffNotHeld(s, c);
    assert !Conserved(s, c);
  }

  /** Where the two chunks are right after one was created with the sequence k that the other, in flight, uses, too. */
  ghost predicate Clash<C>(s: State<C>, c: C, d: C, ok: bool, p: Place) {
    && Wf(s) && c != d && c in s.info && d in s.info
    && InFlight(p) && At(s, d, p)
    && s.info[c].sequence == s.info[d].sequence
    && !s.info[c].finished && s.info[c].retryNum == 0
    && c in s.gc && c !in s.dropped && c !in s.jobs
    && (forall j <- s.pending :: s.pending[j] == c ==> j == s.info[c].sequence)
    && (forall u <- s.acks :: s.acks[u] != c)
    && (forall u <- s.acks :: s.info[s.acks[u]].sequence == s.info[c].sequence ==> s.acks[u] == d)
    && (ok ==> c !in s.retry)
    && (!ok ==> c in s.retry && (s.info[c].sequence in s.pending ==> s.pending[s.info[c].sequence] == d))
    && (ok && p != Pending ==> s.info[c].sequence in s.pending && s.pending[s.info[c].sequence] == c)
    && (ok && p == Pending ==> c !in s.pending.Values)
    && (p == Pending || p == Retry || p.Ack? ==> d in s.gc)
  }

  /** Where two chunks are right after c was created with the sequence that d, still in flight, uses, too. */
  lemma NewChunkClashes<C>(s: State<C>, w: map<C, Place>, e: Event<C>, d: C)
    requires Inv(s, w) && e.NewChunk? && Enabled(s, e)
    requires d in s.info && Held(s, d) && s.info[d].sequence == e.sequence
    ensures Clash(Next(s, e), e.c, d, e.ok, w[d])
  {
    NextWf(s, e);
    FreshIsNowhere(s, e.c);
    HeldIffInFlight(s, w, d);
    assert Good(s, d, w[d]);
    if e.sequence in s.pending {
      PendingIsPlaced(s, w, e.sequence);
    }
    forall u | u in s.acks && s.info[s.acks[u]].sequence == e.sequence ensures s.acks[u] == d {
      assert Good(s, s.acks[u], w[s.acks[u]]);
    }
    assert d in multiset(s.gc) <==> d in s.gc;
    assert multiset(s.gc + [e.c])[e.c] == 1;
  }

  lemma NotAJob<C>(s: State<C>, c: C)
    requires multiset(s.jobs)[c] == 0
    ensures c !in s.jobs
  {
    assert c in s.jobs ==> c in multiset(s.jobs);
  }

  lemma OnlyAt<C>(q: seq<C>, d: C) returns (i: nat)
    requires multiset(q)[d] == 1
    ensures i < |q| && q[i] == d && d !in q[..i] && d !in q[i + 1..]
  {
    assert d in multiset(q);
    i :| 0 <= i < |q| && q[i] == d;
    assert q == q[..i] + [d] + q[i + 1..];
    assert d !in multiset(q[..i]) && d !in multiset(q[i + 1..]);
  }

  /** d waits for its response: c was never entered, or its timer erases d's entry. */
  lemma ClashPending<C>(s: State<C>, c: C, d: C, ok: bool)
    returns (es: seq<Event<C>>, t: State<C>, lost: C)
    requires Clash(s, c, d, ok, Pending)
    ensures Reaches(s, es, t) && Lost(t, lost)
  {
    if ok {
      es, t, lost := [], s, c;
    } else {
      NotAJob(s, d);
      var victim := SomeVictim(s, s.info[c].sequence);
      es, t := Fire(s, c, victim);
      lost := d;
    }
  }

  /** d waits for its receipt: the timer of c erases d's entry. */
  lemma ClashAck<C>(s: State<C>, c: C, d: C, ok: bool, uid: string)
    returns (es: seq<Event<C>>, t: State<C>, lost: C)
    requires Clash(s, c, d, ok, Ack(uid))
    ensures Reaches(s, es, t) && Lost(t, lost)
  {
    NotAJob(s, d);
    es, t := Fire(s, c, Some(uid));
    lost := d;
  }

  /** d failed and c is pending: the timer of d erases c's entry. */
  lemma ClashRetrySent<C>(s: State<C>, c: C, d: C)
    returns (es: seq<Event<C>>, t: State<C>)
    requires Clash(s, c, d, true, Retry)
    ensures Reaches(s, es, t) && Lost(t, c)
  {
    var victim := SomeVictim(s, s.info[d].sequence);
    es, t := Fire(s, d, victim);
  }

  /** c is pending again, and the timer still watches d. */
  ghost predicate PendingBeside<C>(t: State<C>, c: C, d: C) {
    && Wf(t) && c in t.info && d in t.info && d in t.gc
    && !t.info[c].finished && !t.info[d].finished && t.info[c].sequence == t.info[d].sequence
    && (forall k <- t.pending :: t.pending[k] == c ==> k == t.info[d].sequence)
    && (forall u <- t.acks :: t.acks[u] != c)
    && c !in t.retry && c !in t.jobs && c !in t.dropped
  }

  lemma RetriedBeside<C>(s: State<C>, c: C, d: C, victim: Option<string>, t1: State<C>, t: State<C>)
    requires Clash(s, c, d, false, Retry) && Fired(s, c, victim, t1)
    requires Wf(t1) && |t1.jobs| == |s.jobs| + 1 && Worked(t1, |s.jobs|, t) && Wf(t)
    ensures PendingBeside(t, c, d)
  {
  }

  lemma RetryFirst<C>(s: State<C>, c: C, d: C) returns (es: seq<Event<C>>, t: State<C>)
    requires Clash(s, c, d, false, Retry)
    ensures Reaches(s, es, t) && PendingBeside(t, c, d)
  {
    var victim := SomeVictim(s, s.info[c].sequence);
    var es1, t1 := Fire(s, c, victim);
    var es2;
    es2, t := Work(t1, |s.jobs|);
    RetriedBeside(s, c, d, victim, t1, t);
    ReachesAppend(s, es1, t1, es2, t);
    es := es1 + es2;
  }

  /** Both failed: c is retried first, and then the timer of d erases c's entry. */
  lemma ClashRetryFailed<C>(s: State<C>, c: C, d: C)
    returns (es: seq<Event<C>>, t: State<C>)
    requires Clash(s, c, d, false, Retry)
    ensures Reaches(s, es, t) && Lost(t, c)
  {
    var es1, t1 := RetryFirst(s, c, d);
    var victim := SomeVictim(t1, t1.info[d].sequence);
    var es2;
    es2, t := Fire(t1, d, victim);
    ReachesAppend(s, es1, t1, es2, t);
    es := es1 + es2;
  }

  /** d has a retry job: its entry is refused because of c's, or erased by the timer of c. */
  lemma ClashJob<C>(s: State<C>, c: C, d: C, ok: bool)
    returns (es: seq<Event<C>>, t: State<C>)
    requires Clash(s, c, d, ok, Job)
    ensures Reaches(s, es, t) && Lost(t, d)
  {
    var i := OnlyAt(s.jobs, d);
    es, t := Work(s, i);
    if !ok {
      var victim := SomeVictim(t, t.info[c].sequence);
      var es2, t2 := Fire(t, c, victim);
      ReachesAppend(s, es, t, es2, t2);
      es, t := es + es2, t2;
    }
  }

  lemma ClashLoses<C>(s: State<C>, c: C, d: C, ok: bool, p: Place)
    returns (es: seq<Event<C>>, t: State<C>, lost: C)
    requires Clash(s, c, d, ok, p)
    ensures Reaches(s, es, t) && Lost(t, lost)
  {
    match p
    case Pending => es, t, lost := ClashPending(s, c, d, ok);
    case Ack(uid) => es, t, lost := ClashAck(s, c, d, ok, uid);
    case Retry =>
      lost := c;
      if ok { es, t := ClashRetrySent(s, c, d); } else { es, t := ClashRetryFailed(s, c, d); }
    case Job =>
      lost := d;
      es, t := ClashJob(s, c, d, ok);
  }

  /** From a good state, a colliding step has a continuation without further collisions that loses a chunk. */
  lemma CollisionLoses<C>(s: State<C>, w: map<C, Place>, e: Event<C>)
    returns (es: seq<Event<C>>, t: State<C>)
    requires Inv(s, w) && Enabled(s, e) && !Distinct(s, e)
    ensures Reaches(Next(s, e), es, t) && !AllConserved(t)
  {
    NextWf(s, e);
    if e.NewChunk? {
      var d :| d in s.info && Held(s, d) && s.info[d].sequence == e.sequence;
      NewChunkClashes(s, w, e, d);
      var lost;
      es, t, lost := ClashLoses(Next(s, e), e.c, d, e.ok, w[d]);
      LostIsNotConserved(t, lost);
    } else {
      var c := s.pending[e.sequence];
      PendingIsPlaced(s, w, e.sequence);
      assert Good(s, c, w[c]);
      NotAJob(s, c);
      es, t := [], Next(s, e);
      LostIsNotConserved(t, c);
    }
  }

  ghost predicate KeepsAll<C>(s: State<C>, es: seq<Event<C>>) {
    Possible(s, es) && NoCollision(s, es) ==> AllConserved(Run(s, es))
  }

  /**
   The assumption of ChunkConserved, exactly: from any good state, a step leaves every chunk conserved in every
   continuation without further collisions if and only if the step itself does not collide.
   */
  lemma ConservedEverAfterIff<C>(s: State<C>, w: map<C, Place>, e: Event<C>)
    requires Inv(s, w) && Enabled(s, e)
    ensures (forall es :: KeepsAll(Next(s, e), es)) <==> Distinct(s, e)
  {
    if Distinct(s, e) {
      StepKeeps(s, w, e);
      forall es | Possible(Next(s, e), es) && NoCollision(Next(s, e), es)
        ensures AllConserved(Run(Next(s, e), es))
      {
        var w' := RunKeeps(Next(s, e), NextPlaces(s, w, e), es);
        BaseConserves(Run(Next(s, e), es), w');
      }
    } else {
      var es, t := CollisionLoses(s, w, e);
      assert !KeepsAll(Next(s, e), es);
    }
  }

  // ---------- two inputs ----------

  /**
   Two gateways number their messages independently. When both come to sequence k, the
   second chunk is sent and then forgotten: never retried, never given up.
   */
  lemma TwoGatewaysLoseAChunk<C>(a: C, b: C, k: nat, t0: int, t1: int)
    requires a != b
    ensures var s := Next(Init(), NewChunk(a, k, t0, true));
            && Wf(s) && Enabled(s, NewChunk(b, k, t1, true))
            && var t := Next(s, NewChunk(b, k, t1, true));
               Wf(t) && Lost(t, b) && Sends(t, b) == 1
  {
    var s := Next(Init(), NewChunk(a, k, t0, true));
    var t := Next(s, NewChunk(b, k, t1, true));
    assert t.pending == map[k := a];
    assert t.sent == [a, b];
  }

  /** Both chunks are accepted under sequence k; then a's timer erases b's entry and queues a retry of a. */
  function ResendInput<C>(a: C, b: C, k: nat): seq<Event<C>> {
    [NewChunk(a, k, 0, true)] + ([SubmitResp(0, k, "x")] + ([NewChunk(b, k, 0, true)] + ([SubmitResp(0, k, "y")]
    + [GcTick(RETRY_INTERVAL + 1, true, Some("y"))])))
  }

  lemma StepThenRun<C>(s: State<C>, e: Event<C>, es: seq<Event<C>>)
    requires Wf(s) && Enabled(s, e) && Possible(Next(s, e), es)
    ensures Possible(s, [e] + es) && Run(s, [e] + es) == Run(Next(s, e), es)
  {
    assert ([e] + es)[1..] == es;
  }

  ghost function OneAccepted<C>(a: C, k: nat): State<C> {
    State(map[a := Info(k, 0, 0, false)], map[], map["x" := a], {}, [], [a], [a], [(a, 0)], {})
  }

  ghost function BothAccepted<C>(a: C, b: C, k: nat): State<C>
    requires a != b
  {
    State(map[a := Info(k, 0, 0, false), b := Info(k, 0, 0, false)], map[], map["x" := a, "y" := b], {}, [], [a, b],
          [a, b], [(a, 0), (b, 0)], {})
  }

  lemma OneGetsAccepted<C>(a: C, k: nat, rest: seq<Event<C>>)
    requires Possible(OneAccepted(a, k), rest)
    ensures var es := [NewChunk(a, k, 0, true)] + ([SubmitResp(0, k, "x")] + rest);
            Possible(Init(), es) && Run(Init(), es) == Run(OneAccepted(a, k), rest)
  {
    var s := Next(Init(), NewChunk(a, k, 0, true));
    assert s == OneAccepted(a, k).(pending := map[k := a], acks := map[]);
    assert Next(s, SubmitResp(0, k, "x")) == OneAccepted(a, k);
    StepThenRun(s, SubmitResp(0, k, "x"), rest);
    StepThenRun(Init(), NewChunk(a, k, 0, true), [SubmitResp(0, k, "x")] + rest);
  }

  lemma BothGetAccepted<C>(a: C, b: C, k: nat, rest: seq<Event<C>>)
    requires a != b && Possible(BothAccepted(a, b, k), rest)
    ensures var es := [NewChunk(b, k, 0, true)] + ([SubmitResp(0, k, "y")] + rest);
            Possible(OneAccepted(a, k), es) && Run(OneAccepted(a, k), es) == Run(BothAccepted(a, b, k), rest)
  {
    var s := Next(OneAccepted(a, k), NewChunk(b, k, 0, true));
    assert s == BothAccepted(a, b, k).(pending := map[k := b], acks := map["x" := a]);
    assert Next(s, SubmitResp(0, k, "y")) == BothAccepted(a, b, k);
    StepThenRun(s, SubmitResp(0, k, "y"), rest);
    StepThenRun(OneAccepted(a, k), NewChunk(b, k, 0, true), [SubmitResp(0, k, "y")] + rest);
  }

  /** The timer of a, meeting the entry of b first. */
  lemma TimerQueuesRetry<C>(a: C, b: C, k: nat)
    requires a != b
    ensures var s, e := BothAccepted(a, b, k), GcTick(RETRY_INTERVAL + 1, true, Some("y"));
            && Wf(s) && Enabled(s, e) && Wf(Next(s, e))
            && Next(s, e).acks == map["x" := a] && Next(s, e).jobs == [a]
  {
    NextWf(BothAccepted(a, b, k), GcTick(RETRY_INTERVAL + 1, true, Some("y")));
  }

  lemma RetrySends<C>(s: State<C>, a: C)
    requires Wf(s) && s.acks == map["x" := a] && s.jobs == [a]
    ensures var t := Next(s, DeliverSm(0, "x", "DELIVRD"));
            && Wf(t) && t.info[a].finished && Enabled(t, RunRetryJob(true))
            && Sends(Next(t, RunRetryJob(true)), a) == Sends(t, a) + 1
  {
  }

  /** After a collision a delivered chunk can be sent again. */
  lemma CollisionResendsDelivered<C>(a: C, b: C, k: nat)
    requires a != b
    ensures Possible(Init(), ResendInput(a, b, k))
    ensures var s := Run(Init(), ResendInput(a, b, k));
            && "x" in s.acks && s.acks["x"] == a
            && var t := Next(s, DeliverSm(0, "x", "DELIVRD"));
               && Wf(t) && t.info[a].finished && Enabled(t, RunRetryJob(true))
               && Sends(Next(t, RunRetryJob(true)), a) == Sends(t, a) + 1
  {
    var s, e: Event<C> := BothAccepted(a, b, k), GcTick(RETRY_INTERVAL + 1, true, Some("y"));
    TimerQueuesRetry(a, b, k);
    RetrySends(Next(s, e), a);
    StepThenRun(s, e, []);
    assert [e] + [] == [e];
    BothGetAccepted(a, b, k, [e]);
    OneGetsAccepted(a, k, [NewChunk(b, k, 0, true)] + ([SubmitResp(0, k, "y")] + [e]));
  }
}
