/**
 The life of an SMS chunk inside the SMPP service, as a state machine.

 A chunk is known to the service from its first SendChunk on. Afterwards it is
 reachable only through pendingMsgQueue (sent, waiting for submit_sm_resp),
 ackMsgQueue (accepted, waiting for deliver_sm), retryMsgs (failed) or a job of
 the retry queue. The poll's garbage-collection queue refers to it weakly.
 Every handler is one atomic step. The machine is generic in the identity C of a
 chunk, so that the class in SmppService can use object references for it.
 */
module SmppDelivery {
  import opened Wrappers

  const NUM_OF_RETRIES: nat := 3
  const RETRY_INTERVAL: int := 20

  datatype Info = Info(sequence: nat, retryNum: nat, lastSeen: int, finished: bool)

  /** The last three fields are history: they record what happened and influence nothing. */
  datatype State<C> = State(
    info: map<C, Info>,
    pending: map<nat, C>,
    acks: map<string, C>,
    retry: set<C>,
    jobs: seq<C>,
    gc: seq<C>,
    sent: seq<C>,            // every call of cgateway::Send, in order
    marks: seq<(C, int)>,    // creation and every retry decision, with the time read
    dropped: set<C>          // given up by the timer after the last retry
  )

  /** One atomic step, with what the environment decides as its arguments. */
  datatype Event<C> =
    | NewChunk(c: C, sequence: nat, created: int, ok: bool)
    | RunRetryJob(ok: bool)
    | SubmitResp(status: nat, sequence: nat, uid: string)
    | DeliverSm(status: nat, uid: string, stat: string)
    | GcTick(now: int, locked: bool, victim: Option<string>)

  // ---------- the steps ----------

  ghost predicate Held<C>(s: State<C>, c: C) {
    c in s.pending.Values || c in s.acks.Values || c in s.retry || c in s.jobs
  }

  /** Every chunk the containers mention is known. */
  ghost predicate Wf<C>(s: State<C>) {
    && (forall k <- s.pending :: s.pending[k] in s.info)
    && (forall u <- s.acks :: s.acks[u] in s.info)
    && s.retry <= s.info.Keys
    && s.dropped <= s.info.Keys
    && (forall c <- s.jobs :: c in s.info)
    && (forall c <- s.gc :: c in s.info)
    && (forall c <- s.sent :: c in s.info)
  }

  /** The entry that the scan of ackMsgQueue meets first among those with this sequence. */
  ghost predicate IsVictim<C>(s: State<C>, sequence: nat, victim: Option<string>)
    requires Wf(s)
  {
    match victim
    case Some(u) => u in s.acks && s.info[s.acks[u]].sequence == sequence
    case None => forall u <- s.acks :: s.info[s.acks[u]].sequence != sequence
  }

  /** What can happen at all: fresh objects are fresh, and weak_ptr::lock succeeds on a held chunk. */
  ghost predicate Enabled<C>(s: State<C>, e: Event<C>)
    requires Wf(s)
  {
    match e
    case NewChunk(c, _, _, _) => c !in s.info
    case RunRetryJob(_) => s.jobs != []
    case SubmitResp(_, _, _) => true
    case DeliverSm(_, _, _) => true
    case GcTick(_, locked, victim) =>
      && s.gc != []
      && (Held(s, s.gc[0]) ==> locked)
      && IsVictim(s, s.info[s.gc[0]].sequence, victim)
  }

  /** SendChunk: unordered_map::emplace keeps the entry that is already there. */
  ghost function Send<C>(s: State<C>, c: C, ok: bool): State<C>
    requires Wf(s) && c in s.info
  {
    var k := s.info[c].sequence;
    s.(sent := s.sent + [c],
       gc := s.gc + [c],
       pending := if ok && k !in s.pending then s.pending[k := c] else s.pending,
       retry := if ok then s.retry else s.retry + {c})
  }

  /** The `clean` closure of cackmsg::IsLeaveUs. */
  ghost function Clean<C>(s: State<C>, c: C, victim: Option<string>): State<C>
    requires Wf(s) && c in s.info
  {
    s.(retry := s.retry - {c},
       pending := s.pending - {s.info[c].sequence},
       acks := if victim.Some? then s.acks - {victim.value} else s.acks)
  }

  /** cpoll::Gc on the front of its queue, with cackmsg::IsLeaveUs inlined. */
  ghost function Tick<C>(s: State<C>, now: int, locked: bool, victim: Option<string>): State<C>
    requires Wf(s) && s.gc != []
  {
    var c, rest := s.gc[0], s.gc[1..];
    var i := s.info[c];
    if !locked || i.finished then s.(gc := rest)
    else if i.lastSeen + RETRY_INTERVAL >= now then s.(gc := rest + [c])
    else if i.retryNum + 1 > NUM_OF_RETRIES then
      Clean(s, c, victim).(gc := rest, dropped := s.dropped + {c})
    else
      Clean(s, c, victim).(
        gc := rest,
        info := s.info[c := i.(lastSeen := now, retryNum := i.retryNum + 1)],
        jobs := s.jobs + [c],
        marks := s.marks + [(c, now)])
  }

  ghost function Next<C>(s: State<C>, e: Event<C>): State<C>
    requires Wf(s) && Enabled(s, e)
  {
    match e
    case NewChunk(c, k, t, ok) =>
      Send(s.(info := s.info[c := Info(k, 0, t, false)], marks := s.marks + [(c, t)]), c, ok)
    case RunRetryJob(ok) =>
      Send(s.(jobs := s.jobs[1..]), s.jobs[0], ok)
    case SubmitResp(status, k, uid) =>
      if status != 0 || k !in s.pending then s
      else s.(acks := if uid in s.acks then s.acks else s.acks[uid := s.pending[k]],
              pending := s.pending - {k})
    case DeliverSm(status, uid, stat) =>
      if status != 0 || uid !in s.acks then s
      else
        var c := s.acks[uid];
        if stat != "DELIVRD" then s.(acks := s.acks - {uid}, retry := s.retry + {c})
        else s.(acks := s.acks - {uid}, info := s.info[c := s.info[c].(finished := true)])
    case GcTick(now, locked, victim) => Tick(s, now, locked, victim)
  }

  /** The code relies on this and does not check it: live sequences and gateway uids do not collide. */
  ghost predicate Distinct<C>(s: State<C>, e: Event<C>)
    requires Wf(s)
  {
    match e
    case NewChunk(_, k, _, _) => forall d <- s.info :: Held(s, d) ==> s.info[d].sequence != k
    case SubmitResp(status, k, uid) => status == 0 && k in s.pending ==> uid !in s.acks
    case _ => true
  }

  ghost function Init<C>(): State<C> {
    State(map[], map[], map[], {}, [], [], [], [], {})
  }

  /** Whatever can happen, colliding or not. */
  ghost predicate Possible<C>(s: State<C>, es: seq<Event<C>>)
    decreases |es|
  {
    Wf(s) && (es == [] || (Enabled(s, es[0]) && Possible(Next(s, es[0]), es[1..])))
  }

  ghost function Run<C>(s: State<C>, es: seq<Event<C>>): (t: State<C>)
    requires Possible(s, es)
    ensures Wf(t)
    decreases |es|
  {
    if es == [] then s else Run(Next(s, es[0]), es[1..])
  }

  ghost predicate NoCollision<C>(s: State<C>, es: seq<Event<C>>)
    requires Possible(s, es)
    decreases |es|
  {
    es == [] || (Distinct(s, es[0]) && NoCollision(Next(s, es[0]), es[1..]))
  }

  // ---------- the invariant ----------

  datatype Place = Pending | Ack(uid: string) | Retry | Job | Finished | Dropped

  ghost predicate InFlight(p: Place) {
    !p.Finished? && !p.Dropped?
  }

  /** Chunk c is exactly where p says and in no other container. */
  ghost predicate At<C>(s: State<C>, c: C, p: Place)
    requires c in s.info
  {
    && (forall k <- s.pending :: s.pending[k] == c ==> p == Pending && k == s.info[c].sequence)
    && (p == Pending ==> s.info[c].sequence in s.pending && s.pending[s.info[c].sequence] == c)
    && (forall u <- s.acks :: s.acks[u] == c ==> p == Ack(u))
    && (p.Ack? ==> p.uid in s.acks && s.acks[p.uid] == c)
    && (p == Retry <==> c in s.retry)
    && multiset(s.jobs)[c] == (if p == Job then 1 else 0)
    && (p == Finished <==> s.info[c].finished)
    && (p == Dropped <==> c in s.dropped)
  }

  /** The weak queue watches a chunk once while a map holds it; a finished one may linger. */
  ghost predicate Watched<C>(s: State<C>, c: C, p: Place) {
    && (p == Pending || p == Retry || p.Ack? ==> multiset(s.gc)[c] == 1)
    && (p == Job || p == Dropped ==> multiset(s.gc)[c] == 0)
    && multiset(s.gc)[c] <= 1
  }

  ghost predicate Counted<C>(s: State<C>, c: C)
    requires c in s.info
  {
    && multiset(s.sent)[c] + multiset(s.jobs)[c] == 1 + s.info[c].retryNum
    && s.info[c].retryNum <= NUM_OF_RETRIES
    && (c in s.dropped ==> s.info[c].retryNum == NUM_OF_RETRIES)
  }

  ghost predicate Good<C>(s: State<C>, c: C, p: Place) {
    c in s.info && At(s, c, p) && Watched(s, c, p) && Counted(s, c)
  }

  ghost predicate Separate<C>(s: State<C>, w: map<C, Place>)
    requires w.Keys == s.info.Keys
  {
    forall c, d ::
      && c in w && d in w && InFlight(w[c]) && InFlight(w[d])
      && s.info[c].sequence == s.info[d].sequence
      ==> c == d
  }

  ghost predicate Spaced<C>(s: State<C>) {
    && (forall i :: 0 <= i < |s.marks| ==>
          s.marks[i].0 in s.info && s.marks[i].1 <= s.info[s.marks[i].0].lastSeen)
    && (forall i, j :: 0 <= i < j < |s.marks| && s.marks[i].0 == s.marks[j].0 ==>
          s.marks[i].1 + RETRY_INTERVAL < s.marks[j].1)
  }

  /** w gives the place of each known chunk. */
  ghost predicate AllGood<C>(s: State<C>, w: map<C, Place>) {
    forall c {:trigger Good(s, c, w[c])} :: c in w ==> Good(s, c, w[c])
  }

  ghost predicate Base<C>(s: State<C>, w: map<C, Place>) {
    && Wf(s)
    && w.Keys == s.info.Keys
    && AllGood(s, w)
    && Spaced(s)
  }

  ghost predicate Inv<C>(s: State<C>, w: map<C, Place>) {
    Base(s, w) && Separate(s, w)
  }

  // ---------- every step keeps the invariant ----------

  lemma HeldIffInFlight<C>(s: State<C>, w: map<C, Place>, c: C)
    requires Base(s, w) && c in w
    ensures Held(s, c) <==> InFlight(w[c])
  {
    assert Good(s, c, w[c]);
    assert c in s.jobs <==> c in multiset(s.jobs);
    if w[c] == Pending { assert s.pending[s.info[c].sequence] == c; }
    if w[c].Ack? { assert s.acks[w[c].uid] == c; }
  }

  lemma PendingIsPlaced<C>(s: State<C>, w: map<C, Place>, k: nat)
    requires Base(s, w) && k in s.pending
    ensures s.pending[k] in w && w[s.pending[k]] == Pending
    ensures s.info[s.pending[k]].sequence == k
  {
    assert Good(s, s.pending[k], w[s.pending[k]]);
  }

  lemma FreshIsNowhere<C>(s: State<C>, c: C)
    requires Wf(s) && c !in s.info
    ensures multiset(s.jobs)[c] == multiset(s.gc)[c] == multiset(s.sent)[c] == 0
  {
    assert c !in multiset(s.jobs) && c !in multiset(s.gc) && c !in multiset(s.sent);
  }

  lemma NextWf<C>(s: State<C>, e: Event<C>)
    requires Wf(s) && Enabled(s, e)
    ensures Wf(Next(s, e))
  {
    if e.GcTick? {
      assert s.gc == [s.gc[0]] + s.gc[1..];
    }
  }

  /** Where a chunk is after its bytes were handed to the socket. */
  ghost function SentPlace(ok: bool): Place {
    if ok then Pending else Retry
  }

  /** SendChunk puts a chunk that is nowhere into one container and leaves the others alone. */
  lemma SendGood<C>(s: State<C>, c: C, ok: bool, d: C, p: Place)
    requires Wf(s) && c in s.info && (ok ==> s.info[c].sequence !in s.pending)
    requires d != c ==> Good(s, d, p)
    requires d == c ==>
      && (forall k <- s.pending :: s.pending[k] != c)
      && (forall u <- s.acks :: s.acks[u] != c)
      && c !in s.retry && c !in s.dropped && !s.info[c].finished
      && multiset(s.jobs)[c] == multiset(s.gc)[c] == 0
      && multiset(s.sent)[c] == s.info[c].retryNum <= NUM_OF_RETRIES
      && p == SentPlace(ok)
    ensures Good(Send(s, c, ok), d, p)
  {
  }

  lemma NewChunkGood<C>(s: State<C>, e: Event<C>, d: C, p: Place)
    requires Wf(s) && e.NewChunk? && Enabled(s, e) && (e.ok ==> e.sequence !in s.pending)
    requires d != e.c ==> Good(s, d, p)
    requires d == e.c ==> p == SentPlace(e.ok)
    ensures Good(Next(s, e), d, p)
  {
    FreshIsNowhere(s, e.c);
    var s0 := s.(info := s.info[e.c := Info(e.sequence, 0, e.created, false)],
                 marks := s.marks + [(e.c, e.created)]);
    SendGood(s0, e.c, e.ok, d, p);
  }

  lemma RetryJobGood<C>(s: State<C>, e: Event<C>, d: C, p: Place)
    requires Wf(s) && e.RunRetryJob? && Enabled(s, e) && Good(s, d, p)
    requires e.ok ==> s.info[s.jobs[0]].sequence !in s.pending
    requires d == s.jobs[0] ==> p == Job
    ensures Good(Next(s, e), d, if d == s.jobs[0] then SentPlace(e.ok) else p)
  {
    var c := s.jobs[0];
    assert s.jobs == [c] + s.jobs[1..];
    SendGood(s.(jobs := s.jobs[1..]), c, e.ok, d, if d == c then SentPlace(e.ok) else p);
  }

  lemma SubmitRespGood<C>(s: State<C>, e: Event<C>, d: C, p: Place)
    requires Wf(s) && e.SubmitResp? && Distinct(s, e)
    requires e.status == 0 && e.sequence in s.pending && Good(s, d, p)
    ensures Good(Next(s, e), d, if d == s.pending[e.sequence] then Ack(e.uid) else p)
  {
  }

  ghost function DeliveredPlace(stat: string): Place {
    if stat == "DELIVRD" then Finished else Retry
  }

  lemma ReceiptOther<C>(s: State<C>, e: Event<C>, d: C, p: Place)
    requires Wf(s) && e.DeliverSm? && e.status == 0 && e.uid in s.acks && d != s.acks[e.uid] && Good(s, d, p)
    ensures Good(Next(s, e), d, p)
  {
  }

  lemma DeliverSmGood<C>(s: State<C>, e: Event<C>, d: C, p: Place)
    requires Wf(s) && e.DeliverSm?
    requires e.status == 0 && e.uid in s.acks && Good(s, d, p)
    ensures Good(Next(s, e), d, if d == s.acks[e.uid] then DeliveredPlace(e.stat) else p)
  {
    if d != s.acks[e.uid] {
      ReceiptOther(s, e, d, p);
    }
  }

  /** What the timer does to the place of the chunk it looks at. */
  ghost function TickPlace(i: Info, p: Place, now: int, locked: bool): Place {
    if !locked || i.finished || i.lastSeen + RETRY_INTERVAL >= now then p
    else if i.retryNum + 1 > NUM_OF_RETRIES then Dropped
    else Job
  }

  /** The entries `clean` erases belong to the chunk itself. */
  ghost predicate OwnEntries<C>(s: State<C>, c: C, victim: Option<string>)
    requires Wf(s) && c in s.info
    requires IsVictim(s, s.info[c].sequence, victim)
  {
    && (s.info[c].sequence in s.pending ==> s.pending[s.info[c].sequence] == c)
    && (victim.Some? ==> s.acks[victim.value] == c)
  }

  lemma InFlightOwnsEntries<C>(s: State<C>, w: map<C, Place>, c: C, victim: Option<string>)
    requires Inv(s, w) && c in w && InFlight(w[c])
    requires IsVictim(s, s.info[c].sequence, victim)
    ensures OwnEntries(s, c, victim)
  {
    var k := s.info[c].sequence;
    if k in s.pending {
      var d := s.pending[k];
      assert Good(s, d, w[d]);
    }
    if victim.Some? {
      var d := s.acks[victim.value];
      assert Good(s, d, w[d]);
    }
  }

  lemma CleanAt<C>(s: State<C>, c: C, victim: Option<string>, d: C, p: Place)
    requires Wf(s) && c in s.info && d in s.info && At(s, d, p)
    requires IsVictim(s, s.info[c].sequence, victim) && OwnEntries(s, c, victim)
    ensures d != c ==> At(Clean(s, c, victim), d, p)
    ensures d == c ==>
              var t := Clean(s, c, victim);
              && (forall k <- t.pending :: t.pending[k] != c)
              && (forall u <- t.acks :: t.acks[u] != c)
              && c !in t.retry
  {
    if d == c && p.Ack? {
      assert s.acks[p.uid] == c;
    }
  }

  ghost predicate TimerFires<C>(s: State<C>, e: Event<C>)
    requires Wf(s) && e.GcTick? && s.gc != []
  {
    var i := s.info[s.gc[0]];
    e.locked && !i.finished && i.lastSeen + RETRY_INTERVAL < e.now
  }

  lemma OtherCount<C>(q: seq<C>, c: C, d: C)
    requires c != d
    ensures multiset(q + [c])[d] == multiset(q)[d]
    ensures q != [] && q[0] == c ==> multiset(q[1..])[d] == multiset(q)[d]
    ensures q != [] && q[0] == c ==> multiset(q[1..] + [c])[d] == multiset(q)[d]
  {
    if q != [] && q[0] == c {
      assert q == [c] + q[1..];
    }
  }

  lemma TickQueues<C>(s: State<C>, e: Event<C>)
    requires Wf(s) && e.GcTick? && Enabled(s, e)
    ensures var t, c := Next(s, e), s.gc[0];
            && (t.gc == s.gc[1..] || t.gc == s.gc[1..] + [c])
            && (t.jobs == s.jobs || t.jobs == s.jobs + [c])
  {
  }

  /** What the timer's look at one chunk leaves alone in the others. */
  lemma TickOther<C>(s: State<C>, e: Event<C>, d: C)
    requires Wf(s) && e.GcTick? && Enabled(s, e) && d in s.info && d != s.gc[0]
    ensures var t := Next(s, e);
            && d in t.info && t.info[d] == s.info[d] && t.sent == s.sent
            && (d in t.dropped <==> d in s.dropped)
            && multiset(t.gc)[d] == multiset(s.gc)[d]
            && multiset(t.jobs)[d] == multiset(s.jobs)[d]
  {
    OtherCount(s.gc, s.gc[0], d);
    OtherCount(s.jobs, s.gc[0], d);
    TickQueues(s, e);
  }

  lemma GcTickIdleGood<C>(s: State<C>, e: Event<C>, d: C, p: Place, q: Place)
    requires Wf(s) && e.GcTick? && Enabled(s, e) && !TimerFires(s, e)
    requires Good(s, d, p) && Good(s, s.gc[0], q)
    requires InFlight(q) ==> e.locked
    requires d == s.gc[0] ==> p == q
    ensures Good(Next(s, e), d, p)
  {
    var c := s.gc[0];
    assert s.gc == [c] + s.gc[1..];
    assert c in multiset(s.gc);
    assert multiset(s.gc[1..] + [c]) == multiset(s.gc);
  }

  lemma GcTickFiresSelf<C>(s: State<C>, e: Event<C>, p: Place)
    requires Wf(s) && e.GcTick? && Enabled(s, e) && TimerFires(s, e)
    requires Good(s, s.gc[0], p)
    requires InFlight(p) ==> OwnEntries(s, s.gc[0], e.victim)
    ensures Good(Next(s, e), s.gc[0], TickPlace(s.info[s.gc[0]], p, e.now, e.locked))
  {
    var c := s.gc[0];
    assert s.gc == [c] + s.gc[1..];
    assert c in multiset(s.gc);
    assert InFlight(p) && p != Job;
    CleanAt(s, c, e.victim, c, p);
  }

  lemma GcTickFiresOther<C>(s: State<C>, e: Event<C>, d: C, p: Place, q: Place)
    requires Wf(s) && e.GcTick? && Enabled(s, e) && TimerFires(s, e) && d != s.gc[0]
    requires Good(s, d, p) && Good(s, s.gc[0], q)
    requires InFlight(q) ==> OwnEntries(s, s.gc[0], e.victim)
    ensures Good(Next(s, e), d, p)
  {
    var c := s.gc[0];
    assert c in multiset(s.gc);
    TickOther(s, e, d);
    CleanAt(s, c, e.victim, d, p);
  }

  lemma GcTickGood<C>(s: State<C>, e: Event<C>, d: C, p: Place, q: Place)
    requires Wf(s) && e.GcTick? && Enabled(s, e)
    requires Good(s, d, p) && Good(s, s.gc[0], q)
    requires InFlight(q) ==> e.locked && OwnEntries(s, s.gc[0], e.victim)
    requires d == s.gc[0] ==> p == q
    ensures Good(Next(s, e), d, if d == s.gc[0] then TickPlace(s.info[d], p, e.now, e.locked) else p)
  {
    if TimerFires(s, e) {
      if d == s.gc[0] {
        GcTickFiresSelf(s, e, p);
      } else {
        GcTickFiresOther(s, e, d, p, q);
      }
    } else {
      GcTickIdleGood(s, e, d, p, q);
    }
  }

  lemma GcTickSpaced<C>(s: State<C>, e: Event<C>)
    requires Wf(s) && e.GcTick? && Enabled(s, e) && Spaced(s)
    ensures Spaced(Next(s, e))
  {
  }

  /** Where each chunk is after a step. */
  ghost function NextPlaces<C>(s: State<C>, w: map<C, Place>, e: Event<C>): map<C, Place>
    requires Base(s, w) && Enabled(s, e)
  {
    match e
    case NewChunk(c, _, _, ok) => w[c := SentPlace(ok)]
    case RunRetryJob(ok) => w[s.jobs[0] := SentPlace(ok)]
    case SubmitResp(status, k, uid) => if status == 0 && k in s.pending then w[s.pending[k] := Ack(uid)] else w
    case DeliverSm(status, uid, stat) =>
      if status == 0 && uid in s.acks then w[s.acks[uid] := DeliveredPlace(stat)] else w
    case GcTick(now, locked, _) =>
      w[s.gc[0] := TickPlace(s.info[s.gc[0]], w[s.gc[0]], now, locked)]
  }

  /** The step finds its place in the maps free, and erases only entries of its own chunk. */
  ghost predicate Safe<C>(s: State<C>, w: map<C, Place>, e: Event<C>)
    requires Base(s, w) && Enabled(s, e)
  {
    match e
    case NewChunk(_, k, _, ok) => ok ==> k !in s.pending
    case RunRetryJob(ok) => ok ==> s.info[s.jobs[0]].sequence !in s.pending
    case SubmitResp(status, k, uid) => status == 0 && k in s.pending ==> uid !in s.acks
    case DeliverSm(_, _, _) => true
    case GcTick(_, _, victim) => InFlight(w[s.gc[0]]) ==> OwnEntries(s, s.gc[0], victim)
  }

  lemma JobIsPlaced<C>(s: State<C>, w: map<C, Place>)
    requires Base(s, w) && s.jobs != []
    ensures s.jobs[0] in w && w[s.jobs[0]] == Job
  {
    assert Good(s, s.jobs[0], w[s.jobs[0]]);
    assert s.jobs[0] in multiset(s.jobs);
  }

  lemma StepGood<C>(s: State<C>, w: map<C, Place>, e: Event<C>, d: C)
    requires Base(s, w) && Enabled(s, e) && Safe(s, w, e) && d in NextPlaces(s, w, e)
    ensures Good(Next(s, e), d, NextPlaces(s, w, e)[d])
  {
    assert d in w ==> Good(s, d, w[d]);
    match e
    case NewChunk(c, _, _, _) => NewChunkGood(s, e, d, NextPlaces(s, w, e)[d]);
    case RunRetryJob(_) =>
      JobIsPlaced(s, w);
      RetryJobGood(s, e, d, w[d]);
    case SubmitResp(status, k, _) =>
      if status == 0 && k in s.pending { SubmitRespGood(s, e, d, w[d]); }
    case DeliverSm(status, uid, _) =>
      if status == 0 && uid in s.acks { DeliverSmGood(s, e, d, w[d]); }
    case GcTick(_, _, _) =>
      var c := s.gc[0];
      assert Good(s, c, w[c]);
      HeldIffInFlight(s, w, c);
      GcTickGood(s, e, d, w[d], w[c]);
  }

  lemma StepSpaces<C>(s: State<C>, e: Event<C>)
    requires Wf(s) && Enabled(s, e) && Spaced(s)
    ensures Spaced(Next(s, e))
  {
    if e.GcTick? {
      GcTickSpaced(s, e);
    }
  }

  lemma StepAllGood<C>(s: State<C>, w: map<C, Place>, e: Event<C>)
    requires Base(s, w) && Enabled(s, e) && Safe(s, w, e)
    ensures AllGood(Next(s, e), NextPlaces(s, w, e))
  {
    forall d | d in NextPlaces(s, w, e) ensures Good(Next(s, e), d, NextPlaces(s, w, e)[d]) {
      StepGood(s, w, e, d);
    }
  }

  lemma StepBase<C>(s: State<C>, w: map<C, Place>, e: Event<C>)
    requires Base(s, w) && Enabled(s, e) && Safe(s, w, e)
    ensures Base(Next(s, e), NextPlaces(s, w, e))
  {
    NextWf(s, e);
    StepSpaces(s, e);
    StepAllGood(s, w, e);
  }

  lemma DistinctIsSafe<C>(s: State<C>, w: map<C, Place>, e: Event<C>)
    requires Inv(s, w) && Enabled(s, e) && Distinct(s, e)
    ensures Safe(s, w, e)
  {
    match e
    case NewChunk(_, k, _, _) =>
      if k in s.pending {
        PendingIsPlaced(s, w, k);
        assert Held(s, s.pending[k]);
      }
    case RunRetryJob(_) =>
      JobIsPlaced(s, w);
      var k := s.info[s.jobs[0]].sequence;
      if k in s.pending { PendingIsPlaced(s, w, k); }
    case GcTick(_, _, victim) =>
      if InFlight(w[s.gc[0]]) { InFlightOwnsEntries(s, w, s.gc[0], victim); }
    case _ =>
  }

  /** No step but a new chunk brings a chunk into flight, or changes a sequence. */
  lemma StepFlight<C>(s: State<C>, w: map<C, Place>, e: Event<C>, c: C)
    requires Base(s, w) && Enabled(s, e) && c in w && (e.NewChunk? ==> c != e.c)
    ensures c in NextPlaces(s, w, e) && (InFlight(NextPlaces(s, w, e)[c]) ==> InFlight(w[c]))
    ensures c in Next(s, e).info && Next(s, e).info[c].sequence == s.info[c].sequence
  {
    assert Good(s, c, w[c]);
    if e.RunRetryJob? { JobIsPlaced(s, w); }
  }

  lemma StepKeeps<C>(s: State<C>, w: map<C, Place>, e: Event<C>)
    requires Inv(s, w) && Enabled(s, e) && Distinct(s, e)
    ensures Inv(Next(s, e), NextPlaces(s, w, e))
  {
    DistinctIsSafe(s, w, e);
    StepBase(s, w, e);
    var t, w' := Next(s, e), NextPlaces(s, w, e);
    forall c | c in w
      ensures c in w' && (InFlight(w'[c]) ==> InFlight(w[c])) && t.info[c].sequence == s.info[c].sequence
    {
      if e.NewChunk? { assert c != e.c; }
      StepFlight(s, w, e, c);
    }
    if e.NewChunk? {
      forall d | d in w && InFlight(w[d]) ensures s.info[d].sequence != e.sequence {
        HeldIffInFlight(s, w, d);
      }
    }
  }

  lemma {:induction false} RunKeeps<C>(s: State<C>, w: map<C, Place>, es: seq<Event<C>>)
    returns (w': map<C, Place>)
    requires Inv(s, w) && Possible(s, es) && NoCollision(s, es)
    ensures Inv(Run(s, es), w')
    decreases |es|
  {
    if es == [] {
      w' := w;
    } else {
      StepKeeps(s, w, es[0]);
      w' := RunKeeps(Next(s, es[0]), NextPlaces(s, w, es[0]), es[1..]);
    }
  }

  lemma InitInv<C>()
    ensures Inv(Init<C>(), map[])
  {
  }

  // ---------- where a chunk is, over every collision-free run ----------

  ghost function PendingKeys<C>(s: State<C>, c: C): set<nat> {
    set k | k in s.pending && s.pending[k] == c
  }

  ghost function AckKeys<C>(s: State<C>, c: C): set<string> {
    set u | u in s.acks && s.acks[u] == c
  }

  /** How many entries of the three maps and of the job queue refer to c. */
  ghost function Copies<C>(s: State<C>, c: C): nat {
    |PendingKeys(s, c)| + |AckKeys(s, c)| + (if c in s.retry then 1 else 0) + multiset(s.jobs)[c]
  }

  lemma CopiesOfPlace<C>(s: State<C>, c: C, p: Place)
    requires Good(s, c, p)
    ensures Copies(s, c) == if InFlight(p) then 1 else 0
  {
    assert PendingKeys(s, c) == if p == Pending then {s.info[c].sequence} else {};
    assert AckKeys(s, c) == if p.Ack? then {p.uid} else {};
  }

  lemma NoCopyIffNotHeld<C>(s: State<C>, c: C)
    ensures Copies(s, c) == 0 <==> !Held(s, c)
  {
    assert c in s.jobs <==> c in multiset(s.jobs);
    forall k | k in s.pending && s.pending[k] == c ensures k in PendingKeys(s, c) {}
    forall u | u in s.acks && s.acks[u] == c ensures u in AckKeys(s, c) {}
  }

  /** Exactly one owner while a chunk is neither finished nor given up, none afterwards. */
  ghost predicate Conserved<C>(s: State<C>, c: C)
    requires c in s.info
  {
    Copies(s, c) == if s.info[c].finished || c in s.dropped then 0 else 1
  }

  ghost predicate AllConserved<C>(s: State<C>) {
    forall c :: c in s.info ==> Conserved(s, c)
  }

  lemma BaseConserves<C>(s: State<C>, w: map<C, Place>)
    requires Base(s, w)
    ensures AllConserved(s)
  {
    forall c | c in s.info ensures Conserved(s, c) {
      assert Good(s, c, w[c]);
      CopiesOfPlace(s, c, w[c]);
    }
  }

  /** No handler loses or duplicates a chunk that is neither finished nor out of retries. */
  lemma ChunkConserved<C>(es: seq<Event<C>>)
    requires Possible(Init(), es) && NoCollision(Init(), es)
    ensures AllConserved(Run(Init(), es))
  {
    InitInv<C>();
    var w := RunKeeps(Init(), map[], es);
    BaseConserves(Run(Init(), es), w);
  }

  /** Only unfinished chunks are given up. */
  lemma GivenUpUnfinished<C>(es: seq<Event<C>>, c: C)
    requires Possible(Init(), es) && NoCollision(Init(), es)
    requires c in Run(Init(), es).info && c in Run(Init(), es).dropped
    ensures !Run(Init(), es).info[c].finished
  {
    InitInv<C>();
    var w := RunKeeps(Init(), map[], es);
    assert Good(Run(Init(), es), c, w[c]);
  }

  // ---------- sends and retries, over every run, colliding or not ----------

  /** The job queue and the weak queue share each chunk between them; a given-up chunk is in neither. */
  ghost predicate Tallied<C>(s: State<C>, c: C)
    requires c in s.info
  {
    && Counted(s, c)
    && multiset(s.gc)[c] + multiset(s.jobs)[c] <= if c in s.dropped then 0 else 1
  }

  ghost predicate AllTallied<C>(s: State<C>) {
    Wf(s) && forall c {:trigger Tallied(s, c)} :: c in s.info ==> Tallied(s, c)
  }

  lemma NewChunkTallies<C>(s: State<C>, e: Event<C>, d: C)
    requires Wf(s) && e.NewChunk? && Enabled(s, e)
    requires d in s.info ==> Tallied(s, d)
    requires d in Next(s, e).info
    ensures Tallied(Next(s, e), d)
  {
    FreshIsNowhere(s, e.c);
  }

  lemma RetryJobTallies<C>(s: State<C>, e: Event<C>, d: C)
    requires Wf(s) && e.RunRetryJob? && Enabled(s, e) && d in s.info && Tallied(s, d)
    ensures Tallied(Next(s, e), d)
  {
    var c := s.jobs[0];
    assert s.jobs == [c] + s.jobs[1..];
    assert c in multiset(s.jobs);
  }

  lemma GcTickTalliesSelf<C>(s: State<C>, e: Event<C>)
    requires Wf(s) && e.GcTick? && Enabled(s, e) && Tallied(s, s.gc[0])
    ensures Tallied(Next(s, e), s.gc[0])
  {
    var c := s.gc[0];
    assert s.gc == [c] + s.gc[1..];
    assert c in multiset(s.gc);
    assert multiset(s.gc[1..] + [c]) == multiset(s.gc);
  }

  lemma GcTickTalliesOther<C>(s: State<C>, e: Event<C>, d: C)
    requires Wf(s) && e.GcTick? && Enabled(s, e) && d in s.info && Tallied(s, d) && d != s.gc[0]
    ensures Tallied(Next(s, e), d)
  {
    TickOther(s, e, d);
  }

  lemma StepTallies<C>(s: State<C>, e: Event<C>)
    requires AllTallied(s) && Enabled(s, e)
    ensures AllTallied(Next(s, e))
  {
    NextWf(s, e);
    forall d | d in Next(s, e).info ensures Tallied(Next(s, e), d) {
      assert d in s.info ==> Tallied(s, d);
      match e
      case NewChunk(_, _, _, _) => NewChunkTallies(s, e, d);
      case RunRetryJob(_) => RetryJobTallies(s, e, d);
      case GcTick(_, _, _) =>
        if d == s.gc[0] { GcTickTalliesSelf(s, e); } else { GcTickTalliesOther(s, e, d); }
      case _ =>
    }
  }

  lemma {:induction false} RunTallies<C>(s: State<C>, es: seq<Event<C>>)
    requires AllTallied(s) && Spaced(s) && Possible(s, es)
    ensures AllTallied(Run(s, es)) && Spaced(Run(s, es))
    decreases |es|
  {
    if es != [] {
      StepTallies(s, es[0]);
      StepSpaces(s, es[0]);
      RunTallies(Next(s, es[0]), es[1..]);
    }
  }

  /** Sends plus queued retry jobs are 1 + retryNum, and retryNum is bounded; given up only at the bound. */
  lemma SendsBounded<C>(es: seq<Event<C>>, c: C)
    requires Possible(Init(), es)
    requires c in Run(Init(), es).info
    ensures var s := Run(Init(), es);
            && multiset(s.sent)[c] + multiset(s.jobs)[c] == 1 + s.info[c].retryNum
            && s.info[c].retryNum <= 3
            && multiset(s.sent)[c] <= 4
            && (c in s.dropped ==> multiset(s.sent)[c] == 4)
  {
    RunTallies(Init(), es);
    assert Tallied(Run(Init(), es), c);
  }

  /** Creation and retry decisions of one chunk are more than the retry interval apart, whatever the clock does. */
  lemma RetriesSpaced<C>(es: seq<Event<C>>, i: nat, j: nat)
    requires Possible(Init(), es)
    requires i < j < |Run(Init(), es).marks|
    requires Run(Init(), es).marks[i].0 == Run(Init(), es).marks[j].0
    ensures Run(Init(), es).marks[j].1 - Run(Init(), es).marks[i].1 > 20
  {
    RunTallies(Init(), es);
  }

  // ---------- what decides ----------

  /** A chunk handed to the socket waits for its response if that worked, and among the failed ones if not. */
  lemma SentWhere<C>(s: State<C>, c: C, ok: bool)
    requires Wf(s) && c in s.info && s.info[c].sequence !in s.pending && c !in s.retry
    ensures var t := Send(s, c, ok);
            && (c in t.pending.Values <==> ok || c in s.pending.Values)
            && (c in t.retry <==> !ok)
            && t.sent == s.sent + [c] && t.acks == s.acks && t.jobs == s.jobs && t.info == s.info
  {
    var t, k := Send(s, c, ok), s.info[c].sequence;
    if ok {
      assert t.pending[k] == c;
    }
  }

  /** An accepted chunk waits under its uid and no longer under its sequence; a refusal changes nothing. */
  lemma AcceptedWhere<C>(s: State<C>, status: nat, k: nat, uid: string)
    requires Wf(s) && k in s.pending && uid !in s.acks
    ensures var t := Next(s, SubmitResp(status, k, uid));
            if status == 0 then
              uid in t.acks && t.acks[uid] == s.pending[k] && k !in t.pending && t.info == s.info && t.retry == s.retry
            else t == s
  {
  }

  /** A receipt with any other word makes the chunk one of the failed ones. */
  lemma RefusedWhere<C>(s: State<C>, uid: string, stat: string)
    requires Wf(s) && uid in s.acks && stat != "DELIVRD"
    ensures var t := Next(s, DeliverSm(0, uid, stat));
            s.acks[uid] in t.retry && uid !in t.acks && t.info == s.info && t.jobs == s.jobs
  {
  }

  /**
   The timer's look at an unfinished chunk: seen in the last 20 seconds it is looked at again, otherwise it is sent once
   more, and after three retries it is given up; in both cases it has left the maps.
   */
  lemma TimerDecides<C>(s: State<C>, now: int, victim: Option<string>)
    requires Wf(s) && Enabled(s, GcTick(now, true, victim)) && !s.info[s.gc[0]].finished
    ensures var t := Next(s, GcTick(now, true, victim));
            var c := s.gc[0];
            var overdue := s.info[c].lastSeen + 20 < now;
            && t.jobs == s.jobs + (if overdue && s.info[c].retryNum < 3 then [c] else [])
            && t.dropped == s.dropped + (if overdue && s.info[c].retryNum >= 3 then {c} else {})
            && t.gc == s.gc[1..] + (if overdue then [] else [c])
            && t.info.Keys == s.info.Keys && (forall d <- s.info :: d != c ==> t.info[d] == s.info[d])
            && (overdue ==> t.retry == s.retry - {c} && t.pending == s.pending - {s.info[c].sequence})
            && (overdue ==> t.acks == if victim.Some? then s.acks - {victim.value} else s.acks)
            && (!overdue ==> t.info == s.info && t.retry == s.retry && t.pending == s.pending && t.acks == s.acks)
  {
  }

  /** A finished chunk, or one that is gone, leaves the queue and nothing else changes. */
  lemma TimerLetsGo<C>(s: State<C>, now: int, locked: bool, victim: Option<string>)
    requires Wf(s) && Enabled(s, GcTick(now, locked, victim)) && (locked ==> s.info[s.gc[0]].finished)
    ensures Next(s, GcTick(now, locked, victim)) == s.(gc := s.gc[1..])
  {
  }

  /** In some state of the run a good receipt with the word "DELIVRD" arrived under the uid of this chunk. */
  ghost predicate Receipted<C>(s: State<C>, es: seq<Event<C>>, c: C)
    requires Possible(s, es)
    decreases |es|
  {
    es != [] &&
    ((es[0].DeliverSm? && es[0].status == 0 && es[0].stat == "DELIVRD" && es[0].uid in s.acks && s.acks[es[0].uid] == c)
     || Receipted(Next(s, es[0]), es[1..], c))
  }

  lemma StepFinishesIff<C>(s: State<C>, e: Event<C>, c: C)
    requires Wf(s) && Enabled(s, e)
    ensures var t := Next(s, e);
            (c in t.info && t.info[c].finished)
            <==> (c in s.info && s.info[c].finished)
                 || (e.DeliverSm? && e.status == 0 && e.stat == "DELIVRD" && e.uid in s.acks && s.acks[e.uid] == c)
  {
  }

  /** Over any run, colliding or not, a chunk is finished exactly if its delivery receipt arrived. */
  lemma {:induction false} FinishedIff<C>(s: State<C>, es: seq<Event<C>>, c: C)
    requires Possible(s, es)
    ensures (c in Run(s, es).info && Run(s, es).info[c].finished)
            <==> (c in s.info && s.info[c].finished) || Receipted(s, es, c)
    decreases |es|
  {
    if es != [] {
      StepFinishesIff(s, es[0], c);
      FinishedIff(Next(s, es[0]), es[1..], c);
    }
  }

  // ---------- no send after delivery ----------

  ghost function Sends<C>(s: State<C>, c: C): nat {
    multiset(s.sent)[c]
  }

  lemma FinishedTickStays<C>(s: State<C>, e: Event<C>, c: C)
    requires Wf(s) && e.GcTick? && Enabled(s, e) && c in s.info && s.info[c].finished && c !in s.jobs
    ensures c in Next(s, e).info && Next(s, e).info[c].finished && c !in Next(s, e).jobs
    ensures Sends(Next(s, e), c) == Sends(s, c)
  {
  }

  lemma FinishedStepStays<C>(s: State<C>, e: Event<C>, c: C)
    requires Wf(s) && Enabled(s, e) && c in s.info && s.info[c].finished && c !in s.jobs
    ensures c in Next(s, e).info && Next(s, e).info[c].finished && c !in Next(s, e).jobs
    ensures Sends(Next(s, e), c) == Sends(s, c)
  {
    if e.GcTick? {
      FinishedTickStays(s, e, c);
    }
  }

  lemma CleanUnheld<C>(s: State<C>, d: C, victim: Option<string>, c: C)
    requires Wf(s) && d in s.info && !Held(s, c)
    ensures !Held(Clean(s, d, victim), c)
  {
  }

  lemma TickUnheld<C>(s: State<C>, now: int, locked: bool, victim: Option<string>, c: C)
    requires Wf(s) && s.gc != [] && !Held(s, c) && c in s.info && s.info[c].finished
    ensures !Held(Tick(s, now, locked, victim), c)
  {
    CleanUnheld(s, s.gc[0], victim, c);
  }

  lemma FinishedStepUnheld<C>(s: State<C>, e: Event<C>, c: C)
    requires Wf(s) && Enabled(s, e) && c in s.info && s.info[c].finished && !Held(s, c)
    ensures !Held(Next(s, e), c)
  {
    match e
    case GcTick(now, locked, victim) => TickUnheld(s, now, locked, victim, c);
    case _ =>
  }

  /** A finished chunk without a queued job is never sent again, and one that nothing holds is never held again. */
  lemma {:induction false} FinishedStays<C>(s: State<C>, es: seq<Event<C>>, c: C)
    requires Possible(s, es) && c in s.info && s.info[c].finished && c !in s.jobs
    ensures c in Run(s, es).info && Run(s, es).info[c].finished
    ensures Sends(Run(s, es), c) == Sends(s, c)
    ensures Copies(s, c) == 0 ==> Copies(Run(s, es), c) == 0
    decreases |es|
  {
    NoCopyIffNotHeld(s, c);
    if es != [] {
      FinishedStepStays(s, es[0], c);
      if !Held(s, c) { FinishedStepUnheld(s, es[0], c); }
      NoCopyIffNotHeld(Next(s, es[0]), c);
      FinishedStays(Next(s, es[0]), es[1..], c);
    }
  }

  /** After a delivery receipt the chunk is nowhere, and no later step sends it or queues it again. */
  lemma NoResendAfterDelivery<C>(before: seq<Event<C>>, uid: string, after: seq<Event<C>>)
    requires Possible(Init(), before) && NoCollision(Init(), before)
    requires uid in Run(Init(), before).acks
    requires var s := Run(Init(), before);
             Possible(Next(s, DeliverSm(0, uid, "DELIVRD")), after)
    ensures var s := Run(Init(), before);
            var t := Run(Next(s, DeliverSm(0, uid, "DELIVRD")), after);
            && s.acks[uid] in t.info && t.info[s.acks[uid]].finished
            && Copies(t, s.acks[uid]) == 0
            && Sends(t, s.acks[uid]) == Sends(s, s.acks[uid])
  {
    InitInv<C>();
    var s, e := Run(Init(), before), DeliverSm(0, uid, "DELIVRD");
    var w := RunKeeps(Init(), map[], before);
    var c := s.acks[uid];
    StepKeeps(s, w, e);
    var w' := NextPlaces(s, w, e);
    assert Good(Next(s, e), c, w'[c]);
    CopiesOfPlace(Next(s, e), c, w'[c]);
    NoCopyIffNotHeld(Next(s, e), c);
    FinishedStays(Next(s, e), after, c);
  }

  /** Working off the queue down to job i sends that chunk again. */
  lemma {:induction false} JobGetsSent<C>(s: State<C>, i: nat) returns (es: seq<Event<C>>)
    requires Wf(s) && i < |s.jobs|
    ensures Possible(s, es) && Sends(Run(s, es), s.jobs[i]) > Sends(s, s.jobs[i])
    decreases i
  {
    var e: Event<C> := RunRetryJob(true);
    NextWf(s, e);
    if i == 0 {
      es := [e];
      assert Run(Next(s, e), es[1..]) == Next(s, e);
    } else {
      var rest := JobGetsSent(Next(s, e), i - 1);
      es := [e] + rest;
      assert es[1..] == rest;
    }
  }

  /**
   A retry job does not look at `finished`. From any state, a delivered chunk is never sent again exactly when no retry
   job for it is queued.
   */
  lemma NeverResentIff<C>(s: State<C>, c: C)
    requires Wf(s) && c in s.info && s.info[c].finished
    ensures (forall es | Possible(s, es) :: Sends(Run(s, es), c) == Sends(s, c)) <==> c !in s.jobs
  {
    if c in s.jobs {
      var i :| 0 <= i < |s.jobs| && s.jobs[i] == c;
      var es := JobGetsSent(s, i);
    } else {
      forall es | Possible(s, es) ensures Sends(Run(s, es), c) == Sends(s, c) {
        FinishedStays(s, es, c);
      }
    }
  }
}
