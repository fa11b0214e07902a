/**
 * Channel fan-out: the scan that picks the recipients of a message while it erases expired entries from the map it
 * walks, the timer's collection, and joining and leaving.  Each operation runs under its lock and is one step here.
 */
module Channel {
  import opened Wrappers

  /** A session object; csubscriber gives it its id, which is cut at 126 characters and need not be unique. */
  datatype Session = Session(id: string, object: nat)

  /** A weak pointer to a session, and whether it still locks. */
  datatype Entry = Entry(session: Session, alive: bool)

  type Subscribers = map<string, Entry>

  /** Sessions are entered under their own id. */
  ghost predicate Keyed(s: Subscribers) {
    forall id <- s :: s[id].session.id == id
  }

  /** The parts of the message that decide delivery; socketId is None when it is absent, null or an empty container. */
  datatype Message = Message(delivery: string, from: string, socketId: Option<string>)

  datatype Delivery = Broadcast | Multicast | Unicast

  /** Every other word means unicast. */
  function Mode(m: Message): Delivery {
    if m.delivery == "broadcast" then Broadcast
    else if m.delivery == "multicast" then Multicast
    else Unicast
  }

  /** Who may get the message. */
  predicate Allowed(m: Message, id: string) {
    match Mode(m)
    case Broadcast => id != m.from && m.socketId != Some(id)
    case Multicast => m.socketId.Some? && m.socketId.value + "." <= id
    case Unicast => m.socketId == Some(id)
  }

  /** Whose entry is dropped if it has expired: multicast looks at every entry, the others only at those they allow. */
  predicate Examined(m: Message, id: string) {
    if Mode(m) == Multicast then m.socketId.Some? else Allowed(m, id)
  }

  ghost function Live(s: Subscribers): set<Session> {
    set id | id in s && s[id].alive :: s[id].session
  }

  lemma LiveIffEntered(s: Subscribers, x: Session)
    requires Keyed(s)
    ensures x in Live(s) <==> x.id in s && s[x.id] == Entry(x, true)
  {
    if x.id in s && s[x.id] == Entry(x, true) {
      assert s[x.id].session in Live(s);
    }
  }

  /** Those of the sessions that the message is for. */
  ghost function Addressed(live: set<Session>, m: Message): set<Session> {
    set x | x in live && Allowed(m, x.id)
  }

  /** The map after the scan, as long as the entries in `rest` have not been visited. */
  ghost function Scanned(s: Subscribers, m: Message, rest: set<string>): Subscribers {
    map id | id in s && (id in rest || s[id].alive || !Examined(m, id)) :: s[id]
  }

  /** The list names exactly the members of the set, each once. */
  ghost predicate Lists(to: seq<Session>, xs: set<Session>) {
    && (forall x :: x in to <==> x in xs)
    && forall i, j :: 0 <= i < j < |to| ==> to[i] != to[j]
  }

  lemma {:induction false} ListsCounts(to: seq<Session>, xs: set<Session>)
    requires Lists(to, xs)
    ensures |to| == |xs|
    decreases |to|
  {
    if to == [] {
      assert xs == {};
    } else {
      var head := to[0];
      assert head in xs;
      forall x ensures x in to[1..] <==> x in xs - {head} {
        if x in to[1..] {
          var i :| 0 <= i < |to[1..]| && to[1..][i] == x;
          assert to[i + 1] == x && to[0] != to[i + 1];
        }
      }
      ListsCounts(to[1..], xs - {head});
    }
  }

  // ---------- steps and runs ----------

  /**
   * Join and Leave are Subscribe and UnSubscribe, Expire is a session dying elsewhere, Send is Push of a message that
   * the sessions in `failed` refuse, Collect is Gc when exactly `connected` are still connected.  UnSubscribe and Gc
   * only try the lock: `busy` says that another thread held it, `missed` for which of the failed sessions it did.
   */
  datatype Event =
    | Join(x: Session)
    | Leave(x: Session, busy: bool)
    | Expire(x: Session)
    | Send(m: Message, failed: set<Session>, missed: set<Session>)
    | Collect(connected: set<Session>, busy: bool)

  ghost function Ids(xs: set<Session>): set<string> {
    set x | x in xs :: x.id
  }

  ghost function Next(s: Subscribers, e: Event): Subscribers {
    match e
    case Join(x) => if x.id in s then s else s[x.id := Entry(x, true)]
    case Leave(x, busy) => if busy then s else s - {x.id}
    case Expire(x) => if x.id in s && s[x.id].session == x then s[x.id := Entry(x, false)] else s
    case Send(m, failed, missed) => Scanned(s, m, {}) - Ids(Addressed(Live(s), m) * (failed - missed))
    case Collect(connected, busy) =>
      if busy then s else map id | id in s && s[id].alive && s[id].session in connected :: s[id]
  }

  lemma NextKeyed(s: Subscribers, e: Event)
    requires Keyed(s)
    ensures Keyed(Next(s, e))
  {
  }

  /** What each message of a run reached. */
  ghost function Deliveries(s: Subscribers, es: seq<Event>): seq<set<Session>>
    decreases |es|
  {
    if es == [] then []
    else (if es[0].Send? then [Addressed(Live(s), es[0].m)] else []) + Deliveries(Next(s, es[0]), es[1..])
  }

  // The reference: a channel that keeps its live sessions as a set, with no entries to erase, no ids to clash and no
  // lock to miss.  Who leaves or fails is out at once; a collection that finds the lock taken disconnects nobody and is
  // made again by the next timer, so it counts as not made.

  ghost function IdealNext(live: set<Session>, e: Event): set<Session> {
    match e
    case Join(x) => live + {x}
    case Leave(x, _) => live - {x}
    case Expire(x) => live - {x}
    case Send(m, failed, _) => live - Addressed(live, m) * failed
    case Collect(connected, busy) => if busy then live else live * connected
  }

  ghost function IdealDeliveries(live: set<Session>, es: seq<Event>): seq<set<Session>>
    decreases |es|
  {
    if es == [] then []
    else (if es[0].Send? then [Addressed(live, es[0].m)] else []) + IdealDeliveries(IdealNext(live, es[0]), es[1..])
  }

  /**
   * Joining under an id that is taken, by another session or by an expired entry: emplace leaves that entry in place.
   * Leaving under an id that another live session holds: its entry is erased.  Leaving, or failing, while the lock is
   * busy: the session's own live entry stays.
   */
  ghost predicate Deviates(s: Subscribers, e: Event) {
    match e
    case Join(x) => x.id in s && s[x.id] != Entry(x, true)
    case Leave(x, busy) => x.id in s && s[x.id].alive && (if busy then s[x.id].session == x else s[x.id].session != x)
    case Send(m, failed, missed) => Addressed(Live(s), m) * failed * missed != {}
    case _ => false
  }

  ghost predicate NoDeviation(s: Subscribers, es: seq<Event>)
    decreases |es|
  {
    es == [] || (!Deviates(s, es[0]) && NoDeviation(Next(s, es[0]), es[1..]))
  }

  lemma IdsTellLiveApart(s: Subscribers, xs: set<Session>, y: Session)
    requires Keyed(s) && xs <= Live(s) && y in Live(s)
    ensures y.id in Ids(xs) <==> y in xs
  {
    LiveIffEntered(s, y);
    assert y in xs ==> y.id in Ids(xs);
    if y.id in Ids(xs) {
      var x :| x in xs && x.id == y.id;
      LiveIffEntered(s, x);
    }
  }

  /** After a message, the live sessions are those before without the failed ones that were unsubscribed. */
  lemma SendMember(s: Subscribers, e: Event, y: Session)
    requires Keyed(s) && e.Send?
    ensures y in Live(Next(s, e)) <==> y in Live(s) && y !in Addressed(Live(s), e.m) * (e.failed - e.missed)
  {
    NextKeyed(s, e);
    LiveIffEntered(s, y);
    LiveIffEntered(Next(s, e), y);
    if y in Live(s) {
      IdsTellLiveApart(s, Addressed(Live(s), e.m) * (e.failed - e.missed), y);
    }
  }

  lemma StepMember(s: Subscribers, e: Event, y: Session)
    requires Keyed(s) && !Deviates(s, e)
    ensures y in Live(Next(s, e)) <==> y in IdealNext(Live(s), e)
  {
    if e.Send? {
      SendMember(s, e, y);
      assert y in Addressed(Live(s), e.m) * e.failed ==> y !in Addressed(Live(s), e.m) * e.failed * e.missed;
    } else {
      NextKeyed(s, e);
      LiveIffEntered(s, y);
      LiveIffEntered(Next(s, e), y);
    }
  }

  /** A step acts on the live sessions as the reference does, exactly when it does not deviate. */
  lemma StepIdealIff(s: Subscribers, e: Event)
    requires Keyed(s)
    ensures Live(Next(s, e)) == IdealNext(Live(s), e) <==> !Deviates(s, e)
  {
    if Deviates(s, e) {
      NextKeyed(s, e);
      var y;
      match e {
        case Join(x) => y := x;
        case Leave(x, _) => y := s[x.id].session;
        case Send(m, failed, missed) =>
          y :| y in Addressed(Live(s), m) * failed * missed;
          SendMember(s, e, y);
      }
      LiveIffEntered(s, y);
      LiveIffEntered(Next(s, e), y);
    } else {
      forall y ensures y in Live(Next(s, e)) <==> y in IdealNext(Live(s), e) {
        StepMember(s, e, y);
      }
    }
  }

  /** Over runs that do not deviate, erasing expired entries, whenever scans do it, never changes who gets a message. */
  lemma {:induction false} DeliversAsIdeal(s: Subscribers, es: seq<Event>)
    requires Keyed(s) && NoDeviation(s, es)
    ensures Deliveries(s, es) == IdealDeliveries(Live(s), es)
    decreases |es|
  {
    if es != [] {
      NextKeyed(s, es[0]);
      StepIdealIff(s, es[0]);
      DeliversAsIdeal(Next(s, es[0]), es[1..]);
    }
  }

  lemma OneSend(s: Subscribers, live: set<Session>, m: Message)
    ensures NoDeviation(s, [Send(m, {}, {})])
    ensures Deliveries(s, [Send(m, {}, {})]) == [Addressed(Live(s), m)]
    ensures IdealDeliveries(live, [Send(m, {}, {})]) == [Addressed(live, m)]
  {
    assert [Send(m, {}, {})][1..] == [];
  }

  /**
   * A step leaves every delivery right, in all continuations that do not deviate, exactly when it does not deviate
   * itself.
   */
  lemma DeliversEverAfterIff(s: Subscribers, e: Event)
    requires Keyed(s)
    ensures (forall es: seq<Event> | NoDeviation(Next(s, e), es) ::
               Deliveries(Next(s, e), es) == IdealDeliveries(IdealNext(Live(s), e), es))
            <==> !Deviates(s, e)
  {
    var t, live := Next(s, e), IdealNext(Live(s), e);
    NextKeyed(s, e);
    StepIdealIff(s, e);
    if Deviates(s, e) {
      var y: Session :| y in Live(t) <==> y !in live;
      var m := Message("unicast", "", Some(y.id));
      OneSend(t, live, m);
      assert y in Addressed(Live(t), m) <==> y !in Addressed(live, m);
      assert Deliveries(t, [Send(m, {}, {})])[0] != IdealDeliveries(live, [Send(m, {}, {})])[0];
    } else {
      forall es: seq<Event> | NoDeviation(t, es) ensures Deliveries(t, es) == IdealDeliveries(live, es) {
        DeliversAsIdeal(t, es);
      }
    }
  }

  /** A session that joins gets a message exactly if it is allowed to and no other or expired entry held its id. */
  lemma JoinHeardIff(s: Subscribers, x: Session, m: Message)
    requires Keyed(s)
    ensures x in Addressed(Live(Next(s, Join(x))), m)
            <==> Allowed(m, x.id) && (x.id in s ==> s[x.id] == Entry(x, true))
  {
    NextKeyed(s, Join(x));
    LiveIffEntered(Next(s, Join(x)), x);
  }

  /** A session that left still gets a message exactly if it may, its live entry was its own, and the lock was busy. */
  lemma LeaverHearsIff(s: Subscribers, x: Session, busy: bool, m: Message)
    requires Keyed(s)
    ensures x in Addressed(Live(Next(s, Leave(x, busy))), m)
            <==> Allowed(m, x.id) && busy && x.id in s && s[x.id] == Entry(x, true)
  {
    NextKeyed(s, Leave(x, busy));
    LiveIffEntered(Next(s, Leave(x, busy)), x);
  }

  /** A broadcast skips the sender and the named socket, a multicast goes by prefix, and any other word names one id. */
  lemma AddressedByWord(live: set<Session>, m: Message, x: Session)
    ensures x in Addressed(live, m) <==>
            x in live &&
            if m.delivery == "broadcast" then x.id != m.from && m.socketId != Some(x.id)
            else if m.delivery == "multicast" then m.socketId.Some? && m.socketId.value + "." <= x.id
            else m.socketId == Some(x.id)
  {
  }

  /**
   * A message erases the entries of the failed sessions it unsubscribed and the expired entries it came across: under
   * a multicast that names a prefix, all of them, and otherwise those it would have gone to.  No other entry changes.
   */
  lemma ErasedIff(s: Subscribers, m: Message, failed: set<Session>, missed: set<Session>, id: string)
    requires Keyed(s) && id in s
    ensures var t := Next(s, Send(m, failed, missed));
            var x := s[id].session;
            && (id in t ==> t[id] == s[id])
            && (id !in t <==>
                if s[id].alive then x in Addressed({x}, m) && x in failed && x !in missed
                else if m.delivery == "multicast" then m.socketId.Some?
                else x in Addressed({x}, m))
  {
  }

  // ---------- loop invariants, by id ----------

  /** The list holds the session of each chosen id outside `rest`, once. */
  ghost predicate ListsById(to: seq<Session>, s: Subscribers, chosen: set<string>, rest: set<string>) {
    && (forall x <- to :: x.id in s && x.id in chosen && x.id !in rest && s[x.id].session == x)
    && (forall id :: id in chosen && id in s && id !in rest ==> s[id].session in to)
    && forall i, j :: 0 <= i < j < |to| ==> to[i].id != to[j].id
  }

  lemma ListsOneMore(to: seq<Session>, s: Subscribers, chosen: set<string>, rest: set<string>, id: string)
    requires Keyed(s) && ListsById(to, s, chosen, rest) && id in rest && id in s
    ensures ListsById(to + if id in chosen then [s[id].session] else [], s, chosen, rest - {id})
  {
  }

  ghost function Reached(s: Subscribers, m: Message): set<string> {
    set id | id in s && s[id].alive && Allowed(m, id)
  }

  ghost function Disconnected(s: Subscribers, connected: set<Session>): set<string> {
    set id | id in s && s[id].alive && s[id].session !in connected
  }

  lemma FoundAll(to: seq<Session>, s: Subscribers, m: Message)
    requires Keyed(s) && ListsById(to, s, Reached(s, m), {})
    ensures Lists(to, Addressed(Live(s), m))
  {
    forall x ensures x in to <==> x in Addressed(Live(s), m) {
      LiveIffEntered(s, x);
    }
  }

  lemma ClosedAll(to: seq<Session>, s: Subscribers, connected: set<Session>)
    requires Keyed(s) && ListsById(to, s, Disconnected(s, connected), {})
    ensures Lists(to, Live(s) - connected)
  {
    forall x ensures x in to <==> x in Live(s) - connected {
      LiveIffEntered(s, x);
    }
  }

  // ---------- the class ----------

  class Channel {
    var chSubscribers: Subscribers
    const autoClose: bool
    /** Whether the registry of channels still holds this one. */
    var registered: bool

    ghost predicate Valid()
      reads this
    {
      Keyed(chSubscribers)
    }

    constructor (autoClose: bool)
      ensures Valid() && chSubscribers == map[] && registered && this.autoClose == autoClose
    {
      this.autoClose := autoClose;
      chSubscribers := map[];
      registered := true;
    }

    method Subscribe(x: Session)
      requires Valid()
      modifies this`chSubscribers
      ensures Valid() && chSubscribers == Next(old(chSubscribers), Join(x))
    {
      if x.id !in chSubscribers {
        chSubscribers := chSubscribers[x.id := Entry(x, true)];
      }
    }

    /** Only the id of x is used. Gives up silently when another thread holds the lock. */
    method UnSubscribe(x: Session, busy: bool)
      requires Valid()
      modifies this
      ensures Valid()
      ensures chSubscribers == Next(old(chSubscribers), Leave(x, busy))
      ensures registered == (old(registered) && (busy || chSubscribers != map[] || !autoClose))
    {
      if !busy {
        chSubscribers := chSubscribers - {x.id};
        if chSubscribers == map[] && autoClose {
          registered := false;
        }
      }
    }

    method ScanBroadcast(m: Message) returns (to: seq<Session>, nSubscribers: nat)
      requires Valid() && Mode(m) == Broadcast
      modifies this`chSubscribers
      ensures Lists(to, Addressed(Live(old(chSubscribers)), m)) && nSubscribers == |to|
      ensures Valid() && chSubscribers == Scanned(old(chSubscribers), m, {})
    {
      to, nSubscribers := [], 0;
      ghost var was := chSubscribers;
      var rest := chSubscribers.Keys;
      while rest != {}
        invariant rest <= was.Keys && chSubscribers == Scanned(was, m, rest)
        invariant ListsById(to, was, Reached(was, m), rest) && nSubscribers == |to|
        decreases |rest|
      {
        var id :| id in rest;
        ListsOneMore(to, was, Reached(was, m), rest, id);
        rest := rest - {id};
        if id != m.from && m.socketId != Some(id) {
          if chSubscribers[id].alive {
            to, nSubscribers := to + [chSubscribers[id].session], nSubscribers + 1;
          } else {
            chSubscribers := chSubscribers - {id};
          }
        }
      }
      FoundAll(to, was, m);
    }

    method ScanMulticast(m: Message) returns (to: seq<Session>, nSubscribers: nat)
      requires Valid() && Mode(m) == Multicast && m.socketId.Some?
      modifies this`chSubscribers
      ensures Lists(to, Addressed(Live(old(chSubscribers)), m)) && nSubscribers == |to|
      ensures Valid() && chSubscribers == Scanned(old(chSubscribers), m, {})
    {
      to, nSubscribers := [], 0;
      var sessionId := m.socketId.value + ".";
      ghost var was := chSubscribers;
      var rest := chSubscribers.Keys;
      while rest != {}
        invariant rest <= was.Keys && chSubscribers == Scanned(was, m, rest)
        invariant ListsById(to, was, Reached(was, m), rest) && nSubscribers == |to|
        decreases |rest|
      {
        var id :| id in rest;
        ListsOneMore(to, was, Reached(was, m), rest, id);
        rest := rest - {id};
        if chSubscribers[id].alive {
          if sessionId <= id {
            to, nSubscribers := to + [chSubscribers[id].session], nSubscribers + 1;
          }
        } else {
          chSubscribers := chSubscribers - {id};
        }
      }
      FoundAll(to, was, m);
    }

    method FindUnicast(m: Message) returns (to: seq<Session>, nSubscribers: nat)
      requires Valid() && Mode(m) == Unicast && m.socketId.Some?
      modifies this`chSubscribers
      ensures Lists(to, Addressed(Live(old(chSubscribers)), m)) && nSubscribers == |to|
      ensures Valid() && chSubscribers == Scanned(old(chSubscribers), m, {})
    {
      to, nSubscribers := [], 0;
      ghost var was := chSubscribers;
      var id := m.socketId.value;
      if id in chSubscribers {
        if chSubscribers[id].alive {
          to, nSubscribers := to + [chSubscribers[id].session], nSubscribers + 1;
        } else {
          chSubscribers := chSubscribers - {id};
        }
      }
      FoundAll(to, was, m);
    }

    /** The choice of recipients, before anything is sent. */
    method Scan(m: Message) returns (to: seq<Session>, nSubscribers: nat)
      requires Valid()
      modifies this`chSubscribers
      ensures Lists(to, Addressed(Live(old(chSubscribers)), m)) && nSubscribers == |to|
      ensures Valid() && chSubscribers == Scanned(old(chSubscribers), m, {})
    {
      if Mode(m) == Broadcast {
        to, nSubscribers := ScanBroadcast(m);
      } else if m.socketId.Some? {
        if Mode(m) == Multicast {
          to, nSubscribers := ScanMulticast(m);
        } else {
          to, nSubscribers := FindUnicast(m);
        }
      } else {
        to, nSubscribers := [], 0;
      }
    }

    /** The sends: a session whose own Push fails is unsubscribed, unless it then misses the lock. */
    method Deliver(to: seq<Session>, failed: set<Session>, missed: set<Session>)
      requires Valid()
      modifies this
      ensures Valid() && chSubscribers == old(chSubscribers) - Ids(set x | x in to && x in failed - missed)
      ensures registered ==> old(registered)
      ensures old(registered) && !registered ==> chSubscribers == map[] && autoClose
    {
      ghost var was := chSubscribers;
      ghost var gone: set<Session> := {};
      var notPushed, i := 0, 0;
      assert chSubscribers == was - Ids(gone);
      while i < |to|
        invariant i <= |to| && Valid() && chSubscribers == was - Ids(gone)
        invariant gone == set x | x in to[..i] && x in failed - missed
        invariant registered ==> old(registered)
        invariant old(registered) && !registered ==> chSubscribers == map[] && autoClose
      {
        assert to[..i + 1] == to[..i] + [to[i]];
        if to[i] in failed {
          notPushed := notPushed + 1;
          UnSubscribe(to[i], to[i] in missed);
          assert Ids(gone + {to[i]}) == Ids(gone) + {to[i].id};
          gone := if to[i] in missed then gone else gone + {to[i]};
        }
        i := i + 1;
      }
      assert to[..i] == to;
    }

    /**
     * `failed` are the sessions whose own Push fails, `missed` those whose UnSubscribe then misses the lock.  The count
     * includes the sessions that failed.
     */
    method Push(m: Message, failed: set<Session>, missed: set<Session>) returns (nSubscribers: nat, to: seq<Session>)
      requires Valid()
      modifies this
      ensures Valid() && Lists(to, Addressed(Live(old(chSubscribers)), m))
      ensures nSubscribers == |Addressed(Live(old(chSubscribers)), m)|
      ensures chSubscribers == Next(old(chSubscribers), Send(m, failed, missed))
      ensures registered == (old(registered) && (chSubscribers != map[] || !autoClose))
    {
      to, nSubscribers := Scan(m);
      ghost var xs := Addressed(Live(old(chSubscribers)), m);
      ListsCounts(to, xs);
      Deliver(to, failed, missed);
      assert (set x | x in to && x in failed - missed) == xs * (failed - missed);
      if chSubscribers == map[] && autoClose {
        registered := false;
      }
    }

    /** The loop of Gc: erases what is not alive and connected, and lists the live ones it erased. */
    method EraseDisconnected(connected: set<Session>) returns (closed: seq<Session>)
      requires Valid()
      modifies this`chSubscribers
      ensures Valid() && chSubscribers == Next(old(chSubscribers), Collect(connected, false))
      ensures Lists(closed, Live(old(chSubscribers)) - connected)
    {
      closed := [];
      ghost var was := chSubscribers;
      var rest := chSubscribers.Keys;
      while rest != {}
        invariant rest <= was.Keys
        invariant chSubscribers ==
                  map id | id in was && (id in rest || (was[id].alive && was[id].session in connected)) :: was[id]
        invariant ListsById(closed, was, Disconnected(was, connected), rest)
        decreases |rest|
      {
        var id :| id in rest;
        ListsOneMore(closed, was, Disconnected(was, connected), rest, id);
        rest := rest - {id};
        if chSubscribers[id].alive {
          if chSubscribers[id].session !in connected {
            closed := closed + [chSubscribers[id].session];
            chSubscribers := chSubscribers - {id};
          }
        } else {
          chSubscribers := chSubscribers - {id};
        }
      }
      ClosedAll(closed, was, connected);
    }

    /** Returns 1 when the lock is taken; otherwise the entries left, and the sessions it went on to disconnect. */
    method Gc(connected: set<Session>, busy: bool) returns (nsubscribers: nat, closed: seq<Session>)
      requires Valid()
      modifies this
      ensures Valid()
      ensures chSubscribers == Next(old(chSubscribers), Collect(connected, busy))
      ensures busy ==> nsubscribers == 1 && closed == [] && unchanged(this)
      ensures !busy ==> nsubscribers == |chSubscribers|
      ensures !busy ==> Lists(closed, Live(old(chSubscribers)) - connected)
      ensures !busy ==> registered == (old(registered) && (chSubscribers != map[] || !autoClose))
    {
      if busy {
        return 1, [];
      }
      closed := EraseDisconnected(connected);
      nsubscribers := |chSubscribers|;
      if chSubscribers == map[] && autoClose {
        registered := false;
      }
    }
  }
}
