/**
 The SMPP service's containers and handlers in imperative form. Each handler is
 proved to take exactly one step of the machine in SmppDelivery, from every
 well-formed state and without the distinctness assumption.
 */
module SmppService {
  import opened Wrappers
  import D = SmppDelivery

  /** csmppservice::cackmsg: one chunk with its retry bookkeeping. */
  class AckMsg {
    const sequence: nat
    var finished: bool
    var lastSeen: int
    var retryNum: nat

    constructor (sequence: nat, now: int)
      ensures this.sequence == sequence && lastSeen == now && retryNum == 0 && !finished
    {
      this.sequence := sequence;
      finished, lastSeen, retryNum := false, now, 0;
    }
  }

  class Service {
    var pendingMsgQueue: map<nat, AckMsg>
    var ackMsgQueue: map<string, AckMsg>
    var retryMsgs: set<AckMsg>            // a map from each chunk's address to itself
    var retryQueue: seq<AckMsg>
    var fdQueueGC: seq<AckMsg>
    ghost var known: set<AckMsg>
    ghost var sent: seq<AckMsg>
    ghost var marks: seq<(AckMsg, int)>
    ghost var dropped: set<AckMsg>

    ghost function Abs(): D.State<AckMsg>
      reads this, known
    {
      D.State(map c | c in known :: D.Info(c.sequence, c.retryNum, c.lastSeen, c.finished),
              pendingMsgQueue, ackMsgQueue, retryMsgs, retryQueue, fdQueueGC, sent, marks, dropped)
    }

    ghost predicate Valid()
      reads this, known
    {
      D.Wf(Abs())
    }

    constructor ()
      ensures Valid() && Abs() == D.Init()
    {
      pendingMsgQueue, ackMsgQueue, retryMsgs, retryQueue, fdQueueGC := map[], map[], {}, [], [];
      known, sent, marks, dropped := {}, [], [], {};
    }

    /** ok is the outcome of cgateway::Send. */
    method SendChunk(chunk: AckMsg, ok: bool)
      requires Valid() && chunk in known
      modifies this
      ensures Valid() && known == old(known)
      ensures Abs() == D.Send(old(Abs()), chunk, ok)
    {
      sent := sent + [chunk];
      if ok {
        if chunk.sequence !in pendingMsgQueue {
          pendingMsgQueue := pendingMsgQueue[chunk.sequence := chunk];
        }
      } else {
        retryMsgs := retryMsgs + {chunk};
      }
      fdQueueGC := fdQueueGC + [chunk];
    }

    /** The rate-limited job that csmppservice::Send queues for each part of a message. */
    method NewChunk(sequence: nat, now: int, ok: bool) returns (chunk: AckMsg)
      requires Valid()
      modifies this
      ensures fresh(chunk) && Valid() && known == old(known) + {chunk}
      ensures D.Enabled(old(Abs()), D.NewChunk(chunk, sequence, now, ok))
      ensures Abs() == D.Next(old(Abs()), D.NewChunk(chunk, sequence, now, ok))
    {
      chunk := new AckMsg(sequence, now);
      known, marks := known + {chunk}, marks + [(chunk, now)];
      assert Abs().info == old(Abs()).info[chunk := D.Info(sequence, 0, now, false)];
      SendChunk(chunk, ok);
    }

    /** One job of the retry queue's worker. */
    method RunRetryJob(ok: bool)
      requires Valid() && retryQueue != []
      modifies this
      ensures Valid() && known == old(known)
      ensures Abs() == D.Next(old(Abs()), D.RunRetryJob(ok))
    {
      var job := retryQueue[0];
      assert job in Abs().jobs;
      retryQueue := retryQueue[1..];
      SendChunk(job, ok);
    }

    /** OnDeliveryStatus for a submit_sm_resp. */
    method OnSubmitResp(status: nat, sequence: nat, uid: string)
      requires Valid()
      modifies this
      ensures Valid() && known == old(known)
      ensures Abs() == D.Next(old(Abs()), D.SubmitResp(status, sequence, uid))
    {
      if status == 0 {
        if sequence in pendingMsgQueue {
          if uid !in ackMsgQueue {
            ackMsgQueue := ackMsgQueue[uid := pendingMsgQueue[sequence]];
          }
          pendingMsgQueue := pendingMsgQueue - {sequence};
        }
      }
    }

    /** OnDeliveryStatus for a deliver_sm whose receipt carries this id and stat. */
    method OnDeliverSm(status: nat, uid: string, stat: string)
      requires Valid()
      modifies this, known
      ensures Valid() && known == old(known)
      ensures Abs() == D.Next(old(Abs()), D.DeliverSm(status, uid, stat))
    {
      if status == 0 {
        if uid in ackMsgQueue {
          var ackmsg := ackMsgQueue[uid];
          ackMsgQueue := ackMsgQueue - {uid};
          if stat != "DELIVRD" {
            retryMsgs := retryMsgs + {ackmsg};
          } else {
            ackmsg.finished := true;
            assert Abs().info == old(Abs()).info[ackmsg := old(Abs()).info[ackmsg].(finished := true)];
          }
        }
      }
    }

    /** The closure `clean` of cackmsg::IsLeaveUs; the scan meets the entries in any order. */
    method Clean(chunk: AckMsg) returns (ghost victim: Option<string>)
      requires Valid() && chunk in known
      modifies this
      ensures Valid() && known == old(known)
      ensures D.IsVictim(old(Abs()), chunk.sequence, victim)
      ensures Abs() == D.Clean(old(Abs()), chunk, victim)
    {
      retryMsgs := retryMsgs - {chunk};
      pendingMsgQueue := pendingMsgQueue - {chunk.sequence};
      victim := None;
      var left := ackMsgQueue.Keys;
      while left != {}
        invariant left <= ackMsgQueue.Keys
        invariant forall u <- ackMsgQueue :: u !in left ==> ackMsgQueue[u].sequence != chunk.sequence
      {
        var u :| u in left;
        if ackMsgQueue[u].sequence == chunk.sequence {
          ackMsgQueue := ackMsgQueue - {u};
          victim := Some(u);
          break;
        }
        left := left - {u};
      }
    }

    /** cackmsg::IsLeaveUs: true takes the chunk off the poll's queue. */
    method IsLeaveUs(chunk: AckMsg, now: int) returns (leave: bool, ghost victim: Option<string>)
      requires Valid() && fdQueueGC != [] && chunk == fdQueueGC[0]
      modifies this, known
      ensures Valid() && known == old(known) && fdQueueGC == old(fdQueueGC)
      ensures D.IsVictim(old(Abs()), chunk.sequence, victim)
      ensures Abs().(gc := fdQueueGC[1..] + if leave then [] else [chunk])
              == D.Tick(old(Abs()), now, true, victim)
    {
      assert chunk in Abs().gc;
      if chunk.finished {
        victim := SomeVictim(chunk.sequence);
        return true, victim;
      }
      if chunk.lastSeen + D.RETRY_INTERVAL >= now {
        victim := SomeVictim(chunk.sequence);
        return false, victim;
      }
      victim := Clean(chunk);
      if chunk.retryNum + 1 > D.NUM_OF_RETRIES {
        dropped := dropped + {chunk};
      } else {
        Requeue(chunk, now);
      }
      leave := true;
    }

    method Requeue(chunk: AckMsg, now: int)
      requires Valid() && chunk in known
      modifies this, chunk
      ensures Valid() && known == old(known)
      ensures var s := old(Abs());
              Abs() == s.(info := s.info[chunk := s.info[chunk].(
                                    lastSeen := now, retryNum := s.info[chunk].retryNum + 1)],
                          jobs := s.jobs + [chunk],
                          marks := s.marks + [(chunk, now)])
    {
      chunk.lastSeen := now;
      chunk.retryNum := chunk.retryNum + 1;
      assert Abs().info == old(Abs()).info[chunk := old(Abs()).info[chunk].(
        lastSeen := now, retryNum := old(chunk.retryNum) + 1)];
      marks := marks + [(chunk, now)];
      retryQueue := retryQueue + [chunk];
    }

    lemma SomeVictim(sequence: nat) returns (victim: Option<string>)
      requires Valid()
      ensures D.IsVictim(Abs(), sequence, victim)
    {
      if u :| u in ackMsgQueue && ackMsgQueue[u].sequence == sequence {
        victim := Some(u);
      } else {
        victim := None;
      }
    }

    /** cpoll::Gc; locked is the outcome of weak_ptr::lock, which succeeds on a held chunk. */
    method Gc(now: int, locked: bool) returns (ghost victim: Option<string>)
      requires Valid()
      requires fdQueueGC != [] && D.Held(Abs(), fdQueueGC[0]) ==> locked
      modifies this, known
      ensures Valid() && known == old(known)
      ensures old(fdQueueGC) == [] ==> Abs() == old(Abs())
      ensures old(fdQueueGC) != [] ==>
                && D.Enabled(old(Abs()), D.GcTick(now, locked, victim))
                && Abs() == D.Next(old(Abs()), D.GcTick(now, locked, victim))
    {
      victim := None;
      if fdQueueGC != [] {
        var obj := fdQueueGC[0];
        if locked {
          var leave;
          leave, victim := IsLeaveUs(obj, now);
          fdQueueGC := fdQueueGC[1..] + if leave then [] else [obj];
        } else {
          victim := SomeVictim(obj.sequence);
          fdQueueGC := fdQueueGC[1..];
        }
      }
    }
  }
}
