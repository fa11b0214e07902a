/** How csmppservice::Send hands the parts of one message to the rate limiter. */
module SmppSubmit {
  import opened Bytes
  import opened RateLimiter
  import Split = SmppSplit

  function Min(a: nat, b: nat): nat {
    if a < b then a else b
  }

  function Room(queued: nat, maxQueue: nat): nat {
    if queued > maxQueue then 0 else maxQueue + 1 - queued
  }

  /**
   One job per part, and the size of the answer; queued holds the parts whose job was accepted. The result of Enqueue is
   not looked at, so the answer counts parts that a full queue refused.
   */
  method Submit(limiter: Limiter, msg: seq<byte>)
    returns (size: nat, queued: seq<seq<byte>>, ghost parts: seq<seq<byte>>)
    requires limiter.Valid()
    modifies limiter
    ensures limiter.Valid() && Split.IsSplit(msg, parts) && size == |parts|
    ensures queued == parts[..Min(|parts|, Room(|old(limiter.queue)|, limiter.maxQueue))]
    ensures limiter.queue == old(limiter.queue) + seq(|queued|, _ => Job(false))
    ensures limiter.nextDue == old(limiter.nextDue) && limiter.starts == old(limiter.starts)
  {
    var chunks := Split.Split(msg);
    parts := chunks;
    size, queued := |chunks|, [];
    var i := 0;
    while i < |chunks|
      invariant i <= |chunks| && limiter.Valid()
      invariant queued == chunks[..Min(i, Room(|old(limiter.queue)|, limiter.maxQueue))]
      invariant limiter.queue == old(limiter.queue) + seq(|queued|, _ => Job(false))
      invariant limiter.nextDue == old(limiter.nextDue) && limiter.starts == old(limiter.starts)
    {
      var ok := limiter.Enqueue(Job(false));
      if ok {
        queued := queued + [chunks[i]];
      }
      i := i + 1;
    }
  }

  /** An accepted message is queued in full exactly when the queue has room for all its parts. */
  lemma QueuedInFullIff(msg: seq<byte>, parts: seq<seq<byte>>, queued: nat, maxQueue: nat)
    requires Split.IsSplit(msg, parts) && queued <= maxQueue + 1
    ensures parts[..Min(|parts|, Room(queued, maxQueue))] == parts
            <==> queued + (if |msg| <= 140 then 1 else (|msg| + 131) / 132) <= maxQueue + 1
  {
    assert parts[..|parts|] == parts;
    if |parts| > Room(queued, maxQueue) {
      assert |parts[..Room(queued, maxQueue)]| < |parts|;
    }
  }
}
