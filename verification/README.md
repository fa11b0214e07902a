# Push1st core: a verified model

A Dafny model of the parts of the push1st broker whose correctness depends on more than one function, with proofs of
what those parts promise. Code that the broker writes as objects updated in place is modelled as classes and loops;
each method is proved to do exactly what a specification function or one step of a state machine says, and the
properties are proved about that specification. Sockets are byte sequences, clocks are integers read by the caller,
and critical sections are atomic steps.

| module | what it covers |
|---|---|
| `SmppDelivery`, `SmppCollisions`, `SmppSteadyClock`, `SmppService` | the life of an SMS chunk between `pendingMsgQueue`, `ackMsgQueue`, `retryMsgs` and the retry jobs; what collisions of sequences or uids do to it, under any clock and under one that is never set back; the service's maps and handlers, each proved to take one step of the machine |
| `SmppPdu`, `SmppSplit`, `SmppSubmit` | SMPP v3.4 packing, unpacking and framing (sections 3.2, 4.1.5, 4.4.1 and 4.6.1); segmentation with a concatenation header (3GPP TS 23.040, section 9.2.3.24.1); handing the parts to the rate limiter |
| `CircularQueue`, `BlockingQueue`, `ThreadPool` | spdlog's ring buffer, the bounded queue over it, and the pool's shutdown protocol over that |
| `RateLimiter` | the scheduling loop and its bound on jobs in any window of time |
| `WebSocket` | frame building, reading and masking (RFC 6455, sections 5.2 to 5.6) |
| `Base64`, `Md5`, `ChunkedReader` | both base64 variants (RFC 4648, section 4), MD5 (RFC 1321, sections 3.1 to 3.5), chunked bodies cut into JSON objects (RFC 9112, section 7.1) |
| `AccessToken` | minting and checking access tokens, over `Base64` and an abstract cipher |
| `Channel` | recipients of a message, found while expired entries are erased |
| `Bytes`, `Wrappers` | big-endian numbers, optional results |

Check it with `dafny verify --resource-limit 2000000 --verification-time-limit 0 dfyconfig.toml`.

Where an operation of the C++ is undefined (popping an empty container, reading outside a buffer), the model's function
has a separate outcome for it, never a convenient value.

Some of what one would expect of this code holds only under a condition. The condition is then stated exactly, as an
if-and-only-if over all inputs:

- Sequences and gateway uids are not checked for collisions, although all gateways share the maps and each counts its own
  sequences. The clock is std::time, which may be set back. A step then leaves every chunk conserved, in all
  continuations without further collisions, exactly when it neither reuses the sequence of a chunk that is still in
  flight nor records a uid that is already there. With a clock that is never set back one collision is harmless: a new
  chunk whose first send fails, while the other one is out of retries, due, and without a queued job. How often and how
  closely a chunk is sent does not depend on collisions.
- A delivered chunk is never sent again exactly when no retry job for it is queued; without collisions none is, and
  `CollisionResendsDelivered` is an input with one.
- The pool's destructor can always go on exactly when the queue has room for at least one item.
- The configured rate is kept by the start times that the limiter records, for every steady clock, exactly when it
  divides 10^9: the interval is rounded down to whole nanoseconds. The real starts come later by as much as the worker
  wakes late, which widens every window by that much.
- A submitted message survives the round trip exactly when its strings are free of NUL, the default message id is 0 and
  the text has at most 255 bytes.
- A PDU that is only a header (every enquire_link) is read exactly when errno is 0: the body read then has length 0, for
  which `csocket::ReadNoSsl` skips its loop and returns `-errno`, whatever earlier calls left there.
- The segment headers tell the truth, and the parts of one message can be put together again, exactly for messages of at
  most 255 * 132 bytes. Two messages whose parts arrive mixed can be told apart exactly if they have different numbers
  of parts: the reference number is always 1.
- A message that is answered with 201 is queued in full exactly if the limiter's queue has room for all its parts; the
  result of `Enqueue` is ignored.
- A token keeps its promise exactly when neither its origin nor its channel contains a colon, and lives as long as
  asked exactly when its expiry fits a signed 64-bit number (or wraps to 0).
- A session that joins a channel gets its messages exactly when neither an expired entry nor another session holds its
  id. Ids are unique by a counter, which a long prefix from the client cuts off. A session that leaves, or whose Push
  failed, goes on getting messages exactly when its own live entry is there and another thread holds the lock just then:
  `UnSubscribe` only tries it.

The comment above `HttpReadChunkedResponse` says that reading goes on until a chunk of size zero; the code stops at the
end of the bytes it received and gives a chunk of size zero no special role. The model follows the code.

## Model

| member | source | states |
|---|---|---|
| SmppDelivery.ChunkConserved | application/push1st/smppservice/csmppservice.cpp:665-718 | in every run without collisions, every chunk that is neither finished nor given up is in exactly one of the three maps and the job queue, and every other in none |
| SmppDelivery.GivenUpUnfinished | application/push1st/smppservice/csmppservice.cpp:692-700 | in every run without collisions, only unfinished chunks are given up |
| SmppDelivery.SendsBounded | application/push1st/smppservice/csmppservice.cpp:692-717 | in every run, colliding or not: sends plus queued retry jobs of a chunk are 1 + retryNum, at most 3 retries and 4 sends, and given up only after all of them |
| SmppDelivery.RetriesSpaced | application/push1st/smppservice/csmppservice.cpp:692-705 | in every run, colliding or not: creation and retry decisions of one chunk are more than 20 seconds apart, for any clock readings |
| SmppDelivery.StepTallies | application/push1st/smppservice/csmppservice.cpp:844-995 | every handler keeps the counts, colliding or not: the job queue and the timer's queue share a chunk between them, a given-up chunk is in neither |
| SmppDelivery.FinishedStays | application/push1st/smppservice/csmppservice.cpp:665-668 | from any state and in any continuation, a finished chunk without a queued job is not sent again, and one that nothing holds stays held by nothing |
| SmppDelivery.NoResendAfterDelivery | application/push1st/smppservice/csmppservice.cpp:930-945 | after a collision-free run up to a DELIVRD receipt, the chunk is nowhere, and no later step sends or queues it again, whatever happens then |
| SmppDelivery.NeverResentIff | application/push1st/smppservice/csmppservice.cpp:709-715 | from any state, a finished chunk is never sent again in any continuation exactly when no retry job for it is queued |
| SmppDelivery.StepBase | application/push1st/smppservice/csmppservice.cpp:844-995 | every step that finds its place in the maps free and erases only its own chunk's entries keeps one place per chunk, whatever else shares a sequence |
| SmppDelivery.StepKeeps | application/push1st/smppservice/csmppservice.cpp:844-995 | every handler step that does not collide keeps the global invariant: one place per chunk, one chunk in flight per sequence, watched by the timer once while a map holds it and not while a job does, counters and spacing |
| SmppDelivery.RunKeeps | application/push1st/smppservice/csmppservice.cpp:844-995 | the invariant holds in every state reached without collisions |
| SmppDelivery.FinishedIff | application/push1st/smppservice/csmppservice.cpp:924-948 | over any run, colliding or not, a chunk is finished exactly if a good receipt with the word DELIVRD arrived while its uid was waiting |
| SmppDelivery.TimerDecides | application/push1st/smppservice/csmppservice.cpp:692-718 | an unfinished chunk that the timer looks at is kept if it was seen within 20 seconds, else sent once more, and after three retries given up; either way out of the maps |
| SmppDelivery.SentWhere | application/push1st/smppservice/csmppservice.cpp:844-874 | a sent chunk waits for its response exactly if the socket took it, and is a failed one exactly if not |
| SmppDelivery.AcceptedWhere | application/push1st/smppservice/csmppservice.cpp:964-977 | an accepted chunk waits under its uid and no longer under its sequence; a refusal changes nothing |
| SmppDelivery.RefusedWhere | application/push1st/smppservice/csmppservice.cpp:934-942 | a receipt with any other word makes the chunk a failed one |
| SmppCollisions.ConservedEverAfterIff | application/push1st/smppservice/csmppservice.cpp:844-995 | with a wall clock that may be set back: from any good state, a step leaves every chunk conserved in every continuation without further collisions exactly when the step itself does not collide |
| SmppCollisions.CollisionLoses | application/push1st/smppservice/csmppservice.cpp:665-718 | with such a clock, a colliding step has a continuation, with no further collision, that loses a chunk, wherever the other chunk with that sequence is |
| SmppSteadyClock.ConservedUnderSteadyClockIff | application/push1st/smppservice/csmppservice.cpp:665-718 | with readings that never decrease: the same, exactly when the step does not collide, or creates a chunk whose first send fails while the chunk with its sequence is out of retries, due and without a queued job |
| SmppSteadyClock.SteadyCollisionLoses | application/push1st/smppservice/csmppservice.cpp:665-718 | every other colliding step has a steady continuation, with no further collision, that loses a chunk |
| SmppSteadyClock.DoomedRun | application/push1st/smppservice/csmppservice.cpp:692-700 | after the tolerated collision every steady continuation without further collisions conserves all chunks: the overdue one is finished or given up before the timer reaches the new one |
| SmppSteadyClock.Sweep | source/inet/cepoll.cpp:14-24 | the timer's looks at other chunks bring any place of its queue to the front and leave the two chunks and their sequence alone |
| SmppSteadyClock.RunSeen | application/push1st/smppservice/csmppservice.cpp:704 | in runs with steady readings nothing is stamped with a later time than the last reading |
| SmppCollisions.NewChunkTrackedIff | application/push1st/smppservice/csmppservice.cpp:844-871 | from any state, a new chunk has one owner right after its send exactly when its sequence is not already pending, or the send failed |
| SmppCollisions.RetriedTrackedIff | application/push1st/smppservice/csmppservice.cpp:709-715 | from any state, a retry keeps the number of the chunk's owners exactly when its sequence is not pending or, if the send fails, it is not in retryMsgs yet |
| SmppCollisions.AcceptedTrackedIff | application/push1st/smppservice/csmppservice.cpp:970-977 | from any state, an accepted chunk keeps the number of its owners exactly when the gateway's uid is not already in ackMsgQueue |
| SmppCollisions.CleanSparesOthersIff | application/push1st/smppservice/csmppservice.cpp:675-690 | from any state, the timer's clean-up takes nothing from other chunks exactly when the entries it erases belong to the chunk |
| SmppCollisions.TwoGatewaysLoseAChunk | application/push1st/smppservice/csmppservice.h:31 | two gateways that come to the same sequence: the second chunk is sent and in no container, neither finished nor given up |
| SmppCollisions.CollisionResendsDelivered | application/push1st/smppservice/csmppservice.cpp:682-715 | an input on which a delivered chunk is sent again after a collision |
| SmppService.Service.SendChunk | application/push1st/smppservice/csmppservice.cpp:844-874 | exactly the send step: pending or retry by the outcome, an existing pending entry is kept, always watched |
| SmppService.Service.NewChunk | application/push1st/smppservice/csmppservice.cpp:810-830 | the queued job for one part is exactly the new-chunk step |
| SmppService.Service.RunRetryJob | application/push1st/smppservice/csmppservice.cpp:709-715 | the retry worker's job is exactly the retry step |
| SmppService.Service.OnSubmitResp | application/push1st/smppservice/csmppservice.cpp:964-977 | a submit_sm_resp moves the chunk from pending to acknowledged, exactly as the step says |
| SmppService.Service.OnDeliverSm | application/push1st/smppservice/csmppservice.cpp:929-945 | a receipt takes the chunk out of ackMsgQueue and finishes it or marks it for retry |
| SmppService.Service.Clean | application/push1st/smppservice/csmppservice.cpp:675-690 | the scan erases the first entry with the chunk's sequence, in any order of the map, and the two keyed entries |
| SmppService.Service.IsLeaveUs | application/push1st/smppservice/csmppservice.cpp:665-718 | the timer's decision: leave, stay, give up or retry, with the exact new state |
| SmppService.Service.Gc | source/inet/cepoll.cpp:14-24 | one pass over the front of the poll's queue is exactly the timer step |
| SmppPdu.PackSms | application/push1st/smppservice/csmppservice.cpp:488-508 | the packed bytes, field by field, with the length patched in |
| SmppPdu.PackBind | application/push1st/smppservice/csmppservice.cpp:520-532 | likewise for a bind |
| SmppPdu.PackEnquire | application/push1st/smppservice/csmppservice.cpp:459-465 | likewise for an enquire_link |
| SmppPdu.PackDeliveryResp | application/push1st/smppservice/csmppservice.cpp:546-553 | likewise for a deliver_sm_resp |
| SmppPdu.View.UnpackCmd | application/push1st/smppservice/csmppservice.cpp:120-129 | four big-endian words are taken off the view, or none where the view is too short |
| SmppPdu.View.UnpackCString | application/push1st/smppservice/csmppservice.cpp:423-426 | the bytes up to the first NUL are taken, and the NUL |
| SmppPdu.View.UnpackMessage | application/push1st/smppservice/csmppservice.cpp:379-384 | a length byte, then that many bytes |
| SmppPdu.View.UnpackDelivery | application/push1st/smppservice/csmppservice.cpp:576-590 | all fields in order, and the view holds what is left |
| SmppPdu.FirstNulEndsCString | application/push1st/smppservice/csmppservice.cpp:423-426 | a C string read ends at the first NUL and is undefined without one |
| SmppPdu.CStringRoundTrip | application/push1st/smppservice/csmppservice.cpp:72-76 | a string followed by anything is read back exactly when it has no NUL |
| SmppPdu.MessageRoundTrip | application/push1st/smppservice/csmppservice.cpp:375-384 | the message id and the text come back, with nothing left, exactly for id 0 and at most 255 bytes |
| SmppPdu.CmdRoundTrip | application/push1st/smppservice/csmppservice.cpp:110-129 | a header with any length patched in is read back, the length modulo 2^32 |
| SmppPdu.BodyRoundTripIff | application/push1st/smppservice/csmppservice.cpp:576-590 | cdelivery::Unpack recovers every packed field and leaves no bytes, exactly for sendable messages |
| SmppPdu.SmsRoundTripIff | application/push1st/smppservice/csmppservice.cpp:488-508 | ccmd::Unpack, then cdelivery::Unpack, inverts csms::Pack exactly for sendable messages |
| SmppPdu.SmsLayout | application/push1st/smppservice/csmppservice.cpp:488-503 | the bytes of a submit_sm, field after field, as section 4.4.1 of SMPP v3.4 orders them |
| SmppPdu.BindLayout | application/push1st/smppservice/csmppservice.cpp:520-527 | likewise a bind: system_id, password, system_type, version, ton, npi, address_range |
| SmppPdu.HeaderLayout | application/push1st/smppservice/csmppservice.cpp:110-118 | the four words of any header, the first the length of the whole PDU |
| SmppPdu.BindRoundTripIff | application/push1st/smppservice/csmppservice.cpp:520-532 | a reader of the standard's order gets every field of a bind, nothing left, exactly if its four strings are free of NUL |
| SmppPdu.RespRoundTripIff | application/push1st/smppservice/csmppservice.cpp:546-553 | the message id of a deliver_sm_resp comes back exactly if it is free of NUL |
| SmppPdu.WithLengthFramedIff | application/push1st/smppservice/csmppservice.cpp:505-507 | a PDU carries its own total length exactly when that is below 2^32 |
| SmppPdu.EveryPduFramed | application/push1st/smppservice/csmppservice.cpp:459-553 | all four kinds of packed PDU carry their length |
| SmppPdu.Gateway.SocketRecv | source/inet/csocket.cpp:131-148 | all the bytes asked for or an error; a read of length 0 reports the thread's errno |
| SmppPdu.Gateway.OnGwReply | application/push1st/smppservice/csmppservice.cpp:1037-1057 | on a readable socket takes exactly one PDU off the stream, or closes; undefined exactly for a length below 16 |
| SmppPdu.CutConcatIff | application/push1st/smppservice/csmppservice.cpp:1037-1057 | cutting a concatenation of PDUs gives back the list, nothing left, exactly when all are well framed and no bare header is read while errno is set |
| SmppPdu.EnquireReadIff | application/push1st/smppservice/csmppservice.cpp:1045-1048 | an enquire_link is read, rather than ending the connection, exactly when errno is 0 |
| SmppPdu.CutDecides | application/push1st/smppservice/csmppservice.cpp:1037-1057 | for any bytes: undefined exactly for a length word below 16, one PDU taken exactly when that many bytes are there |
| SmppSplit.Split | application/push1st/smppservice/csmppservice.cpp:385-403 | every part, header and text, of the result |
| SmppSplit.PartShape | application/push1st/smppservice/csmppservice.cpp:394-401 | part i: the header 05 00 03 01, at most 138 bytes, never without text, numbered i + 1 of the total (both modulo 256) |
| SmppSplit.SplitLosesNothing | application/push1st/smppservice/csmppservice.cpp:385-403 | stripping the headers and joining gives the message, in exactly ceil(n / 132) parts |
| SmppSplit.PartsFit | application/push1st/smppservice/csmppservice.cpp:385-403 | no part of any message exceeds 140 bytes; up to 140 bytes the message is sent as it is, longer ones in full parts of 132 bytes of text |
| SmppSplit.SplitKeepsCodeUnits | application/push1st/smppservice/csmppservice.cpp:394-401 | an even-length message is never cut inside a 16-bit code unit |
| SmppSplit.HeadersTruthfulIff | application/push1st/smppservice/csmppservice.cpp:396 | every header names its true number and total exactly for messages of at most 255 * 132 bytes |
| SmppSplit.AnyOrderReassemblesIff | application/push1st/smppservice/csmppservice.cpp:385-403 | for any order of arrival of one message's parts, a receiver who sorts by number gets the message exactly if it has at most 255 * 132 bytes |
| SmppSplit.MixedArrivalsIff | application/push1st/smppservice/csmppservice.cpp:331-343 | of two messages whose parts arrive mixed, both come back from every order exactly if they have different numbers of parts or are equal: the reference number is the same in all headers |
| SmppSubmit.Submit | application/push1st/smppservice/csmppservice.cpp:803-832 | the parts queued are the first ones that the limiter has room for, one job each in order, while the answer counts them all |
| SmppSubmit.QueuedInFullIff | application/push1st/smppservice/csmppservice.cpp:803-832 | a message is queued in full exactly if the queue has room for all its parts |
| CircularQueue.RingPush | third/spdlog/include/spdlog/details/circular_q.h:44-55 | storing at the tail slot appends to the sequence, or overruns exactly the oldest item, across the wrap |
| CircularQueue.AppendedKeepsNewest | third/spdlog/include/spdlog/details/circular_q.h:44-55 | what the queue keeps are the newest items: all while they fit, else as many as the capacity |
| CircularQueue.CircularQ.PushBack | third/spdlog/include/spdlog/details/circular_q.h:44-55 | appends, drops the oldest exactly when full and counts it; a disabled queue ignores it |
| CircularQueue.CircularQ.PopFront | third/spdlog/include/spdlog/details/circular_q.h:81 | drops the first item |
| CircularQueue.CircularQ.Front | third/spdlog/include/spdlog/details/circular_q.h:59-61 | the oldest item |
| CircularQueue.CircularQ.At | third/spdlog/include/spdlog/details/circular_q.h:74-77 | item i of the sequence, across the wrap |
| CircularQueue.CircularQ.Size | third/spdlog/include/spdlog/details/circular_q.h:64-70 | the length of the sequence, in both index orders |
| CircularQueue.CircularQ.Empty | third/spdlog/include/spdlog/details/circular_q.h:83 | true exactly for the empty sequence |
| CircularQueue.CircularQ.Full | third/spdlog/include/spdlog/details/circular_q.h:85-91 | true exactly when the requested capacity is reached; never for a disabled queue |
| CircularQueue.CircularQ.Copy | third/spdlog/include/spdlog/details/circular_q.h:31 | an equal sequence in its own slots |
| CircularQueue.CircularQ.MoveFrom | third/spdlog/include/spdlog/details/circular_q.h:99-110 | takes over sequence and counter and leaves the source disabled and empty |
| CircularQueue.CircularQ.ResetOverrunCounter | third/spdlog/include/spdlog/details/circular_q.h:95 | clears the count and leaves the items |
| BlockingQueue.FifoAndBalanced | third/spdlog/include/spdlog/details/mpmc_blocking_q.h:31-90 | over every interleaving: removed items followed by the queue are the pushed items in order; pushes = pops + size + overruns; offers = accepted + discards |
| BlockingQueue.NothingLostWithoutOverrun | third/spdlog/include/spdlog/details/mpmc_blocking_q.h:31-90 | in runs without enqueue_nowait the consumers get every pushed item in order, the rest is still queued |
| BlockingQueue.EnqueueNeverOverwrites | third/spdlog/include/spdlog/details/mpmc_blocking_q.h:31-64 | enqueue and enqueue_if_have_room keep every stored item |
| BlockingQueue.RoomDecides | third/spdlog/include/spdlog/details/mpmc_blocking_q.h:49-64 | enqueue_if_have_room stores exactly when there is room and else only counts a discard |
| BlockingQueue.NowaitOverruns | third/spdlog/include/spdlog/details/mpmc_blocking_q.h:41-47 | enqueue_nowait drops the oldest item, and counts it, exactly when there is no room |
| BlockingQueue.StepConsistent | third/spdlog/include/spdlog/details/mpmc_blocking_q.h:31-90 | every operation keeps order, balance and the bound |
| BlockingQueue.MpmcBlockingQueue.Enqueue | third/spdlog/include/spdlog/details/mpmc_blocking_q.h:31-38 | once its wait is over, exactly the enqueue step on the ring |
| BlockingQueue.MpmcBlockingQueue.EnqueueNowait | third/spdlog/include/spdlog/details/mpmc_blocking_q.h:41-47 | exactly the overrunning step |
| BlockingQueue.MpmcBlockingQueue.EnqueueIfHaveRoom | third/spdlog/include/spdlog/details/mpmc_blocking_q.h:49-64 | stores, or counts a discard, exactly as the step says |
| BlockingQueue.MpmcBlockingQueue.Dequeue | third/spdlog/include/spdlog/details/mpmc_blocking_q.h:82-90 | returns and removes the oldest item |
| BlockingQueue.MpmcBlockingQueue.DequeueFor | third/spdlog/include/spdlog/details/mpmc_blocking_q.h:68-79 | false exactly when there is nothing, and then nothing changes |
| BlockingQueue.MpmcBlockingQueue.Size | third/spdlog/include/spdlog/details/mpmc_blocking_q.h:157-160 | the number of queued items |
| BlockingQueue.MpmcBlockingQueue.ResetOverrunCounter | third/spdlog/include/spdlog/details/mpmc_blocking_q.h:162-165 | clears the overrun count only |
| BlockingQueue.MpmcBlockingQueue.ResetDiscardCounter | third/spdlog/include/spdlog/details/mpmc_blocking_q.h:167 | clears the discard count only |
| ThreadPool.ServingReachable | third/spdlog/include/spdlog/details/thread_pool-inl.h:80-124 | until the destructor starts, every worker runs and no terminate is queued, over every run of producers and workers |
| ThreadPool.BlockingLosesNothing | third/spdlog/include/spdlog/details/thread_pool-inl.h:80-90 | over every run whose producers use the block policy, the messages taken followed by the queue are the posted ones in order; nothing is overrun or discarded |
| ThreadPool.PoliciesMean | third/spdlog/include/spdlog/details/thread_pool-inl.h:80-90 | block waits exactly while the queue is full; discard_new and overrun_oldest never wait: the one refuses the new message and the other drops the oldest, exactly when it is full |
| ThreadPool.StepKeepsShutting | third/spdlog/include/spdlog/details/thread_pool-inl.h:45-56 | every shutdown step keeps the protocol's invariant and uses up a bounded measure |
| ThreadPool.DeadlockFreeIff | third/spdlog/include/spdlog/details/thread_pool-inl.h:45-56 | from any serving state, no schedule of the shutdown gets stuck, exactly when the queue's capacity is at least 1 |
| ThreadPool.ShutdownTerminates | third/spdlog/include/spdlog/details/thread_pool-inl.h:45-56 | every schedule ends, within 3 steps per worker and one per queued message |
| ThreadPool.ShutdownDrains | third/spdlog/include/spdlog/details/thread_pool-inl.h:45-56 | at the end the queue is empty, all queued messages were taken in order before any terminate, each worker took exactly one |
| ThreadPool.ThreadPool.Create | third/spdlog/include/spdlog/details/thread_pool-inl.h:16-33 | a pool exactly for 1 to 1000 threads, in a serving state |
| ThreadPool.ThreadPool.PostAsyncMsg | third/spdlog/include/spdlog/details/thread_pool-inl.h:80-90 | the queue step that the overflow policy selects |
| ThreadPool.ThreadPool.ProcessNextMsg | third/spdlog/include/spdlog/details/thread_pool-inl.h:100-124 | takes the next message and goes on exactly unless it is a terminate |
| ThreadPool.ThreadPool.Destroy | third/spdlog/include/spdlog/details/thread_pool-inl.h:45-56 | the destructor interleaved with its workers, under every schedule: ends, drained, one terminate each |
| RateLimiter.Limiter.constructor | application/push1st/smppservice/cratelimiter.cpp:37-43 | the interval is 10^9 / rps rounded down, or 10^9 for a rate of 0, and the first job is due at once |
| RateLimiter.Limiter.Enqueue | application/push1st/smppservice/cratelimiter.h:36-46 | accepts exactly up to max_queue + 1 waiting jobs, in order |
| RateLimiter.Limiter.RunNext | application/push1st/smppservice/cratelimiter.cpp:15-32 | one pass: the start time recorded, the next due time, and the spacing of all starts so far kept |
| RateLimiter.Limiter.Drain | application/push1st/smppservice/cratelimiter.cpp:15-33 | the loop starts the queued jobs in order at the specified times |
| RateLimiter.StartsSpaced | application/push1st/smppservice/cratelimiter.cpp:20-30 | any start after one that was not skipped is at least an interval later, for any clock and any skips |
| RateLimiter.WindowBound | application/push1st/smppservice/cratelimiter.cpp:15-33 | spaced starts: a half-open window of length W holds at most ceil(W / interval) |
| RateLimiter.RunWindowBound | application/push1st/smppservice/cratelimiter.cpp:15-33 | that bound for every run of the loop |
| RateLimiter.RateKeptIff | application/push1st/smppservice/cratelimiter.cpp:37-43 | for every steady clock and with the constructor's interval, no second holds more than rps recorded starts, exactly when rps divides 10^9; at a rate of 0, no more than one |
| RateLimiter.RateReached | application/push1st/smppservice/cratelimiter.cpp:37-43 | nor is it too slow: a backlog of rps jobs starts within one second |
| RateLimiter.NextStart | application/push1st/smppservice/cratelimiter.cpp:20-30 | every job starts an interval after the one before, or right at a skipped one, unless the clock is past that |
| RateLimiter.OnTime | application/push1st/smppservice/cratelimiter.cpp:20-30 | while the clock is not past the due times, job j starts exactly j intervals after the first |
| RateLimiter.RunActualBound | application/push1st/smppservice/cratelimiter.cpp:20-24 | if the worker wakes late by at most L, a window of length W holds at most ceil((W + L) / interval) real starts, in every run |
| RateLimiter.LateWakeBunches | application/push1st/smppservice/cratelimiter.cpp:21-24 | the lateness matters: at one job per second, two real starts half a second apart |
| RateLimiter.BacklogSteady | application/push1st/smppservice/cratelimiter.cpp:20-24 | the readings of the backlog that exceeds the rate are those of a steady clock |
| RateLimiter.BacklogCount | application/push1st/smppservice/cratelimiter.cpp:15-33 | a backlog is started one interval apart, so the bound is reached |
| WebSocket.Mask | source/http/cwebsocket.cpp:63-67 | byte j of the buffer is combined with key byte j modulo 4 in place, nothing else changes |
| WebSocket.MaskedTwice | source/http/cwebsocket.cpp:63-67 | masking twice with one key restores the data |
| WebSocket.XorBitsTwice | source/http/cwebsocket.cpp:63-67 | the bitwise reason, for any width |
| WebSocket.XorBitsDiffer | source/http/cwebsocket.cpp:63-67 | bit i of a masked value is set exactly when bit i of the value and of the key differ, for any width |
| WebSocket.MaskedBits | source/http/cwebsocket.cpp:63-67 | the same for every bit of every masked byte of a message |
| WebSocket.WrongKeyShows | source/http/cwebsocket.cpp:63-67 | unmasked with another key, a byte comes out different wherever the key bytes differ |
| WebSocket.MakeUnFrame | source/http/cwebsocket.cpp:13-21 | header and payload |
| WebSocket.MakeFrame | source/http/cwebsocket.cpp:23-33 | header, key and masked payload |
| WebSocket.Make | source/http/cwebsocket.cpp:35-56 | the frame in the shortest length form; an empty message is never masked |
| WebSocket.FrameLayout | source/http/cwebsocket.cpp:13-56 | every frame is laid out as section 5.2 of RFC 6455 draws it: fin and opcode, mask bit and length, key, payload |
| WebSocket.WsConnection.WsReadMessage | source/http/cwsconn.cpp:5-82 | what is taken off the stream, which handlers run and what is returned, for every stream |
| WebSocket.DecodeLength | source/http/cwsconn.cpp:16-45 | the three length forms are told apart and read back |
| WebSocket.DecodeFrame | source/http/cwsconn.cpp:5-82 | one read takes exactly one built frame and yields its opcode and message, or refuses it for its size |
| WebSocket.ReactsByOpcode | source/http/cwsconn.cpp:64-78 | which opcodes are delivered, answered with a pong, close, or are refused with 1003 |
| WebSocket.DecodeDecides | source/http/cwsconn.cpp:5-62 | for any bytes: missing header, too long, missing payload or one frame, and exactly which bytes are the payload and the rest |
| WebSocket.RefusesBig | source/http/cwsconn.cpp:56-60 | a message that is too big is answered with 1009 and EMSGSIZE, and nothing is delivered |
| WebSocket.DecodeConcatIff | source/http/cwsconn.cpp:5-82 | any mix of frames and keys is read back in order, nothing left, exactly when each message is empty or below the limit |
| Base64.BothSound | source/core/util/cbase62.cpp:7-27 | in both tables every digit decodes to its value and is neither padding nor blank |
| Base64.Encode | source/core/util/cbase62.cpp:29-70 | the loop over a three-byte buffer computes the specified encoding |
| Base64.Decode | source/core/util/cbase62.cpp:72-88 | the loop computes the specified decoding, for any text; undefined where it pops from nothing |
| Base64.SextetsRegroup | source/http/chttp.cpp:514-517 | the four digits, each below 64, are the 24 bits of the three bytes |
| Base64.TableRuns | source/core/util/cbase62.cpp:7-10 | the digits are A to Z, a to z, 0 to 9 and the two last ones, in both tables, with their pads |
| Base64.ValueReads | source/http/chttp.cpp:400-417 | a character has a value below 64 exactly as the digit for it; the others have 254 or 255 |
| Base64.GroupDigits | source/http/chttp.cpp:505-540 | whole and short groups: their digits from the top down, then their pads |
| Base64.BytesOfGroup | source/http/chttp.cpp:423-427 | any four digits decode to the 24 bits of their values |
| Base64.DecodedLength | source/http/chttp.cpp:428-430 | any text with n pads at its end loses n decoded bytes; undefined exactly if there are fewer |
| Base64.EncodedLength | source/core/util/cbase62.cpp:29-70 | 4 * ceil(n / 3) characters |
| Base64.EncodedPads | source/core/util/cbase62.cpp:52-67 | the number of padding characters |
| Base64.PadsPopTheGarbage | source/http/chttp.cpp:423-430 | the encoding decodes to the input plus as many garbage bytes as there are pads to pop them |
| Base64.RoundTrip | source/http/chttp.cpp:399-434 | decoding an encoding gives the bytes back, in both variants |
| Base64.EncodedHasNoBlanks | source/core/util/cbase62.cpp:7-10 | no space or tab appears in an encoding |
| Md5.PaddedLengthIsLeast | source/http/chttp.cpp:593-595 | new_len is the least length above size that is 56 modulo 64 |
| Md5.LengthHalves | source/http/chttp.cpp:604-605 | the two stored words are the low 64 bits of the length in bits |
| Md5.PaddingInjective | source/http/chttp.cpp:593-605 | different messages have different paddings |
| Md5.PaddedAt | source/http/chttp.cpp:593-605 | the padded message byte by byte: message, 0x80, zeros, length in bits |
| Md5.LittleEndian | source/http/chttp.cpp:604-605 | byte i of a stored number has the weight 256^i |
| Md5.MixAgrees | source/http/chttp.cpp:617-629 | the code's round functions are F, G, H and I |
| Md5.IndexAgrees | source/http/chttp.cpp:619-628 | the code's word indices are the RFC's, always below 16 |
| Md5.ShiftAgrees | source/http/chttp.cpp:566-569 | the shift amounts are those of the RFC's four rounds |
| Md5.FirstRotations | source/http/chttp.cpp:571 | the two shifts are the circular shift by each amount of the first round; likewise for the other rounds |
| Md5.RfcRow | source/http/chttp.cpp:611-635 | the reference's four operations of a row, written out |
| Md5.StepsAgree | source/http/chttp.cpp:631-635 | renaming the four registers each step equals the RFC's rotating roles, for any operation and number of steps |
| Md5.CompressAgrees | source/http/chttp.cpp:606-641 | one block is compressed as RFC 1321, section 3.4, says |
| Md5.Pad | source/http/chttp.cpp:593-605 | the buffer built in place is the padded message |
| Md5.LoadWords | source/http/chttp.cpp:607-609 | the sixteen little-endian words of a block |
| Md5.WordAt | source/http/chttp.cpp:579-580 | word i has the digits of its four bytes, low-order byte first |
| Md5.FoldAppend | source/http/chttp.cpp:606-642 | appending a block compresses it into what was folded before |
| Md5.InitialBytes | source/http/chttp.cpp:585-590 | the four initial words, as the RFC lists their bytes |
| Md5.HexWordAt | source/http/chttp.cpp:644-667 | the hexadecimal digits of a word: low-order byte first, high digit first |
| Md5.HexAt | source/http/chttp.cpp:652-667 | the digest is A, B, C and D in that order |
| Md5.CompressBlock | source/http/chttp.cpp:607-641 | the code's 64 steps are the RFC's compression |
| Md5.CompressBlocks | source/http/chttp.cpp:606-642 | each 64-byte block is visited once: the loop is the fold of the compression over the padded message |
| Md5.Md5 | source/http/chttp.cpp:555-669 | the hexadecimal digest is that of the fold, with the source's table |
| ChunkedReader.ExtractJson | source/http/chttp.cpp:474-496 | the index at which the scan of the braces ends, -1, or undefined where it pops an empty stack; `ExtractJsonFindsIff` says which index that is |
| ChunkedReader.ExtractJsonFindsIff | source/http/chttp.cpp:474-496 | where the depth never goes negative: n exactly if n is the first closing brace that brings the depth to 0, and -1 exactly if there is none |
| ChunkedReader.ObjectsCloseAtTheirEnd | source/http/chttpconn.cpp:77-81 | every extracted object first returns to depth 0 at its last character, and none is left in the remainder |
| ChunkedReader.FromHex | source/http/chttp.cpp:436-452 | the value in 64 bits, or -1 at a character that is no digit |
| ChunkedReader.FromHexReads | source/http/chttp.cpp:436-452 | a line of hexadecimal digits gives the number it denotes, if that fits 64 bits with sign |
| ChunkedReader.FromHexWraps | source/http/chttp.cpp:436-452 | and a number that differs by a multiple of 2^64 if it does not |
| ChunkedReader.FromHexRefuses | source/http/chttp.cpp:436-452 | any other character gives -1 |
| ChunkedReader.SplitLineCuts | source/http/chttp.cpp:464-472 | the line ends at the first line break and the rest begins after it; without one the text stays whole |
| ChunkedReader.HttpConnection.HttpReadChunkedResponse | source/http/chttpconn.cpp:50-93 | objects, result and the text kept for the next read, for any bytes received |
| ChunkedReader.CutShort | source/http/chttpconn.cpp:61-66 | a chunk that has not arrived in full is kept as text, nothing is extracted, and its size line is lost |
| ChunkedReader.StripCuts | source/http/chttpconn.cpp:84-90 | the line breaks at the front of the kept text are removed, and nothing else |
| ChunkedReader.ExtractAppend | source/http/chttpconn.cpp:77-81 | extracting from a prefix first and going on from its remainder finds the same objects |
| ChunkedReader.IncrementalIsBatch | source/http/chttpconn.cpp:57-92 | decoding complete chunks with extraction after each equals extracting once from the saved text plus all payloads, exactly unless there is no chunk and the saved text is not one that extraction leaves |
| ChunkedReader.ExtractLosesNothing | source/http/chttpconn.cpp:77-81 | objects followed by the remainder are the text |
| ChunkedReader.DefinedIffNeverNegative | source/http/chttp.cpp:474-496 | extraction is defined exactly for texts whose brace depth never goes negative |
| AccessToken.MintToken | source/core/credentials/ccredentials.cpp:38-53 | the token is the encoding of the encrypted four-field text, with "*" for an empty field and the expiry in 64 bits |
| AccessToken.ValidateAccessToken | source/core/credentials/ccredentials.cpp:70-88 | the loop over the view accepts exactly the texts whose four fields grant the request |
| AccessToken.Trim | source/core/credentials/ccredentials.cpp:90-97 | blanks are removed at both ends |
| AccessToken.ValidateToken | source/core/credentials/ccredentials.cpp:123-138 | prefix, blanks, base64, cipher and "token-" undone in that order |
| AccessToken.StolOfDecimal | source/core/credentials/ccredentials.cpp:82 | a written number is read back exactly when it fits a long, and refused otherwise |
| AccessToken.DecimalDigits | source/core/credentials/ccredentials.cpp:41 | a number is written digit by digit in base ten |
| AccessToken.StolReads | source/core/credentials/ccredentials.cpp:82 | spaces, a sign and digits are read as the number they denote, whatever follows, and refused exactly outside a long |
| AccessToken.StolThrows | source/core/credentials/ccredentials.cpp:82 | without a digit there, it throws |
| AccessToken.PlainFields | source/core/credentials/ccredentials.cpp:70-80 | the text of a token with colon-free fields splits into "token-" and a number, origin, channel and expiry, with "*" for an empty field |
| AccessToken.FourFields | source/core/credentials/ccredentials.cpp:70-80 | any four colon-free fields are read back, whatever follows a further colon |
| AccessToken.TooFewFields | source/core/credentials/ccredentials.cpp:76-79 | a text with fewer than three colons is refused |
| AccessToken.TextGrants | source/core/credentials/ccredentials.cpp:82-85 | what any text of four fields grants: each field a wildcard or equal, the expiry a number that is 0 or not past |
| AccessToken.PresentedIsJudged | source/core/credentials/ccredentials.cpp:123-137 | with or without the Bearer prefix, in any case of its letters, and with any blanks around, a presented token is judged by the text it deciphers to, and refused if there is none |
| AccessToken.BearerIff | source/core/credentials/ccredentials.cpp:124 | the prefix is accepted exactly letter by letter in either case, with one blank |
| AccessToken.TrimsAround | source/core/credentials/ccredentials.cpp:90-97 | the blanks at both ends go, and nothing else |
| AccessToken.MintedAcceptedIff | source/core/credentials/ccredentials.cpp:38-138 | for any cipher that inverts: accepted exactly when origin and channel match, or were minted empty or as "*", and the expiry is 0 or not before now |
| AccessToken.ColonMisjudges | source/core/credentials/ccredentials.cpp:70-80 | with a colon in a field some request is judged wrongly |
| AccessToken.PromiseKeptIff | source/core/credentials/ccredentials.cpp:38-138 | every request is judged as promised exactly when origin and channel are free of colons |
| AccessToken.LifetimeKeptIff | source/core/credentials/ccredentials.cpp:40 | the token lives as long as asked, at every later time, exactly when no lifetime was asked for or the sum stays below 2^63 or is 2^64 |
| Channel.Channel.Push | source/channels/cchannel.cpp:66-154 | each live subscriber that the mode allows is targeted exactly once, the count is their number, and exactly the examined expired entries and the failed sessions are gone |
| Channel.Channel.Deliver | source/channels/cchannel.cpp:141-146 | exactly the entries under the ids of the failed sessions are erased, unless the lock was busy |
| Channel.Channel.ScanBroadcast | source/channels/cchannel.cpp:74-106 | the erasing scan, in any order of the map |
| Channel.Channel.ScanMulticast | source/channels/cchannel.cpp:109-123 | likewise for the session prefix |
| Channel.Channel.FindUnicast | source/channels/cchannel.cpp:124-134 | likewise for one id |
| Channel.Channel.EraseDisconnected | source/channels/cchannel.cpp:36-48 | exactly the connected live entries stay, and the live ones erased are listed once each, in any order of the map |
| Channel.Channel.Gc | source/channels/cchannel.cpp:29-64 | that, the count returned, and an empty autoclose channel unregistered; nothing when the lock is taken |
| Channel.Channel.Subscribe | source/channels/cpublicchannel.cpp:13-17 | exactly the join step |
| Channel.Channel.UnSubscribe | source/channels/cpublicchannel.cpp:30-39 | exactly the leave step, which erases whatever entry holds the id, or nothing when the lock is taken |
| Channel.ListsCounts | source/channels/cchannel.cpp:137-153 | a list of each recipient once has as many elements as there are recipients |
| Channel.StepIdealIff | source/channels/cchannel.cpp:66-154 | a step treats the live sessions as a channel without entries, ids and locks would, exactly when it does not deviate: over an id, or by a missed lock |
| Channel.DeliversAsIdeal | source/channels/cchannel.cpp:66-154 | over every run without deviations, erasing expired entries, whenever a scan does it, never changes which sessions get which message |
| Channel.DeliversEverAfterIff | source/channels/cchannel.cpp:66-154 | a step leaves every delivery right in all continuations without further deviations exactly when it does not deviate itself |
| Channel.JoinHeardIff | source/channels/cpublicchannel.cpp:16 | after joining, a session gets a message exactly if it is allowed to and its id was free, or already its own live entry |
| Channel.LeaverHearsIff | source/channels/cpublicchannel.cpp:32-38 | after leaving, a session still gets a message exactly if it is allowed to, its live entry was its own, and the lock was busy |
| Channel.SendMember | source/channels/cchannel.cpp:141-146 | after a message the live sessions are those before without the failed ones whose unsubscription got the lock |
| Channel.AddressedByWord | source/channels/cchannel.cpp:66-135 | a message with the word broadcast goes to all but the sender and the named socket, with multicast by prefix, with any other word to one id |
| Channel.ErasedIff | source/channels/cchannel.cpp:74-146 | which entries a message erases: the failed sessions that could be unsubscribed, and the expired entries it came across |

## Left out

- SmppDelivery.ChunkConserved: assumes that live sequences and gateway uids do not collide, because the code does not check it; `SmppCollisions.ConservedEverAfterIff` shows that this cannot be weakened. The clock is std::time, which can be set back, so the losing continuations may read any time; `SmppSteadyClock` restricts them to readings that never decrease.
- SmppPdu.Gateway.OnGwReply: a socket error and a stream that ends early are one case, and TLS sockets are not modelled.
- BlockingQueue.MpmcBlockingQueue.Enqueue: waiting is a step that is enabled only when its condition holds; lost wake-ups and the order in which waiting threads go on are not modelled.
- RateLimiter.Limiter.Drain: jobs that arrive while the loop runs are covered by interleaving Enqueue and RunNext, whose `Valid` keeps the spacing; stop requests are not modelled.
- WebSocket.Make: RandMask's random key is a parameter.
- AccessToken.MintToken: HMAC and AES-CBC are a pair of functions of which only "decrypting inverts encrypting" is assumed; their failures, which give an empty token, are left out. A signed overflow in the expiry is taken to wrap.
- AccessToken.ValidateToken: with a cipher text that base64 decoding leaves undefined the result is None.
- Md5.Md5: the entries of the table are the source's constants; that they are the RFC's sines is not proved. The digest is computed for any length, where `alloca` would exhaust the stack.
- Channel.Channel.Gc: a collection that finds the lock taken counts as not made, in the class and in the reference: it disconnects nobody and the timer comes again.
- SmppSubmit.Submit: the worker is taken to start no job between two parts, so that a busy worker may make more room than stated.
- Channel.Channel.Push: whether an entry's session is alive, which sends fail and which locks are taken are parameters of the step; erasing under a shared lock is not modelled as a data race.
- SmppService: a chunk's weak reference to its service is taken to be alive, and gateways that share the poll's queue are left out.
- CircularQueue: integers are unbounded, so a capacity of 2^64 - 1 does not wrap to 0, and allocation does not fail.
- SMPP gateways, binding, enquire_link timing, status hooks and the parsing of the receipt text (`cshortmsg`): the id and stat of a receipt are inputs.
- Utf8ToUtf16: a UCS2 message is any byte string of even length.
- Session tokens (`SessionToken`, `ValidateSession`): a comparison of hexadecimal digests, with no pipeline to invert.
- How csubscriber makes ids: a session is any id with an object, so that two sessions may share an id.
- Presence membership, cluster forwarding, hooks and the registry of channels beyond the flag that this one is registered.
- HTTP header parsing, routing, configuration, TLS, epoll, DNS and Lua: I/O or foreign code.
- JSON strings that contain braces, and chunks split across two reads: the code handles neither precisely; the reader's method is proved for all inputs, its batch property for complete chunks.
- The rest of spdlog (formatters, sinks, loggers): only queue, ring and pool are modelled.
