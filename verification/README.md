# goim: a verified model

goim is an instant-messaging system. A Comet gateway holds client connections and rooms, Logic manages
sessions and sequence numbers, and Router delivers each message to the user's connections or puts it where
it will be delivered later. This project models the state machines, data structures and codecs these parts
rest on, and proves what they are for. `dafny verify dfyconfig.toml` checks all of it.

| file | what it models |
|---|---|
| SeqAllocator.dfy | per-user sequence numbers: block reservation from a shared counter by many processes, as interleaved steps |
| OfflineSync.dfy | paging through the messages a client has missed, over an index those numbers score |
| AttemptLock.dfy | the in-flight delivery lock with a TTL, as interleaved steps |
| Backend.dfy, Tracking.dfy, Router.dfy | the stores and gateways with everything that can go wrong in a command, tracking and acknowledgement, and delivery with direct push and reliable fallback, while other routers change the same status hashes and locks |
| Idempotency.dfy | the sharded duplicate cache with expiry and half-eviction |
| SpoolReplay.dfy | replay of messages that were written to the local disk |
| Bucket.dfy | channels and rooms, the rooms being intrusive doubly linked lists |
| Timer.dfy | the heap timer with back-indices, a free list and one armed wake-up |
| Ring.dfy | the per-connection ring with free-running 64-bit counters |
| Bufio.dfy, Protocol.dfy | buffered input and output, the 16-byte framing, raw batches, and the transfer end to end |
| Websocket.dfy | WebSocket frames, masking, fragments and pings |
| Messages.dfy | the hand-written message bodies |
| Sessions.dfy | sessions in four Redis indices with two caches in front |
| RateLimit.dfy | token buckets and the two-level limiter |
| Common.dfy, Bits.dfy, Bytes.dfy | options and results, bitwise operators, bytes and integer widths |

How things are modelled:

- What the source updates in place is a class with the same fields, and each method is proved against a
  function or predicate about the new state. Concurrency is a state machine whose steps are the sections the
  source runs under a lock, or single Redis commands; the allocator's steps use the functions that specify the
  class.
- What a command did and what its caller was told is a parameter wherever it decides a result: a command refused,
  executed with its reply lost, or a pipeline executed in part. So the router's, the tracker's and the spool worker's
  results are stated exactly, and single failures can be named. Other routers and a spooling router are
  nondeterministic steps in between. Sockets choose: a read delivers any part of what is pending, a write sends a
  prefix.
- Clocks, random ids, lock tokens, answers of other services and the hash of message ids are parameters. Lock tokens
  are distinct; nothing is assumed of the hash.
- Fixed-width integers are written out where they matter: the ring's counters, `normalizeRingSize`, the body
  length of a frame, the WebSocket length, all codecs, the allocator's counter, blocks and prefetch threshold, and
  the shard index of the limiter.

Places where the code and its documentation, or a natural expectation, part ways. The model follows the code, an
input on which it fails is exhibited, and the exact condition is proved:

- A nil error of `RouteByUser` is said to mean delivered or queued. Every tracking error becomes nil as well, and so
  does a held attempt lock (`Router.NilWithoutDelivery`). `Router.DispatchEngine.RouteByUser` has the condition: it
  holds, without interference, exactly if the lock is free, the duplicate cache does not hold the message's hash, and
  no tracking command that decides fails.
- The cached-route shortcut of the router counts a message as delivered after pushing to one session, although its
  comments speak of all devices (`Router.OneOfTwoDevices`; exactly when nobody is missed:
  `Router.DispatchEngine.DeliveryReaches`).
- A hash collision is said to be caught by a second look at Redis; an unexpired entry in memory is final, and the
  other message is lost (`Router.CollisionIsSwallowed`; exactly when the cache is right:
  `Tracking.AckHandler.StaysTrusted`).
- Sequence numbers are unique and increasing until a block that ends at 2^63-1 is used up; the next call returns -2^63
  (`SeqAllocator.BeyondTheLastNumber`, `SeqAllocator.NumbersAreUnique`).
- A false HasMore may hide messages when the server's counter could not be read
  (`OfflineSync.FaultHidesTheRest`, `OfflineSync.FalseHasMoreIsFinal`), and beyond 2^53 two messages can share a score
  (`OfflineSync.SharedScoreIsSkipped`).
- A file in the spool can wait behind a batch of failing ones until it is archived untried
  (`SpoolReplay.MalformedFileStarves`, `SpoolReplay.TurnComesIff`).
- Offline paging stops advancing when a whole page of status hashes has expired
  (`OfflineSync.ExpiredPageNeverAdvances`, `OfflineSync.PagingEndsIffNoGap`).
- `ChangeRoom` to the channel's own room breaks the lists exactly for a sole member
  (`Bucket.SoleMemberAsksForItsRoom`, `Bucket.Bucket.ChangeRoom`).
- A fragmented WebSocket message whose earlier fragments are all empty is reported with operation 0
  (`Websocket.EmptyFragmentHidesTheOperation`, `Websocket.WhichOp`).
- Disconnecting with a key of another user leaves that user listing a session that is gone
  (`Sessions.DisconnectsAnotherUser`, `Sessions.SessionManager.Disconnect`).
- A message marked failed is meant to be delivered again; one that was delivered before stays a duplicate. Nothing in
  the router marks messages failed so far
  (`Tracking.FailsADeliveredMessage`, `Tracking.AckHandler.MarkFailed`).

## Model

| member | source | states |
|---|---|---|
| `SeqAllocator.NumbersAreUnique` | internal/logic/service/seq.go:73-174 | In every interleaving of any number of processes, prefetches, lost replies, refusals, INCRBYs that Redis executes after their caller has given up, and crashes: no number is returned twice, each lies in 1..counter, and each process's numbers increase, if and only if no pass takes a number from a block whose int64 `next` has wrapped around |
| `SeqAllocator.NoOverrunBelow` | internal/logic/service/seq.go:132-145 | Below 2^63-1 on the counter there is no such pass |
| `SeqAllocator.BeyondTheLastNumber` | internal/logic/service/seq.go:132-145 | The failing case is reachable: the call after the one that returns 2^63-1 returns -2^63 |
| `SeqAllocator.NumbersAreUniquePerUser` | internal/logic/service/seq.go:121-130 | The same for every user of a run over all users, with the same exact condition on that user's steps |
| `SeqAllocator.NumberInHandIsReturned` | internal/logic/service/seq.go:132-145 | Progress: in any state a pass with an unexhausted block, or with a prefetched one, adds exactly one entry to what was returned, the first number of that block; with neither it adds none |
| `SeqAllocator.NobodyWaitsForEver` | internal/logic/service/seq.go:81-118 | In every reachable state with room on the counter, two rounds of a caller's loop (a pass, the reservation answered and installed, another pass) return a number |
| `SeqAllocator.RoundReturns` | internal/logic/service/seq.go:81-118 | One round does, unless a reservation that lost its reply was pending, which it clears |
| `SeqAllocator.PrefetchIsDue` | internal/logic/service/seq.go:176-190 | Below the int64 bound of the products a prefetch is due exactly with 20 numbers left (2 or 1 for blocks of 20 or fewer) or nine tenths of the block used |
| `SeqAllocator.RunProjects` | internal/logic/service/seq.go:121-130 | What one user sees of a run over all users is a run of that user alone |
| `SeqAllocator.NoRangeOverwritten` | internal/logic/service/seq.go:81-174 | In every reachable state a step takes a reserved number away from a live process only by returning it; the only other way to lose one is the process ending |
| `SeqAllocator.SoleAllocatorIsConsecutive` | internal/logic/service/seq.go:73-174 | With one process and no failures the numbers returned are counter+1, counter+2, ... without a hole, across prefetched blocks, if and only if it does not go on after 2^63-1 |
| `SeqAllocator.SoleRun` | internal/logic/service/seq.go:73-174 | Along a faultless run of one process the unissued part of the counter stays tiled by what the process holds, in order |
| `SeqAllocator.RunPreservesInv` | internal/logic/service/seq.go:73-174 | Disjointness of what processes hold, and holding only numbers above everything they returned, survive every run without a pass beyond the end of int64 |
| `SeqAllocator.RunPreservesLocalInv` | internal/logic/service/seq.go:73-174 | What is local to a process survives every run, beyond the end of int64 too, and nothing returned is forgotten |
| `SeqAllocator.ServePreservesInv` | internal/logic/service/seq.go:81-118 | One locked pass that returns a number keeps that invariant |
| `SeqAllocator.IncrPreservesInv` | internal/logic/service/seq.go:147-154 | So does INCRBY, whether its reply arrives, is lost, or the command is refused on int64 overflow |
| `SeqAllocator.RaisePreservesInv` | internal/logic/service/seq.go:147-154 | A counter raised by an INCRBY nobody waits for any more breaks nothing |
| `SeqAllocator.InstallPreservesInv` | internal/logic/service/seq.go:97-116 | Installing a foreground or prefetched block keeps it too |
| `SeqAllocator.UserSeqState.AllocateLocked` | internal/logic/service/seq.go:132-145 | A number is returned exactly when the block in use has one left or the next block is there, and it is the first of the one in use or else of the next one, which is promoted; a prefetch starts exactly when none is pending and the block runs low; otherwise nothing changes |
| `SeqAllocator.UserSeqState.ServeLocked` | internal/logic/service/seq.go:81-97 | A pass of the loop: with a block in hand its number; with nothing in hand it waits exactly if a reservation is in flight, and otherwise becomes the one who reserves |
| `SeqAllocator.UserSeqState.FinishForeground` | internal/logic/service/seq.go:97-116 | A reply replaces the exhausted block; an error leaves it; either way the reservation ends |
| `SeqAllocator.UserSeqState.FinishPrefetch` | internal/logic/service/seq.go:156-174 | A prefetched block is kept only if the next slot is still free |
| `SeqAllocator.NewConfig` | internal/logic/service/seq.go:59-70 | A non-positive block size falls back to 100, a positive one is kept |
| `OfflineSync.SyncService.SyncAll` | internal/logic/service/sync.go:133-199 | Asking again from the returned cursor until HasMore is false terminates and yields exactly the un-acked messages above the first cursor, each once and in order, with sender, receiver, time and content of its own hash, whenever no full page of hashes has expired; exactly the acked ones leave the offline queue |
| `OfflineSync.SyncService.GetOfflineMessages` | internal/logic/service/sync.go:133-154 | One page: exactly the un-acked numbered messages of its entries, each field that of its hash, the cursor, server maximum, HasMore and the clean-up of acked messages, and both error cases with nothing changed; a false HasMore means that nothing un-acked is left if the counter was read or the page is not full |
| `OfflineSync.FalseHasMoreIsFinal` | internal/logic/service/sync.go:133-154 | The condition suffices on every consistent store |
| `OfflineSync.FaultHidesTheRest` | internal/logic/service/sync.go:133-154 | That condition cannot be dropped: a full page whose counter could not be read says that there is no more, and the same page and cursor come from a store with one more un-acked message |
| `OfflineSync.SyncService.BuildMessages` | internal/logic/service/sync.go:174-218 | The loop skips entries without a usable sequence number, drops exactly the acked ones from the offline queue, and returns the others field by field as their hashes hold them |
| `OfflineSync.SyncService.MessagesAfter` | internal/logic/dao/redis.go:580-595 | The first `limit` entries strictly above the cursor, in score order |
| `OfflineSync.BodiesMeans` | internal/logic/service/sync.go:174-218 | A message is in the reply to a list of entries if and only if its id is among them and its hash is numbered, not acked, and has exactly its sender, receiver, time, number and content |
| `OfflineSync.CursorMeans` | internal/logic/service/sync.go:174-199 | The cursor returned is the greatest number met, and never less than the one before |
| `OfflineSync.UnackedIsWanted` | internal/logic/service/sync.go:174-218 | The result list holds a body if and only if its fields are those of the hash of an indexed, un-acked message above the cursor |
| `OfflineSync.UnackedInOrder` | internal/logic/service/sync.go:174-199 | Each once, in strictly increasing sequence order |
| `OfflineSync.UnackedIsBodies` | internal/logic/service/sync.go:174-218 | That list is what the service builds from the whole index above the cursor |
| `OfflineSync.PagingEndsIffNoGap` | internal/logic/service/sync.go:133-199 | Paging reaches a page with HasMore false if and only if no page-sized stretch of consecutive entries has lost all its hashes |
| `OfflineSync.GapBlocksForever` | internal/logic/service/sync.go:174-199 | From a cursor with such a stretch ahead every later page asks for more |
| `OfflineSync.NoGapEnds` | internal/logic/service/sync.go:133-199 | Without one, some page ends the loop |
| `OfflineSync.ExpiredPageNeverAdvances` | internal/logic/service/sync.go:174-191 | A concrete store with an un-acked message ahead on which every later page leaves the cursor where it is, is empty and asks for more |
| `OfflineSync.LiveStoreHasNoGap` | internal/logic/service/sync.go:133-199 | With all hashes alive the condition always holds |
| `OfflineSync.PageFacts` | internal/logic/service/sync.go:133-199 | A page settles everything up to its last live entry, and the next page starts right behind it |
| `OfflineSync.PageAdvances` | internal/logic/service/sync.go:133-199 | Under the condition a page that asks for more has settled at least one entry, and one that does not leaves nothing to deliver |
| `OfflineSync.AllocatedIndexIsConsistent` | internal/logic/service/seq.go:73-119 | An index scored, in doubles, with numbers of any allocator run is strictly increasing and below the counter as long as that is at most 2^53: the uniqueness theorem is what paging rests on |
| `OfflineSync.SharedScoreIsSkipped` | internal/logic/dao/redis.go:552-595 | Beyond 2^53 two numbers share a score, and a client that has got the first message is never given the second |
| `AttemptLock.AttemptsNeverOverlap` | internal/router/ack.go:211-233 | Over every run with refused commands and lost replies, the intervals in which two attempts own an unexpired lock are disjoint |
| `AttemptLock.FallbackBlocks` | internal/router/dispatch.go:149-162 | An attempt that ended in a full fallback and keeps its lock shuts out every other one until ten seconds after it began, whatever happens at the lock meanwhile |
| `AttemptLock.StaleReleaseIsHarmless` | internal/logic/dao/redis.go:450-458 | A release with another token changes nothing |
| `AttemptLock.ReleaseAdmitsTheNext` | internal/router/ack.go:211-233 | A release while still the owner admits the next attempt at once |
| `AttemptLock.RunPreservesInv` | internal/logic/dao/redis.go:432-458 | The key in Redis and the attempts' history agree along every run |
| `AttemptLock.OthersLeaveAlone` | internal/router/ack.go:211-233 | What other attempts do at the lock leaves an attempt's record alone |
| `AttemptLock.LockKey.Acquire` | internal/logic/dao/redis.go:432-447 | SET NX PX: refused exactly while an unexpired lock exists, and otherwise the lock is this token's for ten seconds |
| `AttemptLock.LockKey.Release` | internal/logic/dao/redis.go:450-458 | Deletes exactly an unexpired lock with the same token |
| `Router.DispatchEngine.RouteByUserWithMode` | internal/router/dispatch.go:101-308 | For every pattern of failures and interference, and any hash: exactly when a call may not begin, finds the lock held, or is refused by tracking or the duplicate cache, and then nothing is sent; otherwise, in the reliable mode, everything that is pushed, queued, kept offline or on disk, and reported; the index gains at most this message's entry, other messages' locks stay, and without interference the status hashes are determined; the attempt lock is kept exactly after a successful full fallback; transient leaves no trace in storage, persist-only sends nothing |
| `Router.DispatchEngine.RouteByUser` | internal/router/dispatch.go:97-99 | nil means delivered, or on the queue with this user and body for all the user's connections, exactly if no other attempt held the lock and the message was not refused; without interference, exactly if the lock was free, the duplicate cache does not hold the hash and no tracking command that decides failed; a message delivered or acked before is never sent again; whom a nil answer has reached, with the exact condition on the cached route; a full fallback shuts out every other attempt until the TTL |
| `Router.NilWithoutDelivery` | internal/router/dispatch.go:149-167 | A new message to a reachable user while the sequence allocator is down: nil, and nothing is pushed, queued or kept |
| `Router.CollisionIsSwallowed` | internal/router/idempotency.go:144-163 | A message whose hash is that of one just delivered, everything working: nil, and nothing is pushed, queued or kept |
| `Router.OneOfTwoDevices` | internal/router/dispatch.go:206-226 | Two devices, one of them on the cached route, everything working: nil and delivered, and the other device is neither pushed to nor queued for |
| `Router.DispatchEngine.DeliveryReaches` | internal/router/dispatch.go:206-307 | Direct and partial pushes and an online fallback cover every connection of the user; the cached-route shortcut does exactly when the cached connection is the only reachable one |
| `Router.DispatchEngine.Begin` | internal/router/dispatch.go:131-156 | An attempt begins exactly when there is an id and the lock command is answered; alone, it finds the lock held exactly while another attempt's is unexpired |
| `Router.DispatchEngine.RouteLocked` | internal/router/dispatch.go:149-308 | The part under the lock: tracking's verdict, the delivery, and the lock kept exactly after a successful full fallback, else given back |
| `Router.DispatchEngine.Deliver` | internal/router/dispatch.go:173-308 | From the limiters on: Limited exactly when a limiter rejects; which way every other message goes, the pushes tried and answered, the one queued message and its connections, the entry in the offline queue, the spooled record, and the error, as functions of what the commands did; nothing else in these stores changes |
| `Router.DispatchEngine.WhichWay` | internal/router/dispatch.go:173-307 | Limited, cached, direct, partial or fallback, by the limiters, the cached route, the session manager's answer and which single pushes are answered |
| `Router.DispatchEngine.WhatIsDone` | internal/router/dispatch.go:173-307 | For each way the result reported, the sessions pushed to and reached, and the status hashes afterwards |
| `Router.DispatchEngine.WhatIsKept` | internal/router/dispatch.go:633-779 | For each way the element the queue gains, with its user, body, keys, server and channel, the offline entry, and the spooled record with its id, number and body; nothing else |
| `Router.DispatchEngine.DeliverDirect` | internal/router/dispatch.go:203-307 | The same past the limiters: the cached route first, then the session manager's answer |
| `Router.DispatchEngine.PushOrFallBack` | internal/router/dispatch.go:232-307 | Full, partial and failed direct push: which of them, what is pushed to, and what goes on the queue, into the offline queue and on disk for whom |
| `Router.DispatchEngine.PushCached` | internal/router/dispatch.go:206-226 | The cached session is tried exactly when there is a pusher; success and failure are those of the push, and success is recorded as delivered |
| `Router.DispatchEngine.PushOnline` | internal/router/dispatch.go:239-281 | Every session is tried; an error exactly when all failed; otherwise the sessions that did not answer, and the delivery recorded if one of three status writes is confirmed |
| `Router.DispatchEngine.RouteTransient` | internal/router/dispatch.go:102-128 | Exactly one push, to the cached session or else to the user's, and none when a limiter rejects, degrades or there is no pusher; only rate limiting is an error |
| `Router.DispatchEngine.PushDirect` | internal/router/dispatch.go:430-459 | Every non-nil session is tried once in order; failed ones are returned; an error exactly when all of at least one failed |
| `Router.DispatchEngine.ReliableEnqueue` | internal/router/dispatch.go:633-705 | nil if and only if the queue write reported no error; the one new queue element has this user, this body, the keys or else the placeholder, the first server, and the topic for online or offline users, or the DAO push without a producer; the spooled record holds the same with id and number; otherwise the message is in the offline queue or the spool unless all three writes failed |
| `Router.DispatchEngine.SpoolReliableMessage` | internal/router/dispatch.go:720-753 | The spool is tried only after an offline failure, and the error tells which writes failed |
| `Router.DispatchEngine.ConnectionKeys` | internal/router/dispatch.go:647-663 | The keys of sessions that have one, in order, or the uid placeholder, and the first server |
| `Router.KeysInOrder` | internal/router/dispatch.go:647-663 | The keys are those of the sessions that have one, each at its place, in order, none left out |
| `Router.ServerIsFirst` | internal/router/dispatch.go:648-658 | The server is that of the first session with both a key and a server, and empty without one |
| `Router.PlaceholderNamesTheUser` | internal/router/dispatch.go:660-663 | The placeholder is uid: and a decimal that reads back as the user's number, sign included |
| `Router.QueueKeysMeans` | internal/router/dispatch.go:647-663 | A message is addressed to these keys, or to the placeholder exactly when no session has one |
| `Router.DispatchEngine.MarkDeliveredWithRetry` | internal/router/dispatch.go:834-846 | Succeeds exactly if one of three tries is confirmed, and then the stored status is final; without interference it is delivered exactly if a try was executed |
| `Tracking.AckHandler.TrackMessage` | internal/router/ack.go:235-303 | A finished message, and one the duplicate cache holds, is always refused; any other exactly when a command that decides fails; an admitted new one is pending under its number and indexed; the index gains at most this entry |
| `Tracking.AckHandler.Register` | internal/router/ack.go:249-303 | Allocate, the script and the index entry: refused exactly when one of them fails, each named, or the key was there and is finished or unreadable; without interference a new message is pending under the number granted; the index gains at most this entry |
| `Tracking.AckHandler.HandleExistingTrackedMessage` | internal/router/ack.go:316-322 | When the script finds the key: refused exactly if the status is unreadable or final; the index entry is repaired, no other |
| `Tracking.AckHandler.HandleTrackedStatus` | internal/router/ack.go:324-333 | Refuses and remembers exactly delivered and acked, and repairs the index entry, no other |
| `Tracking.AckHandler.EnsureUserMessageIndex` | internal/router/ack.go:335-351 | The user's index entry gets the number in the hash exactly when that can be read and written; no other entry changes |
| `Tracking.AckHandler.MarkDelivered` | internal/router/ack.go:358-364 | Success exactly if the write is confirmed; an executed write has stored delivered; the message is remembered on success, and no other |
| `Tracking.AckHandler.MarkFailed` | internal/router/ack.go:371-373 | Success exactly if the write is confirmed; the duplicate cache stays right about the message if and only if the write was not executed or the cache does not hold its hash |
| `Tracking.FailsADeliveredMessage` | internal/router/ack.go:366-373 | The failing case is reachable: a message marked failed after delivery goes on counting as a duplicate |
| `Tracking.AckHandler.HandleAck` | internal/router/ack.go:133-178 | Success exactly if the write is confirmed; an executed write has stored acked; on success the offline queue loses this message and it is remembered, and no other |
| `Tracking.AckHandler.IsDuplicate` | internal/router/idempotency.go:144-181 | Duplicate exactly if the cache holds an unexpired entry for the hash or a readable status is final; right whenever the cache is right about the message |
| `Tracking.AckHandler.MarkSeen` | internal/router/idempotency.go:191-204 | Remembers nothing but this finished message, and in its shard only; below the limit it is remembered for five minutes |
| `Tracking.AckHandler.StaysTrusted` | internal/router/idempotency.go:100-204 | A call leaves the cache right about its own message, and about another one if and only if its hash differs, it is finished too, or the hash is not held |
| `Tracking.AckHandler.TrustedForEver` | internal/router/idempotency.go:100-204 | Over any run of calls the cache stays right about a message as long as no other message in the run shares its hash |
| `Tracking.HashesCollide` | internal/router/idempotency.go:264-281 | Every hash into finitely many values gives two ids the same one |
| `Router.PushCovers` | internal/router/dispatch.go:430-459 | Every reachable session was acknowledged or its key is among the failed ones |
| `Router.AnsweredOrNot` | internal/router/dispatch.go:430-459 | No session is lost between those that answered and those that did not |
| `Backend.Services.TrackMessageAtomic` | internal/logic/dao/redis.go:406-428 | Registers only a key that does not exist, as pending under the given number; afterwards the key exists; the reply may be lost |
| `Backend.Services.UpdateMessageStatus` | internal/logic/dao/redis.go:513-520 | Success exactly if executed and confirmed; any executed write has stored the status; delivered and acked never take a final status back, and no other message loses one |
| `Backend.Services.AddUserMessage` | internal/logic/dao/redis.go:552-576 | Success means hash and index carry the number; a failure may leave a prefix of the pipeline |
| `Backend.Services.AddToOfflineQueue` | internal/logic/dao/redis.go:600-612 | Success means the entry is there; a failure may have written it |
| `Backend.Services.AcquireAttemptLock` | internal/logic/dao/redis.go:432-447 | Admits the attempt only if no other one's lock is unexpired, after any steps of others, and says so exactly when the reply arrives; other messages' locks stay |
| `Backend.Services.EndAttempt` | internal/logic/dao/redis.go:450-458 | The attempt ends with its lock kept after a full fallback, and otherwise, once the script is executed, without it |
| `Idempotency.IdempotencyChecker.Lookup` | internal/router/idempotency.go:144-163 | A hit exactly strictly before the expiry; exactly a stale entry goes, and every other one keeps its expiry |
| `Idempotency.IdempotencyChecker.MarkSeen` | internal/router/idempotency.go:191-204 | The message is held for five minutes in its shard of 64; every shard holds at most 2000 entries; only an overfull one loses any, all its expired entries, and if that is not enough the half that expires first |
| `Idempotency.Evict` | internal/router/idempotency.go:222-263 | Phase one is enough, or half of the unexpired entries go and none of them expires after one that stays |
| `Idempotency.PartialSelectionSort` | internal/router/idempotency.go:247-257 | In place: a permutation whose first half expires no later than anything behind it |
| `Idempotency.MinFrom` | internal/router/idempotency.go:249-254 | The position of an earliest expiry from i on |
| `Idempotency.EarliestHalfFirst` | internal/router/idempotency.go:235-257 | A listing of the shard, each entry once, with the earliest half in front |
| `Idempotency.PurgeExpired` | internal/router/idempotency.go:222-229 | Exactly the unexpired entries remain |
| `Idempotency.DropPrefix` | internal/router/idempotency.go:247-263 | Dropping the sorted prefix removes exactly half, and nothing dropped outlives anything kept |
| `Idempotency.PermutedLists` | internal/router/idempotency.go:240-257 | A permutation of a listing of the shard is one |
| `SpoolReplay.SpoolReplayWorker.ProcessOnce` | internal/router/spool_replay.go:111-144 | A whole pass while the router keeps spooling: the files attempted, in order, each leave exactly when their operations succeed, all others stay, archive and stores gain exactly what the attempts give them, every listed directory has its batch, and every record is on disk unchanged, archived, or accepted by Redis or Kafka |
| `SpoolReplay.SpoolReplayWorker.PassesOverDir` | internal/router/spool_replay.go:83-97 | The ticker's passes as one directory sees them: each takes the oldest batch, and from one to the next exactly what left is missing |
| `SpoolReplay.TurnComesIff` | internal/router/spool_replay.go:147-213 | Over repeated passes, a file gets its turn within as many passes as there are older ones if and only if fewer than a batch of these never leave |
| `SpoolReplay.TurnComes` | internal/router/spool_replay.go:147-213 | It does with fewer than a batch stuck, also among files of the same age and files that cannot always be examined |
| `SpoolReplay.Starves` | internal/router/spool_replay.go:147-213 | It never does with a batch of older files stuck, in any number of passes |
| `SpoolReplay.MalformedFileStarves` | internal/router/spool_replay.go:177-213 | The failing case, everything working: a malformed file fills every batch until both are too old, and the good file is archived without any store having been asked |
| `SpoolReplay.SpoolReplayWorker.DrainDir` | internal/router/spool_replay.go:147-215 | The files attempted are the oldest of the directory in order, a batch or all that could be examined; each leaves exactly when its operations succeed, no other file changes, and archive and stores gain exactly what the attempts give them |
| `SpoolReplay.SpoolReplayWorker.DrainInOrder` | internal/router/spool_replay.go:183-213 | The loop over the batch: every file of it is attempted once, in order |
| `SpoolReplay.SpoolReplayWorker.DrainFile` | internal/router/spool_replay.go:183-213 | One file: gone exactly if it was read and, older than the maximal age, archived and removed, or else confirmed by a configured store and removed; archived exactly then; both configured stores get a young, well-formed record; whatever fails, it is not lost |
| `SpoolReplay.SpoolReplayWorker.ReplayRecord` | internal/router/spool_replay.go:219-259 | Both configured stores are asked, and success exactly if one confirms; malformed JSON is refused and stores nothing |
| `SpoolReplay.SpoolReplayWorker.MoveToExpired` | internal/router/spool_replay.go:262-279 | Archived exactly if the directory and the rename or the copy succeed, gone exactly if also the removal does |
| `SpoolReplay.SpoolReplayWorker.WriteLocalSpool` | internal/router/dispatch.go:755-779 | A new complete file joins what must not be lost |
| `SpoolReplay.SortOldestFirst` | internal/router/spool_replay.go:155-175 | Every spool file once, oldest first |
| `SpoolReplay.SpoolReplayWorker.ListedMeans` | internal/router/spool_replay.go:147-175 | What is sorted are exactly the files of the directory whose name ends in .json and whose details could be read |
| `SpoolReplay.HeadIsOldest` | internal/router/spool_replay.go:172-183 | Nothing left behind a batch is older than anything in it |
| `Bucket.Bucket.Put` | internal/comet/bucket.go:159-183 | The channel heads exactly its room's list, a previous one under the key is closed and no other, and the invariant of maps and lists holds |
| `Bucket.Bucket.Del` | internal/comet/bucket.go:197-216 | The channel is in no list, an emptied room is gone, and the key map loses it only if it is still the one stored |
| `Bucket.Bucket.ChangeRoom` | internal/comet/bucket.go:113-142 | The invariant survives if and only if the call is not a sole member asking for its own room; otherwise the channel moves to the head of the new list; in the failing case it is in no list with a stale room; nothing is closed |
| `Bucket.SoleMemberAsksForItsRoom` | internal/comet/bucket.go:113-142 | The failing case is reachable: a first member asks for the room it is in |
| `Bucket.Bucket.MoveTo` | internal/comet/bucket.go:124-141 | The move itself, with the same exact condition |
| `Bucket.Bucket.LeaveFor` | internal/comet/bucket.go:127-138 | Looking up the new room before leaving the old one: the new one is dropped exactly when it was the old one and emptied |
| `Bucket.Bucket.LeaveRoom` | internal/comet/bucket.go:114-123 | Leaving to no room |
| `Bucket.Bucket.Leave` | internal/comet/bucket.go:205-215 | room.Del, then DelRoom for an emptied room: the map holds exactly the non-empty rooms |
| `Bucket.Bucket.DelRoom` | internal/comet/bucket.go:291-296 | Only the emptied room leaves the map |
| `Bucket.Bucket.Enter` | internal/comet/bucket.go:176-181 | Linking a channel in leaves all other rooms' lists intact |
| `Bucket.Room.Put` | internal/comet/room.go:33-48 | Inserts at the head of the doubly linked list, Prev inverting Next and Online its length; a dropped room refuses and nothing changes |
| `Bucket.Room.Del` | internal/comet/room.go:51-69 | Unlinks exactly the channel; the room drops exactly when it empties |
| `Bucket.Room.Unlink` | internal/comet/room.go:51-69 | The pointer surgery joins the neighbours and nothing else |
| `Bucket.Room.Close` | internal/comet/room.go:90-96 | Following Next closes every member and terminates |
| `Bucket.ChangeLists` | internal/comet/bucket.go:127-141 | What leaving after looking up does to the lists, with the sole-member case apart |
| `Bucket.RemovedIsWithout` | internal/comet/room.go:51-69 | Removing a member from a list without duplicates removes its one position |
| `Bucket.ApartLeft` | internal/comet/bucket.go:205-215 | No channel is in two lists after one leaves |
| `Timer.Timer.Add` | pkg/time/timer.go:102-110 | A record nobody holds joins the heap; other records keep their expiry and callback; the invariant (heap order, own positions, free list apart, wake-up in time) holds |
| `Timer.Timer.Del` | pkg/time/timer.go:114-119 | The named record leaves the heap, expired or not, and goes to the free list; nothing else changes |
| `Timer.Timer.Set` | pkg/time/timer.go:168-174 | The named record is re-armed, also after it has expired |
| `Timer.Timer.Expire` | pkg/time/timer.go:187-225 | With a frozen clock exactly the timers due at or before now run, each once, in non-decreasing expiry order, and the loop goes to wait |
| `Timer.Timer.ExpireStep` | pkg/time/timer.go:190-224 | Either the earliest due timer leaves the heap, or the signal is re-armed for the root |
| `Timer.Timer.NoMissedWakeup` | pkg/time/timer.go:123-225 | Whenever the loop waits, a wake-up is due by the time any timer is |
| `Timer.Timer.Push` | pkg/time/timer.go:123-140 | add: heap order restored, and a new root re-arms the signal |
| `Timer.Timer.Remove` | pkg/time/timer.go:142-165 | del: heap order restored, the record knows it is out, the root does not get earlier |
| `Timer.Timer.MoveToEnd` | pkg/time/timer.go:142-160 | swap, down and up leave a heap in front of the removed record |
| `Timer.Timer.Up` | pkg/time/timer.go:227-236 | Restores a heap that only the rising position disturbs, with Go's division at the root |
| `Timer.Timer.Down` | pkg/time/timer.go:238-254 | Sinks an element until only its start can be out of order |
| `Timer.Timer.LesserChild` | pkg/time/timer.go:238-254 | The child it compares with is a least one |
| `Timer.Timer.Swap` | pkg/time/timer.go:260-264 | Exchanges two records and keeps every record's own index right |
| `Timer.Timer.Get` | pkg/time/timer.go:84-91 | The head of the free list, which grows when empty |
| `Timer.Timer.PutBack` | pkg/time/timer.go:94-98 | Pushes a record onto the free list |
| `Timer.Timer.Grow` | pkg/time/timer.go:68-81 | A chain of num fresh records |
| `Timer.RisingStep` | pkg/time/timer.go:227-236 | One swap upwards moves the only possible disorder to the parent |
| `Timer.SinkingStep` | pkg/time/timer.go:238-254 | One swap with a least child moves it to that child |
| `Timer.SwapOut` | pkg/time/timer.go:142-160 | Moving the last element into a hole leaves a heap that only the hole can disturb |
| `Timer.RootIsLeast` | pkg/time/timer.go:187-225 | The root of a heap is a least element |
| `Ring.NormalizeRingSize` | internal/comet/ring.go:35-47 | The least power of two not below the request if and only if the request is at most 2^63; beyond that 0 |
| `Ring.HighestBit` | internal/comet/ring.go:41-43 | Clearing low bits leaves the greatest power of two not above the request |
| `Ring.Ring.Enqueue` | internal/comet/ring.go:68-82 | Set, fill, SetAdv: a bounded FIFO accepts exactly when not full and appends |
| `Ring.Ring.Dequeue` | internal/comet/ring.go:50-65 | Get, GetAdv: yields the oldest unread packet, if any |
| `Ring.Ring.Get` | internal/comet/ring.go:50-57 | The slot of the oldest unread packet, through both counters' wrap-around; empty exactly when nothing is unread |
| `Ring.Ring.Set` | internal/comet/ring.go:68-74 | A granted slot never holds an unread packet; full exactly at capacity |
| `Ring.Ring.GetAdv` | internal/comet/ring.go:60-65 | Consumes the oldest |
| `Ring.Ring.SetAdv` | internal/comet/ring.go:77-82 | Commits the granted slot |
| `Ring.Ring.Reset` | internal/comet/ring.go:88-101 | An empty ring of the normalized size with cleared slots, reusing the array when the size is unchanged; a negative size other than the least int gives a ring without slots |
| `Ring.SlotOfCounter` | internal/comet/ring.go:50-74 | Masking a wrapped 64-bit counter gives the same slot as the unwrapped count |
| `Ring.SlotsDiffer` | internal/comet/ring.go:68-74 | Counters less than a ring apart use different slots |
| `Bufio.Reader.Fill` | pkg/bufio/bufio.go:88-116 | No unread or pending byte is lost or reordered; more bytes arrive or an error is recorded, after at most 100 empty reads |
| `Bufio.Reader.Peek` | pkg/bufio/bufio.go:128-150 | The next n bytes without consuming them, however the socket cuts the stream, with every error case |
| `Bufio.Reader.Pop` | pkg/bufio/bufio.go:156-163 | Consumes exactly n bytes or nothing; on a live connection an error exactly for a negative, too large or unavailable count |
| `Bufio.Reader.ReadByte` | pkg/bufio/bufio.go:235-247 | The next byte of the stream, or its end |
| `Bufio.Writer.Flush` | pkg/bufio/bufio.go:404-425 | All accepted bytes stay accounted for, also when only part could be sent; success empties the buffer |
| `Bufio.Writer.Write` | pkg/bufio/bufio.go:437-459 | Exactly the first nn bytes are accepted, in order, across buffer boundaries and the bypass; success means all |
| `Bufio.Writer.WriteRaw` | pkg/bufio/bufio.go:465-477 | Past an empty buffer, or behind what is buffered: the order on the stream is kept |
| `Bufio.Writer.Peek` | pkg/bufio/bufio.go:483-499 | Reserves contiguous space behind everything accepted, or fails without reserving |
| `Bufio.BytesWriter.Write` | pkg/bytes/writer.go:44-47 | Appends, growing as needed, with nothing before it moved |
| `Bufio.BytesWriter.Peek` | pkg/bytes/writer.go:35-41 | Reserves the next bytes, keeping what is there across a reallocation |
| `Bufio.BytesWriter.Grow` | pkg/bytes/writer.go:49-57 | Room for the request, contents unchanged |
| `Protocol.Transfer` | api/protocol/protocol.go:75-153 | End to end: any list of packets and raw batches is received as the same flattened list for any chunking and sufficient buffers; whatever fails, what arrives is a prefix |
| `Protocol.SendAll` | api/protocol/protocol.go:129-153 | What reaches the stream is a prefix of the packets' frames, and all of them on success |
| `Protocol.ReceiveAll` | api/protocol/protocol.go:93-124 | Reads exactly the packets the stream parses to, or a prefix when the connection breaks |
| `Protocol.ParseAllOfFrames` | api/protocol/protocol.go:93-153 | Framing then parsing is the identity on lists; a cut-off stream parses to a prefix of them |
| `Protocol.ParseOfFrame` | api/protocol/protocol.go:93-153 | A frame followed by anything parses to its packet and leaves the rest untouched |
| `Protocol.CutFrame` | api/protocol/protocol.go:93-124 | An incomplete frame yields no packet |
| `Protocol.FrameLayout` | api/protocol/protocol.go:40-89 | Big-endian pack length, header length 16, version, operation and sequence number, then the body |
| `Protocol.HeaderMeans` | api/protocol/protocol.go:93-124 | What any sixteen bytes make of a read: fields by position, refused over 4112 or with another header length than 16, and the body announced, through the 32-bit wrap |
| `Protocol.Proto.ReadTCP` | api/protocol/protocol.go:93-124 | Fields, outcome and remaining stream are those of the independent parser, including pack-length and header-length errors and 32-bit wrap of the body length |
| `Protocol.Proto.WriteTCP` | api/protocol/protocol.go:129-153 | Appends exactly one frame, or, for operation 9, the body as it is; a failure leaves a prefix of it |
| `Protocol.Proto.WriteTo` | api/protocol/protocol.go:75-89 | Appends exactly one frame to the growing buffer |
| `Protocol.Proto.WriteTCPHeart` | api/protocol/protocol.go:158-176 | A heartbeat reply is the frame of a packet whose body is the online count |
| `Protocol.EncodeBatch` | api/protocol/protocol.go:75-89 | A batch body is the concatenation of its packets' frames |
| `Protocol.PutHeader` | api/protocol/protocol.go:81-85 | The five header fields fill exactly the sixteen reserved bytes |
| `Protocol.FramesConcat` | api/protocol/protocol.go:75-89 | Framing distributes over concatenation |
| `Bytes.SignedOfUnsigned` | api/protocol/protocol.go:81-106 | Conversions between signed and unsigned widths undo each other on values that fit |
| `Bytes.Int32RoundTrip` | api/protocol/protocol.go:81-106 | A signed 32-bit field reads back as written |
| `Bytes.BigEndian` | pkg/encoding/binary/endian.go:14-31 | The most significant byte comes first in every width |
| `Bytes.ConversionIsCongruent` | pkg/encoding/binary/endian.go:14-31 | A conversion between signed and unsigned changes a value by a multiple of the width only |
| `Websocket.Converse` | pkg/websocket/conn.go:237-298 | End to end over any chunks: the message put together, the operation told, every ping answered in order on the wire, the rest unread; an error exactly with more than 101 frames before the final one |
| `Websocket.WholeMessage` | pkg/websocket/conn.go:237-298 | Reassembly of any fragmentation with control frames in between (section 5.4 of RFC 6455), succeeding exactly up to 101 frames before the final one |
| `Websocket.WhichOp` | pkg/websocket/conn.go:250-266 | The caller is told the message's own operation if and only if it was not fragmented or some earlier fragment is non-empty, and 0 otherwise |
| `Websocket.EmptyFragmentHidesTheOperation` | pkg/websocket/conn.go:250-266 | The failing case: a text message whose only earlier fragment is empty is told as operation 0 |
| `Websocket.AssembleFragments` | pkg/websocket/conn.go:237-298 | The same from any point in the middle of a message |
| `Websocket.ParseOfEncode` | pkg/websocket/conn.go:155-414 | Every frame, masked or not, in all three length forms, parses back with nothing behind it touched (sections 5.2 and 5.3 of RFC 6455) |
| `Websocket.ParseLengthOfBytes` | pkg/websocket/conn.go:155-191 | The length field and its extensions read back |
| `Websocket.FrameOnTheWire` | pkg/websocket/conn.go:317-414 | What the parser makes of any bytes, by position: the final bit, the operation, the length in its three forms, and each payload byte, XORed with its key byte if masked; which error otherwise |
| `Websocket.OneFrameMessage` | pkg/websocket/conn.go:237-266 | A message in one frame, from any bytes on the wire: the operation, and each payload byte, unmasked with the four key bytes in front |
| `Websocket.CutHeader` | pkg/websocket/conn.go:317-380 | A header or extension cut off is the end of the stream, after the reserved bits |
| `Websocket.ShortestForm` | pkg/websocket/conn.go:155-191 | A length takes the shortest of the three forms |
| `Websocket.OtherFrames` | pkg/websocket/conn.go:248-297 | A close frame ends the conversation; operations 3 to 7 and above 10 are refused |
| `Websocket.OneReply` | pkg/websocket/conn.go:248-297 | A ping is answered by a final, unmasked pong with the same payload |
| `Websocket.MaskedIsXor` | pkg/websocket/conn.go:445-451 | Masking is the XOR with the key byte at every position |
| `Websocket.Conn.ReadMessage` | pkg/websocket/conn.go:237-298 | Refines the reassembly function on any chunking, and has written exactly the pongs it owes (what it returns, byte by byte: Websocket.OneFrameMessage, Websocket.WholeMessage) |
| `Websocket.Conn.Advance` | pkg/websocket/conn.go:248-297 | One frame: collected, answered, or the reason to stop |
| `Websocket.Conn.ReadFrame` | pkg/websocket/conn.go:317-414 | Refines the frame parser on any chunking, including reserved bits and short streams |
| `Websocket.Conn.ReadPayload` | pkg/websocket/conn.go:386-413 | Key and payload off the stream, unmasked in place |
| `Websocket.Conn.WriteMessage` | pkg/websocket/conn.go:130-138 | Appends exactly one unmasked final frame: first byte, length field, payload (section 5.2 of RFC 6455) |
| `Websocket.Conn.WriteHeader` | pkg/websocket/conn.go:155-191 | The two, four or ten header bytes, although flushing may happen between them |
| `Websocket.MaskBytes` | pkg/websocket/conn.go:445-451 | In place: each byte becomes its XOR with the key byte at its position, and the position returned continues the key |
| `Websocket.MaskTwice` | pkg/websocket/conn.go:445-451 | Masking twice restores the payload (section 5.3 of RFC 6455) |
| `Websocket.MaskContinues` | pkg/websocket/conn.go:445-451 | Masking chunk by chunk with the returned position equals masking the whole |
| `Bits.XorTwice` | pkg/websocket/conn.go:445-451 | XOR with the same value twice is the identity |
| `Bits.BitByBit` | pkg/websocket/conn.go:445-451 | At every bit, XOR is the sum modulo two and AND the product |
| `Messages.MsgRoundTrip` | api/protocol/message.go:105-182 | What is encoded is decoded |
| `Messages.MsgLayout` | api/protocol/message.go:105-135 | Where each field lies: id behind its length, then sender, receiver, time and number in eight bytes each, then the content |
| `Messages.MsgBytesOfParse` | api/protocol/message.go:151-182 | Refused exactly when too short; what is decoded encodes to the very bytes it came from |
| `Messages.MarshalMsgBody` | api/protocol/message.go:105-135 | Fills the buffer with the specified layout, refusing exactly an id over 65535 bytes |
| `Messages.UnmarshalMsgBody` | api/protocol/message.go:151-182 | Reads with a moving offset what the layout says |
| `Messages.AckRoundTrip` | api/protocol/message.go:239-332 | Every encodable acknowledgement decodes to itself, with either, both or no optional field |
| `Messages.AckLayout` | api/protocol/message.go:239-285 | Where each field lies: flag bit 0 for the device, bit 1 for the session, each behind its length |
| `Messages.CutOptional` | api/protocol/message.go:310-330 | An optional field cut short is empty, and a length that can be read has been passed |
| `Messages.LegacyAckDecodes` | api/protocol/message.go:290-307 | The form without the extension still decodes |
| `Messages.ExtensionKeepsTheMessage` | api/protocol/message.go:290-332 | No extension bytes, cut or garbled, change which message is acknowledged |
| `Messages.OptionalRoundTrip` | api/protocol/message.go:310-330 | A complete optional field is read back with the offset behind it |
| `Messages.MarshalAckBody` | api/protocol/message.go:239-285 | Writes the specified bytes, refusing exactly over-long fields |
| `Messages.UnmarshalAckBody` | api/protocol/message.go:290-332 | Reads what the lenient grammar says |
| `Messages.SyncReqRoundTrip` | api/protocol/message.go:373-393 | Eight bytes of cursor and four of limit decode to the request, whatever follows |
| `Messages.SyncReqBytesOfParse` | api/protocol/message.go:385-393 | Accepted exactly from twelve bytes on, and encodes back to those twelve |
| `Messages.MarshalSyncReq` | api/protocol/message.go:373-378 | Writes the twelve bytes |
| `Messages.UnmarshalSyncReq` | api/protocol/message.go:385-393 | Reads them |
| `Messages.ReplyRoundTrip` | api/protocol/message.go:455-560 | Every encodable reply decodes to itself, an unset server maximum read back as the current position |
| `Messages.ReplyLayout` | api/protocol/message.go:455-502 | Position, flag, number of messages and the entries lie in this order, the maximum last |
| `Messages.ReplyFormRoundTrip` | api/protocol/message.go:515-560 | So does a reply of an older server without the trailing maximum |
| `Messages.ReplyFormOfParse` | api/protocol/message.go:515-560 | A byte string is accepted if and only if it is one of these forms: nothing truncated, nothing behind the end |
| `Messages.FormOfReply` | api/protocol/message.go:515-560 | The form an accepted string has |
| `Messages.EntriesRoundTrip` | api/protocol/message.go:486-547 | The length-prefixed list decodes to the same messages, in order, with the rest untouched |
| `Messages.EntriesOfParse` | api/protocol/message.go:529-552 | An accepted list is the encoding of what it decoded to |
| `Messages.MarshalSyncReply` | api/protocol/message.go:455-502 | Writes the specified bytes, refusing exactly when a message cannot be encoded |
| `Messages.UnmarshalSyncReply` | api/protocol/message.go:515-560 | Reads what the grammar says, in a loop over the offset |
| `Messages.MarshalAll` | api/protocol/message.go:457-465 | All bodies, or a refusal exactly when one id is too long |
| `Sessions.SessionManager.Create` | internal/logic/service/session.go:127-149 | The device's older session is kicked and its Comet told, the new one is written and routed; indices, cache and routes stay in agreement if and only if the connection is admissible and does not make its own cached route stale |
| `Sessions.SessionManager.Disconnect` | internal/logic/service/session.go:354-372 | Agreement is kept if and only if the key is unknown, or belongs to that user and the session can be cleared from every index; a known key's session is gone and its Comet told |
| `Sessions.DisconnectsAnotherUser` | internal/logic/service/session.go:354-372 | The failing case is reachable: a user disconnects with another user's key, who goes on listing a session that is gone |
| `Sessions.SessionManager.Kick` | internal/logic/service/session.go:296-320 | The session leaves the indices, the cache entry is dropped and read afresh, Comet is told; in the owner's name the user has a route afterwards exactly if a session that can be reached remains |
| `Sessions.SessionManager.RefreshOnlineRouterAfterDelete` | internal/logic/service/session.go:322-338 | The route is set afresh to a remaining live session that can be reached, and disappears exactly if there is none |
| `Sessions.SessionManager.GetSessions` | internal/logic/service/session.go:166-204 | Cached or fetched, exactly the user's live sessions, each once |
| `Sessions.SessionManager.Fetch` | internal/logic/service/session.go:178-196 | Looking up every listed sid yields exactly the live sessions |
| `Sessions.SessionManager.IsOnline` | internal/logic/service/session.go:383-389 | Online if and only if Redis holds a live session |
| `Sessions.OneSessionPerDevice` | internal/logic/dao/redis.go:198-255 | Where the indices agree, a user has at most one session per device, and a key one session |
| `Sessions.AddedAgrees` | internal/logic/dao/redis.go:198-255 | A session that displaces nothing keeps the indices in agreement |
| `Sessions.AddedDisagrees` | internal/logic/dao/redis.go:198-255 | Any other breaks it |
| `Sessions.DeletedAgrees` | internal/logic/dao/redis.go:304-344 | Deleting a session with its own details keeps agreement exactly if it has a positive user, a device and a key |
| `Sessions.DeletedDisagrees` | internal/logic/dao/redis.go:304-344 | Deleting it in another user's name does not |
| `Sessions.CreatedAgrees` | internal/logic/service/session.go:127-149 | Kick and write together keep agreement for an admissible connection |
| `Sessions.CreatedDisagrees` | internal/logic/service/session.go:127-149 | And break it for any other |
| `Sessions.CachesOfOthers` | internal/logic/service/session.go:127-149 | Changing one user's sessions leaves everybody else's cache and route right |
| `Sessions.RouteKept` | internal/logic/service/session.go:145-147 | Writing a connection again without a server makes its own cached route stale, and nothing else does |
| `Sessions.SessionStore.AddSession` | internal/logic/dao/redis.go:198-255 | The four writes |
| `Sessions.SessionStore.DelSession` | internal/logic/dao/redis.go:304-344 | The deletions, each only for a meaningful argument |
| `Sessions.OnlineRouter.Get` | internal/logic/service/online_router.go:52-77 | A route exactly while not older than ten minutes; exactly an expired one is dropped |
| `Sessions.OnlineRouter.Set` | internal/logic/service/online_router.go:40-48 | Overwrites the user's route; meaningless arguments change nothing |
| `Sessions.OnlineRouter.Delete` | internal/logic/service/online_router.go:79-87 | Removes the user's route only |
| `RateLimit.WindowBound` | pkg/ratelimit/token_bucket.go:33-53 | From any state, over any window of calls, at most burst + rate * (last - first) is granted, returned tokens counted against it |
| `RateLimit.GrantedComesFromTokens` | pkg/ratelimit/token_bucket.go:33-53 | Tokens are conserved: what is granted was there or accrued |
| `RateLimit.IdleBucketGrants` | pkg/ratelimit/token_bucket.go:33-53 | A bucket left alone for (now - last) * rate >= n grants any request n up to its burst |
| `RateLimit.UserBound` | internal/router/ratelimit.go:41-80 | Over any window of a run in which calls overlap, one user passes at most its bucket's burst + rate * (last - first), whatever others do and whatever later calls ask for |
| `RateLimit.UserHasOwnBucket` | internal/router/ratelimit.go:41-80 | To a user a run of the limiter is a run of its own bucket, made by its first call |
| `RateLimit.AllUsersBound` | internal/router/ratelimit.go:41-58 | Over a run in which calls overlap, all users together pass at most the calls already between the locks plus the global burst + rate * (last - first) |
| `RateLimit.GrantsAreAccountedFor` | internal/router/ratelimit.go:41-58 | Conservation: what the global bucket granted has passed, has been refused by the user's bucket, or is between the two locks |
| `RateLimit.TokenBucket.AllowN` | pkg/ratelimit/token_bucket.go:33-43 | Grants exactly when n <= min(burst, tokens + rate * (now - last)), and leaves that minimum, less n if granted |
| `RateLimit.LocalBucket.Allow` | internal/router/ratelimit.go:67-80 | The Router's bucket does the same for one token |
| `RateLimit.RateLimiter.AllowUser` | internal/router/ratelimit.go:41-58 | Passes exactly when the global bucket and the user's own, full if new, each hold a token after what has accrued; a refused user has still spent a global token; other users' buckets are untouched |
| `RateLimit.StepMeans` | internal/router/ratelimit.go:41-80 | Each section charges exactly one bucket for one token, and the calls between the locks change by this one |
| `RateLimit.RateLimiter.AllowGlobal` | internal/router/ratelimit.go:42-47 | The section under the global lock is that step |
| `RateLimit.RateLimiter.AllowLocal` | internal/router/ratelimit.go:49-57 | The section under the shard's lock is that step |
| `RateLimit.RateLimiter.BucketOf` | internal/router/ratelimit.go:48-56 | The user's bucket, made full on first use, in the one shard of that user |
| `RateLimit.ShardIndex` | internal/router/ratelimit.go:60-65 | |uid| modulo 64, also for the least int64, whose negation overflows |

## Left out

- Sessions.SessionManager.GetSessions: one Logic instance without Redis failures and without TTL expiry; the timestamps in a session, Heartbeat, and the platform text in user_sessions are not modelled.
- Sessions.OnlineRouter.Get: the 64 shards of the route cache are one map here, and DeleteByServer is not modelled.
- Router.DispatchEngine.ReliableEnqueue: the operation code, the message headers taken from the body and the partition key go along unchanged in the source and are not fields here.
- Router.DispatchEngine.RouteByUserWithMode: the hash does not expire during the call, MarkFailed (which nothing calls) is not among the interfering writes, and the non-atomic tracking path for stores without the script is not modelled.
- RouteByUserResult, RouteByRoom and RouteBroadcast: the first repeats the delivery modelled here with a richer result, the others hand a message to the queue.
- Tracking.AckHandler.HandleAck: device-level acknowledgement records, state timeline, events, metrics and tracing have no model.
- Idempotency.IdempotencyChecker.Lookup: FNV-1a itself is not modelled, the hash is a parameter; no other goroutine uses the cache during a call.
- SpoolReplay.SpoolReplayWorker.DrainDir: files are records by path; JSON, directory entries and temporary names are not modelled, and a file's content never changes.
- SeqAllocator.UserSeqState.ServeLocked: the blocking wait and the context deadline are the interleaved steps between two passes.
- SeqAllocator.NumbersAreUnique: there is no order across processes, as in the source.
- OfflineSync.SyncService.SyncAll: the store does not change between pages, and a reply that fails is not retried.
- Timer.Timer.Expire: callbacks do not call back into the timer; the clock stands still during one call; `num` is at least 1.
- Bucket.Bucket.Put: the per-IP counters are left out (Del adjusts the counter of the channel now stored under the key, so they do not count connections), and each operation is atomic, although the source takes the bucket's and the room's lock one after the other.
- Ring.Ring.Set: the producer and the consumer take turns; their memory ordering is not modelled.
- Bufio.Reader.Pop: the returned slice is a copy; in the source it aliases the buffer until the next read.
- Bufio.Writer.Peek: the reserved space is named by its position instead of a slice.
- Protocol.Proto.ReadTCP: a nil body and an empty one are not told apart, and the body is not an alias of the read buffer.
- Protocol.Transfer: the receiver starts after the sender has finished; WebSocket carriage of packets, where only the first inner header of a batch is stripped, is not modelled.
- Websocket.Conn.WriteHeader: message types below 128, and non-negative lengths.
- Websocket.Conn.ReadMessage: bit tests on the two header bytes are written as divisions and remainders; the upgrade handshake is not modelled.
- Messages.UnmarshalMsgBody: errors carry no text, and content aliasing the input is not modelled.
- RateLimit.WindowBound: real arithmetic instead of float64, and a clock that does not go back.
- RateLimit.RateLimiter.AllowUser: no other call comes between its two locked sections there; the bounds are proved for runs in which the sections of any calls interleave.
- Room aggregation in the worker: its loop ends on an idle signal while it is still registered, so no conservation claim is made.
- Generated code, gRPC, discovery, HTTP handlers, Kafka consumer groups, load-balancer weights, state recorder, metrics and tracing would add plumbing only.
