/**
 Tracking and acknowledgement (internal/router/ack.go): which messages may be delivered, and what the
 duplicate cache may remember.
 */
module Tracking {
  import opened Backend
  import opened Common
  import Idempotency

  /** What the commands of ensureUserMessageIndex do. */
  datatype Repair = Repair(read: bool, write: Pipeline)

  /** What the commands of one TrackMessage do, and the clock it sees. */
  datatype Outcomes = Outcomes(
    now: int,
    dupRead: bool,
    statusRead: bool,
    granted: Option<int>,
    script: Effect,
    existingRead: bool,
    indexed: Pipeline,
    repair: Repair)

  predicate Succeeded(p: Pipeline) {
    p.executed >= 3 && p.replied
  }

  /** The "seq" field of a new hash: only a positive number is stored. */
  function SeqField(granted: int): nat {
    if granted > 0 then granted else 0
  }

  /** Registration fails: a command that decides does, or the key that exists cannot be read. */
  predicate RegistrationFails(tracked: bool, t: Outcomes) {
    || t.granted.None? || !t.script.Clean?
    || (if tracked then !t.existingRead else t.granted.value > 0 && !Succeeded(t.indexed))
  }

  /** An unfinished message is refused, depending on whether it has been tracked before. */
  predicate Refuses(tracked: bool, m: MsgId, t: Outcomes) {
    RegistrationFails(tracked, t) && (tracked ==> m == "" || !t.statusRead)
  }

  /** In full: the commands a message is refused for, a new one and one that is tracked already. */
  lemma RefusesMeans(m: MsgId, t: Outcomes)
    ensures Refuses(false, m, t) <==>
      || t.granted == None || t.script != Clean
      || (t.granted.value > 0 && (t.indexed.executed < 3 || !t.indexed.replied))
    ensures Refuses(true, m, t) <==>
      (t.granted == None || t.script != Clean || !t.existingRead) && (m == "" || !t.statusRead)
  {
  }

  /** The status hashes after tracking, without interference; `known` when the cache answered. */
  function Registered(was: Hashes, m: MsgId, t: Outcomes, known: bool): Hashes {
    if known || m in was || t.granted.None? || t.script.Failed? then was
    else was[m := Hash(Pending, SeqField(t.granted.value))]
  }

  /** The index is unchanged, or has the message's number at its place. */
  predicate Indexed(was: Index, now: Index, hashes: Hashes, uid: int, m: MsgId) {
    now == was || (m in hashes && hashes[m].seqNo > 0 && now == was[(uid, m) := hashes[m].seqNo])
  }

  lemma IndexedLater(was: Index, now: Index, hashes: Hashes, later: Hashes, uid: int, m: MsgId)
    requires Indexed(was, now, hashes, uid, m) && Evolves(hashes, later)
    ensures Indexed(was, now, later, uid, m)
  {
  }

  /** What decides whether a message counts as processed: Redis, and the duplicate cache of this router. */
  datatype Memory = Memory(hashes: Hashes, shards: seq<Idempotency.Shard>)

  class AckHandler {
    const svc: Services
    const cache: Idempotency.IdempotencyChecker
    /** FNV-1a of the message id. */
    const hash: MsgId -> nat

    constructor (svc: Services, cache: Idempotency.IdempotencyChecker, hash: MsgId -> nat)
      ensures this.svc == svc && this.cache == cache && this.hash == hash
    {
      this.svc, this.cache, this.hash := svc, cache, hash;
    }

    function State(): Memory
      reads svc`hashes, cache
    {
      Memory(svc.hashes, cache.shards)
    }

    /** The cache is right about a message: if it remembers its hash, the message is delivered or acked. */
    ghost predicate Trusted(mem: Memory, m: MsgId) {
      Idempotency.Remembers(mem.shards, hash(m)) ==> Finished(mem.hashes, m)
    }

    /** The cache says "duplicate". */
    predicate Remembered(m: MsgId, now: int)
      reads cache
    {
      m != "" && cache.Has(hash(m)) && now < cache.shards[hash(m) % 64][hash(m)]
    }

    /** The cache has taken the message in at a given time. */
    ghost predicate Seen(m: MsgId, at: int)
      reads cache
    {
      cache.Has(hash(m)) && cache.shards[hash(m) % 64][hash(m)] == at + 300_000_000_000
    }

    /** The shard of m forgets, or learns the hash of m if it is finished; the other shards stay. */
    ghost predicate Recalls(was: seq<Idempotency.Shard>, now: seq<Idempotency.Shard>, m: MsgId, finished: bool) {
      && |now| == |was|
      && (forall i :: 0 <= i < |now| && i != hash(m) % Idempotency.NUM_SHARDS ==> now[i] == was[i])
      && (forall h :: Idempotency.Remembers(now, h) ==>
            Idempotency.Remembers(was, h) || (h == hash(m) && finished))
    }

    /** A call about m; alone, it moves no other status. */
    ghost predicate Follows(was: Memory, now: Memory, m: MsgId) {
      && Evolves(was.hashes, now.hashes)
      && (svc.alone ==> now.hashes - {m} == was.hashes - {m})
      && Recalls(was.shards, now.shards, m, Finished(now.hashes, m))
    }

    lemma FollowsItself(mem: Memory, m: MsgId)
      ensures Follows(mem, mem, m)
    {
    }

    /** Only the status of m, if anything, has moved. */
    lemma HashesMove(was: Memory, now: Memory, m: MsgId)
      requires now.shards == was.shards && Evolves(was.hashes, now.hashes)
      requires svc.alone ==> now.hashes - {m} == was.hashes - {m}
      ensures Follows(was, now, m)
    {
    }

    lemma FollowsTransitive(a: Memory, b: Memory, c: Memory, m: MsgId)
      requires Follows(a, b, m) && Follows(b, c, m)
      ensures Follows(a, c, m)
    {
    }

    /** What a call about m makes the cache believe of x: wrong exactly of an unfinished x that shares a held hash. */
    lemma StaysTrusted(was: Memory, now: Memory, m: MsgId, x: MsgId)
      requires Follows(was, now, m) && Trusted(was, x)
      ensures Trusted(now, x) <==>
              x == m || hash(x) != hash(m) || Finished(now.hashes, x) || !Idempotency.Remembers(now.shards, hash(m))
    {
    }

    /** Over any run of calls: about x the cache stays right as long as no other message shares its hash. */
    lemma {:induction false} TrustedForEver(states: seq<Memory>, ms: seq<MsgId>, x: MsgId)
      requires |states| == |ms| + 1 && Trusted(states[0], x)
      requires forall i :: 0 <= i < |ms| ==> Follows(states[i], states[i + 1], ms[i])
      requires forall m <- ms :: m == x || hash(m) != hash(x)
      ensures Trusted(states[|ms|], x)
      decreases |ms|
    {
      if ms == [] {
      } else {
        var n := |ms| - 1;
        TrustedForEver(states[..n + 1], ms[..n], x);
        StaysTrusted(states[n], states[n + 1], ms[n], x);
      }
    }

    /** The shard of m can take one entry more without evicting any. */
    ghost predicate HasRoom(m: MsgId)
      requires cache.Valid()
      reads cache
    {
      |cache.shards[hash(m) % Idempotency.NUM_SHARDS]| < Idempotency.MAX_SHARD_SIZE
    }

    /** Memory first, then Redis; an unreadable status is not a duplicate. */
    method IsDuplicate(m: MsgId, now: int, read: bool) returns (dup: bool)
      requires cache.Valid()
      modifies svc`hashes, cache
      ensures cache.Valid() && Follows(old(State()), State(), m) && (svc.alone ==> svc.hashes == old(svc.hashes))
      ensures dup <==> m != "" && (old(Remembered(m, now)) || (read && Finished(svc.hashes, m)))
      ensures dup && !old(Remembered(m, now)) ==>
              m in svc.hashes && (svc.hashes[m].status == Delivered || svc.hashes[m].status == Acked)
      ensures old(Trusted(State(), m)) ==> (dup ==> Finished(svc.hashes, m))
    {
      if m == "" {
        return false;
      }
      dup := cache.Lookup(hash(m), now);
      if dup {
        return;
      }
      var r := svc.GetMessageStatus(m, read);
      return r.Ok? && r.value.Some? && Terminal(r.value.value);
    }

    method MarkSeen(m: MsgId, now: int)
      requires cache.Valid() && Finished(svc.hashes, m)
      modifies cache
      ensures cache.Valid() && Follows(old(State()), State(), m)
      ensures old(HasRoom(m)) ==> Seen(m, now)
    {
      cache.MarkSeen(hash(m), now);
    }

    /** Restores the user's index entry from the number in the hash. */
    method EnsureUserMessageIndex(uid: int, m: MsgId, o: Repair)
      modifies svc`hashes, svc`index
      ensures Follows(old(State()), State(), m) && (svc.alone ==> svc.hashes == old(svc.hashes))
      ensures Indexed(old(svc.index), svc.index, svc.hashes, uid, m)
      ensures uid <= 0 || !o.read || o.write.executed < 2 ==> svc.index == old(svc.index)
      ensures uid > 0 && o.read && o.write.executed >= 2 && m in old(svc.hashes) && old(svc.hashes)[m].seqNo > 0 ==>
              svc.index == old(svc.index)[(uid, m) := old(svc.hashes)[m].seqNo]
    {
      if uid <= 0 {
        return;
      }
      var r := svc.GetMessageStatus(m, o.read);
      if r.Ok? && r.value.Some? && r.value.value.seqNo > 0 {
        var _ := svc.AddUserMessage(uid, m, r.value.value.seqNo, o.write);
        assert svc.alone ==> svc.hashes == old(svc.hashes);
      }
    }

    /** Repairs the index; refuses, and remembers, exactly what is delivered or acked. */
    method HandleTrackedStatus(uid: int, m: MsgId, h: Hash, o: Repair, now: int) returns (processed: bool)
      requires cache.Valid() && (Terminal(h) ==> Finished(svc.hashes, m))
      modifies svc`hashes, svc`index, cache
      ensures cache.Valid() && Follows(old(State()), State(), m) && (svc.alone ==> svc.hashes == old(svc.hashes))
      ensures processed <==> h.status == Delivered || h.status == Acked
      ensures processed && old(HasRoom(m)) ==> Seen(m, now)
      ensures Indexed(old(svc.index), svc.index, svc.hashes, uid, m)
      ensures uid <= 0 || !o.read || o.write.executed < 2 ==> svc.index == old(svc.index)
      ensures uid > 0 && o.read && o.write.executed >= 2 && m in old(svc.hashes) && old(svc.hashes)[m].seqNo > 0 ==>
              svc.index == old(svc.index)[(uid, m) := old(svc.hashes)[m].seqNo]
    {
      EnsureUserMessageIndex(uid, m, o);
      if Terminal(h) {
        MarkSeen(m, now);
      }
      return Terminal(h);
    }

    /** After the script found the key: refused exactly if its status is unreadable or final. */
    method HandleExistingTrackedMessage(uid: int, m: MsgId, read: bool, o: Repair, now: int) returns (err: bool)
      requires cache.Valid() && m in svc.hashes
      modifies svc`hashes, svc`index, cache
      ensures cache.Valid() && Follows(old(State()), State(), m) && (svc.alone ==> svc.hashes == old(svc.hashes))
      ensures Indexed(old(svc.index), svc.index, svc.hashes, uid, m)
      ensures !read || uid <= 0 || !o.read || o.write.executed < 2 ==> svc.index == old(svc.index)
      ensures read && uid > 0 && o.read && o.write.executed >= 2 && old(svc.hashes)[m].seqNo > 0 ==>
              svc.index == old(svc.index)[(uid, m) := old(svc.hashes)[m].seqNo]
      ensures !read ==> err
      ensures Finished(old(svc.hashes), m) ==> err
      ensures read && err ==> Finished(svc.hashes, m)
    {
      var r := svc.GetMessageStatus(m, read);
      if r.Err? {
        return true;
      }
      assert r.value.Some?; // the key the script found is still there
      err := HandleTrackedStatus(uid, m, r.value.value, o, now);
    }

    /** Allocate, the script, and the index entry of a message that is new. */
    method Register(m: MsgId, uid: int, t: Outcomes) returns (err: bool)
      requires cache.Valid()
      modifies svc`hashes, svc`index, cache
      ensures cache.Valid() && Follows(old(State()), State(), m)
      ensures !err ==> m in svc.hashes
      ensures m in old(svc.hashes) ==>
              (RegistrationFails(true, t) || Finished(old(svc.hashes), m) ==> err)
              && (err ==> RegistrationFails(true, t) || Finished(svc.hashes, m))
      ensures m !in old(svc.hashes) && svc.alone ==> (err <==> RegistrationFails(false, t))
      ensures err ==> RegistrationFails(true, t) || RegistrationFails(false, t) || Finished(svc.hashes, m)
      ensures svc.alone && m !in old(svc.hashes) ==>
              (err <==> t.granted.None? || t.script != Clean
                        || (t.granted.value > 0 && !(t.indexed.executed >= 3 && t.indexed.replied)))
      ensures svc.alone && m !in old(svc.hashes) && t.granted.Some? && t.script != Effect.Failed ==>
              svc.hashes == old(svc.hashes)[m := Hash(Pending, if t.granted.value > 0 then t.granted.value else 0)]
      ensures svc.alone ==> svc.hashes == Registered(old(svc.hashes), m, t, false)
      ensures Indexed(old(svc.index), svc.index, svc.hashes, uid, m)
      ensures t.granted.None? || !t.script.Clean? ==> svc.index == old(svc.index)
      ensures svc.alone && m !in old(svc.hashes) && !err && t.granted.value > 0 ==>
              svc.index == old(svc.index)[(uid, m) := t.granted.value]
    {
      hide Recalls;
      ghost var was := State();
      FollowsItself(was, m);
      if t.granted.None? {
        return true;
      }
      var granted := t.granted.value;
      var added := svc.TrackMessageAtomic(m, SeqField(granted), t.script);
      ghost var mid := State();
      HashesMove(was, mid, m);
      if added.Err? {
        return true;
      }
      if !added.value {
        err := HandleExistingTrackedMessage(uid, m, t.existingRead, t.repair, t.now);
        FollowsTransitive(was, mid, State(), m);
        return;
      }
      if granted > 0 {
        var ok := svc.AddUserMessage(uid, m, granted, t.indexed);
        HashesMove(mid, State(), m);
        FollowsTransitive(was, mid, State(), m);
        return !ok;
      }
      return false;
    }

    /**
     err means that the caller must not deliver. A finished message, and one the cache takes for a duplicate, is
     always refused; any other exactly when a command that decides fails, which reading the status of a tracked
     message avoids.
     */
    method TrackMessage(m: MsgId, uid: int, t: Outcomes) returns (err: bool)
      requires cache.Valid()
      modifies svc`hashes, svc`index, cache
      ensures cache.Valid() && Follows(old(State()), State(), m)
      ensures !err ==> m in svc.hashes
      ensures old(Remembered(m, t.now)) ==> err
      ensures m in old(svc.hashes) ==>
              (Refuses(true, m, t) || Finished(old(svc.hashes), m) ==> err)
              && (err ==> Refuses(true, m, t) || Finished(svc.hashes, m) || old(Remembered(m, t.now)))
      ensures m !in old(svc.hashes) && svc.alone ==> (err <==> Refuses(false, m, t) || old(Remembered(m, t.now)))
      ensures err ==> RegistrationFails(true, t) || RegistrationFails(false, t) || Finished(svc.hashes, m)
                      || old(Remembered(m, t.now))
      ensures svc.alone ==> svc.hashes == Registered(old(svc.hashes), m, t, old(Remembered(m, t.now)))
      ensures svc.alone && !old(Remembered(m, t.now)) && m !in old(svc.hashes) && t.granted.Some?
              && t.script != Effect.Failed ==>
              svc.hashes == old(svc.hashes)[m := Hash(Pending, if t.granted.value > 0 then t.granted.value else 0)]
      ensures Indexed(old(svc.index), svc.index, svc.hashes, uid, m)
      ensures svc.alone && m !in old(svc.hashes) && !err && t.granted.value > 0 ==>
              svc.index == old(svc.index)[(uid, m) := t.granted.value]
      ensures m != "" && t.statusRead && uid > 0 && t.repair.read && t.repair.write.executed >= 2
              && m in old(svc.hashes) && old(svc.hashes)[m].seqNo > 0 ==>
              svc.index == old(svc.index)[(uid, m) := old(svc.hashes)[m].seqNo]
    {
      hide Recalls;
      ghost var was := State();
      ghost var mid := was;
      FollowsItself(was, m);
      if m != "" {
        var dup := IsDuplicate(m, t.now, t.dupRead);
        mid := State();
        if dup {
          EnsureUserMessageIndex(uid, m, t.repair);
          FollowsTransitive(was, mid, State(), m);
          return true;
        }
        var r := svc.GetMessageStatus(m, t.statusRead);
        HashesMove(mid, State(), m);
        FollowsTransitive(was, mid, State(), m);
        mid := State();
        if r.Ok? && r.value.Some? {
          err := HandleTrackedStatus(uid, m, r.value.value, t.repair, t.now);
          FollowsTransitive(was, mid, State(), m);
          return;
        }
      }
      err := Register(m, uid, t);
      FollowsTransitive(was, mid, State(), m);
    }

    method MarkDelivered(m: MsgId, e: Effect, now: int) returns (ok: bool)
      requires cache.Valid()
      modifies svc`hashes, cache
      ensures cache.Valid() && Follows(old(State()), State(), m)
      ensures ok <==> e.Clean?
      ensures e.Done() ==> m in svc.hashes && svc.hashes[m].status.Delivered?
      ensures svc.alone ==>
              svc.hashes == if e.Done() then WithStatus(old(svc.hashes), m, Delivered) else old(svc.hashes)
      ensures ok && old(HasRoom(m)) ==> Seen(m, now)
    {
      ok := svc.UpdateMessageStatus(m, Delivered, e);
      if ok {
        MarkSeen(m, now);
      }
    }

    /** Never remembered; the cache stays right about m exactly if it does not hold m or nothing was written. */
    method MarkFailed(m: MsgId, e: Effect) returns (ok: bool)
      requires cache.Valid() && Trusted(State(), m)
      modifies svc`hashes
      ensures ok <==> e.Clean?
      ensures e.Done() ==> m in svc.hashes && svc.hashes[m].status.Failed?
      ensures svc.alone ==>
              svc.hashes == if e.Done() then WithStatus(old(svc.hashes), m, Status.Failed) else old(svc.hashes)
      ensures Trusted(State(), m) <==> e.Failed? || !cache.Has(hash(m))
    {
      ok := svc.UpdateMessageStatus(m, Status.Failed, e);
    }

    /** HandleACK: only the status write decides the result; the rest is best effort. */
    method HandleAck(uid: int, m: MsgId, e: Effect, removal: Effect, now: int) returns (ok: bool)
      requires cache.Valid()
      modifies svc`hashes, svc`offline, cache
      ensures cache.Valid() && Follows(old(State()), State(), m)
      ensures ok <==> e.Clean?
      ensures e.Done() ==> m in svc.hashes && svc.hashes[m].status.Acked?
      ensures svc.alone ==> svc.hashes == if e.Done() then WithStatus(old(svc.hashes), m, Acked) else old(svc.hashes)
      ensures svc.offline == if ok && removal.Done() then old(svc.offline) - {(uid, m)} else old(svc.offline)
      ensures ok && old(HasRoom(m)) ==> Seen(m, now)
    {
      ok := svc.UpdateMessageStatus(m, Acked, e);
      if ok {
        svc.RemoveFromOfflineQueue(uid, m, removal);
        MarkSeen(m, now);
      }
    }
  }

  method FreshHandler(hash: MsgId -> nat) returns (a: AckHandler)
    ensures fresh(a) && fresh(a.svc) && fresh(a.cache) && a.hash == hash && a.svc.alone
    ensures a.svc.hashes == map[] && a.svc.locks == map[] && a.svc.Sent() == Traffic([], [], [], map[], [])
    ensures a.cache.Valid() && forall m :: !a.cache.Has(hash(m)) && a.HasRoom(m)
  {
    var svc := new Services(true);
    var cache := new Idempotency.IdempotencyChecker();
    a := new AckHandler(svc, cache, hash);
    forall m ensures a.HasRoom(m) {
      assert cache.shards[hash(m) % Idempotency.NUM_SHARDS] in cache.shards;
    }
  }

  /** A message marked failed after it was marked delivered: the cache goes on calling it a duplicate. */
  method FailsADeliveredMessage(hash: MsgId -> nat) returns (a: AckHandler)
    ensures a.cache.Has(a.hash("m")) && !Finished(a.svc.hashes, "m") && !a.Trusted(a.State(), "m")
  {
    a := FreshHandler(hash);
    var _ := a.MarkDelivered("m", Clean, 0);
    var _ := a.MarkFailed("m", Clean);
  }

  // ---------------------------------------------------------------- hashes collide

  /** Ids of any length, so that there are more of them than hashes. */
  function LongId(n: nat): (m: MsgId)
    ensures |m| == n
  {
    seq(n, _ => 'm')
  }

  lemma {:induction false} DistinctHashes(hash: MsgId -> nat, n: nat) returns (used: set<nat>)
    requires forall i: nat, j: nat :: i < j < n ==> hash(LongId(i)) != hash(LongId(j))
    ensures |used| == n && forall h <- used :: exists i: nat :: i < n && h == hash(LongId(i))
  {
    if n == 0 {
      used := {};
    } else {
      used := DistinctHashes(hash, n - 1);
      assert hash(LongId(n - 1)) !in used;
      used := used + {hash(LongId(n - 1))};
    }
  }

  lemma {:induction false} Below(n: nat) returns (all: set<nat>)
    ensures |all| == n && forall h: nat :: h in all <==> h < n
  {
    if n == 0 {
      all := {};
    } else {
      all := Below(n - 1);
      all := all + {n - 1};
    }
  }

  lemma FewHashes(hash: MsgId -> nat, k: nat, n: nat)
    requires forall m :: hash(m) < n
    requires forall i: nat, j: nat :: i < j < k ==> hash(LongId(i)) != hash(LongId(j))
    ensures k <= n
  {
    var used := DistinctHashes(hash, k);
    var all := Below(n);
    assert used <= all;
    assert |all - used| == |all| - |used|;
  }

  /** No hash into n values tells all message ids apart. */
  lemma HashesCollide(hash: MsgId -> nat, n: nat) returns (a: MsgId, b: MsgId)
    requires forall m :: hash(m) < n
    ensures a != b && hash(a) == hash(b)
  {
    if i: nat, j: nat :| i < j < n + 1 && hash(LongId(i)) == hash(LongId(j)) {
      a, b := LongId(i), LongId(j);
    } else {
      FewHashes(hash, n + 1, n);
    }
  }
}
