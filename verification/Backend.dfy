/**
 What the router talks to: Redis (internal/logic/dao/redis.go), the Comet gateways, the message queue
 and the local spool directory. What each command did and what its caller was told is a parameter, so
 every pattern of failures is covered and any one can be named. Other routers keep using the same Redis:
 each access to the status hashes is preceded by an arbitrary change that respects `Evolves`, and each
 access to a lock by arbitrary steps of other attempts, unless the router is `alone`.
 */
module Backend {
  import AttemptLock
  import opened Common

  type MsgId = string

  /** NoStatus: the hash exists without a "status" field (AddUserMessage on a missing key). */
  datatype Status = NoStatus | Pending | Delivered | Acked | Failed

  datatype Hash = Hash(status: Status, seqNo: int)

  type Hashes = map<MsgId, Hash>

  /** The index entries user_msgs:{uid}. */
  type Index = map<(int, MsgId), int>

  function WithStatus(hs: Hashes, m: MsgId, s: Status): Hashes {
    hs[m := if m in hs then hs[m].(status := s) else Hash(s, 0)]
  }

  predicate Terminal(h: Hash) {
    h.status.Delivered? || h.status.Acked?
  }

  ghost predicate Finished(hs: Hashes, m: MsgId) {
    m in hs && Terminal(hs[m])
  }

  /** Hashes do not expire, keep their number, and no one takes a message back from delivered or acked. */
  predicate Evolves(a: Hashes, b: Hashes) {
    forall m :: m in a ==>
      m in b && (Terminal(a[m]) ==> Terminal(b[m])) && (a[m].seqNo > 0 ==> b[m].seqNo == a[m].seqNo)
  }

  datatype Session = NilSession | Session(key: string, server: string)

  datatype Channel = Topic(name: string) | UserTopic | DaoPush

  /** What reliableEnqueue hands to the queue. */
  datatype Queued = Queued(channel: Channel, uid: int, server: string, keys: seq<string>, body: seq<int>)

  datatype SpoolRecord = SpoolRecord(
    msgId: MsgId, uid: int, seqNo: int, server: string, keys: seq<string>, body: seq<int>)

  /** What left the router: pushes tried and answered, and what the stores took. */
  datatype Traffic = Traffic(
    tried: seq<Session>,
    acked: seq<Session>,
    queue: seq<Queued>,
    offline: map<(int, MsgId), int>,
    spool: seq<SpoolRecord>)

  class Services {
    var hashes: Hashes
    var index: Index
    var offline: map<(int, MsgId), int>
    var locks: map<MsgId, AttemptLock.World>
    var tried: seq<Session>       // direct pushes attempted
    var acked: seq<Session>       // direct pushes that returned no error
    var queue: seq<Queued>        // accepted by Kafka or by the DAO push
    var spool: seq<SpoolRecord>   // complete files in the spool directory
    const alone: bool

    constructor (alone: bool)
      ensures this.alone == alone
      ensures hashes == map[] && index == map[] && offline == map[] && locks == map[]
      ensures tried == [] && acked == [] && queue == [] && spool == []
    {
      this.alone := alone;
      hashes, index, offline, locks := map[], map[], map[], map[];
      tried, acked, queue, spool := [], [], [], [];
    }

    function Sent(): Traffic
      reads `tried, `acked, `queue, `offline, `spool
    {
      Traffic(tried, acked, queue, offline, spool)
    }

    /** Other routers at work on the status hashes. */
    method Interfere()
      modifies this`hashes
      ensures Evolves(old(hashes), hashes) && (alone ==> hashes == old(hashes))
    {
      var h: Hashes := *;
      if !alone && Evolves(hashes, h) {
        hashes := h;
      }
    }

    method GetMessageStatus(m: MsgId, replied: bool) returns (r: Result<Option<Hash>, string>)
      modifies this`hashes
      ensures Evolves(old(hashes), hashes) && (alone ==> hashes == old(hashes))
      ensures r == if !replied then Err("HGETALL") else Ok(if m in hashes then Some(hashes[m]) else None)
    {
      Interfere();
      return if !replied then Err("HGETALL") else Ok(if m in hashes then Some(hashes[m]) else None);
    }

    /** HSET status; the field may be written even though an error comes back. */
    method UpdateMessageStatus(m: MsgId, s: Status, e: Effect) returns (ok: bool)
      modifies this`hashes
      ensures ok <==> e.Clean?
      ensures s.Delivered? || s.Acked? || e.Failed? ==> Evolves(old(hashes), hashes)
      ensures e.Done() ==> m in hashes && hashes[m].status == s
      ensures forall x :: x in old(hashes) && x != m ==>
        x in hashes && (Terminal(old(hashes)[x]) ==> Terminal(hashes[x]))
      ensures alone ==> hashes == if e.Failed? then old(hashes) else WithStatus(old(hashes), m, s)
      ensures alone && !e.Failed? ==>
        hashes == old(hashes)[m := Hash(s, if m in old(hashes) then old(hashes)[m].seqNo else 0)]
    {
      Interfere();
      if e.Done() {
        hashes := WithStatus(hashes, m, s);
      }
      return e.Clean?;
    }

    /** The script: nothing happens when the key exists. */
    method TrackMessageAtomic(m: MsgId, seqNo: int, e: Effect) returns (r: Result<bool, string>)
      modifies this`hashes
      ensures Evolves(old(hashes), hashes)
      ensures r.Ok? <==> e.Clean?
      ensures e.Done() ==> m in hashes
      ensures r == Ok(true) ==> m !in old(hashes) && hashes[m] == Hash(Pending, seqNo)
      ensures r == Ok(false) && alone ==> m in old(hashes)
      ensures alone ==>
        hashes == if e.Failed? || m in old(hashes) then old(hashes) else old(hashes)[m := Hash(Pending, seqNo)]
    {
      Interfere();
      var added := m !in hashes;
      if e.Done() && added {
        hashes := hashes[m := Hash(Pending, seqNo)];
      }
      return if e.Clean? then Ok(added) else Err("script");
    }

    /** Pipelined HSET seq, ZADD, EXPIRE: a failure may leave any prefix executed. */
    method AddUserMessage(uid: int, m: MsgId, seqNo: int, p: Pipeline) returns (ok: bool)
      modifies this`hashes, this`index
      ensures ok <==> p.executed >= 3 && p.replied
      ensures index == if p.executed >= 2 then old(index)[(uid, m) := seqNo] else old(index)
      ensures p.executed >= 1 ==> m in hashes && hashes[m].seqNo == seqNo
      ensures (m in old(hashes) && old(hashes)[m].seqNo > 0 ==> old(hashes)[m].seqNo == seqNo) ==>
        Evolves(old(hashes), hashes)
      ensures alone ==> hashes == if p.executed == 0 then old(hashes)
        else old(hashes)[m := if m in old(hashes) then old(hashes)[m].(seqNo := seqNo) else Hash(NoStatus, seqNo)]
    {
      Interfere();
      if p.executed >= 1 {
        hashes := hashes[m := if m in hashes then hashes[m].(seqNo := seqNo) else Hash(NoStatus, seqNo)];
      }
      if p.executed >= 2 {
        index := index[(uid, m) := seqNo];
      }
      return p.executed >= 3 && p.replied;
    }

    /** ZADD then EXPIRE as two round trips. */
    method AddToOfflineQueue(uid: int, m: MsgId, seqNo: int, p: Pipeline) returns (ok: bool)
      modifies this`offline
      ensures ok <==> p.executed >= 2 && p.replied
      ensures offline == if p.executed >= 1 then old(offline)[(uid, m) := seqNo] else old(offline)
    {
      if p.executed >= 1 {
        offline := offline[(uid, m) := seqNo];
      }
      return p.executed >= 2 && p.replied;
    }

    method RemoveFromOfflineQueue(uid: int, m: MsgId, e: Effect)
      modifies this`offline
      ensures offline == if e.Done() then old(offline) - {(uid, m)} else old(offline)
    {
      if e.Done() {
        offline := offline - {(uid, m)};
      }
    }

    function LockOf(m: MsgId): AttemptLock.World
      reads `locks
    {
      if m in locks then locks[m] else AttemptLock.World(0, None, map[])
    }

    ghost predicate LocksOk()
      reads `locks
    {
      forall m <- locks :: AttemptLock.Inv(locks[m])
    }

    /** Time passes, and other attempts come and go at the lock of m. */
    method OthersAtLock(m: MsgId, token: nat)
      requires LocksOk()
      modifies this`locks
      ensures LocksOk() && locks - {m} == old(locks) - {m} && (alone ==> LockOf(m) == old(LockOf(m)))
      ensures token in LockOf(m).log <==> token in old(LockOf(m)).log
      ensures token in LockOf(m).log ==> LockOf(m).log[token] == old(LockOf(m)).log[token]
    {
      assert AttemptLock.ByOthers([], token);
      var steps :| AttemptLock.ByOthers(steps, token);
      if !alone {
        AttemptLock.RunPreservesInv(LockOf(m), steps);
        AttemptLock.OthersLeaveAlone(LockOf(m), steps, token);
        locks := locks[m := AttemptLock.Exec(LockOf(m), steps)];
      }
    }

    /** SET NX PX. */
    method AcquireAttemptLock(m: MsgId, token: nat, o: AttemptLock.Outcome) returns (r: Result<bool, string>)
      requires LocksOk() && token !in LockOf(m).log
      modifies this`locks
      ensures LocksOk() && locks - {m} == old(locks) - {m} && (r.Ok? <==> o.Done?)
      ensures r == Ok(true) <==> token in LockOf(m).log && LockOf(m).log[token].phase.Running?
      ensures r == Ok(false) ==> AttemptLock.Live(LockOf(m).lock, LockOf(m).now) && token !in LockOf(m).log
      ensures alone && o.Done? ==> (r == Ok(false) <==> AttemptLock.Live(old(LockOf(m)).lock, old(LockOf(m)).now))
    {
      hide AttemptLock.Inv;
      OthersAtLock(m, token);
      var w := LockOf(m);
      AttemptLock.BeginPreservesInv(w, token, o);
      locks := locks[m := AttemptLock.Next(w, AttemptLock.Begin(token, o))];
      return if o.Done? then Ok(token in LockOf(m).log) else Err("SET NX PX");
    }

    /** The end of an attempt that owns the lock: kept after a full fallback, else the compare-and-delete script. */
    method EndAttempt(m: MsgId, token: nat, fellBack: bool, o: AttemptLock.Outcome)
      requires LocksOk() && token in LockOf(m).log && LockOf(m).log[token].phase.Running?
      modifies this`locks
      ensures LocksOk() && locks - {m} == old(locks) - {m} && token in LockOf(m).log
      ensures LockOf(m).log[token].phase == if fellBack then AttemptLock.FellBack else AttemptLock.Released
      ensures !fellBack && !o.Refused? ==> !AttemptLock.Owns(LockOf(m), token)
      ensures alone ==> LockOf(m) == AttemptLock.Next(old(LockOf(m)), AttemptLock.Finish(token, fellBack, o))
    {
      hide AttemptLock.Inv;
      OthersAtLock(m, token);
      var w := LockOf(m);
      AttemptLock.FinishPreservesInv(w, token, fellBack, o);
      locks := locks[m := AttemptLock.Next(w, AttemptLock.Finish(token, fellBack, o))];
    }

    method PushMsg(s: Session, answered: bool)
      modifies this`tried, this`acked
      ensures tried == old(tried) + [s]
      ensures acked == old(acked) + (if answered then [s] else [])
    {
      tried := tried + [s];
      if answered {
        acked := acked + [s];
      }
    }

    /** EnqueueToTopic, EnqueueToUser or the DAO push. */
    method Enqueue(q: Queued, e: Effect) returns (ok: bool)
      modifies this`queue
      ensures queue == old(queue) + (if e.Done() then [q] else [])
      ensures ok <==> e.Clean?
    {
      if e.Done() {
        queue := queue + [q];
      }
      return e.Clean?;
    }

    /** Write to a temporary name, then rename: a record is either complete or absent. */
    method WriteLocalSpool(rec: SpoolRecord, written: bool)
      modifies this`spool
      ensures spool == old(spool) + (if written then [rec] else [])
    {
      if written {
        spool := spool + [rec];
      }
    }
  }
}
