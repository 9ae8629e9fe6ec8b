/**
 The router's delivery protocol (internal/router/dispatch.go): the attempt lock, tracking, direct push to
 the user's connections, and the reliable fallback to the offline queue, the message queue and the spool.
 */
module Router {
  import AttemptLock
  import opened Backend
  import opened Common
  import Idempotency
  import Tracking

  datatype Mode = Reliable | Transient | PersistOnly

  datatype Limit = Allow | Degrade | Reject

  datatype RouteError =
    | LockFailed | NoMsgId | RateLimited | MarkDeliveredFailed | EnqueueFailed | Spooled | NothingAccepted

  /** Which way a call went; mirrors DeliveryResult.Path with the cases the source only logs. */
  datatype Path =
    | NotStarted | InProgress | AlreadyTracked | Stored | Limited
    | Fallback | CachedPush | DirectPush | PartialPush | BestEffort
  {
    /** The message went past tracking to the limiters and beyond. */
    predicate Delivering() {
      Limited? || CachedPush? || Fallback? || PartialPush? || DirectPush?
    }
  }

  /** Everything a call learns from the session manager, the route cache and the rate limiters. */
  datatype Context = Context(
    online: bool, sessions: seq<Session>, cached: Option<Session>, limiter: bool, limiterV2: Limit)

  /** What the writes of the reliable path do. */
  datatype Writes = Writes(offline: Pipeline, queue: Effect, spool: bool) {
    predicate OfflineOk() {
      offline.executed >= 2 && offline.replied
    }
  }

  /** The three tries of markDelivered. */
  type Marks = s: seq<Effect> | |s| == 3 witness [Clean, Clean, Clean]

  /** What every command of a call does: `answers` says which pushes to the user's sessions return no error. */
  datatype Outcomes = Outcomes(
    lock: AttemptLock.Outcome,
    release: AttemptLock.Outcome,
    track: Tracking.Outcomes,
    cachedAnswer: bool,
    answers: nat -> bool,
    marks: Marks,
    markedAt: int,
    writes: Writes)

  /** What a call delivers to whom. */
  datatype Message = Message(id: MsgId, uid: int, body: seq<int>, seqNo: int)

  /** The status hashes after markDelivered, without interference: written if any of its tries was executed. */
  function Marked(was: Hashes, m: MsgId, marks: Marks): Hashes {
    if Clean in marks || Lost in marks then WithStatus(was, m, Status.Delivered) else was
  }

  // ---------------------------------------------------------------- what goes on the queue

  function Keys(sessions: seq<Session>): seq<string> {
    if sessions == [] then []
    else (if sessions[0].Session? && sessions[0].key != "" then [sessions[0].key] else []) + Keys(sessions[1..])
  }

  /** The first non-empty server among sessions with a key. */
  function Server(sessions: seq<Session>): string {
    if sessions == [] then ""
    else if sessions[0].Session? && sessions[0].key != "" && sessions[0].server != "" then sessions[0].server
    else Server(sessions[1..])
  }

  function Decimal(n: nat): string {
    if n < 10 then ["0123456789"[n]] else Decimal(n / 10) + ["0123456789"[n % 10]]
  }

  function Placeholder(uid: int): string {
    "uid:" + (if uid < 0 then "-" + Decimal(-uid) else Decimal(uid))
  }

  function QueueKeys(sessions: seq<Session>, uid: int): seq<string> {
    if Keys(sessions) == [] then [Placeholder(uid)] else Keys(sessions)
  }

  /** Sessions a push is attempted to. */
  function Real(sessions: seq<Session>): seq<Session> {
    if sessions == [] then []
    else
      var n := |sessions| - 1;
      Real(sessions[..n]) + (if sessions[n].Session? then [sessions[n]] else [])
  }

  /** Those whose push was answered, or not, in order. */
  function Answered(sessions: seq<Session>, answers: nat -> bool, b: bool): seq<Session> {
    if sessions == [] then []
    else
      var n := |sessions| - 1;
      Answered(sessions[..n], answers, b) + (if sessions[n].Session? && answers(n) == b then [sessions[n]] else [])
  }

  /** No session is lost between the two halves. */
  lemma {:induction false} AnsweredOrNot(sessions: seq<Session>, answers: nat -> bool, x: Session)
    requires x in sessions && x.Session?
    ensures x in Answered(sessions, answers, true) || x in Answered(sessions, answers, false)
  {
    var n := |sessions| - 1;
    if x == sessions[n] {
    } else {
      AnsweredOrNot(sessions[..n], answers, x);
    }
  }

  lemma {:induction false} NobodyToAsk(sessions: seq<Session>, answers: nat -> bool)
    ensures Real(sessions) == [] <==>
            Answered(sessions, answers, true) == [] && Answered(sessions, answers, false) == []
  {
    if sessions == [] {
    } else {
      NobodyToAsk(sessions[..|sessions| - 1], answers);
    }
  }

  lemma {:induction false} SomebodyAnswered(sessions: seq<Session>, answers: nat -> bool, b: bool)
    ensures Answered(sessions, answers, b) != [] <==>
            exists i: nat :: i < |sessions| && sessions[i].Session? && answers(i) == b
  {
    if sessions == [] {
    } else {
      var n := |sessions| - 1;
      SomebodyAnswered(sessions[..n], answers, b);
      assert forall i: nat :: i < n ==> sessions[..n][i] == sessions[i];
    }
  }

  lemma NextSession(sessions: seq<Session>, answers: nat -> bool, i: nat)
    requires i < |sessions|
    ensures
      var s, upTo := sessions[i], sessions[..i + 1];
      && Real(upTo) == Real(sessions[..i]) + (if s.Session? then [s] else [])
      && (forall b :: Answered(upTo, answers, b) ==
            Answered(sessions[..i], answers, b) + (if s.Session? && answers(i) == b then [s] else []))
  {
    assert sessions[..i + 1][..i] == sessions[..i];
  }

  lemma NoSession(sessions: seq<Session>, answers: nat -> bool)
    ensures Real(sessions[..0]) == [] && forall b :: Answered(sessions[..0], answers, b) == []
  {
  }

  lemma OneSession(s: Session, answers: nat -> bool)
    ensures Real([s]) == if s.Session? then [s] else []
    ensures forall b :: Answered([s], answers, b) == if s.Session? && answers(0) == b then [s] else []
  {
    assert [s][..0] == [];
  }

  lemma {:induction false} KeysConcat(a: seq<Session>, b: seq<Session>)
    ensures Keys(a + b) == Keys(a) + Keys(b)
  {
    if a == [] {
      assert a + b == b;
    } else {
      assert (a + b)[0] == a[0] && (a + b)[1..] == a[1..] + b;
      KeysConcat(a[1..], b);
      var x, y, z := if a[0].Session? && a[0].key != "" then [a[0].key] else [], Keys(a[1..]), Keys(b);
      assert x + (y + z) == (x + y) + z;
    }
  }

  lemma {:induction false} ServerConcat(a: seq<Session>, b: seq<Session>)
    ensures Server(a + b) == if Server(a) != "" then Server(a) else Server(b)
  {
    if a == [] {
      assert a + b == b;
    } else {
      assert (a + b)[1..] == a[1..] + b;
      ServerConcat(a[1..], b);
    }
  }

  /** Every reachable session of the user was pushed to, or its key is in the queued message. */
  ghost predicate Covers(acked: seq<Session>, queued: seq<string>, sessions: seq<Session>) {
    forall s :: s in sessions && s.Session? && s.key != "" ==> s in acked || s.key in queued
  }

  lemma {:induction false} KeysHas(sessions: seq<Session>, s: Session)
    requires s in sessions && s.Session? && s.key != ""
    ensures s.key in Keys(sessions)
  {
    if s == sessions[0] {
    } else {
      KeysHas(sessions[1..], s);
    }
  }

  /** The keys are those of the sessions that have one, each at its place, in order. */
  lemma {:induction false} KeysInOrder(sessions: seq<Session>) returns (at: seq<nat>)
    ensures |at| == |Keys(sessions)| && forall i, j :: 0 <= i < j < |at| ==> at[i] < at[j]
    ensures forall j :: 0 <= j < |at| ==>
      at[j] < |sessions| && sessions[at[j]].Session? && sessions[at[j]].key == Keys(sessions)[j] != ""
    ensures forall i :: 0 <= i < |sessions| && sessions[i].Session? && sessions[i].key != "" ==> i in at
  {
    if sessions == [] {
      at := [];
    } else {
      var n := |sessions| - 1;
      at := KeysInOrder(sessions[..n]);
      assert sessions == sessions[..n] + [sessions[n]];
      KeysConcat(sessions[..n], [sessions[n]]);
      if sessions[n].Session? && sessions[n].key != "" {
        at := at + [n];
      }
    }
  }

  ghost predicate HasServer(s: Session) {
    s.Session? && s.key != "" && s.server != ""
  }

  /** The server of the first session with both a key and a server; empty without one. */
  ghost predicate FirstServer(sessions: seq<Session>, server: string) {
    if exists s <- sessions :: HasServer(s) then
      exists i :: 0 <= i < |sessions| && HasServer(sessions[i]) && sessions[i].server == server
                  && forall j :: 0 <= j < i ==> !HasServer(sessions[j])
    else server == ""
  }

  lemma {:induction false} ServerIsFirst(sessions: seq<Session>)
    ensures FirstServer(sessions, Server(sessions))
  {
    if sessions == [] {
    } else {
      var rest := sessions[1..];
      ServerIsFirst(rest);
      assert forall s :: s in sessions <==> s == sessions[0] || s in rest;
      if !HasServer(sessions[0]) && exists s <- rest :: HasServer(s) {
        var i :| 0 <= i < |rest| && HasServer(rest[i]) && rest[i].server == Server(rest)
                 && forall j :: 0 <= j < i ==> !HasServer(rest[j]);
        assert forall j :: 0 <= j < i + 1 ==> sessions[j] == if j == 0 then sessions[0] else rest[j - 1];
        assert sessions[i + 1] == rest[i];
      }
    }
  }

  function ReadDecimal(s: string): int {
    if s == "" then 0 else ReadDecimal(s[..|s| - 1]) * 10 + (s[|s| - 1] as int - '0' as int)
  }

  lemma {:induction false} DecimalReadsBack(n: nat)
    ensures var d := Decimal(n);
      d != "" && ReadDecimal(d) == n && (forall c <- d :: '0' <= c <= '9') && (d[0] == '0' ==> n == 0)
  {
    var digit := "0123456789"[n % 10];
    assert digit as int == '0' as int + n % 10;
    if n < 10 {
      assert [digit][..0] == "";
      assert ReadDecimal([digit]) == ReadDecimal("") * 10 + n;
    } else {
      DecimalReadsBack(n / 10);
      var d := Decimal(n);
      assert d[..|d| - 1] == Decimal(n / 10) && d[|d| - 1] == digit;
    }
  }

  /** uid: and the user's number in decimal, with its sign. */
  lemma PlaceholderNamesTheUser(uid: int)
    ensures var p := Placeholder(uid);
      && |p| > 4 && p[..4] == "uid:"
      && (uid >= 0 ==> ReadDecimal(p[4..]) == uid)
      && (uid < 0 ==> p[4] == '-' && -ReadDecimal(p[5..]) == uid)
  {
    DecimalReadsBack(if uid < 0 then -uid else uid);
    var p := Placeholder(uid);
    if uid < 0 {
      assert p[5..] == Decimal(-uid);
    } else {
      assert p[4..] == Decimal(uid);
    }
  }

  /** Addressed to the sessions that have a key, or else to the user by number. */
  ghost predicate ForSessions(keys: seq<string>, server: string, uid: int, sessions: seq<Session>) {
    && keys == (if exists s <- sessions :: s.Session? && s.key != "" then Keys(sessions) else [Placeholder(uid)])
    && FirstServer(sessions, server)
  }

  lemma QueueKeysMeans(sessions: seq<Session>, uid: int)
    ensures ForSessions(QueueKeys(sessions, uid), Server(sessions), uid, sessions)
  {
    ServerIsFirst(sessions);
    var at := KeysInOrder(sessions);
    forall s | s in sessions && s.Session? && s.key != "" ensures Keys(sessions) != [] {
      KeysHas(sessions, s);
    }
    if Keys(sessions) != [] {
      assert sessions[at[0]] in sessions;
    }
  }

  /** What the spool file of a message holds. */
  ghost predicate Recorded(rec: SpoolRecord, msg: Message, sessions: seq<Session>) {
    && rec.msgId == msg.id && rec.uid == msg.uid && rec.seqNo == msg.seqNo && rec.body == msg.body
    && ForSessions(rec.keys, rec.server, msg.uid, sessions)
  }

  /** Acknowledged pushes and the queue keys of the failed ones cover the user together. */
  lemma PushCovers(sessions: seq<Session>, answers: nat -> bool, uid: int)
    ensures Covers(Answered(sessions, answers, true), QueueKeys(Answered(sessions, answers, false), uid), sessions)
    ensures Answered(sessions, answers, false) == [] ==> Covers(Answered(sessions, answers, true), [], sessions)
  {
    var failed := Answered(sessions, answers, false);
    forall s | s in sessions && s.Session? && s.key != "" && s !in Answered(sessions, answers, true)
      ensures s.key in Keys(failed)
    {
      AnsweredOrNot(sessions, answers, s);
      KeysHas(failed, s);
    }
  }

  lemma KeysCover(acked: seq<Session>, sessions: seq<Session>, uid: int)
    ensures Covers(acked, QueueKeys(sessions, uid), sessions)
  {
    forall s | s in sessions && s.Session? && s.key != "" ensures s.key in QueueKeys(sessions, uid) {
      KeysHas(sessions, s);
    }
  }

  /** One session covers the user exactly if no other one can be reached. */
  lemma OneReached(s: Session, sessions: seq<Session>, answers: nat -> bool)
    ensures Covers(Real([s]), [], sessions) <==> forall x <- sessions :: x.Session? && x.key != "" ==> x == s
  {
    OneSession(s, answers);
  }

  /** One more at the end, or nothing. */
  predicate Gets<T(==)>(was: seq<T>, now: seq<T>, more: bool) {
    if more then |now| == |was| + 1 && now[..|was|] == was else now == was
  }

  /** The sessions a full fallback is addressed to. */
  function FallbackSessions(c: Context): seq<Session> {
    if c.limiterV2.Degrade? || !c.online then [] else c.sessions
  }

  predicate Rejected(c: Context) {
    !c.limiter || c.limiterV2.Reject?
  }

  /** What the reliable path reports. */
  function Report(w: Writes): Result<(), RouteError> {
    if w.queue.Clean? then Ok(())
    else if w.OfflineOk() then Err(EnqueueFailed)
    else if w.spool then Err(Spooled)
    else Err(NothingAccepted)
  }

  class DispatchEngine {
    const ack: Tracking.AckHandler
    const svc: Services := ack.svc
    const hasProducer: bool
    const onlineTopic: string
    const offlineTopic: string
    const hasPusher: bool

    constructor (ack: Tracking.AckHandler, hasProducer: bool, onlineTopic: string, offlineTopic: string,
                 hasPusher: bool)
      ensures this.ack == ack && this.hasPusher == hasPusher && this.hasProducer == hasProducer
      ensures this.onlineTopic == onlineTopic && this.offlineTopic == offlineTopic
    {
      this.ack := ack;
      this.hasProducer, this.hasPusher := hasProducer, hasPusher;
      this.onlineTopic, this.offlineTopic := onlineTopic, offlineTopic;
    }

    // -------------------------------------------------------------- the direct path

    /** Pushes to every session; an error when there is a failure and not a single success. */
    method PushDirect(sessions: seq<Session>, answers: nat -> bool) returns (failed: seq<Session>, err: bool)
      modifies svc`tried, svc`acked
      ensures svc.tried == old(svc.tried) + if hasPusher then Real(sessions) else []
      ensures svc.acked == old(svc.acked) + if hasPusher then Answered(sessions, answers, true) else []
      ensures failed == if hasPusher then Answered(sessions, answers, false) else sessions
      ensures err <==> !hasPusher || (failed != [] && Answered(sessions, answers, true) == [])
    {
      if !hasPusher {
        return sessions, true;
      }
      hide Real, Answered;
      NoSession(sessions, answers);
      failed := [];
      var anyOk := false;
      var i := 0;
      while i < |sessions|
        invariant 0 <= i <= |sessions|
        invariant svc.tried == old(svc.tried) + Real(sessions[..i])
        invariant svc.acked == old(svc.acked) + Answered(sessions[..i], answers, true)
        invariant failed == Answered(sessions[..i], answers, false)
        invariant anyOk <==> Answered(sessions[..i], answers, true) != []
      {
        NextSession(sessions, answers, i);
        if sessions[i].Session? {
          svc.PushMsg(sessions[i], answers(i));
          if answers(i) {
            anyOk := true;
          } else {
            failed := failed + [sessions[i]];
          }
        }
        i := i + 1;
      }
      assert sessions[..i] == sessions;
      err := !anyOk && failed != [];
    }

    /** markDelivered: up to three tries. */
    method MarkDeliveredWithRetry(m: MsgId, marks: Marks, now: int) returns (ok: bool)
      requires ack.cache.Valid()
      modifies svc`hashes, ack.cache
      ensures ack.cache.Valid() && ack.Follows(old(ack.State()), ack.State(), m)
      ensures ok <==> Clean in marks
      ensures ok ==> Finished(svc.hashes, m)
      ensures svc.alone ==> svc.hashes == Marked(old(svc.hashes), m, marks)
    {
      hide Tracking.AckHandler.Recalls;
      ghost var was := ack.State();
      ack.FollowsItself(was, m);
      ok := false;
      var i := 0;
      while i < 3 && !ok
        invariant 0 <= i <= 3 && ack.cache.Valid() && ack.Follows(was, ack.State(), m)
        invariant ok <==> Clean in marks[..i]
        invariant ok ==> Finished(svc.hashes, m)
        invariant svc.alone ==>
          svc.hashes == if Clean in marks[..i] || Lost in marks[..i] then WithStatus(was.hashes, m, Status.Delivered)
                        else was.hashes
      {
        ghost var mid := ack.State();
        ok := ack.MarkDelivered(m, marks[i], now);
        ack.FollowsTransitive(was, mid, ack.State(), m);
        assert marks[..i + 1] == marks[..i] + [marks[i]];
        i := i + 1;
      }
      assert marks[..3] == marks;
      assert ok ==> Clean in marks;
    }

    // -------------------------------------------------------------- the reliable path

    /** The message waits in the user's offline queue or in a complete spool file. */
    ghost predicate Kept(t: Traffic, uid: int, m: MsgId) {
      (uid, m) in t.offline || exists i :: 0 <= i < |t.spool| && t.spool[i].msgId == m && t.spool[i].uid == uid
    }

    function QueuedFor(uid: int, sessions: seq<Session>, body: seq<int>): Queued {
      var topic := if |sessions| > 0 then onlineTopic else offlineTopic;
      Queued(if !hasProducer then DaoPush else if topic != "" then Topic(topic) else UserTopic,
             uid, Server(sessions), QueueKeys(sessions, uid), body)
    }

    function RecordFor(m: MsgId, uid: int, sessions: seq<Session>, body: seq<int>, seqNo: int): SpoolRecord {
      SpoolRecord(m, uid, seqNo, Server(sessions), QueueKeys(sessions, uid), body)
    }

    /** What the queue gets for a message, and on which topic. */
    ghost predicate Addressed(q: Queued, uid: int, body: seq<int>, sessions: seq<Session>) {
      && q.uid == uid && q.body == body && ForSessions(q.keys, q.server, uid, sessions)
      && (q.channel == DaoPush <==> !hasProducer)
      && (hasProducer && sessions != [] ==> q.channel == if onlineTopic == "" then UserTopic else Topic(onlineTopic))
      && (hasProducer && sessions == [] ==> q.channel == if offlineTopic == "" then UserTopic else Topic(offlineTopic))
    }

    lemma QueuedIsAddressed(msg: Message, sessions: seq<Session>)
      ensures Addressed(QueuedFor(msg.uid, sessions, msg.body), msg.uid, msg.body, sessions)
      ensures Recorded(RecordFor(msg.id, msg.uid, sessions, msg.body, msg.seqNo), msg, sessions)
    {
      hide ForSessions;
      QueueKeysMeans(sessions, msg.uid);
    }

    /** spoolReliableMessage: what the reliable path reports, given which of its writes failed. */
    method SpoolReliableMessage(rec: SpoolRecord, offlineFailed: bool, queueFailed: bool, written: bool)
      returns (r: Result<(), RouteError>)
      modifies svc`spool
      ensures svc.spool == old(svc.spool) + if offlineFailed && written then [rec] else []
      ensures r == if offlineFailed && !written then Err(NothingAccepted)
        else if !queueFailed then Ok(()) else if offlineFailed then Err(Spooled) else Err(EnqueueFailed)
    {
      if !offlineFailed && !queueFailed {
        return Ok(());
      }
      if !offlineFailed {
        return Err(EnqueueFailed);
      }
      svc.WriteLocalSpool(rec, written);
      if !written {
        return Err(NothingAccepted);
      }
      if queueFailed {
        return Err(Spooled);
      }
      return Ok(());
    }

    /** The loop of step 2: connection keys and the first server. */
    method ConnectionKeys(sessions: seq<Session>, uid: int) returns (server: string, keys: seq<string>)
      ensures server == Server(sessions) && keys == QueueKeys(sessions, uid)
    {
      server, keys := "", [];
      var i := 0;
      while i < |sessions|
        invariant 0 <= i <= |sessions|
        invariant keys == Keys(sessions[..i]) && server == Server(sessions[..i])
      {
        assert sessions[..i + 1] == sessions[..i] + [sessions[i]];
        KeysConcat(sessions[..i], [sessions[i]]);
        ServerConcat(sessions[..i], [sessions[i]]);
        if sessions[i].Session? && sessions[i].key != "" {
          keys := keys + [sessions[i].key];
          if server == "" && sessions[i].server != "" {
            server := sessions[i].server;
          }
        }
        i := i + 1;
      }
      assert sessions[..i] == sessions;
      if keys == [] {
        keys := [Placeholder(uid)];
      }
    }

    /**
     The offline queue, then Kafka (or the DAO push), then the spool, which is only tried after an offline
     failure. nil exactly if the queue write was confirmed; otherwise the message is kept, unless every
     write reported an error.
     */
    method ReliableEnqueue(m: MsgId, uid: int, body: seq<int>, seqNo: int, sessions: seq<Session>, w: Writes)
      returns (r: Result<(), RouteError>)
      modifies svc`offline, svc`queue, svc`spool
      ensures r == Report(w)
      ensures svc.queue == old(svc.queue) + if w.queue.Done() then [QueuedFor(uid, sessions, body)] else []
      ensures svc.offline == if w.offline.executed >= 1 then old(svc.offline)[(uid, m) := seqNo] else old(svc.offline)
      ensures svc.spool == old(svc.spool) +
        if !w.OfflineOk() && w.spool then [RecordFor(m, uid, sessions, body, seqNo)] else []
      ensures r.Err? && r.error != NothingAccepted ==> Kept(svc.Sent(), uid, m)
      // the same in full: which error, and what the queue and the spool get
      ensures r == if w.queue == Clean then Ok(())
        else if w.offline.executed >= 2 && w.offline.replied then Err(EnqueueFailed)
        else if w.spool then Err(Spooled) else Err(NothingAccepted)
      ensures Gets(old(svc.queue), svc.queue, w.queue != Effect.Failed)
      ensures w.queue != Effect.Failed ==> Addressed(svc.queue[|svc.queue| - 1], uid, body, sessions)
      ensures Gets(old(svc.spool), svc.spool, w.spool && (w.offline.executed < 2 || !w.offline.replied))
      ensures w.spool && (w.offline.executed < 2 || !w.offline.replied) ==>
        Recorded(svc.spool[|svc.spool| - 1], Message(m, uid, body, seqNo), sessions)
    {
      hide Recorded, Addressed;
      QueuedIsAddressed(Message(m, uid, body, seqNo), sessions);
      var offlineOk := svc.AddToOfflineQueue(uid, m, seqNo, w.offline);
      var server, keys := ConnectionKeys(sessions, uid);
      var rec := SpoolRecord(m, uid, seqNo, server, keys, body);
      var topic := if |sessions| > 0 then onlineTopic else offlineTopic;
      var channel := if !hasProducer then DaoPush else if topic != "" then Topic(topic) else UserTopic;
      var queueOk := svc.Enqueue(Queued(channel, uid, server, keys, body), w.queue);
      if !queueOk {
        r := SpoolReliableMessage(rec, !offlineOk, true, w.spool);
        if !offlineOk && r == Err(Spooled) { assert svc.spool[|svc.spool| - 1].msgId == m; }
        return;
      }
      if !offlineOk {
        var _ := SpoolReliableMessage(rec, true, false, w.spool);
      }
      return Ok(());
    }

    // -------------------------------------------------------------- putting them together

    predicate CachedWorks(c: Context, o: Outcomes) {
      hasPusher && c.cached.Some? && (c.cached.value.NilSession? || o.cachedAnswer)
    }

    /** Somebody answered, or there was nobody to ask. */
    predicate OnlineWorks(c: Context, o: Outcomes) {
      c.online && hasPusher && (Real(c.sessions) == [] || Answered(c.sessions, o.answers, true) != [])
    }

    /** Which way an owned, tracked message goes. */
    predicate Takes(c: Context, o: Outcomes, path: Path) {
      && (path.Limited? <==> Rejected(c))
      && (path.CachedPush? <==> !Rejected(c) && !c.limiterV2.Degrade? && CachedWorks(c, o))
      && (path.Fallback? <==> !Rejected(c) && (c.limiterV2.Degrade? || (!CachedWorks(c, o) && !OnlineWorks(c, o))))
      && (path.PartialPush? <==>
            !Rejected(c) && !c.limiterV2.Degrade? && !CachedWorks(c, o) && OnlineWorks(c, o)
            && Clean in o.marks && Answered(c.sessions, o.answers, false) != [])
    }

    /** What the call reports on that way. */
    function Reported(o: Outcomes, path: Path): Result<(), RouteError> {
      if path.Limited? then Err(RateLimited)
      else if !path.Fallback? && Clean !in o.marks then Err(MarkDeliveredFailed)
      else if path.CachedPush? || path.DirectPush? then Ok(())
      else Report(o.writes)
    }

    /** The pushes attempted on the cached route and on the user's sessions. */
    function Targets(c: Context, path: Path): seq<Session> {
      if path.Limited? || c.limiterV2.Degrade? || !hasPusher then []
      else
        (if c.cached.Some? then Real([c.cached.value]) else [])
        + (if path.CachedPush? || !c.online then [] else Real(c.sessions))
    }

    /** Those that were answered. */
    function Reached(c: Context, o: Outcomes, path: Path): seq<Session> {
      if path.CachedPush? && c.cached.Some? then Real([c.cached.value])
      else if path.DirectPush? || path.PartialPush? then Answered(c.sessions, o.answers, true)
      else []
    }

    /** Whom the reliable path is for. */
    function Addressees(c: Context, o: Outcomes, path: Path): seq<Session> {
      if path.Fallback? then FallbackSessions(c) else Answered(c.sessions, o.answers, false)
    }

    function ToQueue(msg: Message, c: Context, o: Outcomes, path: Path): seq<Queued> {
      if (path.Fallback? || path.PartialPush?) && o.writes.queue.Done()
      then [QueuedFor(msg.uid, Addressees(c, o, path), msg.body)] else []
    }

    function ToOffline(was: map<(int, MsgId), int>, msg: Message, o: Outcomes, path: Path): map<(int, MsgId), int> {
      if (path.Fallback? || path.PartialPush?) && o.writes.offline.executed >= 1
      then was[(msg.uid, msg.id) := msg.seqNo] else was
    }

    function ToSpool(msg: Message, c: Context, o: Outcomes, path: Path): seq<SpoolRecord> {
      if (path.Fallback? || path.PartialPush?) && !o.writes.OfflineOk() && o.writes.spool
      then [RecordFor(msg.id, msg.uid, Addressees(c, o, path), msg.body, msg.seqNo)] else []
    }

    /** What a call that goes a certain way leaves in the queue, the offline queue and the spool. */
    ghost predicate Keeps(was: Traffic, now: Traffic, msg: Message, c: Context, o: Outcomes, path: Path) {
      && now.queue == was.queue + ToQueue(msg, c, o, path)
      && now.offline == ToOffline(was.offline, msg, o, path)
      && now.spool == was.spool + ToSpool(msg, c, o, path)
    }

    /** The status hashes, `known` being those before the delivery. */
    ghost predicate Marks(known: Hashes, hashes: Hashes, m: MsgId, o: Outcomes, path: Path) {
      && (path.CachedPush? || path.PartialPush? || path.DirectPush? ==>
            (Clean in o.marks ==> Finished(hashes, m)) && (svc.alone ==> hashes == Marked(known, m, o.marks)))
      && (path.Fallback? || path.Limited? ==> (svc.alone ==> hashes == known))
    }

    /** Everything a delivering call does and says. */
    ghost predicate Delivers(was: Traffic, now: Traffic, known: Hashes, hashes: Hashes, msg: Message, c: Context,
                             o: Outcomes, r: Result<(), RouteError>, path: Path) {
      && Takes(c, o, path)
      && r == Reported(o, path)
      && now.tried == was.tried + Targets(c, path)
      && now.acked == was.acked + Reached(c, o, path)
      && Keeps(was, now, msg, c, o, path)
      && Marks(known, hashes, msg.id, o, path)
    }

    /** Which way a call goes, by what it is answered: limiter, cached route, session manager and pushes. */
    lemma WhichWay(c: Context, o: Outcomes, path: Path)
      requires Takes(c, o, path) && path.Delivering()
      ensures path.Limited? <==> !c.limiter || c.limiterV2 == Reject
      ensures c.limiter && c.limiterV2 == Degrade ==> path.Fallback?
      ensures path.CachedPush? <==>
        && c.limiter && c.limiterV2 == Allow && hasPusher
        && c.cached.Some? && (c.cached.value == NilSession || o.cachedAnswer)
      ensures path.DirectPush? || path.PartialPush? <==>
        && c.limiter && c.limiterV2 == Allow && !path.CachedPush? && hasPusher && c.online
        && ((exists i: nat :: i < |c.sessions| && c.sessions[i].Session? && o.answers(i))
            || !exists i: nat :: i < |c.sessions| && c.sessions[i].Session? && !o.answers(i))
      ensures path.PartialPush? <==>
        && (path.DirectPush? || path.PartialPush?) && Clean in o.marks
        && exists i: nat :: i < |c.sessions| && c.sessions[i].Session? && !o.answers(i)
    {
      hide Real, Answered;
      NobodyToAsk(c.sessions, o.answers);
      SomebodyAnswered(c.sessions, o.answers, true);
      SomebodyAnswered(c.sessions, o.answers, false);
    }

    /** What a delivering call reports, pushes and marks, in full. */
    lemma WhatIsDone(was: Traffic, now: Traffic, known: Hashes, hashes: Hashes, msg: Message, c: Context, o: Outcomes,
                     r: Result<(), RouteError>, path: Path)
      requires Delivers(was, now, known, hashes, msg, c, o, r, path) && path.Delivering()
      ensures path.Limited? ==> r == Err(RateLimited)
      ensures path.CachedPush? || path.DirectPush? ==>
        r == if Clean in o.marks then Ok(()) else Err(MarkDeliveredFailed)
      ensures path.Fallback? || path.PartialPush? ==>
        r == if o.writes.queue == Clean then Ok(())
          else if o.writes.offline.executed >= 2 && o.writes.offline.replied then Err(EnqueueFailed)
          else if o.writes.spool then Err(Spooled) else Err(NothingAccepted)
      ensures path.CachedPush? ==>
        var one := if c.cached.value == NilSession then [] else [c.cached.value];
        now.tried == was.tried + one && now.acked == was.acked + one
      ensures path.DirectPush? || path.PartialPush? || (path.Fallback? && hasPusher && c.limiterV2 == Allow) ==>
        && now.tried == was.tried + ((if c.cached.Some? && c.cached.value.Session? then [c.cached.value] else [])
                                     + if c.online then Real(c.sessions) else [])
        && now.acked == was.acked + if path.Fallback? then [] else Answered(c.sessions, o.answers, true)
      ensures path.Limited? || !hasPusher || c.limiterV2 != Allow ==> now.tried == was.tried && now.acked == was.acked
      ensures svc.alone && (path.CachedPush? || path.DirectPush? || path.PartialPush?) ==>
        hashes == if Clean !in o.marks && Lost !in o.marks then known
          else known[msg.id := Hash(Status.Delivered, if msg.id in known then known[msg.id].seqNo else 0)]
      ensures svc.alone && (path.Limited? || path.Fallback?) ==> hashes == known
    {
      hide Answered, Keeps;
      if c.cached.Some? {
        OneSession(c.cached.value, o.answers);
      }
      hide Real;
    }

    /** What a delivering call leaves on the queue, in the offline queue and in the spool, in full. */
    lemma WhatIsKept(was: Traffic, now: Traffic, msg: Message, c: Context, o: Outcomes, path: Path)
      requires Keeps(was, now, msg, c, o, path)
      ensures !(path.Fallback? || path.PartialPush?) ==>
        now.queue == was.queue && now.offline == was.offline && now.spool == was.spool
      ensures path.Fallback? || path.PartialPush? ==>
        var left := if path.PartialPush? then Answered(c.sessions, o.answers, false)
          else if c.limiterV2 == Degrade || !c.online then [] else c.sessions;
        var w := o.writes;
        var spooled := w.spool && (w.offline.executed < 2 || !w.offline.replied);
        && Gets(was.queue, now.queue, w.queue != Effect.Failed)
        && (w.queue != Effect.Failed ==> Addressed(now.queue[|was.queue|], msg.uid, msg.body, left))
        && now.offline == (if w.offline.executed == 0 then was.offline else was.offline[(msg.uid, msg.id) := msg.seqNo])
        && Gets(was.spool, now.spool, spooled) && (spooled ==> Recorded(now.spool[|was.spool|], msg, left))
    {
      hide Addressed, Recorded, Answered, QueuedFor, RecordFor;
      QueuedIsAddressed(msg, Addressees(c, o, path));
    }

    /** From the limiters on, for a message this attempt owns. */
    method Deliver(m: MsgId, uid: int, body: seq<int>, seqNo: int, c: Context, o: Outcomes)
      returns (r: Result<(), RouteError>, path: Path)
      requires ack.cache.Valid()
      modifies svc`hashes, svc`tried, svc`acked, svc`queue, svc`offline, svc`spool, ack.cache
      ensures ack.cache.Valid() && ack.Follows(old(ack.State()), ack.State(), m)
      ensures Delivers(old(svc.Sent()), svc.Sent(), old(svc.hashes), svc.hashes, Message(m, uid, body, seqNo), c, o, r,
                       path)
      ensures path.Delivering()
    {
      hide Real, Answered, Report, Kept, QueuedFor, RecordFor, Addressed, Recorded, Gets;
      hide Tracking.AckHandler.Follows;
      ack.FollowsItself(ack.State(), m);
      if !c.limiter || c.limiterV2.Reject? {
        return Err(RateLimited), Limited;
      }
      if c.limiterV2.Degrade? {
        r := ReliableEnqueue(m, uid, body, seqNo, [], o.writes);
        return r, Fallback;
      }
      r, path := DeliverDirect(m, uid, body, seqNo, c, o);
    }

    /** The cached route first, then what the session manager knows. */
    method DeliverDirect(m: MsgId, uid: int, body: seq<int>, seqNo: int, c: Context, o: Outcomes)
      returns (r: Result<(), RouteError>, path: Path)
      requires ack.cache.Valid() && !Rejected(c) && !c.limiterV2.Degrade?
      modifies svc`hashes, svc`tried, svc`acked, svc`queue, svc`offline, svc`spool, ack.cache
      ensures ack.cache.Valid() && ack.Follows(old(ack.State()), ack.State(), m)
      ensures Delivers(old(svc.Sent()), svc.Sent(), old(svc.hashes), svc.hashes, Message(m, uid, body, seqNo), c, o, r,
                       path)
      ensures path.CachedPush? || path.Fallback? || path.PartialPush? || path.DirectPush?
    {
      hide Real, Answered, Delivers, Reported, Reached, OnlineWorks, Keeps, Marks;
      hide Tracking.AckHandler.Follows;
      ghost var was, sent, msg := ack.State(), svc.Sent(), Message(m, uid, body, seqNo);
      ack.FollowsItself(was, m);
      if c.cached.Some? {
        var pushed := PushCached(m, c.cached.value, o);
        if pushed.Some? {
          CachedDelivers(sent, svc.Sent(), was.hashes, svc.hashes, msg, c, o, pushed.value);
          return pushed.value, CachedPush;
        }
      }
      ghost var mid, tried := ack.State(), svc.Sent();
      r, path := PushOrFallBack(m, uid, body, seqNo, c, o);
      ack.FollowsTransitive(was, mid, ack.State(), m);
      AskedDelivers(sent, tried, svc.Sent(), was.hashes, svc.hashes, msg, c, o, r, path);
    }

    lemma CachedDelivers(was: Traffic, now: Traffic, known: Hashes, hashes: Hashes, msg: Message, c: Context,
                         o: Outcomes, r: Result<(), RouteError>)
      requires !Rejected(c) && !c.limiterV2.Degrade? && c.cached.Some? && CachedWorks(c, o)
      requires r == if Clean in o.marks then Ok(()) else Err(MarkDeliveredFailed)
      requires now == was.(tried := was.tried + Real([c.cached.value]), acked := was.acked + Real([c.cached.value]))
      requires Marks(known, hashes, msg.id, o, CachedPush)
      ensures Delivers(was, now, known, hashes, msg, c, o, r, CachedPush)
    {
      hide Real, Answered, Marks;
    }

    lemma AskedDelivers(was: Traffic, tried: Traffic, now: Traffic, known: Hashes, hashes: Hashes, msg: Message,
                        c: Context, o: Outcomes, r: Result<(), RouteError>, path: Path)
      requires !Rejected(c) && !c.limiterV2.Degrade? && !CachedWorks(c, o) && r == Reported(o, path)
      requires tried ==
               was.(tried := was.tried + if hasPusher && c.cached.Some? then Real([c.cached.value]) else [])
      requires path.Fallback? || path.DirectPush? || path.PartialPush?
      requires path.Fallback? <==> !OnlineWorks(c, o)
      requires path.PartialPush? <==>
               OnlineWorks(c, o) && Clean in o.marks && Answered(c.sessions, o.answers, false) != []
      requires now.tried == tried.tried + if hasPusher && c.online then Real(c.sessions) else []
      requires now.acked == tried.acked + Reached(c, o, path)
      requires Keeps(tried, now, msg, c, o, path) && Marks(known, hashes, msg.id, o, path)
      ensures Delivers(was, now, known, hashes, msg, c, o, r, path)
    {
      hide Real, Answered, Marks, Reported, CachedWorks, OnlineWorks, Reached;
    }

    /** The session manager's answer decides: direct pushes, and the reliable path for what they left over. */
    method PushOrFallBack(m: MsgId, uid: int, body: seq<int>, seqNo: int, c: Context, o: Outcomes)
      returns (r: Result<(), RouteError>, path: Path)
      requires ack.cache.Valid() && !c.limiterV2.Degrade?
      modifies svc`hashes, svc`tried, svc`acked, svc`queue, svc`offline, svc`spool, ack.cache
      ensures ack.cache.Valid() && ack.Follows(old(ack.State()), ack.State(), m)
      ensures path.Fallback? || path.DirectPush? || path.PartialPush?
      ensures path.Fallback? <==> !OnlineWorks(c, o)
      ensures path.PartialPush? <==>
              OnlineWorks(c, o) && Clean in o.marks && Answered(c.sessions, o.answers, false) != []
      ensures r == Reported(o, path)
      ensures svc.tried == old(svc.tried) + if hasPusher && c.online then Real(c.sessions) else []
      ensures svc.acked == old(svc.acked) + Reached(c, o, path)
      ensures Keeps(old(svc.Sent()), svc.Sent(), Message(m, uid, body, seqNo), c, o, path)
      ensures Marks(old(svc.hashes), svc.hashes, m, o, path)
    {
      hide Marked, Tracking.AckHandler.Follows, Addressed, Recorded, Gets, Kept;
      NobodyToAsk(c.sessions, o.answers);
      ack.FollowsItself(ack.State(), m);
      if c.online {
        var rest, err := PushOnline(m, c.sessions, o);
        if !err {
          if rest.Err? {
            return Err(rest.error), DirectPush;
          }
          if rest.value == [] {
            return Ok(()), DirectPush;
          }
          r := ReliableEnqueue(m, uid, body, seqNo, rest.value, o.writes);
          return r, PartialPush;
        }
      }
      r := ReliableEnqueue(m, uid, body, seqNo, if c.online then c.sessions else [], o.writes);
      return r, Fallback;
    }

    /** The cached-route shortcut: None when the push failed and the session manager must be asked. */
    method PushCached(m: MsgId, s: Session, o: Outcomes) returns (pushed: Option<Result<(), RouteError>>)
      requires ack.cache.Valid()
      modifies svc`hashes, svc`tried, svc`acked, ack.cache
      ensures ack.cache.Valid() && ack.Follows(old(ack.State()), ack.State(), m)
      ensures svc.tried == old(svc.tried) + if hasPusher then Real([s]) else []
      ensures pushed.Some? <==> hasPusher && (s.NilSession? || o.cachedAnswer)
      ensures svc.acked == old(svc.acked) + if pushed.Some? then Real([s]) else []
      ensures pushed.Some? ==> pushed.value == if Clean in o.marks then Ok(()) else Err(MarkDeliveredFailed)
      ensures pushed.Some? ==> Marks(old(svc.hashes), svc.hashes, m, o, CachedPush)
      ensures pushed.None? ==> svc.hashes == old(svc.hashes)
    {
      hide Tracking.AckHandler.Follows, Marked, Real, Answered;
      ack.FollowsItself(ack.State(), m);
      var answers := _ => o.cachedAnswer;
      OneSession(s, answers);
      var failed, err := PushDirect([s], answers);
      if err || failed != [] {
        return None;
      }
      var ok := MarkDeliveredWithRetry(m, o.marks, o.markedAt);
      return Some(if ok then Ok(()) else Err(MarkDeliveredFailed));
    }

    /** Pushes to the user's sessions; unless all failed, records the delivery and returns the sessions left over. */
    method PushOnline(m: MsgId, sessions: seq<Session>, o: Outcomes)
      returns (rest: Result<seq<Session>, RouteError>, err: bool)
      requires ack.cache.Valid()
      modifies svc`hashes, svc`tried, svc`acked, ack.cache
      ensures ack.cache.Valid() && ack.Follows(old(ack.State()), ack.State(), m)
      ensures svc.tried == old(svc.tried) + if hasPusher then Real(sessions) else []
      ensures svc.acked == old(svc.acked) + if hasPusher then Answered(sessions, o.answers, true) else []
      ensures err <==>
              !hasPusher || (Answered(sessions, o.answers, false) != [] && Answered(sessions, o.answers, true) == [])
      ensures !err ==>
              rest == if Clean in o.marks then Ok(Answered(sessions, o.answers, false)) else Err(MarkDeliveredFailed)
      ensures !err ==> Marks(old(svc.hashes), svc.hashes, m, o, DirectPush)
      ensures err ==> svc.hashes == old(svc.hashes)
    {
      hide Tracking.AckHandler.Follows, Marked;
      ack.FollowsItself(ack.State(), m);
      var failed, e := PushDirect(sessions, o.answers);
      if e {
        return Ok(failed), true;
      }
      var ok := MarkDeliveredWithRetry(m, o.marks, o.markedAt);
      return if ok then Ok(failed) else Err(MarkDeliveredFailed), false;
    }

    /** The message is delivered, or this call put it on the queue for all the user's connections. */
    ghost predicate Delivered(was: Traffic, now: Traffic, hashes: Hashes, msg: Message, c: Context) {
      || Finished(hashes, msg.id)
      || (Gets(was.queue, now.queue, true)
          && Addressed(now.queue[|was.queue|], msg.uid, msg.body,
                       if c.limiterV2 == Degrade || !c.online then [] else c.sessions))
    }

    /** When an owned message is refused; `known` means that the duplicate cache holds its hash. */
    ghost predicate Refusal(was: Hashes, now: Hashes, m: MsgId, t: Tracking.Outcomes, known: bool, refused: bool) {
      && (Finished(was, m) || known ==> refused)
      && (m in was && Tracking.Refuses(true, m, t) ==> refused)
      && (m in was && refused ==> Tracking.Refuses(true, m, t) || Finished(now, m) || known)
      && (m !in was && svc.alone ==> (refused <==> Tracking.Refuses(false, m, t) || known))
      && (refused ==>
            Tracking.RegistrationFails(true, t) || Tracking.RegistrationFails(false, t) || Finished(now, m) || known)
      && (refused && svc.alone && !Finished(was, m) ==> !Finished(now, m))
    }

    lemma AdmittedStays(was: Hashes, tracked: Hashes, now: Hashes, m: MsgId, t: Tracking.Outcomes, known: bool)
      requires Refusal(was, tracked, m, t, known, false)
      ensures Refusal(was, now, m, t, known, false)
    {
    }

    method Track(m: MsgId, uid: int, t: Tracking.Outcomes) returns (err: bool)
      requires ack.cache.Valid() && m != ""
      modifies svc`hashes, svc`index, ack.cache
      ensures ack.cache.Valid() && ack.Follows(old(ack.State()), ack.State(), m)
      ensures Refusal(old(svc.hashes), svc.hashes, m, t, old(ack.Remembered(m, t.now)), err)
      ensures Tracking.Indexed(old(svc.index), svc.index, svc.hashes, uid, m)
      ensures svc.alone ==>
              svc.hashes == Tracking.Registered(old(svc.hashes), m, t, old(ack.Remembered(m, t.now)))
      ensures svc.alone && m !in old(svc.hashes) && !err && t.granted.value > 0 ==>
              svc.index == old(svc.index)[(uid, m) := t.granted.value]
      ensures !err ==> m in svc.hashes
    {
      hide Tracking.AckHandler.Follows;
      err := ack.TrackMessage(m, uid, t);
    }

    /** A message this attempt has tracked is stored, or delivered. */
    method RouteTracked(m: MsgId, uid: int, body: seq<int>, seqNo: int, mode: Mode, c: Context, o: Outcomes)
      returns (r: Result<(), RouteError>, path: Path)
      requires ack.cache.Valid() && m in svc.hashes
      modifies svc`hashes, svc`tried, svc`acked, svc`queue, svc`offline, svc`spool, ack.cache
      ensures ack.cache.Valid() && ack.Follows(old(ack.State()), ack.State(), m)
      ensures path.Stored? <==> mode.PersistOnly?
      ensures path.Stored? ==>
              r == Ok(()) && svc.Sent() == old(svc.Sent()) && m in svc.hashes && svc.hashes == old(svc.hashes)
      ensures !path.Stored? ==>
              Delivers(old(svc.Sent()), svc.Sent(), old(svc.hashes), svc.hashes, Message(m, uid, body, seqNo), c, o, r,
                       path)
      ensures path.Stored? || path.Delivering()
    {
      hide Delivers, Tracking.AckHandler.Follows;
      ack.FollowsItself(ack.State(), m);
      if mode.PersistOnly? {
        return Ok(()), Stored;
      }
      r, path := Deliver(m, uid, body, seqNo, c, o);
    }

    /** Tracking and delivery, `known` being the status hashes in between, as far as they are determined. */
    ghost predicate Routes(was: Traffic, now: Traffic, known: Hashes, hashes: Hashes, msg: Message, mode: Mode,
                           c: Context, o: Outcomes, r: Result<(), RouteError>, path: Path) {
      && (path.AlreadyTracked? || path.Stored? || path.Delivering())
      && (path.AlreadyTracked? || path.Stored? ==> r == Ok(()) && now == was && (svc.alone ==> hashes == known))
      && (path.Stored? ==> msg.id in hashes)
      && (!path.AlreadyTracked? ==> (path.Stored? <==> mode.PersistOnly?))
      && (path.Delivering() ==> Delivers(was, now, known, hashes, msg, c, o, r, path))
    }

    lemma KnownAlone(was: Traffic, now: Traffic, known: Hashes, computed: Hashes, hashes: Hashes, msg: Message,
                     c: Context, o: Outcomes, r: Result<(), RouteError>, path: Path)
      requires Delivers(was, now, known, hashes, msg, c, o, r, path) && (svc.alone ==> known == computed)
      ensures Delivers(was, now, computed, hashes, msg, c, o, r, path)
    {
    }

    /** The part of a call that runs with the attempt lock. */
    method RouteLocked(m: MsgId, uid: int, body: seq<int>, seqNo: int, mode: Mode, c: Context, o: Outcomes, token: nat)
      returns (r: Result<(), RouteError>, path: Path)
      requires ack.cache.Valid() && !mode.Transient? && m != ""
      requires svc.LocksOk() && token in svc.LockOf(m).log && svc.LockOf(m).log[token].phase.Running?
      modifies svc, ack.cache
      ensures ack.cache.Valid() && ack.Follows(old(ack.State()), ack.State(), m)
      ensures svc.LocksOk() && svc.locks - {m} == old(svc.locks) - {m} && token in svc.LockOf(m).log
      ensures svc.LockOf(m).log[token].phase ==
              if path.Fallback? && r.Ok? then AttemptLock.FellBack else AttemptLock.Released
      ensures !(path.Fallback? && r.Ok?) && !o.release.Refused? ==> !AttemptLock.Owns(svc.LockOf(m), token)
      ensures var known := old(ack.Remembered(m, o.track.now));
              && Refusal(old(svc.hashes), svc.hashes, m, o.track, known, path.AlreadyTracked?)
              && Routes(old(svc.Sent()), svc.Sent(), Tracking.Registered(old(svc.hashes), m, o.track, known),
                        svc.hashes, Message(m, uid, body, seqNo), mode, c, o, r, path)
      ensures Tracking.Indexed(old(svc.index), svc.index, svc.hashes, uid, m)
      ensures svc.alone && m !in old(svc.hashes) && !path.AlreadyTracked? && o.track.granted.value > 0 ==>
              svc.index == old(svc.index)[(uid, m) := o.track.granted.value]
    {
      hide Refusal, Delivers, AttemptLock.Inv, AttemptLock.Next, Tracking.Registered, Tracking.Indexed;
      hide Tracking.AckHandler.Recalls, Evolves;
      ghost var was, known := ack.State(), ack.Remembered(m, o.track.now);
      var err := Track(m, uid, o.track);
      ghost var mid, index := ack.State(), svc.index;
      if err {
        r, path := Ok(()), AlreadyTracked;
      } else {
        r, path := RouteTracked(m, uid, body, seqNo, mode, c, o);
        ack.FollowsTransitive(was, mid, ack.State(), m);
        AdmittedStays(was.hashes, mid.hashes, svc.hashes, m, o.track, known);
        Tracking.IndexedLater(old(svc.index), index, mid.hashes, svc.hashes, uid, m);
        if path.Delivering() {
          KnownAlone(old(svc.Sent()), svc.Sent(), mid.hashes, Tracking.Registered(was.hashes, m, o.track, known),
                     svc.hashes, Message(m, uid, body, seqNo), c, o, r, path);
        }
      }
      svc.EndAttempt(m, token, path.Fallback? && r.Ok?, o.release);
    }

    /** Transient mode: one best-effort push, no storage, no lock. */
    method RouteTransient(c: Context, o: Outcomes) returns (r: Result<(), RouteError>, path: Path)
      modifies svc`tried, svc`acked
      ensures r == if !c.limiter || !c.limiterV2.Allow? then Err(RateLimited) else Ok(())
      ensures path == if r.Err? then Limited else BestEffort
      ensures svc.tried == old(svc.tried) +
              if r.Err? || !hasPusher then []
              else if c.cached.Some? then Real([c.cached.value])
              else if c.online then Real(c.sessions) else []
      ensures svc.acked == old(svc.acked) +
              if r.Err? || !hasPusher then []
              else if c.cached.Some? then Answered([c.cached.value], _ => o.cachedAnswer, true)
              else if c.online then Answered(c.sessions, o.answers, true) else []
    {
      if !c.limiter || !c.limiterV2.Allow? {
        return Err(RateLimited), Limited;
      }
      if c.cached.Some? {
        var _, _ := PushDirect([c.cached.value], _ => o.cachedAnswer);
      } else if c.online {
        var _, _ := PushDirect(c.sessions, o.answers);
      }
      return Ok(()), BestEffort;
    }

    /** Whom a call that returned nil has reached, directly or through the queue. */
    ghost predicate Reaches(was: Traffic, now: Traffic, c: Context, path: Path)
      requires was.acked <= now.acked
    {
      var acked := now.acked[|was.acked|..];
      && (path.CachedPush? ==>
            c.cached.Some? &&
            (Covers(acked, [], c.sessions)
             <==> forall x <- c.sessions :: x.Session? && x.key != "" ==> x == c.cached.value))
      && (path.DirectPush? ==> Covers(acked, [], c.sessions))
      && (path.PartialPush? || (path.Fallback? && c.online && !c.limiterV2.Degrade?) ==>
            |now.queue| == |was.queue| + 1 && Covers(acked, now.queue[|was.queue|].keys, c.sessions))
    }

    /**
     A direct or partial push and an online fallback cover every connection of the user. The cached-route
     shortcut does so exactly when the cached connection is the only reachable one.
     */
    lemma DeliveryReaches(was: Traffic, now: Traffic, known: Hashes, hashes: Hashes, msg: Message, c: Context,
                          o: Outcomes, r: Result<(), RouteError>, path: Path)
      requires Delivers(was, now, known, hashes, msg, c, o, r, path) && r.Ok?
      ensures was.acked <= now.acked && Reaches(was, now, c, path)
    {
      hide Real, Answered, Covers, QueueKeys, Server, Marks, ToOffline, ToSpool;
      var acked := now.acked[|was.acked|..];
      assert acked == Reached(c, o, path);
      if path.CachedPush? {
        OneReached(c.cached.value, c.sessions, o.answers);
      } else if path.Fallback? {
        KeysCover(acked, c.sessions, msg.uid);
      } else {
        PushCovers(c.sessions, o.answers, msg.uid);
        if path.DirectPush? {
          NothingLeft(c, o, path);
        }
      }
    }

    lemma NothingLeft(c: Context, o: Outcomes, path: Path)
      requires Takes(c, o, path) && path.DirectPush? && Clean in o.marks
      ensures Answered(c.sessions, o.answers, false) == []
    {
    }

    function MsgOf(msgId: MsgId, generated: Option<MsgId>): MsgId {
      if msgId != "" then msgId else if generated.Some? then generated.value else ""
    }

    /** An attempt at a message that is not transient, up to and including the lock. */
    method Begin(m: MsgId, o: Outcomes, token: nat) returns (r: Result<bool, RouteError>)
      requires svc.LocksOk() && (m != "" ==> token !in svc.LockOf(m).log)
      modifies svc`locks
      ensures svc.LocksOk() && svc.locks - {m} == old(svc.locks) - {m}
      ensures r.Err? <==> m == "" || !o.lock.Done?
      ensures r.Err? ==> r.error == if m == "" then NoMsgId else LockFailed
      ensures r == Ok(true) ==> token in svc.LockOf(m).log && svc.LockOf(m).log[token].phase.Running?
      ensures r == Ok(false) ==>
              AttemptLock.Live(svc.LockOf(m).lock, svc.LockOf(m).now) && token !in svc.LockOf(m).log
      ensures svc.alone && r.Ok? ==>
              (r == Ok(false) <==> AttemptLock.Live(old(svc.LockOf(m)).lock, old(svc.LockOf(m)).now))
    {
      if m == "" {
        return Err(NoMsgId);
      }
      var lock := svc.AcquireAttemptLock(m, token, o.lock);
      return if lock.Err? then Err(LockFailed) else Ok(lock.value);
    }

    /**
     RouteByUserWithMode. `generated` is the id generator's answer when the caller gave no id, `token`
     names this attempt at the lock.
     */
    method RouteByUserWithMode(msgId: MsgId, uid: int, body: seq<int>, seqNo: int, mode: Mode, c: Context,
                               o: Outcomes, generated: Option<MsgId>, token: nat)
      returns (r: Result<(), RouteError>, path: Path, m: MsgId)
      requires ack.cache.Valid() && svc.LocksOk()
      requires MsgOf(msgId, generated) != "" ==> token !in svc.LockOf(MsgOf(msgId, generated)).log
      modifies svc, ack.cache
      ensures ack.cache.Valid() && ack.Follows(old(ack.State()), ack.State(), m)
      ensures svc.LocksOk() && svc.locks - {m} == old(svc.locks) - {m}
      ensures m == if mode.Transient? || msgId != "" || generated.None? then msgId else generated.value
      // a transient message leaves no trace in storage
      ensures mode.Transient? ==>
              && ack.State() == old(ack.State()) && svc.locks == old(svc.locks) && svc.index == old(svc.index)
              && svc.Sent() == old(svc.Sent()).(tried := svc.tried, acked := svc.acked)
              && (path.Limited? || path.BestEffort?)
              && (r.Ok? <==> c.limiter && c.limiterV2.Allow?)
      // who may not even begin
      ensures path.NotStarted? <==> !mode.Transient? && (m == "" || !o.lock.Done?)
      ensures path.NotStarted? ==> r == Err(if m == "" then NoMsgId else LockFailed)
      ensures path.InProgress? ==> !mode.Transient? && r == Ok(())
      ensures path.InProgress? ==>
              AttemptLock.Live(svc.LockOf(m).lock, svc.LockOf(m).now) && token !in svc.LockOf(m).log
      ensures svc.alone && !mode.Transient? && !path.NotStarted? ==>
              (path.InProgress? <==> AttemptLock.Live(old(svc.LockOf(m)).lock, old(svc.LockOf(m)).now))
      ensures path.NotStarted? || path.InProgress? ==>
              svc.Sent() == old(svc.Sent()) && ack.State() == old(ack.State()) && svc.index == old(svc.index)
      // who begins keeps the lock exactly after a successful full fallback
      ensures !mode.Transient? && !path.NotStarted? && !path.InProgress? ==>
              && token in svc.LockOf(m).log
              && svc.LockOf(m).log[token].phase ==
                 (if path.Fallback? && r.Ok? then AttemptLock.FellBack else AttemptLock.Released)
              && (!(path.Fallback? && r.Ok?) && !o.release.Refused? ==> !AttemptLock.Owns(svc.LockOf(m), token))
      // is refused or not, and is stored or delivered if not
      ensures !mode.Transient? && !path.NotStarted? && !path.InProgress? ==>
              var known := old(ack.Remembered(m, o.track.now));
              && Refusal(old(svc.hashes), svc.hashes, m, o.track, known, path.AlreadyTracked?)
              && Routes(old(svc.Sent()), svc.Sent(), Tracking.Registered(old(svc.hashes), m, o.track, known),
                        svc.hashes, Message(m, uid, body, seqNo), mode, c, o, r, path)
      ensures Tracking.Indexed(old(svc.index), svc.index, svc.hashes, uid, m)
      ensures svc.alone && !mode.Transient? && !path.NotStarted? && !path.InProgress? && !path.AlreadyTracked?
              && m !in old(svc.hashes) && o.track.granted.value > 0 ==>
              svc.index == old(svc.index)[(uid, m) := o.track.granted.value]
    {
      hide Routes, Refusal, AttemptLock.Inv, Real, Tracking.Registered, Tracking.AckHandler.Follows;
      m := if mode.Transient? then msgId else MsgOf(msgId, generated);
      ack.FollowsItself(ack.State(), m);
      if mode.Transient? {
        r, path := RouteTransient(c, o);
        return;
      }
      var begun := Begin(m, o, token);
      if begun.Err? {
        return Err(begun.error), NotStarted, m;
      }
      if !begun.value {
        return Ok(()), InProgress, m;
      }
      r, path := RouteLocked(m, uid, body, seqNo, mode, c, o, token);
      ghost var known := old(ack.Remembered(m, o.track.now));
      ShapeOf(old(svc.Sent()), svc.Sent(), Tracking.Registered(old(svc.hashes), m, o.track, known),
              svc.hashes, Message(m, uid, body, seqNo), mode, c, o, r, path);
    }

    lemma ShapeOf(was: Traffic, now: Traffic, known: Hashes, hashes: Hashes, msg: Message, mode: Mode, c: Context,
                  o: Outcomes, r: Result<(), RouteError>, path: Path)
      requires Routes(was, now, known, hashes, msg, mode, c, o, r, path)
      ensures !path.NotStarted? && !path.InProgress? && !path.BestEffort?
    {
    }

    /**
     RouteByUser: the reliable mode. A nil error means that the message is delivered or on the queue unless
     another attempt held the lock or tracking refused it; without interference these are a live lock, a hash
     the duplicate cache holds, and the failure of a tracking command, before the call.
     */
    method RouteByUser(msgId: MsgId, uid: int, body: seq<int>, seqNo: int, c: Context, o: Outcomes,
                       generated: Option<MsgId>, token: nat)
      returns (r: Result<(), RouteError>, path: Path, m: MsgId)
      requires ack.cache.Valid() && svc.LocksOk()
      requires MsgOf(msgId, generated) != "" ==> token !in svc.LockOf(MsgOf(msgId, generated)).log
      modifies svc, ack.cache
      ensures ack.cache.Valid() && svc.LocksOk() && m == MsgOf(msgId, generated)
      ensures ack.Follows(old(ack.State()), ack.State(), m)
      ensures r.Ok? ==>
              (Delivered(old(svc.Sent()), svc.Sent(), svc.hashes, Message(m, uid, body, seqNo), c)
               <==> Finished(svc.hashes, m) || !(path.InProgress? || path.AlreadyTracked?))
      ensures svc.alone && r.Ok? && !Finished(old(svc.hashes), m) ==>
              (Delivered(old(svc.Sent()), svc.Sent(), svc.hashes, Message(m, uid, body, seqNo), c)
               <==> !AttemptLock.Live(old(svc.LockOf(m)).lock, old(svc.LockOf(m)).now)
                    && !old(ack.Remembered(m, o.track.now))
                    && !Tracking.Refuses(m in old(svc.hashes), m, o.track))
      // a finished message is never sent again
      ensures m in old(svc.hashes) && old(svc.hashes[m]).status in {Status.Delivered, Status.Acked} ==>
              svc.Sent() == old(svc.Sent())
      ensures old(svc.acked) <= svc.acked && (r.Ok? ==> Reaches(old(svc.Sent()), svc.Sent(), c, path))
      ensures r.Err? && (r.error.EnqueueFailed? || r.error.Spooled?) ==> Kept(svc.Sent(), uid, m)
      ensures path.Fallback? && r.Ok? ==>
              token in svc.LockOf(m).log && forall steps, u :: AttemptLock.ShutOut(svc.LockOf(m), steps, token, u)
    {
      hide Refusal, Delivers, Delivered, Reaches, Kept, Tracking.Refuses, AttemptLock.Inv, AttemptLock.ShutOut;
      hide Tracking.Registered, Tracking.AckHandler.Follows;
      r, path, m := RouteByUserWithMode(msgId, uid, body, seqNo, Reliable, c, o, generated, token);
      ghost var was, now, msg := old(svc.Sent()), svc.Sent(), Message(m, uid, body, seqNo);
      ghost var known := old(ack.Remembered(m, o.track.now));
      if !path.NotStarted? && !path.InProgress? && !path.AlreadyTracked? {
        DeliveryFacts(was, now, Tracking.Registered(old(svc.hashes), m, o.track, known), svc.hashes, msg, c, o, r,
                      path);
      } else {
        NothingReached(was, c, path);
      }
      if r.Ok? {
        NothingDelivered(was, svc.hashes, msg, c);
      }
      RefusalFacts(old(svc.hashes), svc.hashes, m, o.track, known, path.AlreadyTracked?);
      forall steps, u | path.Fallback? && r.Ok? ensures AttemptLock.ShutOut(svc.LockOf(m), steps, token, u) {
        AttemptLock.FallbackBlocks(svc.LockOf(m), steps, token, u);
      }
    }

    lemma DeliveryFacts(was: Traffic, now: Traffic, known: Hashes, hashes: Hashes, msg: Message, c: Context,
                        o: Outcomes, r: Result<(), RouteError>, path: Path)
      requires Delivers(was, now, known, hashes, msg, c, o, r, path)
      requires path.Delivering()
      ensures was.acked <= now.acked && (r.Ok? ==> Reaches(was, now, c, path))
      ensures r.Ok? ==> Delivered(was, now, hashes, msg, c)
      ensures r.Err? && (r.error.EnqueueFailed? || r.error.Spooled?) ==> Kept(now, msg.uid, msg.id)
    {
      if r.Ok? {
        QueuedIsAddressed(msg, FallbackSessions(c));
        DeliveryReaches(was, now, known, hashes, msg, c, o, r, path);
      } else if r.error.Spooled? {
        assert now.spool[|was.spool|] == RecordFor(msg.id, msg.uid, Addressees(c, o, path), msg.body, msg.seqNo);
      }
    }

    lemma NothingReached(t: Traffic, c: Context, path: Path)
      requires path.NotStarted? || path.InProgress? || path.AlreadyTracked?
      ensures Reaches(t, t, c, path)
    {
    }

    lemma NothingDelivered(t: Traffic, hashes: Hashes, msg: Message, c: Context)
      ensures Delivered(t, t, hashes, msg, c) <==> Finished(hashes, msg.id)
    {
    }

    /** Alone, an unfinished message is refused exactly when cache or tracking commands say so, and stays unfinished. */
    lemma RefusalFacts(was: Hashes, now: Hashes, m: MsgId, t: Tracking.Outcomes, known: bool, refused: bool)
      ensures Refusal(was, now, m, t, known, refused) && Finished(was, m) ==> refused
      ensures Refusal(was, now, m, t, known, refused) && svc.alone && !Finished(was, m) ==>
              (refused <==> known || Tracking.Refuses(m in was, m, t)) && (refused ==> !Finished(now, m))
    {
    }
  }

  // ---------------------------------------------------------------- inputs at which nil says too much

  const WORKING: Tracking.Outcomes :=
    Tracking.Outcomes(0, true, true, Some(1), Clean, true, Pipeline(3, true), Tracking.Repair(true, Pipeline(3, true)))

  /** Everything works but what the given tracking outcomes say. */
  function Working(t: Tracking.Outcomes): Outcomes {
    Outcomes(AttemptLock.Done, AttemptLock.Done, t, true, _ => true, [Clean, Clean, Clean], 0,
             Writes(Pipeline(2, true), Clean, true))
  }

  method FreshEngine(hash: MsgId -> nat) returns (e: DispatchEngine)
    ensures fresh(e) && fresh(e.svc) && fresh(e.ack.cache) && e.ack.cache.Valid() && e.svc.LocksOk() && e.hasPusher
    ensures e.svc.alone && e.svc.hashes == map[] && e.svc.locks == map[] && e.ack.hash == hash
    ensures e.svc.Sent() == Traffic([], [], [], map[], []) && forall m :: !e.ack.cache.Has(hash(m)) && e.ack.HasRoom(m)
  {
    var ack := Tracking.FreshHandler(hash);
    e := new DispatchEngine(ack, true, "", "", true);
  }

  /** The sequence allocator is down: nil for a new message to a reachable user, and nothing is sent or kept. */
  method NilWithoutDelivery(hash: MsgId -> nat) returns (e: DispatchEngine, r: Result<(), RouteError>)
    ensures r == Ok(()) && e.svc.Sent() == Traffic([], [], [], map[], []) && !Finished(e.svc.hashes, "m")
  {
    e := FreshEngine(hash);
    var c := Context(true, [Session("key", "comet")], None, true, Allow);
    var path, m;
    r, path, m := e.RouteByUserWithMode("m", 7, [1], 1, Reliable, c, Working(WORKING.(granted := None)), None, 0);
  }

  /** A message whose hash is that of one just delivered: everything works, nil, and nothing is sent or kept. */
  method CollisionIsSwallowed(hash: MsgId -> nat, a: MsgId, b: MsgId)
    returns (e: DispatchEngine, r: Result<(), RouteError>)
    requires b != a && b != "" && hash(b) == hash(a)
    ensures r == Ok(()) && e.svc.Sent() == Traffic([], [], [], map[], []) && !Finished(e.svc.hashes, b)
  {
    e := FreshEngine(hash);
    var ok := e.ack.MarkDelivered(a, Clean, 0);
    var phone := Session("key", "comet");
    var c := Context(true, [phone], Some(phone), true, Allow);
    var path, m;
    r, path, m := e.RouteByUserWithMode(b, 7, [1], 1, Reliable, c, Working(WORKING), None, 0);
  }

  /** Two devices, the first one cached, and everything works: the second is neither pushed to nor queued for. */
  method OneOfTwoDevices(hash: MsgId -> nat) returns (e: DispatchEngine, r: Result<(), RouteError>)
    ensures r == Ok(()) && Finished(e.svc.hashes, "m")
    ensures e.svc.tried == e.svc.acked == [Session("phone", "comet")]
    ensures e.svc.queue == [] && e.svc.offline == map[] && e.svc.spool == []
    ensures !Covers(e.svc.acked, [], [Session("phone", "comet"), Session("tablet", "comet")])
  {
    hide Answered, Real, Covers, DispatchEngine.Delivers, DispatchEngine.Refusal, Tracking.AckHandler.Follows;
    hide Tracking.Registered;
    e := FreshEngine(hash);
    var phone, tablet, o := Session("phone", "comet"), Session("tablet", "comet"), Working(WORKING);
    var c := Context(true, [phone, tablet], Some(phone), true, Allow);
    var path, m;
    r, path, m := e.RouteByUserWithMode("m", 7, [1], 1, Reliable, c, o, None, 0);
    NewMessageIsAdmitted(e, e.svc.hashes, m, path.AlreadyTracked?);
    CachedRoute(e, e.svc.Sent(), Tracking.Registered(map[], m, WORKING, false), e.svc.hashes, Message(m, 7, [1], 1),
                c, o, r, path);
    SecondDeviceIsMissed(phone, tablet);
  }

  lemma NewMessageIsAdmitted(e: DispatchEngine, now: Hashes, m: MsgId, refused: bool)
    requires e.svc.alone && e.Refusal(map[], now, m, WORKING, false, refused)
    ensures !refused
  {
  }

  lemma CachedRoute(e: DispatchEngine, now: Traffic, known: Hashes, hashes: Hashes, msg: Message, c: Context,
                    o: Outcomes, r: Result<(), RouteError>, path: Path)
    requires e.Delivers(Traffic([], [], [], map[], []), now, known, hashes, msg, c, o, r, path)
    requires e.hasPusher && c.limiter && c.limiterV2.Allow? && c.cached.Some? && c.cached.value.Session?
    requires o.cachedAnswer && o.marks == [Clean, Clean, Clean]
    ensures r == Ok(()) && Finished(hashes, msg.id) && now.tried == now.acked == [c.cached.value]
    ensures now.queue == [] && now.offline == map[] && now.spool == []
    ensures e.svc.alone ==> hashes == WithStatus(known, msg.id, Status.Delivered)
  {
    OneSession(c.cached.value, o.answers);
    assert Clean in o.marks;
  }

  lemma SecondDeviceIsMissed(a: Session, b: Session)
    requires a != b && b.Session? && b.key != ""
    ensures !Covers([a], [], [a, b])
  {
    assert b in [a, b];
  }
}
