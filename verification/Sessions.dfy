/**
 User sessions (internal/logic/service/session.go) over the four Redis indices (internal/logic/dao/redis.go),
 the local read cache and the online-router cache (internal/logic/service/online_router.go), as one Logic
 instance uses them without faults and without expiry in Redis.
 */
module Sessions {
  import opened Common

  type Sid = string

  datatype Session = Session(sid: Sid, uid: int, key: string, deviceId: string, platform: string, server: string)

  /** session:{sid}, user_sessions:{uid}, device_session:{uid}:{device} and key_sid:{key}. */
  datatype Redis = Redis(
    sessions: map<Sid, Session>,
    userSessions: map<int, set<Sid>>,
    deviceSession: map<(int, string), Sid>,
    keySid: map<string, Sid>)
  {
    function Of(uid: int): set<Sid> {
      if uid in userSessions then userSessions[uid] else {}
    }

    /** What GetSessions should list. */
    ghost predicate LiveOf(uid: int, sid: Sid) {
      sid in sessions && sessions[sid].uid == uid
    }
  }

  ghost predicate Named(r: Redis) {
    forall sid <- r.sessions :: sid != "" && r.sessions[sid].sid == sid
  }

  ghost predicate ByUser(r: Redis) {
    forall uid, sid :: sid in r.Of(uid) <==> r.LiveOf(uid, sid)
  }

  ghost predicate ByDevice(r: Redis) {
    && (forall sid <- r.sessions :: var s := r.sessions[sid];
          (s.uid, s.deviceId) in r.deviceSession && r.deviceSession[(s.uid, s.deviceId)] == sid)
    && (forall d <- r.deviceSession :: var sid := r.deviceSession[d];
          sid in r.sessions && (r.sessions[sid].uid, r.sessions[sid].deviceId) == d)
  }

  ghost predicate ByKey(r: Redis) {
    && (forall sid <- r.sessions :: var s := r.sessions[sid]; s.key in r.keySid && r.keySid[s.key] == sid)
    && (forall k <- r.keySid :: var sid := r.keySid[k]; sid in r.sessions && r.sessions[sid].key == k)
  }

  /** The four indices describe the same sessions: in particular one per device, and one per key. */
  ghost predicate Agree(r: Redis) {
    Named(r) && ByUser(r) && ByDevice(r) && ByKey(r)
  }

  lemma OneSessionPerDevice(r: Redis, a: Sid, b: Sid)
    requires Agree(r) && a in r.sessions && b in r.sessions
    ensures r.sessions[a].uid == r.sessions[b].uid && r.sessions[a].deviceId == r.sessions[b].deviceId ==> a == b
    ensures r.sessions[a].key == r.sessions[b].key ==> a == b
  {
  }

  function Added(r: Redis, s: Session): Redis {
    Redis(r.sessions[s.sid := s], r.userSessions[s.uid := r.Of(s.uid) + {s.sid}],
          r.deviceSession[(s.uid, s.deviceId) := s.sid], r.keySid[s.key := s.sid])
  }

  function Deleted(r: Redis, sid: Sid, uid: int, deviceId: string, key: string): Redis {
    Redis(r.sessions - {sid}, if uid > 0 then r.userSessions[uid := r.Of(uid) - {sid}] else r.userSessions,
          if deviceId != "" then r.deviceSession - {(uid, deviceId)} else r.deviceSession,
          if key != "" then r.keySid - {key} else r.keySid)
  }

  ghost predicate SameConnection(a: Session, b: Session) {
    a.uid == b.uid && a.deviceId == b.deviceId && a.key == b.key
  }

  /** Nothing is displaced: the same connection again, or a new one with its key and device free. */
  ghost predicate Fits(r: Redis, s: Session) {
    if s.sid in r.sessions then SameConnection(r.sessions[s.sid], s)
    else s.key !in r.keySid && (s.uid, s.deviceId) !in r.deviceSession
  }

  lemma AddedByUser(r: Redis, s: Session)
    requires ByUser(r) && (s.sid in r.sessions ==> r.sessions[s.sid].uid == s.uid)
    ensures ByUser(Added(r, s))
  {
    var r' := Added(r, s);
    forall uid, sid ensures sid in r'.Of(uid) <==> r'.LiveOf(uid, sid) {
      assert sid in r.Of(uid) <==> r.LiveOf(uid, sid);
    }
  }

  lemma AddedByDevice(r: Redis, s: Session)
    requires ByDevice(r) && Fits(r, s)
    ensures ByDevice(Added(r, s))
  {
    var r', d := Added(r, s), (s.uid, s.deviceId);
    forall sid | sid in r'.sessions && sid != s.sid ensures (r'.sessions[sid].uid, r'.sessions[sid].deviceId) != d {
      assert sid in r.sessions;
    }
  }

  lemma AddedByKey(r: Redis, s: Session)
    requires ByKey(r) && Fits(r, s)
    ensures ByKey(Added(r, s))
  {
    var r' := Added(r, s);
    forall sid | sid in r'.sessions && sid != s.sid ensures r'.sessions[sid].key != s.key {
      assert sid in r.sessions;
    }
  }

  lemma AddedAgrees(r: Redis, s: Session)
    requires Agree(r) && s.sid != "" && Fits(r, s)
    ensures Agree(Added(r, s))
  {
    hide ByUser, ByDevice, ByKey;
    AddedByUser(r, s);
    AddedByDevice(r, s);
    AddedByKey(r, s);
  }

  /** A session that displaces another connection leaves an index that contradicts it. */
  lemma AddedDisagrees(r: Redis, s: Session)
    requires Agree(r) && s.sid != "" && !Fits(r, s)
    ensures !Agree(Added(r, s))
  {
    var r' := Added(r, s);
    if s.sid in r.sessions {
      OverwrittenDisagrees(r, r', s);
    } else if s.key in r.keySid {
      var other := r.keySid[s.key];
      assert other in r'.sessions && r'.sessions[other].key == s.key && r'.keySid[s.key] == s.sid != other;
    } else {
      var other := r.deviceSession[(s.uid, s.deviceId)];
      assert other in r'.sessions && r'.deviceSession[(s.uid, s.deviceId)] == s.sid != other;
      assert (r'.sessions[other].uid, r'.sessions[other].deviceId) == (s.uid, s.deviceId);
    }
  }

  /** Overwriting a session with another connection: its own old entries give it away. */
  lemma OverwrittenDisagrees(r: Redis, r': Redis, s: Session)
    requires Agree(r) && s.sid in r.sessions && !SameConnection(r.sessions[s.sid], s)
    requires s.sid in r'.sessions && r'.sessions[s.sid] == s
    requires var was := r.sessions[s.sid];
             && (was.uid != s.uid ==> r'.Of(was.uid) == r.Of(was.uid))
             && ((was.uid, was.deviceId) != (s.uid, s.deviceId) ==>
                   (was.uid, was.deviceId) in r'.deviceSession && r'.deviceSession[(was.uid, was.deviceId)] == s.sid)
             && (was.key != s.key ==> was.key in r'.keySid && r'.keySid[was.key] == s.sid)
    ensures !Agree(r')
  {
    var was := r.sessions[s.sid];
    if was.uid != s.uid {
      assert r.LiveOf(was.uid, s.sid) && !r'.LiveOf(was.uid, s.sid);
      assert s.sid in r.Of(was.uid);
    } else if was.deviceId != s.deviceId {
      assert (was.uid, was.deviceId) in r'.deviceSession;
    } else {
      assert was.key in r'.keySid;
    }
  }

  /** DelSession clears an index only for a positive user, a device and a key. */
  ghost predicate Deletable(s: Session) {
    s.uid > 0 && s.deviceId != "" && s.key != ""
  }

  lemma DeletedByUser(r: Redis, s: Session)
    requires Named(r) && ByUser(r) && s.sid in r.sessions && r.sessions[s.sid] == s && s.uid > 0
    ensures Named(Deleted(r, s.sid, s.uid, s.deviceId, s.key)) && ByUser(Deleted(r, s.sid, s.uid, s.deviceId, s.key))
  {
    var r' := Deleted(r, s.sid, s.uid, s.deviceId, s.key);
    forall uid, sid ensures sid in r'.Of(uid) <==> r'.LiveOf(uid, sid) {
      assert sid in r.Of(uid) <==> r.LiveOf(uid, sid);
      assert r.LiveOf(uid, s.sid) ==> uid == s.uid;
    }
  }

  lemma DeletedByDevice(r: Redis, s: Session)
    requires Named(r) && ByDevice(r) && s.sid in r.sessions && r.sessions[s.sid] == s && s.deviceId != ""
    ensures ByDevice(Deleted(r, s.sid, s.uid, s.deviceId, s.key))
  {
  }

  lemma DeletedByKey(r: Redis, s: Session)
    requires Named(r) && ByKey(r) && s.sid in r.sessions && r.sessions[s.sid] == s && s.key != ""
    ensures ByKey(Deleted(r, s.sid, s.uid, s.deviceId, s.key))
  {
  }

  /** Deleting a session with its own details keeps the indices together exactly if every index is cleared. */
  lemma DeletedAgrees(r: Redis, s: Session)
    requires Agree(r) && s.sid in r.sessions && r.sessions[s.sid] == s
    ensures Agree(Deleted(r, s.sid, s.uid, s.deviceId, s.key)) <==> Deletable(s)
  {
    if Deletable(s) {
      hide ByUser, ByDevice, ByKey;
      DeletedByUser(r, s);
      DeletedByDevice(r, s);
      DeletedByKey(r, s);
    } else {
      LeftBehind(r, s);
    }
  }

  lemma LeftBehind(r: Redis, s: Session)
    requires Agree(r) && s.sid in r.sessions && r.sessions[s.sid] == s && !Deletable(s)
    ensures !Agree(Deleted(r, s.sid, s.uid, s.deviceId, s.key))
  {
    var r' := Deleted(r, s.sid, s.uid, s.deviceId, s.key);
    if s.uid <= 0 {
      assert r.LiveOf(s.uid, s.sid) && !r'.LiveOf(s.uid, s.sid) && s.sid in r'.Of(s.uid);
    } else if s.deviceId == "" {
      assert (s.uid, s.deviceId) in r'.deviceSession;
    } else {
      assert s.key in r'.keySid;
    }
  }

  /** Deleting it in another user's name does not: the owner still lists it. */
  lemma DeletedDisagrees(r: Redis, s: Session, uid: int)
    requires Agree(r) && s.sid in r.sessions && r.sessions[s.sid] == s && uid != s.uid
    ensures !Agree(Deleted(r, s.sid, uid, s.deviceId, s.key))
  {
    var r' := Deleted(r, s.sid, uid, s.deviceId, s.key);
    assert r.LiveOf(s.uid, s.sid) && !r'.LiveOf(s.uid, s.sid);
    assert s.sid in r'.Of(s.uid);
  }

  /** The session Create kicks for a connection. */
  function Displaced(r: Redis, s: Session): Option<Sid> {
    var d := (s.uid, s.deviceId);
    if d in r.deviceSession && r.deviceSession[d] != s.sid && r.deviceSession[d] != "" then Some(r.deviceSession[d])
    else None
  }

  function AfterKick(r: Redis, s: Session): Redis {
    match Displaced(r, s)
    case None => r
    case Some(sid) =>
      Deleted(r, sid, s.uid, s.deviceId, if sid in r.sessions then r.sessions[sid].key else "")
  }

  /**
   A connection with an id may be written: the same one again; or a new one whose key is free, or about to be, and
   whose device has no session, or one that can be kicked without leaving entries behind that the new one
   does not overwrite.
   */
  ghost predicate Admissible(r: Redis, s: Session) {
    s.sid != "" &&
    match Displaced(r, s)
    case None => Fits(r, s)
    case Some(sid) =>
      && s.sid !in r.sessions && s.uid > 0
      && (s.key in r.keySid ==> r.keySid[s.key] == sid)
      && (sid in r.sessions && r.sessions[sid].key == "" ==> s.key == "")
  }

  /** The indices without a session: nothing about it is left. */
  ghost function Without(r: Redis, s: Session): Redis {
    Redis(r.sessions - {s.sid}, r.userSessions[s.uid := r.Of(s.uid) - {s.sid}],
          r.deviceSession - {(s.uid, s.deviceId)}, r.keySid - {s.key})
  }

  lemma WithoutAgrees(r: Redis, s: Session)
    requires Agree(r) && s.sid in r.sessions && r.sessions[s.sid] == s
    ensures Agree(Without(r, s))
  {
    var r' := Without(r, s);
    assert ByUser(r') by {
      hide ByDevice, ByKey;
      forall uid, sid ensures sid in r'.Of(uid) <==> r'.LiveOf(uid, sid) {
        assert sid in r.Of(uid) <==> r.LiveOf(uid, sid);
        assert r.LiveOf(uid, s.sid) ==> uid == s.uid;
      }
    }
    assert ByDevice(r') by {
      hide ByUser, ByKey;
    }
    assert ByKey(r') by {
      hide ByUser, ByDevice;
    }
    hide ByUser, ByDevice, ByKey;
  }

  /** What the kick of an admissible connection leaves behind, the new session overwrites. */
  lemma KickedAndOverwritten(r: Redis, s: Session, was: Session)
    requires Named(r) && ByDevice(r) && ByKey(r) && Admissible(r, s) && Displaced(r, s) == Some(was.sid)
    requires was.sid in r.sessions && r.sessions[was.sid] == was
    ensures Fits(Without(r, was), s) && Added(AfterKick(r, s), s) == Added(Without(r, was), s)
  {
    assert was.uid == s.uid && was.deviceId == s.deviceId;
    assert (r.deviceSession - {(s.uid, s.deviceId)})[(s.uid, s.deviceId) := s.sid]
        == r.deviceSession[(s.uid, s.deviceId) := s.sid];
  }

  /** Kick and write together. */
  lemma CreatedAgrees(r: Redis, s: Session)
    requires Agree(r) && Admissible(r, s)
    ensures Agree(Added(AfterKick(r, s), s))
  {
    if Displaced(r, s).Some? {
      var was := r.sessions[Displaced(r, s).value];
      hide Without, Admissible, Fits, ByUser, ByKey, Added, AfterKick;
      WithoutAgrees(r, was);
      KickedAndOverwritten(r, s, was);
      AddedAgrees(Without(r, was), s);
    } else {
      AddedAgrees(r, s);
    }
  }

  lemma CreatedDisagrees(r: Redis, s: Session)
    requires Agree(r) && !Admissible(r, s)
    ensures !Agree(Added(AfterKick(r, s), s))
  {
    if s.sid == "" {
      assert s.sid in Added(AfterKick(r, s), s).sessions;
    } else if Displaced(r, s).Some? {
      var kicked := Displaced(r, s).value;
      var was := r.sessions[kicked];
      var r' := Added(AfterKick(r, s), s);
      if s.sid in r.sessions {
        OverwrittenDisagrees(r, r', s);
      } else if s.uid <= 0 {
        assert r.LiveOf(was.uid, kicked) && !r'.LiveOf(was.uid, kicked) && kicked in r'.Of(was.uid);
      } else if s.key in r.keySid && r.keySid[s.key] != kicked {
        var other := r.keySid[s.key];
        assert other in r'.sessions && r'.sessions[other].key == s.key && r'.keySid[s.key] == s.sid != other;
      } else {
        assert "" in r'.keySid && r'.keySid[""] == kicked;
      }
    } else {
      AddedDisagrees(r, s);
    }
  }

  /** Redis as the DAO uses it. */
  class SessionStore {
    var sessions: map<Sid, Session>
    var userSessions: map<int, set<Sid>>
    var deviceSession: map<(int, string), Sid>
    var keySid: map<string, Sid>

    function Db(): Redis
      reads this
    {
      Redis(sessions, userSessions, deviceSession, keySid)
    }

    constructor ()
      ensures Db() == Redis(map[], map[], map[], map[])
    {
      sessions, userSessions, deviceSession, keySid := map[], map[], map[], map[];
    }

    method AddSession(s: Session)
      modifies this
      ensures Db() == Added(old(Db()), s)
      ensures sessions == old(sessions)[s.sid := s] && keySid == old(keySid)[s.key := s.sid]
      ensures deviceSession == old(deviceSession)[(s.uid, s.deviceId) := s.sid]
      ensures userSessions.Keys == old(userSessions).Keys + {s.uid}
      ensures forall u <- userSessions, sid ::
        sid in userSessions[u] <==>
          (u in old(userSessions) && sid in old(userSessions)[u]) || (u == s.uid && sid == s.sid)
    {
      sessions := sessions[s.sid := s];
      userSessions := userSessions[s.uid := (if s.uid in userSessions then userSessions[s.uid] else {}) + {s.sid}];
      deviceSession := deviceSession[(s.uid, s.deviceId) := s.sid];
      keySid := keySid[s.key := s.sid];
    }

    method DelSession(sid: Sid, uid: int, deviceId: string, key: string)
      modifies this
      ensures Db() == Deleted(old(Db()), sid, uid, deviceId, key)
      ensures sessions == old(sessions) - {sid}
      ensures deviceSession == if deviceId == "" then old(deviceSession) else old(deviceSession) - {(uid, deviceId)}
      ensures keySid == if key == "" then old(keySid) else old(keySid) - {key}
      ensures userSessions.Keys == old(userSessions).Keys + if uid > 0 then {uid} else {}
      ensures forall u <- userSessions, x ::
        x in userSessions[u] <==> u in old(userSessions) && x in old(userSessions)[u] && !(u == uid > 0 && x == sid)
    {
      sessions := sessions - {sid};
      if uid > 0 {
        userSessions := userSessions[uid := (if uid in userSessions then userSessions[uid] else {}) - {sid}];
      }
      if deviceId != "" {
        deviceSession := deviceSession - {(uid, deviceId)};
      }
      if key != "" {
        keySid := keySid - {key};
      }
    }
  }

  datatype Node = Node(uid: int, key: string, server: string, updatedAt: int)

  const ROUTER_TTL: int := 600_000
  const CACHE_TTL: int := 60_000

  class OnlineRouter {
    var nodes: map<int, Node>

    constructor ()
      ensures nodes == map[]
    {
      nodes := map[];
    }

    method Set(uid: int, key: string, server: string, now: int)
      modifies this
      ensures nodes == if uid <= 0 || key == "" || server == "" then old(nodes)
        else old(nodes)[uid := Node(uid, key, server, now)]
    {
      if uid <= 0 || key == "" || server == "" {
        return;
      }
      nodes := nodes[uid := Node(uid, key, server, now)];
    }

    /** An expired entry is dropped, and never returned. */
    method Get(uid: int, now: int) returns (n: Option<Node>)
      modifies this
      ensures n.Some? <==> uid > 0 && uid in old(nodes) && now - old(nodes)[uid].updatedAt <= 600_000
      ensures n.Some? ==> n.value == old(nodes)[uid]
      ensures nodes == if n.None? && uid > 0 then old(nodes) - {uid} else old(nodes)
    {
      if uid <= 0 || uid !in nodes {
        return None;
      }
      if !(now - nodes[uid].updatedAt > ROUTER_TTL) {
        return Some(nodes[uid]);
      }
      nodes := nodes - {uid};
      return None;
    }

    method Delete(uid: int)
      modifies this
      ensures nodes == if uid <= 0 then old(nodes) else old(nodes) - {uid}
    {
      if uid > 0 {
        nodes := nodes - {uid};
      }
    }
  }

  datatype Cached = Cached(sessions: seq<Session>, at: int)

  /** A list of exactly the live sessions of a user, each once, but for those still to be looked up. */
  ghost predicate ListsBut(list: seq<Session>, r: Redis, uid: int, rest: set<Sid>) {
    && (forall s <- list :: r.LiveOf(uid, s.sid) && r.sessions[s.sid] == s && s.sid !in rest)
    && (forall sid :: r.LiveOf(uid, sid) && sid !in rest ==> r.sessions[sid] in list)
    && (forall i, j :: 0 <= i < j < |list| ==> list[i] != list[j])
  }

  ghost predicate Lists(list: seq<Session>, r: Redis, uid: int) {
    ListsBut(list, r, uid, {})
  }

  lemma ListOneMore(list: seq<Session>, r: Redis, uid: int, rest: set<Sid>, sid: Sid)
    requires ListsBut(list, r, uid, rest) && sid in rest && r.LiveOf(uid, sid) && r.sessions[sid].sid == sid
    ensures ListsBut(list + [r.sessions[sid]], r, uid, rest - {sid})
  {
  }

  ghost predicate CacheAgrees(local: map<int, Cached>, r: Redis) {
    forall uid <- local :: local[uid].sessions != [] ==> Lists(local[uid].sessions, r, uid)
  }

  ghost predicate Routable(s: Session) {
    s.key != "" && s.server != ""
  }

  ghost predicate HasRoute(r: Redis, uid: int) {
    exists sid :: r.LiveOf(uid, sid) && Routable(r.sessions[sid])
  }

  ghost predicate RouteLives(n: Node, r: Redis) {
    && n.uid > 0 && n.key != "" && n.server != ""
    && exists sid :: r.LiveOf(n.uid, sid) && r.sessions[sid].key == n.key && r.sessions[sid].server == n.server
  }

  ghost predicate RoutesLive(nodes: map<int, Node>, r: Redis) {
    forall uid <- nodes :: nodes[uid].uid == uid && RouteLives(nodes[uid], r)
  }

  /** The two states differ in one user's sessions at most. */
  ghost predicate SameForOthers(r: Redis, r': Redis, uid: int) {
    forall sid, u :: u != uid ==>
      (r.LiveOf(u, sid) <==> r'.LiveOf(u, sid)) && (r.LiveOf(u, sid) ==> r.sessions[sid] == r'.sessions[sid])
  }

  lemma CachesOfOthers(local: map<int, Cached>, nodes: map<int, Node>, r: Redis, r': Redis, uid: int)
    requires SameForOthers(r, r', uid)
    ensures CacheAgrees(local, r) ==> CacheAgrees(local - {uid}, r')
    ensures RoutesLive(nodes, r) ==> RoutesLive(nodes - {uid}, r')
  {
    forall u | u in local && u != uid && Lists(local[u].sessions, r, u) ensures Lists(local[u].sessions, r', u) {
    }
    forall u | u in nodes && u != uid && nodes[u].uid == u && RouteLives(nodes[u], r) ensures RouteLives(nodes[u], r') {
      var sid :| r.LiveOf(u, sid) && r.sessions[sid].key == nodes[u].key && r.sessions[sid].server == nodes[u].server;
      assert r'.LiveOf(u, sid);
    }
  }

  lemma NothingListed(r: Redis, uid: int)
    requires ByUser(r)
    ensures ListsBut([], r, uid, r.Of(uid))
  {
  }

  lemma RouteSet(nodes: map<int, Node>, n: Node, r: Redis)
    requires RoutesLive(nodes - {n.uid}, r) && RouteLives(n, r)
    ensures RoutesLive(nodes[n.uid := n], r)
  {
    forall uid | uid in nodes && uid != n.uid ensures nodes[uid].uid == uid && RouteLives(nodes[uid], r) {
      assert uid in nodes - {n.uid};
    }
  }

  lemma Reachable(list: seq<Session>, r: Redis, n: Node, i: nat)
    requires Lists(list, r, n.uid) && n.uid > 0
    requires i < |list| && Routable(list[i]) && list[i].key == n.key && list[i].server == n.server
    ensures RouteLives(n, r) && HasRoute(r, n.uid)
  {
    assert list[i] in list && r.LiveOf(n.uid, list[i].sid);
  }

  lemma Unreachable(list: seq<Session>, r: Redis, uid: int)
    requires Lists(list, r, uid) && forall j :: 0 <= j < |list| ==> !Routable(list[j])
    ensures !HasRoute(r, uid)
  {
  }

  ghost predicate SameConnectionAgain(r: Redis, s: Session) {
    s.sid in r.sessions && SameConnection(r.sessions[s.sid], s)
  }

  lemma OthersKept(r: Redis, s: Session)
    requires s.sid in r.sessions ==> SameConnectionAgain(r, s)
    ensures SameForOthers(r, Added(r, s), s.uid)
  {
  }

  /** A connection written again without a server makes a cached route that shows it stale, and nothing else does. */
  lemma RouteKept(nodes: map<int, Node>, r: Redis, s: Session)
    requires RoutesLive(nodes, r) && RoutesLive(nodes - {s.uid}, Added(r, s)) && !(s.uid > 0 && Routable(s))
    requires s.sid in r.sessions ==> SameConnectionAgain(r, s)
    requires ByKey(Added(r, s))
    ensures RoutesLive(nodes, Added(r, s)) <==>
      !(s.sid in r.sessions && s.server == "" && s.uid in nodes && nodes[s.uid].key == s.key)
  {
    var r' := Added(r, s);
    if s.uid in nodes {
      var n := nodes[s.uid];
      var sid :| r.LiveOf(n.uid, sid) && r.sessions[sid].key == n.key && r.sessions[sid].server == n.server;
      if sid != s.sid {
        assert r'.LiveOf(n.uid, sid);
      }
      forall u | u in nodes && u != s.uid ensures nodes[u].uid == u && RouteLives(nodes[u], r') {
        assert u in nodes - {s.uid};
      }
    } else {
      assert nodes - {s.uid} == nodes;
    }
  }

  lemma RouteOfAdded(r: Redis, s: Session, n: Node)
    requires n.uid == s.uid > 0 && Routable(s) && n.key == s.key && n.server == s.server
    ensures RouteLives(n, Added(r, s))
  {
    assert Added(r, s).LiveOf(s.uid, s.sid);
  }

  /** Setting or dropping an entry leaves the others alone. */
  lemma Elsewhere<V>(a: map<int, V>, b: map<int, V>, uid: int, v: V)
    requires a - {uid} == b - {uid}
    ensures (a - {uid}) - {uid} == b - {uid} && a[uid := v] - {uid} == b - {uid}
  {
    assert a[uid := v] - {uid} == a - {uid};
  }

  datatype Notice = Notice(server: string, key: string)

  ghost predicate Owns(uid: int, deviceId: string, s: Session) {
    s.uid == uid && s.deviceId == deviceId
  }

  /** Redis lists for every user exactly the sessions that exist. */
  ghost predicate Listable(r: Redis) {
    Named(r) && ByUser(r)
  }

  class SessionManager {
    const dao: SessionStore
    const onlineRouter: OnlineRouter
    var local: map<int, Cached>
    /** The connections Comet was asked to close. */
    var kicked: seq<Notice>

    constructor (dao: SessionStore, onlineRouter: OnlineRouter)
      ensures this.dao == dao && this.onlineRouter == onlineRouter && local == map[] && kicked == []
    {
      this.dao, this.onlineRouter, local, kicked := dao, onlineRouter, map[], [];
    }

    /** The indices agree, the cache is what Redis would answer, and every cached route is a live session's. */
    ghost predicate Valid()
      reads this, dao, onlineRouter
    {
      Agree(dao.Db()) && CachesRight()
    }

    ghost predicate CachesRight()
      reads this, dao, onlineRouter
    {
      CacheAgrees(local, dao.Db()) && RoutesLive(onlineRouter.nodes, dao.Db())
    }

    /** As it is right after a deletion: the user's own cache entry is gone, its route about to be replaced. */
    ghost predicate Refreshable(uid: int)
      reads this, dao, onlineRouter
    {
      && uid > 0 && Listable(dao.Db())
      && CacheAgrees(local, dao.Db()) && RoutesLive(onlineRouter.nodes - {uid}, dao.Db())
    }

    method GetSession(sid: Sid) returns (s: Option<Session>)
      ensures s == if sid in dao.sessions then Some(dao.sessions[sid]) else None
    {
      s := if sid in dao.sessions then Some(dao.sessions[sid]) else None;
    }

    /** The sessions Redis lists for a user, looked up one by one. */
    method Fetch(uid: int) returns (list: seq<Session>)
      ensures Listable(dao.Db()) ==> Lists(list, dao.Db(), uid)
    {
      hide ListsBut;
      ghost var r := dao.Db();
      var sidMap := if uid in dao.userSessions then dao.userSessions[uid] else {};
      list := [];
      if Listable(r) {
        NothingListed(r, uid);
      }
      while sidMap != {}
        invariant sidMap <= r.Of(uid)
        invariant Listable(r) ==> ListsBut(list, r, uid, sidMap)
        decreases |sidMap|
      {
        var sid :| sid in sidMap;
        var s := GetSession(sid);
        if Listable(r) {
          assert r.LiveOf(uid, sid);
          ListOneMore(list, r, uid, sidMap, sid);
        }
        if s.Some? {
          list := list + [s.value];
        }
        sidMap := sidMap - {sid};
      }
    }

    /** Cached or fetched, the list is what Redis holds; what is fetched is cached. */
    method GetSessions(uid: int, now: int) returns (list: seq<Session>)
      modifies `local
      ensures Listable(dao.Db()) && old(CacheAgrees(local, dao.Db())) ==>
        CacheAgrees(local, dao.Db()) && Lists(list, dao.Db(), uid)
      ensures local == old(local)[uid := Cached(list, now)] || (local == old(local) && uid in local)
      ensures local == old(local) && uid in local ==>
        local[uid].sessions == list && (local[uid].at == now || (list != [] && now - local[uid].at < 60_000))
    {
      hide Listable, Lists;
      if uid in local {
        var c := local[uid];
        if |c.sessions| > 0 && now - c.at < CACHE_TTL {
          return c.sessions;
        }
      }
      list := Fetch(uid);
      local := local[uid := Cached(list, now)];
    }

    /** Online means a live session in Redis, cached or not. */
    method IsOnline(uid: int, now: int) returns (online: bool, list: seq<Session>)
      requires Valid()
      modifies `local
      ensures Valid() && local - {uid} == old(local) - {uid}
      ensures online <==> exists sid :: dao.Db().LiveOf(uid, sid)
      ensures Lists(list, dao.Db(), uid)
    {
      hide ByUser, ByDevice, ByKey, CacheAgrees, RoutesLive;
      list := GetSessions(uid, now);
      if |list| == 0 {
        return false, [];
      }
      assert list[0] in list && dao.Db().LiveOf(uid, list[0].sid);
      return true, list;
    }

    /** The user's route becomes one of its remaining sessions that can be reached, or disappears. */
    method RefreshOnlineRouterAfterDelete(uid: int, now: int)
      modifies `local, onlineRouter
      ensures onlineRouter.nodes - {uid} == old(onlineRouter.nodes) - {uid} && local - {uid} == old(local) - {uid}
      ensures uid <= 0 ==> onlineRouter.nodes == old(onlineRouter.nodes) && local == old(local)
      ensures uid > 0 && uid !in old(local) ==> uid in local && local[uid].at == now
      ensures old(Refreshable(uid)) ==> CachesRight()
      ensures old(Refreshable(uid)) ==> (uid in onlineRouter.nodes <==> HasRoute(dao.Db(), uid))
      ensures old(Refreshable(uid)) && uid in onlineRouter.nodes ==> onlineRouter.nodes[uid].updatedAt == now
    {
      hide Listable, CacheAgrees, RoutesLive, Lists;
      if uid <= 0 {
        return;
      }
      var list := GetSessions(uid, now);
      var i := 0;
      while i < |list|
        invariant 0 <= i <= |list| && onlineRouter.nodes == old(onlineRouter.nodes)
        invariant forall j :: 0 <= j < i ==> !Routable(list[j])
      {
        var s := list[i];
        if s.key != "" && s.server != "" {
          onlineRouter.Set(uid, s.key, s.server, now);
          if old(Refreshable(uid)) {
            Reachable(list, dao.Db(), Node(uid, s.key, s.server, now), i);
            RouteSet(old(onlineRouter.nodes), Node(uid, s.key, s.server, now), dao.Db());
          }
          return;
        }
        i := i + 1;
      }
      onlineRouter.Delete(uid);
      if old(Refreshable(uid)) {
        Unreachable(list, dao.Db(), uid);
      }
    }

    /**
     Removes a session everywhere and tells its Comet to close the connection. In its owner's name the user's
     cache entry and route are fresh afterwards, and the indices agree if each of them could be cleared.
     */
    method Kick(sid: Sid, uid: int, deviceId: string, now: int)
      requires Valid()
      modifies this, dao, onlineRouter
      ensures dao.Db() == Deleted(old(dao.Db()), sid, uid, deviceId,
        if sid in old(dao.sessions) then old(dao.sessions)[sid].key else "")
      ensures kicked == old(kicked) +
        if sid in old(dao.sessions) && Routable(old(dao.sessions)[sid])
        then [Notice(old(dao.sessions)[sid].server, old(dao.sessions)[sid].key)] else []
      ensures onlineRouter.nodes - {uid} == old(onlineRouter.nodes) - {uid} && local - {uid} == old(local) - {uid}
      ensures if uid > 0 then uid in local && local[uid].at == now else uid !in local
      ensures uid > 0 && sid in old(dao.sessions) && Owns(uid, deviceId, old(dao.sessions)[sid]) ==>
        CachesRight() && (uid in onlineRouter.nodes <==> HasRoute(dao.Db(), uid))
    {
      hide ByUser, ByDevice, ByKey, CacheAgrees, RoutesLive, HasRoute;
      ghost var r, nodes := dao.Db(), onlineRouter.nodes;
      var s := GetSession(sid);
      var key := if s.Some? then s.value.key else "";
      dao.DelSession(sid, uid, deviceId, key);
      if uid > 0 && s.Some? && Owns(uid, deviceId, s.value) {
        DeletedByUser(r, s.value);
        CachesOfOthers(local, nodes, r, dao.Db(), uid);
      }
      local := local - {uid};
      RefreshOnlineRouterAfterDelete(uid, now);
      if s.Some? && s.value.server != "" && s.value.key != "" {
        kicked := kicked + [Notice(s.value.server, s.value.key)];
      }
    }

    /**
     A client leaves: the invariant is kept exactly when the key is unknown, or belongs to that user and the
     session can be deleted from every index.
     */
    method Disconnect(uid: int, key: string, server: string, now: int)
      requires Valid()
      modifies this, dao, onlineRouter
      ensures Valid() <==>
        key !in old(dao.keySid) ||
        (var s := old(dao.sessions)[old(dao.keySid)[key]]; s.uid == uid && Deletable(s))
      ensures onlineRouter.nodes - {uid} == old(onlineRouter.nodes) - {uid} && local - {uid} == old(local) - {uid}
      ensures key !in old(dao.keySid) ==>
        dao.Db() == old(dao.Db()) && kicked == old(kicked)
        && onlineRouter.nodes == old(onlineRouter.nodes) && local == old(local)
      ensures key in old(dao.keySid) ==>
        var s := old(dao.sessions)[old(dao.keySid)[key]];
        dao.Db() == Deleted(old(dao.Db()), s.sid, uid, s.deviceId, key)
        && kicked == old(kicked) + if Routable(s) then [Notice(s.server, key)] else []
    {
      hide ByUser, ByDevice, CacheAgrees, RoutesLive;
      if key !in dao.keySid {
        return;
      }
      var sid := dao.keySid[key];
      var s := GetSession(sid);
      var deviceId := if s.Some? then s.value.deviceId else "";
      if s.value.uid != uid {
        DeletedDisagrees(dao.Db(), s.value, uid);
      } else {
        DeletedAgrees(dao.Db(), s.value);
      }
      Kick(sid, uid, deviceId, now);
    }

    /** The cached route shows this very connection, which is written again without a server. */
    ghost predicate RouteGoesStale(s: Session)
      reads dao, onlineRouter
    {
      s.sid in dao.sessions && s.server == "" && s.uid in onlineRouter.nodes && onlineRouter.nodes[s.uid].key == s.key
    }

    /**
     A client connects. The device's older session is kicked first, the new one is what everybody sees, and
     the invariant is kept exactly for an admissible connection whose cached route is not made stale.
     */
    method Create(s: Session, now: int)
      requires Valid()
      modifies this, dao, onlineRouter
      ensures Valid() <==> old(Admissible(dao.Db(), s) && !RouteGoesStale(s))
      ensures
        var d := (s.uid, s.deviceId);
        var sid := if d in old(dao.deviceSession) then old(dao.deviceSession)[d] else "";
        if sid == "" || sid == s.sid then dao.Db() == Added(old(dao.Db()), s) && kicked == old(kicked)
        else
          && sid in old(dao.sessions)
          && dao.Db() == Added(Deleted(old(dao.Db()), sid, s.uid, s.deviceId, old(dao.sessions)[sid].key), s)
          && kicked == old(kicked) + if Routable(old(dao.sessions)[sid])
             then [Notice(old(dao.sessions)[sid].server, old(dao.sessions)[sid].key)] else []
      ensures s.uid > 0 && Routable(s) ==>
        s.uid in onlineRouter.nodes && onlineRouter.nodes[s.uid] == Node(s.uid, s.key, s.server, now)
      ensures onlineRouter.nodes - {s.uid} == old(onlineRouter.nodes) - {s.uid}
      ensures s.uid !in local && local - {s.uid} == old(local) - {s.uid}
    {
      hide ByUser, ByKey, CacheAgrees, RoutesLive, HasRoute, RouteLives;
      ghost var r, before := dao.Db(), onlineRouter.nodes;
      var d := (s.uid, s.deviceId);
      var oldSid := if d in dao.deviceSession then dao.deviceSession[d] else "";
      if oldSid != "" && oldSid != s.sid {
        Kick(oldSid, s.uid, s.deviceId, now);
      }
      ghost var mid, nodes := dao.Db(), onlineRouter.nodes;
      assert mid == AfterKick(r, s);
      dao.AddSession(s);
      if Admissible(r, s) {
        CreatedAgrees(r, s);
        OthersKept(mid, s);
        CachesOfOthers(local, nodes, mid, dao.Db(), s.uid);
        if s.uid > 0 && Routable(s) {
          RouteOfAdded(mid, s, Node(s.uid, s.key, s.server, now));
          RouteSet(nodes, Node(s.uid, s.key, s.server, now), dao.Db());
        } else {
          RouteKept(nodes, mid, s);
        }
      } else {
        CreatedDisagrees(r, s);
      }
      Elsewhere(local, old(local), s.uid, Cached([], now));
      Elsewhere(onlineRouter.nodes, before, s.uid, Node(s.uid, s.key, s.server, now));
      local := local - {s.uid};
      onlineRouter.Set(s.uid, s.key, s.server, now);
    }
  }

  /** The failing case is reachable: a user disconnects with the key of another user's connection. */
  method DisconnectsAnotherUser() returns (m: SessionManager)
    ensures !m.Valid() && m.dao.sessions == map[] && m.dao.Db().Of(1) == {"sid"}
  {
    var dao := new SessionStore();
    var onlineRouter := new OnlineRouter();
    m := new SessionManager(dao, onlineRouter);
    var s := Session("sid", 1, "key", "device", "ios", "comet");
    m.Create(s, 0);
    m.Disconnect(2, "key", "comet", 0);
  }
}
