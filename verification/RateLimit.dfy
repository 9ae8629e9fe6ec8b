/**
 Token buckets (pkg/ratelimit/token_bucket.go) and the Router's two-level limiter (internal/router/ratelimit.go),
 in real arithmetic and with a clock that does not go back.
 */
module RateLimit {
  import opened Bytes

  datatype Bucket = Bucket(rate: real, burst: real, tokens: real, last: real)

  ghost predicate Sane(b: Bucket) {
    b.rate >= 0.0 && b.burst >= 0.0 && b.tokens >= 0.0
  }

  /** What accrues at a rate over an interval. */
  function Accrued(rate: real, from: real, to: real): real {
    (to - from) * rate
  }

  function Refill(b: Bucket, now: real): Bucket {
    var t := b.tokens + Accrued(b.rate, b.last, now);
    b.(tokens := if t > b.burst then b.burst else t, last := now)
  }

  function Admits(b: Bucket, now: real, n: int): bool {
    Refill(b, now).tokens >= n as real
  }

  function Take(b: Bucket, now: real, n: int): Bucket {
    var r := Refill(b, now);
    if Admits(b, now, n) then r.(tokens := r.tokens - n as real) else r
  }

  /**
   What a request for n finds and leaves: the tokens that accrue at the bucket's rate, never beyond its burst,
   and n of them gone exactly if there are as many.
   */
  ghost predicate Charged(b: Bucket, now: real, n: real, ok: bool, b': Bucket) {
    var t := b.tokens + (now - b.last) * b.rate;
    var available := if t > b.burst then b.burst else t;
    ok == (n <= available) && b' == Bucket(b.rate, b.burst, if ok then available - n else available, now)
  }

  lemma TakeMeans(b: Bucket, now: real, n: int)
    ensures Charged(b, now, n as real, Admits(b, now, n), Take(b, now, n))
  {
  }

  datatype Call = Call(at: real, n: int)

  /** What a run of calls is granted, returns counted against it. */
  function Net(b: Bucket, calls: seq<Call>): real
    decreases |calls|
  {
    if calls == [] then 0.0
    else Granted(b, calls[0].at, calls[0].n) + Net(Take(b, calls[0].at, calls[0].n), calls[1..])
  }

  function Granted(b: Bucket, now: real, n: int): real {
    if Admits(b, now, n) then n as real else 0.0
  }

  ghost predicate Ordered(calls: seq<Call>, from: real) {
    calls != [] ==> from <= calls[0].at && Ordered(calls[1..], calls[0].at)
  }

  lemma Accrual(rate: real, a: real, b: real, c: real)
    ensures Accrued(rate, a, b) + Accrued(rate, b, c) == Accrued(rate, a, c)
    ensures rate >= 0.0 && a <= b ==> Accrued(rate, a, b) >= 0.0
    ensures Accrued(rate, a, a) == 0.0
  {
  }

  /** The bound in full. */
  lemma BoundMeans(granted: real, burst: real, rate: real, from: real, to: real)
    requires granted <= burst + Accrued(rate, from, to)
    ensures granted <= burst + rate * (to - from)
  {
  }

  lemma RefillKeepsSane(b: Bucket, now: real)
    requires Sane(b) && b.last <= now
    ensures Sane(Refill(b, now)) && Refill(b, now).tokens <= b.burst
    ensures Refill(b, now).tokens <= b.tokens + Accrued(b.rate, b.last, now)
  {
    hide Accrued;
    Accrual(b.rate, b.last, now, now);
  }

  lemma TakeSpends(b: Bucket, now: real, n: int)
    requires Sane(b) && b.last <= now
    ensures
      var b' := Take(b, now, n);
      Sane(b') && b'.rate == b.rate && b'.burst == b.burst && b'.last == now
      && b'.tokens + Granted(b, now, n) == Refill(b, now).tokens
  {
    hide Accrued;
    RefillKeepsSane(b, now);
  }

  /** Tokens are conserved: what is granted comes out of what was there and what accrued since. */
  lemma {:induction false} GrantedComesFromTokens(b: Bucket, calls: seq<Call>)
    requires Sane(b) && calls != [] && Ordered(calls, b.last)
    ensures Net(b, calls) <= Refill(b, calls[0].at).tokens + Accrued(b.rate, calls[0].at, calls[|calls| - 1].at)
    decreases |calls|
  {
    var c := calls[0];
    var b' := Take(b, c.at, c.n);
    TakeSpends(b, c.at, c.n);
    hide Take, Granted, Refill, Accrued;
    if |calls| > 1 {
      var next, end := calls[1].at, calls[|calls| - 1].at;
      GrantedComesFromTokens(b', calls[1..]);
      RefillKeepsSane(b', next);
      Accrual(b.rate, c.at, next, end);
    } else {
      assert calls[1..] == [];
      Accrual(b.rate, c.at, c.at, c.at);
    }
  }

  lemma WindowAccrued(b: Bucket, calls: seq<Call>)
    requires Sane(b) && calls != [] && Ordered(calls, b.last)
    ensures Net(b, calls) <= b.burst + Accrued(b.rate, calls[0].at, calls[|calls| - 1].at)
  {
    hide Accrued, Refill, Net, Ordered;
    FirstIsNotBefore(b, calls);
    GrantedComesFromTokens(b, calls);
    RefillKeepsSane(b, calls[0].at);
  }

  /** In any window of calls, from any state, at most the burst and what accrues in the window is granted. */
  lemma WindowBound(b: Bucket, calls: seq<Call>)
    requires Sane(b) && calls != [] && Ordered(calls, b.last)
    ensures Net(b, calls) <= b.burst + b.rate * (calls[|calls| - 1].at - calls[0].at)
  {
    hide Accrued, Net, Ordered;
    WindowAccrued(b, calls);
    BoundMeans(Net(b, calls), b.burst, b.rate, calls[0].at, calls[|calls| - 1].at);
  }

  lemma FirstIsNotBefore(b: Bucket, calls: seq<Call>)
    requires calls != [] && Ordered(calls, b.last)
    ensures b.last <= calls[0].at
  {
  }

  /** Nobody waits for nothing: a bucket left alone long enough grants any request up to its burst. */
  lemma IdleBucketGrants(b: Bucket, now: real, n: int)
    requires Sane(b) && b.last <= now
    requires n as real <= b.burst && n as real <= (now - b.last) * b.rate
    ensures Admits(b, now, n)
  {
    assert n as real <= Accrued(b.rate, b.last, now);
    hide Accrued;
  }

  class TokenBucket {
    var tokens: real
    const maxTokens: real
    const refillRate: real
    var lastRefill: real

    function State(): Bucket
      reads this
    {
      Bucket(refillRate, maxTokens, tokens, lastRefill)
    }

    constructor (rate: real, capacity: real, now: real)
      ensures State() == Bucket(rate, capacity, capacity, now)
    {
      tokens, maxTokens, refillRate, lastRefill := capacity, capacity, rate, now;
    }

    method AllowN(n: int, now: real) returns (ok: bool)
      modifies this
      ensures Charged(old(State()), now, n as real, ok, State())
      ensures ok == Admits(old(State()), now, n) && State() == Take(old(State()), now, n)
    {
      TakeMeans(State(), now, n);
      RefillNow(now);
      if tokens < n as real {
        return false;
      }
      tokens := tokens - n as real;
      return true;
    }

    method RefillNow(now: real)
      modifies this
      ensures State() == Refill(old(State()), now)
    {
      hide Accrued;
      tokens := tokens + Accrued(refillRate, lastRefill, now);
      if tokens > maxTokens {
        tokens := maxTokens;
      }
      lastRefill := now;
    }
  }

  /** One bucket for everybody, one a user, made on first use, and the calls that are between their two locks. */
  datatype Limiter = Limiter(global: Bucket, users: map<int, Bucket>, pending: multiset<int>)

  /** The two locked sections of a call. Calls overlap: other sections may come between them. */
  datatype Event = AskGlobal(uid: int, at: real) | AskUser(uid: int, rate: real, burst: real, at: real)

  /** The user's bucket is asked only after the global one has granted. */
  ghost predicate Possible(l: Limiter, es: seq<Event>)
    decreases |es|
  {
    es != [] ==> (es[0].AskUser? ==> es[0].uid in l.pending) && Possible(Step(l, es[0]), es[1..])
  }

  function Made(e: Event): Bucket
    requires e.AskUser?
  {
    Bucket(e.rate, e.burst, e.burst, e.at)
  }

  function UserBucket(l: Limiter, e: Event): Bucket
    requires e.AskUser?
  {
    if e.uid in l.users then l.users[e.uid] else Made(e)
  }

  function Grants(l: Limiter, e: Event): bool {
    Admits(if e.AskGlobal? then l.global else UserBucket(l, e), e.at, 1)
  }

  /** Each section charges one bucket for one token: the global one, or the user's, which starts full. */
  lemma StepMeans(l: Limiter, e: Event)
    ensures var l' := Step(l, e);
      match e
      case AskGlobal(uid, at) =>
        && Charged(l.global, at, 1.0, Grants(l, e), l'.global) && l'.users == l.users
        && l'.pending == if Grants(l, e) then l.pending + multiset{uid} else l.pending
      case AskUser(uid, rate, burst, at) =>
        var b := if uid in l.users then l.users[uid] else Bucket(rate, burst, burst, at);
        && l'.users.Keys == l.users.Keys + {uid} && Charged(b, at, 1.0, Grants(l, e), l'.users[uid])
        && (forall u <- l.users :: u != uid ==> l'.users[u] == l.users[u])
        && l'.global == l.global && l'.pending == l.pending - multiset{uid}
  {
    hide Charged, Take, Admits;
    TakeMeans(if e.AskGlobal? then l.global else UserBucket(l, e), e.at, 1);
  }

  function Step(l: Limiter, e: Event): Limiter {
    match e
    case AskGlobal(uid, at) =>
      l.(global := Take(l.global, at, 1), pending := if Grants(l, e) then l.pending + multiset{uid} else l.pending)
    case AskUser(uid, _, _, at) =>
      l.(users := l.users[uid := Take(UserBucket(l, e), at, 1)], pending := l.pending - multiset{uid})
  }

  function Run(l: Limiter, es: seq<Event>): Limiter
    decreases |es|
  {
    if es == [] then l else Run(Step(l, es[0]), es[1..])
  }

  function PassedOf(l: Limiter, es: seq<Event>, uid: int): real
    decreases |es|
  {
    if es == [] then 0.0 else
      (if es[0].AskUser? && es[0].uid == uid && Grants(l, es[0]) then 1.0 else 0.0)
      + PassedOf(Step(l, es[0]), es[1..], uid)
  }

  /** The calls that end with the given answer. */
  function Answered(l: Limiter, es: seq<Event>, ok: bool): real
    decreases |es|
  {
    if es == [] then 0.0
    else (if es[0].AskUser? && Grants(l, es[0]) == ok then 1.0 else 0.0) + Answered(Step(l, es[0]), es[1..], ok)
  }

  /** What the global bucket is asked in a run. */
  function GlobalCalls(es: seq<Event>): seq<Call>
    decreases |es|
  {
    if es == [] then [] else (if es[0].AskGlobal? then [Call(es[0].at, 1)] else []) + GlobalCalls(es[1..])
  }

  /** What a user's bucket is asked in a run. */
  function UserCalls(es: seq<Event>, uid: int): seq<Call>
    decreases |es|
  {
    if es == [] then []
    else (if es[0].AskUser? && es[0].uid == uid then [Call(es[0].at, 1)] else []) + UserCalls(es[1..], uid)
  }

  lemma NetOfFirst(b: Bucket, c: Call, calls: seq<Call>)
    ensures Net(b, [c] + calls) == Granted(b, c.at, c.n) + Net(Take(b, c.at, c.n), calls)
  {
    assert ([c] + calls)[1..] == calls;
  }

  /** What the global bucket grants has passed, has been refused by its user's bucket, or is still on its way. */
  lemma {:induction false} GrantsAreAccountedFor(l: Limiter, es: seq<Event>)
    requires Possible(l, es)
    ensures Answered(l, es, true) + Answered(l, es, false) + |Run(l, es).pending| as real
         == |l.pending| as real + Net(l.global, GlobalCalls(es))
    decreases |es|
  {
    hide Accrued, Take, Admits;
    if es == [] {
    } else {
      var e := es[0];
      GrantsAreAccountedFor(Step(l, e), es[1..]);
      if e.AskGlobal? {
        NetOfFirst(l.global, Call(e.at, 1), GlobalCalls(es[1..]));
      } else {
        assert GlobalCalls(es) == GlobalCalls(es[1..]);
      }
    }
  }

  /** Over all users together, a run passes at most what was on its way, the global burst and what accrues. */
  lemma AllUsersBound(l: Limiter, es: seq<Event>)
    requires Possible(l, es) && Sane(l.global) && GlobalCalls(es) != [] && Ordered(GlobalCalls(es), l.global.last)
    ensures
      var calls := GlobalCalls(es);
      Answered(l, es, true) <=
        |l.pending| as real + l.global.burst + l.global.rate * (calls[|calls| - 1].at - calls[0].at)
  {
    hide Net, GlobalCalls, Answered, Run, Ordered, Possible, Accrued;
    var calls := GlobalCalls(es);
    GrantsAreAccountedFor(l, es);
    AnsweredIsNonNegative(l, es, false);
    WindowAccrued(l.global, calls);
    BoundMeans(Answered(l, es, true), |l.pending| as real + l.global.burst, l.global.rate, calls[0].at,
      calls[|calls| - 1].at);
  }

  lemma {:induction false} AnsweredIsNonNegative(l: Limiter, es: seq<Event>, ok: bool)
    ensures Answered(l, es, ok) >= 0.0
    decreases |es|
  {
    hide Step, Grants;
    if es == [] {
    } else {
      AnsweredIsNonNegative(Step(l, es[0]), es[1..], ok);
    }
  }

  /** The bucket a run asks for a user: the one there is, or the one its first request makes. */
  function BucketFor(l: Limiter, es: seq<Event>, uid: int): Bucket
    requires UserCalls(es, uid) != []
    decreases |es|
  {
    if es[0].AskUser? && es[0].uid == uid then UserBucket(l, es[0])
    else if uid in l.users then l.users[uid]
    else BucketFor(l, es[1..], uid)
  }

  /** To a user the limiter is its own bucket, whatever the others do and whatever later calls ask for. */
  lemma {:induction false} UserHasOwnBucket(l: Limiter, es: seq<Event>, uid: int)
    ensures
      if UserCalls(es, uid) == [] then PassedOf(l, es, uid) == 0.0
      else PassedOf(l, es, uid) == Net(BucketFor(l, es, uid), UserCalls(es, uid))
    decreases |es|
  {
    hide Accrued, Take, Admits;
    if es == [] {
    } else {
      var e, rest := es[0], UserCalls(es[1..], uid);
      var l' := Step(l, e);
      UserHasOwnBucket(l', es[1..], uid);
      if rest != [] {
        SameBucket(l, l', es[1..], uid);
      }
      if e.AskUser? && e.uid == uid {
        NetOfFirst(UserBucket(l, e), Call(e.at, 1), rest);
      } else {
        assert UserCalls(es, uid) == rest;
      }
    }
  }

  /** Only the user's own entry decides which bucket it gets. */
  lemma {:induction false} SameBucket(l: Limiter, l': Limiter, es: seq<Event>, uid: int)
    requires UserCalls(es, uid) != []
    ensures uid in l'.users ==> BucketFor(l', es, uid) == l'.users[uid]
    ensures uid !in l.users && uid !in l'.users ==> BucketFor(l, es, uid) == BucketFor(l', es, uid)
    decreases |es|
  {
    if es[0].AskUser? && es[0].uid == uid {
    } else {
      SameBucket(l, l', es[1..], uid);
    }
  }

  /** In any window, one user passes at most its bucket's burst and what accrues in the window. */
  lemma UserBound(l: Limiter, es: seq<Event>, uid: int)
    requires UserCalls(es, uid) != []
    requires Sane(BucketFor(l, es, uid)) && Ordered(UserCalls(es, uid), BucketFor(l, es, uid).last)
    ensures
      var b, calls := BucketFor(l, es, uid), UserCalls(es, uid);
      PassedOf(l, es, uid) <= b.burst + b.rate * (calls[|calls| - 1].at - calls[0].at)
  {
    hide PassedOf, BucketFor, UserCalls, Net;
    UserHasOwnBucket(l, es, uid);
    WindowBound(BucketFor(l, es, uid), UserCalls(es, uid));
  }

  const SHARD_COUNT: nat := 64

  /** The shard of a user, with the negation in 64 bits and Go's truncating remainder. */
  function ShardIndex(uid: int): (i: int)
    requires -M64 / 2 <= uid < M64 / 2
    ensures 0 <= i < SHARD_COUNT && i == (if uid < 0 then -uid else uid) % 64
  {
    var u := if uid < 0 then Signed(-uid, M64) else uid;
    if u >= 0 then u % SHARD_COUNT else
      assert u == -M64 / 2;
      -(-u % SHARD_COUNT)
  }

  /** The Router's own bucket, asked for one token at a time. */
  class LocalBucket {
    const rate: real
    const burst: real
    var tokens: real
    var lastTime: real

    function State(): Bucket
      reads this
    {
      Bucket(rate, burst, tokens, lastTime)
    }

    constructor (rate: real, burst: real, now: real)
      ensures State() == Bucket(rate, burst, burst, now)
    {
      this.rate, this.burst, tokens, lastTime := rate, burst, burst, now;
    }

    method Allow(now: real) returns (ok: bool)
      modifies this
      ensures Charged(old(State()), now, 1.0, ok, State())
      ensures ok == Admits(old(State()), now, 1) && State() == Take(old(State()), now, 1)
    {
      hide Accrued;
      TakeMeans(State(), now, 1);
      var accrued := Accrued(rate, lastTime, now);
      lastTime := now;
      tokens := tokens + accrued;
      if tokens > burst {
        tokens := burst;
      }
      if tokens >= 1.0 {
        tokens := tokens - 1.0;
        return true;
      }
      return false;
    }
  }

  type Uid = u: int | -M64 / 2 <= u < M64 / 2

  /** Every user's bucket is in the user's shard, and in no other. */
  ghost predicate Sharded(shards: seq<map<Uid, LocalBucket>>, users: map<Uid, LocalBucket>) {
    && |shards| == SHARD_COUNT
    && (forall i, u :: 0 <= i < |shards| && u in shards[i] ==> u in users && i == ShardIndex(u))
    && (forall u <- users :: u in shards[ShardIndex(u)] && shards[ShardIndex(u)][u] == users[u])
  }

  ghost predicate Apart(users: map<Uid, LocalBucket>, global: LocalBucket) {
    && (forall u <- users :: users[u] != global)
    && (forall u, v :: u in users && v in users && u != v ==> users[u] != users[v])
  }

  lemma ShardedInsert(shards: seq<map<Uid, LocalBucket>>, users: map<Uid, LocalBucket>, uid: Uid, tb: LocalBucket)
    requires Sharded(shards, users)
    ensures var shard: map<Uid, LocalBucket> := shards[ShardIndex(uid)][uid := tb];
      Sharded(shards[ShardIndex(uid) := shard], users[uid := tb])
  {
    hide ShardIndex;
  }

  lemma ApartInsert(users: map<Uid, LocalBucket>, global: LocalBucket, uid: Uid, tb: LocalBucket)
    requires Apart(users, global) && tb != global && tb !in users.Values
    ensures Apart(users[uid := tb], global)
  {
  }

  class RateLimiter {
    const global: LocalBucket
    var shards: seq<map<Uid, LocalBucket>>
    ghost var users: map<Uid, LocalBucket>
    /** What the buckets hold, and the users whose calls are between the two locks. */
    ghost var state: Limiter

    ghost predicate Valid()
      reads this, global, users.Values
    {
      Sharded(shards, users) && Apart(users, global) && state.global == global.State() && Holds()
    }

    ghost predicate Holds()
      reads `users, `state, users.Values
    {
      && (forall u: int :: u in users <==> u in state.users)
      && (forall u <- users :: users[u].State() == state.users[u])
    }

    constructor (globalRate: real, globalBurst: real, now: real)
      ensures Valid() && fresh(global)
      ensures state == Limiter(Bucket(globalRate, globalBurst, globalBurst, now), map[], multiset{})
    {
      global := new LocalBucket(globalRate, globalBurst, now);
      shards := seq(SHARD_COUNT, i => map[]);
      users := map[];
      state := Limiter(Bucket(globalRate, globalBurst, globalBurst, now), map[], multiset{});
    }

    /** The section under the global lock. */
    method AllowGlobal(uid: Uid, at: real) returns (ok: bool)
      requires Valid()
      modifies `state, global
      ensures Valid()
      ensures Charged(old(state).global, at, 1.0, ok, state.global) && state.users == old(state).users
      ensures ok == Grants(old(state), AskGlobal(uid, at)) && state == Step(old(state), AskGlobal(uid, at))
    {
      hide Take, Admits, Sharded;
      hide Charged;
      ok := global.Allow(at);
      state := Step(state, AskGlobal(uid, at));
    }

    method NewBucket(uid: Uid, i: nat, rate: real, burst: real, now: real) returns (tb: LocalBucket)
      requires Valid() && uid !in users && i == ShardIndex(uid) < |shards|
      modifies `shards, `users, `state
      ensures Valid() && fresh(tb) && users == old(users)[uid := tb]
      ensures state == old(state).(users := old(state).users[uid := Bucket(rate, burst, burst, now)])
    {
      hide Sharded, Apart, ShardIndex;
      tb := new LocalBucket(rate, burst, now);
      ShardedInsert(shards, users, uid, tb);
      ApartInsert(users, global, uid, tb);
      var shard: map<Uid, LocalBucket> := shards[i][uid := tb];
      shards := shards[i := shard];
      users := users[uid := tb];
      state := state.(users := state.users[uid := Bucket(rate, burst, burst, now)]);
    }

    /** The user's bucket, made on first use. */
    method BucketOf(uid: Uid, rate: real, burst: real, now: real) returns (tb: LocalBucket)
      requires Valid()
      modifies `shards, `users, `state
      ensures Valid() && (fresh(tb) || users == old(users))
      ensures users == old(users)[uid := tb]
      ensures uid in old(users) ==> tb == old(users)[uid] && state == old(state)
      ensures uid !in old(users) ==> fresh(tb)
      ensures uid !in old(users) ==> state.users == old(state).users[uid := Bucket(rate, burst, burst, now)]
      ensures state.global == old(state).global && state.pending == old(state).pending
      ensures tb != global && forall u <- users :: u != uid ==> users[u] != tb
    {
      hide ShardIndex;
      var i := ShardIndex(uid);
      if uid in shards[i] {
        return shards[i][uid];
      }
      tb := NewBucket(uid, i, rate, burst, now);
    }

    /** The section under the lock of the user's shard. */
    method AllowLocal(uid: Uid, rate: real, burst: real, at: real) returns (ok: bool)
      requires Valid() && uid in state.pending
      modifies this, users.Values
      ensures Valid() && fresh(users.Values - old(users.Values))
      ensures
        var e := AskUser(uid, rate, burst, at);
        ok == Grants(old(state), e) && state == Step(old(state), e)
    {
      hide Take, Admits, Sharded, Apart, Charged;
      ghost var e := AskUser(uid, rate, burst, at);
      var tb := BucketOf(uid, rate, burst, at);
      assert tb.State() == state.users[uid] == UserBucket(old(state), e);
      ok := tb.Allow(at);
      state := Step(old(state), e);
    }

    /** Both buckets have to agree; here no other call comes in between. */
    method AllowUser(uid: Uid, rate: real, burst: real, at: real, userAt: real) returns (ok: bool)
      requires Valid()
      modifies this, global, users.Values
      ensures Valid() && fresh(users.Values - old(users.Values)) && state.pending == old(state.pending)
      ensures exists byGlobal ::
        && Charged(old(state).global, at, 1.0, byGlobal, state.global)
        && (!byGlobal ==> !ok && state.users == old(state).users)
        && (byGlobal ==>
          var b := if uid in old(state).users then old(state).users[uid] else Bucket(rate, burst, burst, userAt);
          && state.users.Keys == old(state).users.Keys + {uid} && Charged(b, userAt, 1.0, ok, state.users[uid])
          && forall u <- old(state).users :: u != uid ==> state.users[u] == old(state).users[u])
      ensures
        var l, e := Step(old(state), AskGlobal(uid, at)), AskUser(uid, rate, burst, userAt);
        ok == (Grants(old(state), AskGlobal(uid, at)) && Grants(l, e))
        && state == if Grants(old(state), AskGlobal(uid, at)) then Step(l, e) else l
    {
      hide Take, Admits, Sharded, Grants, Charged, Step;
      StepMeans(state, AskGlobal(uid, at));
      StepMeans(Step(state, AskGlobal(uid, at)), AskUser(uid, rate, burst, userAt));
      ok := AllowGlobal(uid, at);
      if !ok {
        return;
      }
      ok := AllowLocal(uid, rate, burst, userAt);
    }
  }
}
