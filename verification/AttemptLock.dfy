/**
 The in-flight delivery lock of one message (internal/router/ack.go, BeginDeliveryAttempt, over
 SET NX PX and the compare-and-delete script of internal/logic/dao/redis.go).

 Any number of routers, goroutines and retries interleave as `Step`s; Redis may refuse a command or
 execute it and lose the reply. Times are milliseconds.
 */
module AttemptLock {
  import opened Common

  const TTL: int := 10_000

  type Token = nat

  /** The key msg_attempt:{msgID}: absent once `expires` is reached. */
  datatype Lock = Lock(token: Token, expires: int)

  predicate Live(l: Option<Lock>, now: int) {
    l.Some? && now < l.value.expires
  }

  /** SET key token NX PX TTL. */
  function SetNx(l: Option<Lock>, now: int, t: Token): (Option<Lock>, bool) {
    if Live(l, now) then (l, false) else (Some(Lock(t, now + TTL)), true)
  }

  /** if GET key == token then DEL key. */
  function CompareAndDelete(l: Option<Lock>, now: int, t: Token): Option<Lock> {
    if Live(l, now) && l.value.token == t then None else l
  }

  /** The Redis key with its two operations, in place. */
  class LockKey {
    var lock: Option<Lock>

    constructor ()
      ensures lock == None
    {
      lock := None;
    }

    method Acquire(now: int, t: Token) returns (ok: bool)
      modifies this
      ensures ok <==> old(lock).None? || old(lock).value.expires <= now
      ensures lock == if ok then Some(Lock(t, now + 10_000)) else old(lock)
      ensures (lock, ok) == SetNx(old(lock), now, t)
    {
      if lock.Some? && now < lock.value.expires {
        return false;
      }
      lock := Some(Lock(t, now + TTL));
      return true;
    }

    method Release(now: int, t: Token)
      modifies this
      ensures lock == if old(lock).Some? && old(lock).value.token == t && now < old(lock).value.expires then None
                      else old(lock)
      ensures lock == CompareAndDelete(old(lock), now, t)
    {
      if lock.Some? && now < lock.value.expires && lock.value.token == t {
        lock := None;
      }
    }
  }

  /** An orphan's reply got lost: its caller never learnt that it owns the key. */
  datatype Phase = Orphan | Running | Released | FellBack

  /** History of one attempt; `freed` is when its own release removed the key. */
  datatype Attempt = Attempt(acquired: int, freed: Option<int>, phase: Phase) {
    /** First instant at which this attempt no longer owns the key. */
    function End(): int { if freed.Some? then freed.value else acquired + TTL }
  }

  datatype World = World(now: int, lock: Option<Lock>, log: map<Token, Attempt>)

  datatype Outcome = Done | ReplyLost | Refused

  /** An attempt ends by keeping its lock after a full fallback, or by releasing it. */
  datatype Step =
    | Tick(d: nat)
    | Begin(t: Token, outcome: Outcome)
    | Finish(t: Token, fellBack: bool, outcome: Outcome)

  /** Tokens are never reused: a second Begin with a known token does nothing. An attempt ends once. */
  function Next(w: World, s: Step): World {
    match s
    case Tick(d) => w.(now := w.now + d)
    case Begin(t, outcome) =>
      if t in w.log || outcome.Refused? then w else
        var (l, ok) := SetNx(w.lock, w.now, t);
        if ok then World(w.now, l, w.log[t := Attempt(w.now, None, if outcome.Done? then Running else Orphan)]) else w
    case Finish(t, fellBack, outcome) =>
      if t !in w.log || !w.log[t].phase.Running? then w
      else if fellBack then w.(log := w.log[t := w.log[t].(phase := FellBack)])
      else
        var a := w.log[t].(phase := Released);
        var l := if outcome.Refused? then w.lock else CompareAndDelete(w.lock, w.now, t);
        World(w.now, l, w.log[t := if l == w.lock then a else a.(freed := Some(w.now))])
  }

  predicate Owns(w: World, t: Token) {
    Live(w.lock, w.now) && w.lock.value.token == t
  }

  function Exec(w: World, steps: seq<Step>): World
    decreases |steps|
  {
    if steps == [] then w else Exec(Next(w, steps[0]), steps[1..])
  }

  ghost predicate Initial(w: World) {
    w.lock == None && w.log == map[]
  }

  ghost predicate Apart(a: Attempt, b: Attempt) {
    a.End() <= b.acquired || b.End() <= a.acquired
  }

  ghost predicate Inv(w: World) {
    && (w.lock.Some? ==> w.lock.value.token in w.log)
    && (w.lock.Some? ==> var a := w.log[w.lock.value.token]; a.freed.None? && w.lock.value.expires == a.acquired + TTL)
    && (forall t :: t in w.log ==> w.log[t].acquired <= w.now && w.log[t].acquired <= w.log[t].End())
    && (forall t :: t in w.log && w.log[t].freed.Some? ==> w.log[t].phase.Released? && w.log[t].freed.value <= w.now)
    && (forall t :: t in w.log && w.now < w.log[t].End() ==> w.lock == Some(Lock(t, w.log[t].acquired + TTL)))
    && (forall t, u :: t in w.log && u in w.log && t != u ==> Apart(w.log[t], w.log[u]))
  }

  lemma BeginPreservesInv(w: World, t: Token, outcome: Outcome)
    requires Inv(w)
    ensures Inv(Next(w, Begin(t, outcome)))
  {
    if t !in w.log && !Live(w.lock, w.now) {
      assert forall u :: u in w.log ==> w.log[u].End() <= w.now;
    }
  }

  lemma RelabelPreservesInv(w: World, t: Token, phase: Phase)
    requires Inv(w) && t in w.log && w.log[t].freed.None?
    ensures Inv(w.(log := w.log[t := w.log[t].(phase := phase)]))
  {
    assert forall u :: u in w.log ==> w.log[t := w.log[t].(phase := phase)][u].End() == w.log[u].End();
  }

  lemma FreePreservesInv(w: World, t: Token)
    requires Inv(w) && Live(w.lock, w.now) && w.lock.value.token == t
    ensures Inv(World(w.now, None, w.log[t := Attempt(w.log[t].acquired, Some(w.now), Released)]))
  {
    assert forall u :: u in w.log && u != t ==> w.log[u].End() <= w.log[t].acquired by {
      assert forall u :: u in w.log && u != t ==> w.log[u].End() <= w.now && Apart(w.log[u], w.log[t]);
    }
  }

  lemma FinishPreservesInv(w: World, t: Token, fellBack: bool, outcome: Outcome)
    requires Inv(w)
    ensures Inv(Next(w, Finish(t, fellBack, outcome)))
  {
    hide Inv;
    if t in w.log && w.log[t].phase.Running? {
      RunningIsUnfreed(w, t);
      if fellBack || outcome.Refused? || CompareAndDelete(w.lock, w.now, t) == w.lock {
        RelabelPreservesInv(w, t, if fellBack then FellBack else Released);
      } else {
        FreePreservesInv(w, t);
      }
    }
  }

  lemma RunningIsUnfreed(w: World, t: Token)
    requires Inv(w) && t in w.log && w.log[t].phase.Running?
    ensures w.log[t].freed.None?
  {
  }

  lemma StepPreservesInv(w: World, s: Step)
    requires Inv(w)
    ensures Inv(Next(w, s))
  {
    match s
    case Tick(_) =>
    case Begin(t, outcome) => BeginPreservesInv(w, t, outcome);
    case Finish(t, fellBack, outcome) => FinishPreservesInv(w, t, fellBack, outcome);
  }

  lemma {:induction false} RunPreservesInv(w: World, steps: seq<Step>)
    requires Inv(w)
    ensures Inv(Exec(w, steps))
    decreases |steps|
  {
    if steps == [] {
    } else {
      StepPreservesInv(w, steps[0]);
      RunPreservesInv(Next(w, steps[0]), steps[1..]);
    }
  }

  predicate ByOthers(steps: seq<Step>, t: Token) {
    forall s <- steps :: !s.Tick? ==> s.t != t
  }

  /** What others do at the lock leaves an attempt's record alone. */
  lemma {:induction false} OthersLeaveAlone(w: World, steps: seq<Step>, t: Token)
    requires ByOthers(steps, t)
    ensures var v := Exec(w, steps);
            (t in v.log <==> t in w.log) && (t in w.log ==> v.log[t] == w.log[t])
    decreases |steps|
  {
    if steps == [] {
    } else {
      assert steps[0] in steps;
      OthersLeaveAlone(Next(w, steps[0]), steps[1..], t);
    }
  }

  /** An attempt that has ended keeps its record for ever, whatever anybody does. */
  lemma {:induction false} EndedStays(w: World, steps: seq<Step>, t: Token)
    requires t in w.log && !w.log[t].phase.Running?
    ensures var v := Exec(w, steps); t in v.log && v.log[t] == w.log[t]
    decreases |steps|
  {
    if steps == [] {
    } else {
      EndedStays(Next(w, steps[0]), steps[1..], t);
    }
  }

  /** Over a whole run, the intervals in which two attempts own an unexpired lock never overlap. */
  lemma AttemptsNeverOverlap(w: World, steps: seq<Step>, t: Token, u: Token)
    requires Initial(w)
    requires var v := Exec(w, steps); t in v.log && u in v.log && t != u
    ensures var v := Exec(w, steps); Apart(v.log[t], v.log[u])
  {
    RunPreservesInv(w, steps);
  }

  /** A release, late or not, leaves another owner's lock alone. */
  lemma StaleReleaseIsHarmless(v: World, t: Token, outcome: Outcome)
    requires Live(v.lock, v.now) && v.lock.value.token != t
    ensures var v' := Next(v, Finish(t, false, outcome));
            v'.lock == v.lock && forall u :: u in v.log && u != t ==> u in v'.log && v'.log[u] == v.log[u]
  {
  }

  /** After a full fallback nobody else is admitted until the TTL has passed, whatever happens at the lock. */
  lemma FallbackBlocks(w: World, steps: seq<Step>, t: Token, u: Token)
    requires Inv(w) && t in w.log && w.log[t].phase.FellBack?
    ensures ShutOut(w, steps, t, u)
    ensures
      var log := Exec(w, steps).log;
      u in log && u != t ==> log[u].End() <= w.log[t].acquired || w.log[t].acquired + 10_000 <= log[u].acquired
  {
    RunPreservesInv(w, steps);
    EndedStays(w, steps, t);
    if u in Exec(w, steps).log && u != t {
      assert Apart(Exec(w, steps).log[t], Exec(w, steps).log[u]);
    }
  }

  /** In whatever follows, u is over before t began or begins after t's TTL. */
  ghost predicate ShutOut(w: World, steps: seq<Step>, t: Token, u: Token)
    requires t in w.log
  {
    var v := Exec(w, steps);
    u in v.log && u != t ==> v.log[u].End() <= w.log[t].acquired || w.log[t].acquired + TTL <= v.log[u].acquired
  }

  /** A release that Redis executes while the attempt still owns the key makes the message available at once. */
  lemma ReleaseAdmitsTheNext(w: World, steps: seq<Step>, t: Token, u: Token)
    requires Initial(w)
    requires var v := Exec(w, steps);
             t in v.log && v.log[t].phase.Running? && u !in v.log && v.now < v.log[t].End()
    ensures var v := Exec(w, steps); var v' := Next(Next(v, Finish(t, false, Done)), Begin(u, Done));
            u in v'.log && v'.log[u] == Attempt(v.now, None, Running) && Live(v'.lock, v'.now)
  {
    RunPreservesInv(w, steps);
  }
}
