/**
 Per-user sequence numbers (internal/logic/service/seq.go) on top of a shared Redis counter.

 `UserSeqState` is the mutable record that one process keeps per user; its methods are the
 sections the source runs under `st.mu`. Everything that happens between those sections
 (other goroutines, other processes, lost replies, crashes) is the interleaving of `Step`s of
 `UserWorld`, whose transitions use the same functions that specify the class.
 */
module SeqAllocator {
  import opened Bytes
  import opened Common

  const DEFAULT_BLOCK_SIZE: int := 100
  const DEFAULT_PREFETCH_REMAINING: int := 20
  const PREFETCH_PERCENT: int := 90
  const INT64_MAX: int := 0x7fff_ffff_ffff_ffff
  const INT64_MIN: int := -0x8000_0000_0000_0000

  /** What int64 arithmetic makes of a value. */
  function Wrap(v: int): int {
    Signed(v, M64)
  }

  /** next++ */
  function Successor(n: int): int {
    if n == INT64_MAX then INT64_MIN else n + 1
  }

  /** A block reserved from Redis; `next` is the first number not yet handed out. */
  datatype Range = Range(start: int, next: int, max: int) {
    predicate Has(n: int) { start <= next <= n <= max }
    function Remaining(): int { if next > max then 0 else Wrap(max - next + 1) }
    /** The block ended at the greatest int64 and its last number is out. */
    predicate Wrapped() { next < start }
  }

  datatype Config = Config(blockSize: int) {
    ghost predicate Valid() { blockSize > 0 }
    function PrefetchRemaining(): int {
      if blockSize <= DEFAULT_PREFETCH_REMAINING then
        if blockSize / 10 < 1 then 1 else blockSize / 10
      else DEFAULT_PREFETCH_REMAINING
    }
    predicate ShouldPrefetch(r: Range) {
      r.Remaining() <= PrefetchRemaining() || Wrap(Wrap(r.next - r.start) * 100) >= Wrap(blockSize * PREFETCH_PERCENT)
    }
  }

  function NewConfig(blockSize: int): (c: Config)
    ensures c.Valid() && c.blockSize == if blockSize > 0 then blockSize else 100
  {
    Config(if blockSize <= 0 then DEFAULT_BLOCK_SIZE else blockSize)
  }

  /** The fields of `userSeqState`; `reserveDone` is non-nil exactly when `reserving` is set. */
  datatype State = State(current: Option<Range>, next: Option<Range>, reserving: bool)

  predicate Exhausted(r: Option<Range>) {
    r.None? || r.value.next > r.value.max
  }

  /** What one pass of the `Allocate` loop does while it holds the lock. */
  datatype Served =
    | Issued(num: int, st: State, startPrefetch: bool)
    | WaitForReservation
    | Reserve(st: State)

  function Serve(c: Config, st: State): Served {
    if Exhausted(st.current) && st.next.None? then
      if st.reserving then WaitForReservation else Reserve(st.(reserving := true))
    else
      var s0 := if Exhausted(st.current) then State(st.next, None, st.reserving) else st;
      var r := s0.current.value;
      var s1 := s0.(current := Some(r.(next := Successor(r.next))));
      var prefetch := s1.next.None? && !s1.reserving && c.ShouldPrefetch(s1.current.value);
      Issued(r.next, if prefetch then s1.(reserving := true) else s1, prefetch)
  }

  function InstallForeground(st: State, reply: Option<Range>): State {
    State(if reply.Some? then reply else st.current, st.next, false)
  }

  function InstallPrefetch(st: State, reply: Option<Range>): State {
    State(st.current, if reply.Some? && st.next.None? then reply else st.next, false)
  }

  /** The in-place form of the record; each method is one section run under `st.mu`. */
  class UserSeqState {
    var current: Option<Range>
    var next: Option<Range>
    var reserving: bool

    ghost function View(): State
      reads this
    {
      State(current, next, reserving)
    }

    constructor ()
      ensures View() == State(None, None, false)
    {
      current, next, reserving := None, None, false;
    }

    method AllocateLocked(c: Config) returns (num: int, ok: bool, startPrefetch: bool)
      modifies this
      ensures ok <==> (old(current).Some? && old(current).value.next <= old(current).value.max) || old(next).Some?
      ensures ok ==>
        var inUse := old(current).Some? && old(current).value.next <= old(current).value.max;
        var block := (if inUse then old(current) else old(next)).value;
        && num == block.next && next == (if inUse then old(next) else None)
        && current.Some? && current.value.start == block.start && current.value.max == block.max
        && current.value.next == if num == 0x7fff_ffff_ffff_ffff then -0x8000_0000_0000_0000 else num + 1
      ensures startPrefetch <==> ok && next.None? && !old(reserving) && c.ShouldPrefetch(current.value)
      ensures reserving == (old(reserving) || startPrefetch) && (!ok ==> View() == old(View()) && num == 0)
      ensures var s := Serve(c, old(View()));
              if ok then s == Issued(num, View(), startPrefetch) else !s.Issued?
    {
      num, ok, startPrefetch := 0, false, false;
      if current.None? || current.value.next > current.value.max {
        if next.None? {
          return;
        }
        current := next;
        next := None;
      }
      num := current.value.next;
      current := Some(current.value.(next := Successor(current.value.next)));
      ok := true;
      if next.None? && !reserving && c.ShouldPrefetch(current.value) {
        reserving := true;
        startPrefetch := true;
      }
    }

    /** One whole pass of the loop in `Allocate` up to the unlock. */
    method ServeLocked(c: Config) returns (s: Served)
      modifies this
      ensures var inUse := old(current).Some? && old(current).value.next <= old(current).value.max;
        match s
        case Issued(num, _, _) =>
          if inUse then num == old(current).value.next else old(next).Some? && num == old(next).value.next
        case WaitForReservation => !inUse && old(next).None? && old(reserving)
        case Reserve(_) =>
          !inUse && old(next).None? && !old(reserving) && reserving && current == old(current) && next == old(next)
      ensures s == Serve(c, old(View()))
      ensures View() ==
        match s case Issued(_, st, _) => st case WaitForReservation => old(View()) case Reserve(st) => st
    {
      var num, ok, pre := AllocateLocked(c);
      if ok {
        return Issued(num, State(current, next, reserving), pre);
      }
      if reserving {
        return WaitForReservation;
      }
      reserving := true;
      return Reserve(State(current, next, reserving));
    }

    method FinishForeground(reply: Option<Range>)
      modifies this
      ensures View() == InstallForeground(old(View()), reply)
      ensures current == (if reply.Some? then reply else old(current)) && next == old(next) && !reserving
    {
      if reply.Some? {
        current := reply;
      }
      reserving := false;
    }

    method FinishPrefetch(reply: Option<Range>)
      modifies this
      ensures View() == InstallPrefetch(old(View()), reply)
      ensures next == (if old(next).None? then reply else old(next)) && current == old(current) && !reserving
    {
      if reply.Some? && next.None? {
        next := reply;
      }
      reserving := false;
    }
  }

  /** A prefetch is due with few numbers left, or with nine tenths of a block used, as long as no product wraps. */
  lemma PrefetchIsDue(c: Config, r: Range)
    requires 0 < c.blockSize <= INT64_MAX / 100 && r.max - r.start + 1 == c.blockSize
    requires r.start <= r.next <= r.max + 1
    ensures c.ShouldPrefetch(r) <==>
      || r.max - r.next + 1 <= (if c.blockSize > 20 then 20 else if c.blockSize == 20 then 2 else 1)
      || 10 * (r.next - r.start) >= 9 * c.blockSize
  {
    forall v: int | INT64_MIN <= v <= INT64_MAX ensures Wrap(v) == v {
      WrapOfSmall(v);
    }
  }

  lemma WrapOfSmall(v: int)
    requires INT64_MIN <= v <= INT64_MAX
    ensures Wrap(v) == v
  {
    SignedOfUnsigned(v, M64);
  }

  // ---------------------------------------------------------------- the interleaved system

  /** Progress of the one reservation a process may have in flight for the user. */
  datatype Job = NoJob | Asked(foreground: bool) | Answered(foreground: bool, reply: Option<Range>)

  datatype Process = Process(cfg: Config, st: State, job: Job)

  datatype Issue = Issue(owner: nat, num: int)

  /** One user: the Redis counter, every process that serves it, and all numbers returned so far. */
  datatype UserWorld = UserWorld(counter: int, procs: map<nat, Process>, issued: seq<Issue>)

  datatype Outcome = Delivered | ReplyLost | Refused

  datatype Step =
    | Start(p: nat, blockSize: int)
    | Crash(p: nat)
    | ServeStep(p: nat)
    | IncrBy(p: nat, outcome: Outcome)
    | Install(p: nat)
    | Stray(delta: nat)  // an INCRBY that Redis executes after its caller has given up, or is gone

  function ReserveRange(end: int, blockSize: int): Range {
    Range(end - blockSize + 1, end - blockSize + 1, end)
  }

  /** A step that is not enabled leaves the world as it is. */
  function Next(w: UserWorld, s: Step): UserWorld {
    match s
    case Start(p, b) =>
      if p in w.procs then w
      else w.(procs := w.procs[p := Process(NewConfig(b), State(None, None, false), NoJob)])
    case Crash(p) => w.(procs := w.procs - {p})
    case ServeStep(p) =>
      if p !in w.procs then w else
        var pr := w.procs[p];
        (match Serve(pr.cfg, pr.st)
         case Issued(num, st, pre) =>
           UserWorld(w.counter, w.procs[p := Process(pr.cfg, st, if pre then Asked(false) else pr.job)],
                     w.issued + [Issue(p, num)])
         case WaitForReservation => w
         case Reserve(st) => w.(procs := w.procs[p := Process(pr.cfg, st, Asked(true))]))
    case IncrBy(p, outcome) =>
      if p !in w.procs || !w.procs[p].job.Asked? then w else
        var pr := w.procs[p];
        var fg := pr.job.foreground;
        // INCRBY itself reports an error, without effect, when the result would not fit an int64
        if outcome.Refused? || w.counter + pr.cfg.blockSize > INT64_MAX then
          w.(procs := w.procs[p := pr.(job := Answered(fg, None))])
        else
          var end := w.counter + pr.cfg.blockSize;
          var reply := if outcome.Delivered? then Some(ReserveRange(end, pr.cfg.blockSize)) else None;
          w.(counter := end, procs := w.procs[p := pr.(job := Answered(fg, reply))])
    case Install(p) =>
      if p !in w.procs || !w.procs[p].job.Answered? then w else
        var pr := w.procs[p];
        var st := if pr.job.foreground then InstallForeground(pr.st, pr.job.reply)
                  else InstallPrefetch(pr.st, pr.job.reply);
        w.(procs := w.procs[p := Process(pr.cfg, st, NoJob)])
    case Stray(delta) =>
      if w.counter + delta > INT64_MAX then w else w.(counter := w.counter + delta)
  }

  function Exec(w: UserWorld, steps: seq<Step>): UserWorld
    decreases |steps|
  {
    if steps == [] then w else Exec(Next(w, steps[0]), steps[1..])
  }

  ghost predicate Initial(w: UserWorld) {
    0 <= w.counter <= INT64_MAX && w.procs == map[] && w.issued == []
  }

  /** The number is reserved by this process and not yet returned to any caller. */
  predicate Holds(pr: Process, n: int) {
    || (pr.st.current.Some? && pr.st.current.value.Has(n))
    || (pr.st.next.Some? && pr.st.next.value.Has(n))
    || (pr.job.Answered? && pr.job.reply.Some? && pr.job.reply.value.Has(n))
  }

  ghost predicate FreshBlock(r: Range, counter: int) {
    1 <= r.start == r.next <= r.max <= counter
  }

  /** A block in use. Only one that ends at the greatest int64 can be used beyond its end. */
  ghost predicate Within(c: Range, counter: int) {
    1 <= c.start <= c.max <= counter && (c.start <= c.next <= c.max + 1 <= INT64_MAX || c.max == INT64_MAX)
  }

  ghost predicate ProcessInv(pr: Process, counter: int) {
    && pr.cfg.Valid()
    && (pr.st.reserving <==> !pr.job.NoJob?)
    && (pr.st.current.Some? ==> Within(pr.st.current.value, counter))
    && (pr.st.next.Some? ==> FreshBlock(pr.st.next.value, counter))
    && (pr.st.next.Some? && pr.st.current.Some? ==> pr.st.current.value.max < pr.st.next.value.start)
    && (!pr.job.NoJob? ==> pr.st.next.None? && (pr.job.foreground ==> Exhausted(pr.st.current)))
    && (pr.job.Answered? && pr.job.reply.Some? ==>
          && FreshBlock(pr.job.reply.value, counter)
          && (pr.st.current.Some? ==> pr.st.current.value.max < pr.job.reply.value.start))
  }

  /** What holds in every run, also beyond the end of int64. */
  ghost predicate LocalInv(w: UserWorld) {
    0 <= w.counter <= INT64_MAX && forall p <- w.procs :: ProcessInv(w.procs[p], w.counter)
  }

  /** A pass of the loop that takes a number from a block whose `next` has wrapped around. */
  predicate Overrun(w: UserWorld, s: Step) {
    s.ServeStep? && s.p in w.procs && w.procs[s.p].st.current.Some? && w.procs[s.p].st.current.value.Wrapped()
  }

  ghost predicate Overruns(w: UserWorld, steps: seq<Step>)
    decreases |steps|
  {
    steps != [] && (Overrun(w, steps[0]) || Overruns(Next(w, steps[0]), steps[1..]))
  }

  /** No number of the wrapped block has been taken yet. */
  ghost predicate Unspilled(pr: Process) {
    pr.st.current.Some? ==>
      var c := pr.st.current.value; c.next == INT64_MIN || c.start <= c.next
  }

  ghost predicate Inv(w: UserWorld) {
    && LocalInv(w)
    && (forall p <- w.procs :: Unspilled(w.procs[p]))
    && (forall p, q, n :: p in w.procs && q in w.procs && p != q && Holds(w.procs[p], n) ==> !Holds(w.procs[q], n))
    && (forall i :: 0 <= i < |w.issued| ==> 1 <= w.issued[i].num <= w.counter)
    && (forall p, i, n :: p in w.procs && 0 <= i < |w.issued| && Holds(w.procs[p], n) ==> w.issued[i].num != n)
    && (forall p, i, n :: p in w.procs && 0 <= i < |w.issued| && w.issued[i].owner == p && Holds(w.procs[p], n)
                          ==> w.issued[i].num < n)
    && (forall i, j :: 0 <= i < j < |w.issued| ==> w.issued[i].num != w.issued[j].num)
    && (forall i, j :: 0 <= i < j < |w.issued| && w.issued[i].owner == w.issued[j].owner
                       ==> w.issued[i].num < w.issued[j].num)
  }

  function AfterServe(pr: Process): Process
    requires Serve(pr.cfg, pr.st).Issued?
  {
    var r := Serve(pr.cfg, pr.st);
    Process(pr.cfg, r.st, if r.startPrefetch then Asked(false) else pr.job)
  }

  lemma ServeLocally(pr: Process, counter: int)
    requires ProcessInv(pr, counter) && counter <= INT64_MAX
    requires Serve(pr.cfg, pr.st).Issued?
    ensures ProcessInv(AfterServe(pr), counter)
    ensures forall n :: Holds(pr, n) ==> (Holds(AfterServe(pr), n) <==> n != Serve(pr.cfg, pr.st).num)
  {
    hide Config.ShouldPrefetch;
  }

  lemma ServeFacts(pr: Process, counter: int)
    requires ProcessInv(pr, counter) && counter <= INT64_MAX
    requires Serve(pr.cfg, pr.st).Issued? && (pr.st.current.Some? ==> !pr.st.current.value.Wrapped())
    ensures ProcessInv(AfterServe(pr), counter) && Unspilled(AfterServe(pr))
    ensures Holds(pr, Serve(pr.cfg, pr.st).num)
    ensures 1 <= Serve(pr.cfg, pr.st).num <= counter
    ensures forall n :: Holds(AfterServe(pr), n) <==> Holds(pr, n) && n != Serve(pr.cfg, pr.st).num
    ensures forall n :: Holds(AfterServe(pr), n) ==> Serve(pr.cfg, pr.st).num < n
  {
    hide Config.ShouldPrefetch;
  }

  /** A process may change freely as long as it only gains numbers nobody was ever granted. */
  lemma ReplaceProcess(w: UserWorld, p: nat, pr: Process, counter: int)
    requires Inv(w) && w.counter <= counter <= INT64_MAX && ProcessInv(pr, counter) && Unspilled(pr)
    requires forall n :: Holds(pr, n) ==> n > w.counter || (p in w.procs && Holds(w.procs[p], n))
    ensures Inv(UserWorld(counter, w.procs[p := pr], w.issued))
  {
    var w' := UserWorld(counter, w.procs[p := pr], w.issued);
    forall q, n | q in w.procs && Holds(w.procs[q], n) ensures n <= w.counter {
      assert ProcessInv(w.procs[q], w.counter);
    }
    assert forall q :: q in w'.procs ==> ProcessInv(w'.procs[q], counter);
  }

  lemma AppendIssue(w: UserWorld, p: nat, num: int)
    requires Inv(w) && 1 <= num <= w.counter
    requires forall q :: q in w.procs ==> !Holds(w.procs[q], num)
    requires forall i :: 0 <= i < |w.issued| ==> w.issued[i].num != num
    requires forall i :: 0 <= i < |w.issued| && w.issued[i].owner == p ==> w.issued[i].num < num
    requires p in w.procs ==> forall n :: Holds(w.procs[p], n) ==> num < n
    ensures Inv(w.(issued := w.issued + [Issue(p, num)]))
  {
    hide ProcessInv, Unspilled, Holds;
    var w' := w.(issued := w.issued + [Issue(p, num)]);
    forall i | 0 <= i < |w'.issued|
      ensures w'.issued[i] == if i < |w.issued| then w.issued[i] else Issue(p, num)
    {
    }
  }

  lemma ServePreservesInv(w: UserWorld, p: nat)
    requires Inv(w) && p in w.procs && Serve(w.procs[p].cfg, w.procs[p].st).Issued? && !Overrun(w, ServeStep(p))
    ensures Inv(Next(w, ServeStep(p)))
  {
    var pr := w.procs[p];
    ServeFacts(pr, w.counter);
    ReplaceProcess(w, p, AfterServe(pr), w.counter);
    AppendIssue(w.(procs := w.procs[p := AfterServe(pr)]), p, Serve(pr.cfg, pr.st).num);
  }

  lemma IncrPreservesInv(w: UserWorld, p: nat, outcome: Outcome)
    requires Inv(w)
    ensures Inv(Next(w, IncrBy(p, outcome)))
  {
    var w' := Next(w, IncrBy(p, outcome));
    if w' != w {
      ReplaceProcess(w, p, w'.procs[p], w'.counter);
    }
  }

  lemma InstallPreservesInv(w: UserWorld, p: nat)
    requires Inv(w)
    ensures Inv(Next(w, Install(p)))
  {
    var w' := Next(w, Install(p));
    if w' != w {
      ReplaceProcess(w, p, w'.procs[p], w.counter);
    }
  }

  lemma RaisePreservesInv(w: UserWorld, counter: int)
    requires Inv(w) && w.counter <= counter <= INT64_MAX
    ensures Inv(w.(counter := counter))
  {
    assert forall q :: q in w.procs ==> ProcessInv(w.procs[q], counter);
  }

  lemma StepPreservesInv(w: UserWorld, s: Step)
    requires Inv(w) && !Overrun(w, s)
    ensures Inv(Next(w, s))
  {
    match s
    case Start(p, b) =>
      if p !in w.procs {
        ReplaceProcess(w, p, Process(NewConfig(b), State(None, None, false), NoJob), w.counter);
      }
    case Crash(_) =>
    case ServeStep(p) =>
      if p in w.procs {
        var pr := w.procs[p];
        match Serve(pr.cfg, pr.st)
        case Issued(_, _, _) => ServePreservesInv(w, p);
        case WaitForReservation =>
        case Reserve(st) => ReplaceProcess(w, p, Process(pr.cfg, st, Asked(true)), w.counter);
      }
    case IncrBy(p, outcome) => IncrPreservesInv(w, p, outcome);
    case Install(p) => InstallPreservesInv(w, p);
    case Stray(delta) => RaisePreservesInv(w, Next(w, s).counter);
  }

  lemma {:induction false} RunPreservesInv(w: UserWorld, steps: seq<Step>)
    requires Inv(w) && !Overruns(w, steps)
    ensures Inv(Exec(w, steps))
    decreases |steps|
  {
    if steps == [] {
    } else {
      StepPreservesInv(w, steps[0]);
      RunPreservesInv(Next(w, steps[0]), steps[1..]);
    }
  }

  lemma StepPreservesLocalInv(w: UserWorld, s: Step)
    requires LocalInv(w)
    ensures LocalInv(Next(w, s)) && w.counter <= Next(w, s).counter && w.issued <= Next(w, s).issued
  {
    hide Config.ShouldPrefetch;
    if s.ServeStep? && s.p in w.procs && Serve(w.procs[s.p].cfg, w.procs[s.p].st).Issued? {
      ServeLocally(w.procs[s.p], w.counter);
    }
  }

  lemma {:induction false} RunPreservesLocalInv(w: UserWorld, steps: seq<Step>)
    requires LocalInv(w)
    ensures LocalInv(Exec(w, steps)) && w.counter <= Exec(w, steps).counter && w.issued <= Exec(w, steps).issued
    decreases |steps|
  {
    if steps == [] {
    } else {
      StepPreservesLocalInv(w, steps[0]);
      RunPreservesLocalInv(Next(w, steps[0]), steps[1..]);
    }
  }

  /** Numbers from 1 up to the counter, each at most once, those of one process in increasing order. */
  ghost predicate Proper(w: UserWorld) {
    && (forall i :: 0 <= i < |w.issued| ==> 1 <= w.issued[i].num <= w.counter)
    && (forall i, j :: 0 <= i < j < |w.issued| ==> w.issued[i].num != w.issued[j].num)
    && (forall i, j :: 0 <= i < j < |w.issued| && w.issued[i].owner == w.issued[j].owner
                       ==> w.issued[i].num < w.issued[j].num)
  }

  /** The first number taken from a wrapped block is the least int64, and it stays in the log. */
  lemma {:induction false} OverrunIsIssued(w: UserWorld, steps: seq<Step>) returns (k: nat)
    requires Inv(w) && Overruns(w, steps)
    ensures k < |Exec(w, steps).issued| && Exec(w, steps).issued[k].num == INT64_MIN
    decreases |steps|
  {
    var w' := Next(w, steps[0]);
    StepPreservesLocalInv(w, steps[0]);
    if Overrun(w, steps[0]) {
      k := |w.issued|;
      assert w'.issued[k].num == INT64_MIN;
      RunPreservesLocalInv(w', steps[1..]);
      assert Exec(w, steps).issued[k] == w'.issued[k];
    } else {
      StepPreservesInv(w, steps[0]);
      k := OverrunIsIssued(w', steps[1..]);
    }
  }

  /**
   Global uniqueness and per-process order, in every interleaving, with lost replies and crashes, exactly as
   long as no number is taken from a block that ended at the greatest int64 and is used up.
   */
  lemma NumbersAreUnique(w: UserWorld, steps: seq<Step>)
    requires Initial(w)
    ensures Proper(Exec(w, steps)) <==> !Overruns(w, steps)
  {
    if Overruns(w, steps) {
      var _ := OverrunIsIssued(w, steps);
    } else {
      RunPreservesInv(w, steps);
    }
  }

  /** As long as the counter has not reached the greatest int64 there is no such block. */
  lemma {:induction false} NoOverrunBelow(w: UserWorld, steps: seq<Step>)
    requires LocalInv(w) && Exec(w, steps).counter < INT64_MAX
    ensures !Overruns(w, steps)
    decreases |steps|
  {
    if steps == [] {
    } else {
      RunPreservesLocalInv(w, steps);
      assert steps[0].ServeStep? && steps[0].p in w.procs ==> ProcessInv(w.procs[steps[0].p], w.counter);
      StepPreservesLocalInv(w, steps[0]);
      NoOverrunBelow(Next(w, steps[0]), steps[1..]);
    }
  }

  /** The end of int64 is reachable: the second call after the last block of one number returns -2^63. */
  lemma BeyondTheLastNumber()
    ensures
      var w := UserWorld(INT64_MAX - 1, map[], []);
      var steps := [Start(0, 1), ServeStep(0), IncrBy(0, Delivered), Install(0), ServeStep(0), ServeStep(0)];
      Initial(w) && Exec(w, steps).issued == [Issue(0, INT64_MAX), Issue(0, INT64_MIN)]
  {
  }

  /** In every reachable state, a step takes a held number away from a live process only by returning it. */
  lemma NoRangeOverwritten(w: UserWorld, steps: seq<Step>, s: Step, p: nat, n: int)
    requires Initial(w)
    requires var v := Exec(w, steps); p in v.procs && Holds(v.procs[p], n) && s != Crash(p)
    ensures var v := Exec(w, steps); var v' := Next(v, s);
            && p in v'.procs
            && (Holds(v'.procs[p], n) <==> v'.issued != v.issued + [Issue(p, n)])
  {
    RunPreservesLocalInv(w, steps);
    var v := Exec(w, steps);
    assert ProcessInv(v.procs[p], v.counter);
    if s.ServeStep? && s.p in v.procs && Serve(v.procs[s.p].cfg, v.procs[s.p].st).Issued? {
      ServeLocally(v.procs[s.p], v.counter);
      assert Next(v, s).issued[|v.issued|] == Issue(s.p, Serve(v.procs[s.p].cfg, v.procs[s.p].st).num);
    } else {
      assert |Next(v, s).issued| == |v.issued|;
    }
  }

  // ---------------------------------------------------------------- progress

  /** A pass with a number in hand, in the block in use or in the prefetched one, returns it. */
  lemma NumberInHandIsReturned(v: UserWorld, p: nat)
    requires p in v.procs
    ensures
      var st := v.procs[p].st;
      var log := Next(v, ServeStep(p)).issued;
      if st.current.Some? && st.current.value.next <= st.current.value.max then
        log == v.issued + [Issue(p, st.current.value.next)]
      else if st.next.Some? then
        log == v.issued + [Issue(p, st.next.value.next)]
      else
        log == v.issued
  {
  }

  /** One caller's way through the loop: a pass, the reservation it may have to wait for, and another pass. */
  function Round(p: nat): seq<Step> {
    [ServeStep(p), IncrBy(p, Delivered), Install(p), ServeStep(p)]
  }

  lemma ExecRound(v: UserWorld, p: nat, rest: seq<Step>)
    ensures Exec(v, Round(p) + rest)
         == Exec(Next(Next(Next(Next(v, ServeStep(p)), IncrBy(p, Delivered)), Install(p)), ServeStep(p)), rest)
  {
    hide Next;
    var steps := Round(p) + rest;
    assert steps[1..][1..][1..][1..] == rest;
    assert Exec(v, steps) == Exec(Next(v, steps[0]), steps[1..]);
    assert forall u :: Exec(u, steps[1..]) == Exec(Next(u, steps[1]), steps[1..][1..]);
    assert forall u :: Exec(u, steps[1..][1..]) == Exec(Next(u, steps[2]), steps[1..][1..][1..]);
    assert forall u :: Exec(u, steps[1..][1..][1..]) == Exec(Next(u, steps[3]), rest);
  }

  predicate LostReply(job: Job) {
    job.Answered? && job.reply.None?
  }

  lemma StepKeeps(w: UserWorld, s: Step, p: nat)
    requires LocalInv(w) && p in w.procs && !s.Crash? && !s.Stray? && s.p == p
    ensures var w' := Next(w, s);
      && LocalInv(w') && p in w'.procs && w'.procs[p].cfg == w.procs[p].cfg && w.issued <= w'.issued
      && w.counter <= w'.counter <= w.counter + if s.IncrBy? then w.procs[p].cfg.blockSize else 0
  {
    hide ProcessInv;
    StepPreservesLocalInv(w, s);
    ReachableIsValid(w.procs[p], w.counter);
  }

  /** A round returns a number unless a reservation that lost its reply was pending, which it then clears. */
  lemma RoundReturns(v: UserWorld, p: nat)
    requires LocalInv(v) && p in v.procs && v.counter + v.procs[p].cfg.blockSize <= INT64_MAX
    ensures
      var v' := Exec(v, Round(p));
      && LocalInv(v') && p in v'.procs && v'.procs[p].cfg == v.procs[p].cfg
      && v'.counter <= v.counter + v.procs[p].cfg.blockSize && v.issued <= v'.issued
      && (|v.issued| < |v'.issued| || (LostReply(v.procs[p].job) && !LostReply(v'.procs[p].job)))
  {
    hide ProcessInv, Config.ShouldPrefetch;
    var served := Next(v, ServeStep(p));
    var answered := Next(served, IncrBy(p, Delivered));
    var installed := Next(answered, Install(p));
    ExecRound(v, p, []);
    assert Round(p) + [] == Round(p);
    StepKeeps(v, ServeStep(p), p);
    StepKeeps(served, IncrBy(p, Delivered), p);
    StepKeeps(answered, Install(p), p);
    StepKeeps(installed, ServeStep(p), p);
    if |served.issued| > |v.issued| {
      hide Next, Serve;
    } else {
      NothingInHand(v.procs[p], v.counter);
      assert answered.procs[p].job.Answered?;
      assert ProcessInv(answered.procs[p], answered.counter);
      if !LostReply(v.procs[p].job) {
        assert !LostReply(answered.procs[p].job);
        InstalledIsInHand(answered.procs[p], answered.counter);
      }
    }
  }

  /** Whoever finds nothing in hand has, or starts, a reservation. */
  lemma NothingInHand(pr: Process, counter: int)
    requires ProcessInv(pr, counter) && !Serve(pr.cfg, pr.st).Issued?
    ensures Exhausted(pr.st.current) && pr.st.next.None?
    ensures Serve(pr.cfg, pr.st).WaitForReservation? <==> !pr.job.NoJob?
  {
  }

  lemma ReachableIsValid(pr: Process, counter: int)
    requires ProcessInv(pr, counter)
    ensures pr.cfg.blockSize > 0
  {
  }

  lemma InstalledIsInHand(pr: Process, counter: int)
    requires ProcessInv(pr, counter) && pr.job.Answered? && pr.job.reply.Some?
    requires Exhausted(pr.st.current)
    ensures var st := if pr.job.foreground then InstallForeground(pr.st, pr.job.reply)
                      else InstallPrefetch(pr.st, pr.job.reply);
            Serve(pr.cfg, st).Issued?
  {
  }

  /** Nobody waits for ever: while the counter has room, two rounds end every reachable state's waiting. */
  lemma NobodyWaitsForEver(w: UserWorld, steps: seq<Step>, p: nat)
    requires Initial(w)
    requires var v := Exec(w, steps); p in v.procs && v.counter + 2 * v.procs[p].cfg.blockSize <= INT64_MAX
    ensures var v := Exec(w, steps); |Exec(v, Round(p) + Round(p)).issued| > |v.issued|
  {
    hide Round, ProcessInv, LostReply;
    RunPreservesLocalInv(w, steps);
    var v := Exec(w, steps);
    ReachableIsValid(v.procs[p], v.counter);
    var v' := Exec(v, Round(p));
    RoundReturns(v, p);
    RoundReturns(v', p);
    ExecRound(v, p, []);
    ExecRound(v, p, Round(p));
    assert Round(p) + [] == Round(p);
  }

  // ---------------------------------------------------------------- one process, no errors

  predicate Spent(r: Option<Range>) {
    Exhausted(r) || r.value.Wrapped()
  }

  /** The numbers k+1 .. counter are exactly what the process holds, in the order it will hand them out. */
  ghost predicate Tiled(k: int, pr: Process, counter: int) {
    && ProcessInv(pr, counter)
    && (Spent(pr.st.current) || pr.st.current.value.next == k + 1)
    && var m1 := if Spent(pr.st.current) then k else pr.st.current.value.max;
    && (pr.st.next.Some? ==> pr.st.next.value.next == m1 + 1)
    && var m2 := if pr.st.next.Some? then pr.st.next.value.max else m1;
    && (pr.job.Answered? ==> pr.job.reply.Some? && pr.job.reply.value.next == m2 + 1)
    && counter == (if pr.job.Answered? then pr.job.reply.value.max else m2)
  }

  ghost predicate Sole(w: UserWorld, base: int, p: nat) {
    && p in w.procs
    && (forall i :: 0 <= i < |w.issued| ==> w.issued[i] == Issue(p, base + 1 + i))
    && Tiled(base + |w.issued|, w.procs[p], w.counter) && w.counter <= INT64_MAX
  }

  /** Every reservation gets its reply and the counter does not run out of int64. */
  ghost predicate Faultless(w: UserWorld, s: Step, p: nat) {
    && !s.Stray? && s.p == p && !s.Crash?
    && (s.IncrBy? ==> s.outcome == Delivered && (p in w.procs ==> w.counter + w.procs[p].cfg.blockSize <= INT64_MAX))
  }

  ghost predicate FaultlessRun(w: UserWorld, steps: seq<Step>, p: nat)
    decreases |steps|
  {
    steps == [] || (Faultless(w, steps[0], p) && FaultlessRun(Next(w, steps[0]), steps[1..], p))
  }

  /** The same steps seen from the one process: `Local` is what `Next` does to its record and to the counter. */
  ghost predicate Local(pr: Process, counter: int, pr': Process, counter': int, s: Step) {
    match s
    case Start(_, _) => pr' == pr && counter' == counter
    case Crash(_) => false
    case ServeStep(_) =>
      && counter' == counter
      && (match Serve(pr.cfg, pr.st)
          case Issued(_, _, _) => pr' == AfterServe(pr)
          case WaitForReservation => pr' == pr
          case Reserve(st) => pr' == Process(pr.cfg, st, Asked(true)))
    case IncrBy(_, _) =>
      if pr.job.Asked? then
        && counter' == counter + pr.cfg.blockSize
        && pr' == pr.(job := Answered(pr.job.foreground, Some(ReserveRange(counter', pr.cfg.blockSize))))
      else pr' == pr && counter' == counter
    case Install(_) =>
      && counter' == counter
      && (if pr.job.Answered? then
            && pr'.job == NoJob && pr'.cfg == pr.cfg
            && pr'.st == (if pr.job.foreground then InstallForeground(pr.st, pr.job.reply)
                          else InstallPrefetch(pr.st, pr.job.reply))
          else pr' == pr)
    case Stray(_) => false
  }

  lemma TiledStep(k: int, pr: Process, counter: int, pr': Process, counter': int, s: Step)
    requires Tiled(k, pr, counter) && 0 <= counter <= INT64_MAX && Local(pr, counter, pr', counter', s)
    requires s.ServeStep? && pr.st.current.Some? ==> !pr.st.current.value.Wrapped()
    ensures s.ServeStep? && Serve(pr.cfg, pr.st).Issued? ==>
              Serve(pr.cfg, pr.st).num == k + 1 && Tiled(k + 1, pr', counter')
    ensures !(s.ServeStep? && Serve(pr.cfg, pr.st).Issued?) ==> Tiled(k, pr', counter')
    ensures counter <= counter'
  {
  }

  lemma SoleStep(w: UserWorld, base: int, p: nat, s: Step)
    requires Sole(w, base, p) && 0 <= w.counter && Faultless(w, s, p) && !Overrun(w, s)
    ensures Sole(Next(w, s), base, p) && 0 <= Next(w, s).counter
  {
    hide Config.ShouldPrefetch, Tiled;
    var w' := Next(w, s);
    var k := base + |w.issued|;
    TiledStep(k, w.procs[p], w.counter, w'.procs[p], w'.counter, s);
    if s.ServeStep? && Serve(w.procs[p].cfg, w.procs[p].st).Issued? {
      assert w'.issued == w.issued + [Issue(p, k + 1)];
    }
  }

  lemma {:induction false} SoleRun(w: UserWorld, base: int, p: nat, steps: seq<Step>)
    requires Sole(w, base, p) && 0 <= w.counter && FaultlessRun(w, steps, p) && !Overruns(w, steps)
    ensures Sole(Exec(w, steps), base, p)
    decreases |steps|
  {
    if steps == [] {
    } else {
      SoleStep(w, base, p, steps[0]);
      SoleRun(Next(w, steps[0]), base, p, steps[1..]);
    }
  }

  /**
   A sole allocator whose reservations all succeed hands out consecutive numbers, exactly until it goes on
   after the greatest int64.
   */
  lemma SoleAllocatorIsConsecutive(w: UserWorld, p: nat, blockSize: int, steps: seq<Step>)
    requires Initial(w)
    requires FaultlessRun(Next(w, Start(p, blockSize)), steps, p)
    ensures var v := Next(w, Start(p, blockSize)); var log := Exec(v, steps).issued;
            (forall i :: 0 <= i < |log| ==> log[i] == Issue(p, w.counter + 1 + i)) <==> !Overruns(v, steps)
  {
    var v := Next(w, Start(p, blockSize));
    if Overruns(v, steps) {
      var _ := OverrunIsIssued(v, steps);
    } else {
      SoleRun(v, w.counter, p, steps);
    }
  }

  // ---------------------------------------------------------------- all users

  /** Users share nothing: each has its own counter key and its own record in every process. */
  type World = map<int, UserWorld>

  function Lookup(w: World, uid: int): UserWorld {
    if uid in w then w[uid] else UserWorld(0, map[], [])
  }

  function ExecAll(w: World, steps: seq<(int, Step)>): World
    decreases |steps|
  {
    if steps == [] then w
    else ExecAll(w[steps[0].0 := Next(Lookup(w, steps[0].0), steps[0].1)], steps[1..])
  }

  function Project(steps: seq<(int, Step)>, uid: int): seq<Step>
    decreases |steps|
  {
    if steps == [] then []
    else (if steps[0].0 == uid then [steps[0].1] else []) + Project(steps[1..], uid)
  }

  /** What one user sees of a run over all users is a run of that user alone. */
  lemma {:induction false} RunProjects(w: World, steps: seq<(int, Step)>, uid: int)
    ensures Lookup(ExecAll(w, steps), uid) == Exec(Lookup(w, uid), Project(steps, uid))
    decreases |steps|
  {
    if steps == [] {
    } else {
      var w' := w[steps[0].0 := Next(Lookup(w, steps[0].0), steps[0].1)];
      RunProjects(w', steps[1..], uid);
      var rest := Project(steps[1..], uid);
      if steps[0].0 == uid {
        assert ([steps[0].1] + rest)[1..] == rest;
      } else {
        assert [] + rest == rest;
      }
    }
  }

  lemma NumbersAreUniquePerUser(steps: seq<(int, Step)>, uid: int)
    ensures Proper(Lookup(ExecAll(map[], steps), uid)) <==>
            !Overruns(Lookup(map[], uid), Project(steps, uid))
  {
    RunProjects(map[], steps, uid);
    NumbersAreUnique(Lookup(map[], uid), Project(steps, uid));
  }
}
