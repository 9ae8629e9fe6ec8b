/**
 Replay of the local spool (internal/router/spool_replay.go): each pass goes through the date
 directories, oldest file first, retrying both stores and archiving what has become too old. What each
 operation on a file does is a parameter; the router spools new messages while a pass is under way.
 */
module SpoolReplay {
  import opened Common

  datatype Path = Path(dir: string, name: string)

  datatype Record = Record(msgId: string, uid: int, seqNo: int)

  /** `record` is None when the JSON is malformed. */
  datatype File = File(record: Option<Record>, modTime: int)

  type Files = map<Path, File>

  /** ".json" files only; temporaries and the expired/ subdirectory are skipped. */
  predicate IsSpoolFile(p: Path) {
    |p.name| >= 5 && p.name[|p.name| - 5..] == ".json"
  }

  function InDir(files: Files, dir: string): set<Path> {
    set p | p in files && p.dir == dir && IsSpoolFile(p)
  }

  /** All of the set, once each, oldest modification time first. */
  ghost predicate OldestFirst(ps: seq<Path>, files: Files, all: set<Path>) {
    && (forall i :: 0 <= i < |ps| ==> ps[i] in all)
    && (forall p :: p in all ==> p in ps)
    && (forall i, j :: 0 <= i < j < |ps| ==> ps[i] != ps[j])
    && all <= files.Keys
    && (forall i, j :: 0 <= i < j < |ps| && ps[i] in files && ps[j] in files ==>
          files[ps[i]].modTime <= files[ps[j]].modTime)
  }

  method SortOldestFirst(files: Files, all: set<Path>) returns (ps: seq<Path>)
    requires all <= files.Keys
    ensures OldestFirst(ps, files, all)
  {
    ps := [];
    var todo := all;
    assert all - todo == {};
    while todo != {}
      invariant todo <= all && OldestFirst(ps, files, all - todo)
      invariant forall p, q :: p in all - todo && q in todo ==> files[p].modTime <= files[q].modTime
      decreases |todo|
    {
      hide OldestFirst;
      var p := Oldest(files, todo);
      NextOldest(ps, files, all - todo, p);
      assert all - (todo - {p}) == all - todo + {p};
      ps := ps + [p];
      todo := todo - {p};
    }
    assert all - todo == all;
  }

  lemma NextOldest(ps: seq<Path>, files: Files, done: set<Path>, p: Path)
    requires OldestFirst(ps, files, done) && p in files && p !in done
    requires forall q :: q in done ==> files[q].modTime <= files[p].modTime
    ensures OldestFirst(ps + [p], files, done + {p})
  {
  }

  method Oldest(files: Files, todo: set<Path>) returns (p: Path)
    requires todo != {} && todo <= files.Keys
    ensures p in todo && forall q :: q in todo ==> files[p].modTime <= files[q].modTime
  {
    p :| p in todo;
    var rest := todo - {p};
    while rest != {}
      invariant p in todo && rest <= todo
      invariant forall q :: q in todo ==> q in rest || files[p].modTime <= files[q].modTime
      decreases |rest|
    {
      var q :| q in rest;
      if files[q].modTime < files[p].modTime {
        p := q;
      }
      rest := rest - {q};
    }
  }

  lemma HeadIsOldest(order: seq<Path>, files: Files, all: set<Path>, limit: nat)
    requires OldestFirst(order, files, all) && limit <= |order|
    ensures forall p, q :: p in order[..limit] && q in all && q !in order[..limit] ==>
      files[p].modTime <= files[q].modTime
    ensures limit == |order| ==> forall q :: q in all ==> q in order[..limit]
  {
    forall p, q | p in order[..limit] && q in all && q !in order[..limit]
      ensures files[p].modTime <= files[q].modTime
    {
      var a :| 0 <= a < limit && order[a] == p;
      var b :| 0 <= b < |order| && order[b] == q;
      assert forall x :: 0 <= x < limit ==> order[x] in order[..limit];
      assert limit <= b;
    }
    assert order[..|order|] == order;
  }

  /** How a file is moved to expired/: by renaming, or by copying and removing. */
  datatype Move = Move(mkdir: bool, rename: bool, copy: bool, remove: bool) {
    predicate Archives() {
      mkdir && (rename || copy)
    }

    predicate Removes() {
      mkdir && (rename || (copy && remove))
    }
  }

  /** Where records go. */
  datatype Stores = Stores(expired: map<Path, File>, redis: set<Record>, kafka: seq<Record>)

  /** What the operations on one file do when its turn comes. */
  datatype Turn = Turn(stat: bool, read: bool, redis: Effect, kafka: Effect, remove: bool, move: Move)

  ghost predicate Extends(was: Files, now: Files) {
    forall p <- was :: p in now && now[p] == was[p]
  }

  /** Files only appear, and under names never used before. */
  ghost predicate Grew(was: Files, known: Files, now: Files) {
    Extends(was, now) && (forall p <- now :: p in was || p !in known)
  }

  ghost predicate NoDups(ps: seq<Path>) {
    forall i, j :: 0 <= i < j < |ps| ==> ps[i] != ps[j]
  }

  ghost function SetOf(ps: seq<Path>): set<Path> {
    set p | p in ps
  }

  lemma {:induction false} NoDupsCard(ps: seq<Path>)
    requires NoDups(ps)
    ensures |SetOf(ps)| == |ps|
  {
    if ps == [] {
    } else {
      var n := |ps| - 1;
      NoDupsCard(ps[..n]);
      assert SetOf(ps) == SetOf(ps[..n]) + {ps[n]};
    }
  }

  lemma SubsetCard(a: set<Path>, b: set<Path>)
    requires a <= b
    ensures |a| <= |b|
  {
    assert |b - a| == |b| - |a|;
  }

  /** The oldest files of a directory, in order, at most n of them, and all if they fit. */
  ghost predicate OldestBatch(batch: seq<Path>, files: Files, all: set<Path>, n: int) {
    && NoDups(batch) && SetOf(batch) <= all <= files.Keys
    && (forall i, j :: 0 <= i < j < |batch| ==> files[batch[i]].modTime <= files[batch[j]].modTime)
    && (forall p, q :: p in batch && q in all && q !in batch ==> files[p].modTime <= files[q].modTime)
    && |batch| <= n && (|batch| < n ==> all <= SetOf(batch))
  }

  // ---------------------------------------------------------------- when a file gets its turn

  /** One pass over a directory: the files, those of the directory that could be listed, the batch, what left. */
  datatype Pass = Pass(files: Files, all: set<Path>, batch: seq<Path>, gone: set<Path>)

  ghost predicate Regular(x: Pass, dir: string, n: int) {
    && n > 0 && OldestBatch(x.batch, x.files, x.all, n)
    && x.all <= InDir(x.files, dir) && x.gone <= SetOf(x.batch)
  }

  /** From one pass to the next: exactly what left is missing. */
  ghost predicate Continues(x: Pass, y: Pass) {
    forall q <- x.files :: (q in y.files <==> q !in x.gone) && (q in y.files ==> y.files[q] == x.files[q])
  }

  lemma ContinuesWith(x: Pass, before: Files, known: Files, y: Pass)
    requires Continues(x, x.(files := before)) && x.files.Keys <= known.Keys && Grew(before, known, y.files)
    ensures Continues(x, y)
  {
  }

  /** A run of passes over a directory, in which what comes in is newer than p. */
  ghost predicate PassesOver(passes: seq<Pass>, dir: string, n: int, p: Path) {
    && passes != [] && p in InDir(passes[0].files, dir)
    && (forall k :: 0 <= k < |passes| ==> Regular(passes[k], dir, n))
    && (forall k :: 0 <= k < |passes| - 1 ==> Continues(passes[k], passes[k + 1]))
    && (forall k, q :: 0 <= k < |passes| - 1 && q in InDir(passes[k + 1].files, dir) && q !in passes[k].files ==>
          passes[k + 1].files[q].modTime > passes[0].files[p].modTime)
  }

  /** As long as p waits, it can be listed. */
  ghost predicate Waits(passes: seq<Pass>, p: Path) {
    forall k :: 0 <= k < |passes| && p in passes[k].files ==> p in passes[k].all
  }

  ghost function Ahead(x: Pass, dir: string, p: Path): set<Path> {
    set q | q in InDir(x.files, dir) && q != p && p in x.files && x.files[q].modTime <= x.files[p].modTime
  }

  /** Files ahead that are not stuck leave when their turn comes. */
  ghost predicate OthersLeave(passes: seq<Pass>, ahead: set<Path>, stuck: set<Path>) {
    forall k, q :: 0 <= k < |passes| && q in passes[k].batch && q in ahead && q !in stuck ==> q in passes[k].gone
  }

  /** A pass without p takes a full batch of files ahead of it. */
  lemma FullBatchAhead(x: Pass, dir: string, n: int, p: Path)
    requires Regular(x, dir, n) && p in x.all && p !in x.batch
    ensures |SetOf(x.batch)| == n && SetOf(x.batch) <= Ahead(x, dir, p)
  {
    NoDupsCard(x.batch);
  }

  /** With fewer than a batch of files stuck ahead of it, a file gets its turn. */
  lemma {:induction false} TurnComes(passes: seq<Pass>, dir: string, n: int, p: Path, ahead: set<Path>,
                                     stuck: set<Path>)
    returns (i: nat)
    requires PassesOver(passes, dir, n, p) && Waits(passes, p) && |passes| > |Ahead(passes[0], dir, p)|
    requires Ahead(passes[0], dir, p) <= ahead && OthersLeave(passes, ahead, stuck) && |stuck| < n
    ensures i <= |Ahead(passes[0], dir, p)| && p in passes[i].batch
    decreases |passes|
  {
    var x := passes[0];
    if p in x.batch {
      i := 0;
    } else {
      FullBatchAhead(x, dir, n, p);
      var q := OneMore(SetOf(x.batch), stuck);
      NextPass(passes, dir, n, p, q);
      i := TurnComes(passes[1..], dir, n, p, ahead, stuck);
      i := i + 1;
    }
  }

  lemma OneMore(a: set<Path>, b: set<Path>) returns (q: Path)
    requires |a| > |b|
    ensures q in a && q !in b
  {
    if a <= b {
      SubsetCard(a, b);
    }
    q :| q in a && q !in b;
  }

  lemma NextPass(passes: seq<Pass>, dir: string, n: int, p: Path, q: Path)
    requires PassesOver(passes, dir, n, p) && |passes| > 1 && p !in passes[0].batch
    requires q in passes[0].gone && q in Ahead(passes[0], dir, p)
    ensures PassesOver(passes[1..], dir, n, p)
    ensures Ahead(passes[1], dir, p) <= Ahead(passes[0], dir, p)
    ensures |Ahead(passes[1], dir, p)| < |Ahead(passes[0], dir, p)|
  {
    var x, y := passes[0], passes[1];
    assert Continues(x, y) && p !in x.gone;
    assert Ahead(y, dir, p) <= Ahead(x, dir, p) - {q};
    SubsetCard(Ahead(y, dir, p), Ahead(x, dir, p) - {q});
    assert forall k :: 0 <= k < |passes[1..]| ==> passes[1..][k] == passes[k + 1];
  }

  /** Files ahead that never leave, whatever their turns. */
  ghost function Stuck(passes: seq<Pass>, ahead: set<Path>): set<Path> {
    set q | q in ahead && forall k :: 0 <= k < |passes| ==> q !in passes[k].gone
  }

  /** With a full batch of older files stuck ahead of it, a file never gets its turn. */
  lemma {:induction false} Starves(passes: seq<Pass>, dir: string, n: int, p: Path, stuck: set<Path>, k: nat)
    requires PassesOver(passes, dir, n, p) && k < |passes|
    requires stuck <= passes[0].files.Keys && |stuck| >= n
    requires forall q <- stuck :: passes[0].files[q].modTime < passes[0].files[p].modTime
    requires forall q <- stuck :: Waits(passes, q) && forall j :: 0 <= j < |passes| ==> q !in passes[j].gone
    ensures p in passes[k].files && passes[k].files[p] == passes[0].files[p] && p !in passes[k].batch
    ensures forall q <- stuck :: q in passes[k].files && passes[k].files[q] == passes[0].files[q]
    decreases k
  {
    if k == 0 {
    } else {
      Starves(passes, dir, n, p, stuck, k - 1);
      assert Continues(passes[k - 1], passes[k]);
    }
    NoRoomFor(passes[k], dir, n, p, stuck);
  }

  lemma NoRoomFor(x: Pass, dir: string, n: int, p: Path, stuck: set<Path>)
    requires Regular(x, dir, n) && p in x.files && |stuck| >= n
    requires forall q <- stuck :: q in x.all && x.files[q].modTime < x.files[p].modTime
    ensures p !in x.batch
  {
    if p in x.batch {
      NoDupsCard(x.batch);
      assert stuck + {p} <= SetOf(x.batch);
      SubsetCard(stuck + {p}, SetOf(x.batch));
    }
  }

  /**
   Among files that can be listed, are written at different times, and each leave at their first turn or never,
   p gets its turn within as many passes as there are older files if and only if fewer than a batch of them is stuck.
   */
  lemma TurnComesIff(passes: seq<Pass>, dir: string, n: int, p: Path)
    requires PassesOver(passes, dir, n, p) && Waits(passes, p)
    requires var ahead := Ahead(passes[0], dir, p);
      && |passes| > |ahead|
      && (forall q <- ahead :: Waits(passes, q) && passes[0].files[q].modTime != passes[0].files[p].modTime)
      && OthersLeave(passes, ahead, Stuck(passes, ahead))
    ensures (exists i :: 0 <= i < |passes| && p in passes[i].batch)
      <==> |Stuck(passes, Ahead(passes[0], dir, p))| < n
  {
    var ahead := Ahead(passes[0], dir, p);
    var stuck := Stuck(passes, ahead);
    if |stuck| < n {
      var i := TurnComes(passes, dir, n, p, ahead, stuck);
    } else {
      forall i | 0 <= i < |passes| ensures p !in passes[i].batch {
        Starves(passes, dir, n, p, stuck, i);
      }
    }
  }

  class SpoolReplayWorker {
    var files: Files
    var expired: map<Path, File>
    var redis: set<Record>       // accepted by the offline queue
    var kafka: seq<Record>       // accepted by the queue
    var attempted: seq<Path>     // files whose turn has come
    var written: Files           // every complete spool file there ever was
    const maxAge: int
    const batchSize: int
    const hasRedis: bool
    const hasProducer: bool
    /** No router spools while the worker is at work. */
    const alone: bool

    ghost predicate Stored(f: File)
      reads `redis, `kafka
    {
      f.record.Some? && (f.record.value in redis || f.record.value in kafka)
    }

    /** Where a spooled record can be: still on disk, archived, or taken over by a store. */
    ghost predicate Accounted(p: Path)
      requires p in written
      reads `files, `written, `expired, `redis, `kafka
    {
      || (p in files && files[p] == written[p])
      || (p in expired && expired[p] == written[p])
      || Stored(written[p])
    }

    ghost predicate NothingLost()
      reads `files, `written, `expired, `redis, `kafka
    {
      && batchSize > 0
      && (forall p :: p in files ==> p in written && files[p] == written[p])
      && (forall p :: p in written ==> Accounted(p))
    }

    constructor (maxAge: int, batchSize: int, hasRedis: bool, hasProducer: bool, alone: bool)
      ensures NothingLost() && files == written == expired == map[] && attempted == [] && redis == {} && kafka == []
      ensures this.hasRedis == hasRedis && this.hasProducer == hasProducer && this.alone == alone
      ensures this.maxAge == (if maxAge <= 0 then 86_400 else maxAge)
      ensures this.batchSize == if batchSize <= 0 then 50 else batchSize
    {
      files, expired, redis, kafka, attempted, written := map[], map[], {}, [], [], map[];
      this.maxAge := if maxAge <= 0 then 86_400 else maxAge;
      this.batchSize := if batchSize <= 0 then 50 else batchSize;
      this.hasRedis, this.hasProducer, this.alone := hasRedis, hasProducer, alone;
    }

    /** The router's writeLocalSpool: file names carry a nanosecond stamp and are never reused. */
    method WriteLocalSpool(p: Path, f: File)
      requires NothingLost() && p !in written
      modifies `files, `written
      ensures NothingLost() && files == old(files)[p := f] && written == old(written)[p := f]
    {
      files := files[p := f];
      written := written[p := f];
    }

    /** The router at work: any number of new files. */
    method RouterSpools()
      requires NothingLost()
      modifies `files, `written
      ensures NothingLost() && Grew(old(files), old(written), files) && Grew(old(written), old(written), written)
      ensures alone ==> files == old(files)
    {
      var added: Files := *;
      if alone {
        return;
      }
      if forall p <- added :: p !in written {
        files := files + added;
        written := written + added;
      }
    }

    predicate TooOld(f: File, now: int) {
      now - f.modTime > maxAge
    }

    /** A store that is configured confirmed the record. */
    predicate Replays(f: File, t: Turn) {
      f.record.Some? && ((hasRedis && t.redis.Clean?) || (hasProducer && t.kafka.Clean?))
    }

    /** The file is gone after its turn. */
    predicate Leaves(f: File, now: int, t: Turn) {
      t.read && if TooOld(f, now) then t.move.Removes() else Replays(f, t) && t.remove
    }

    function Kept(): Stores
      reads `expired, `redis, `kafka
    {
      Stores(expired, redis, kafka)
    }

    /** What one turn adds to the archive and the stores. */
    function AfterTurn(s: Stores, p: Path, f: File, now: int, t: Turn): Stores {
      if !t.read then s
      else if TooOld(f, now) then if t.move.Archives() then s.(expired := s.expired[p := f]) else s
      else if f.record.None? then s
      else Stores(s.expired,
                  s.redis + (if hasRedis && t.redis.Done() then {f.record.value} else {}),
                  s.kafka + (if hasProducer && t.kafka.Done() then [f.record.value] else []))
    }

    /** Both stores are asked; success if and only if one that is configured confirms. */
    method ReplayRecord(f: File, t: Turn) returns (ok: bool)
      modifies `redis, `kafka
      ensures ok <==>
        f.record.Some? && ((hasRedis && t.redis == Clean) || (hasProducer && t.kafka == Clean))
      ensures ok <==> Replays(f, t)
      ensures redis == old(redis) + if f.record.Some? && hasRedis && t.redis != Failed then {f.record.value} else {}
      ensures kafka == old(kafka) + if f.record.Some? && hasProducer && t.kafka != Failed then [f.record.value] else []
    {
      if f.record.None? {
        return false;
      }
      var redisOk, kafkaOk := false, false;
      if hasRedis {
        if t.redis.Done() {
          redis := redis + {f.record.value};
        }
        redisOk := t.redis.Clean?;
      }
      if hasProducer {
        if t.kafka.Done() {
          kafka := kafka + [f.record.value];
        }
        kafkaOk := t.kafka.Clean?;
      }
      return redisOk || kafkaOk;
    }

    /** Rename, else copy and delete: the source goes only after the copy exists. */
    method MoveToExpired(p: Path, m: Move)
      requires p in files
      modifies `files, `expired
      ensures files == if m.mkdir && (m.rename || (m.copy && m.remove)) then old(files) - {p} else old(files)
      ensures expired == if m.mkdir && (m.rename || m.copy) then old(expired)[p := old(files)[p]] else old(expired)
    {
      if !m.mkdir {
        return;
      }
      if m.rename {
        expired := expired[p := files[p]];
        files := files - {p};
        return;
      }
      if !m.copy {
        return;
      }
      expired := expired[p := files[p]];
      if m.remove {
        files := files - {p};
      }
    }

    /** One turn of the loop in drainDir. */
    method DrainFile(p: Path, now: int, t: Turn)
      requires NothingLost() && p in files
      modifies `files, `expired, `redis, `kafka, `attempted
      ensures NothingLost() && attempted == old(attempted) + [p]
      ensures files == if Leaves(old(files)[p], now, t) then old(files) - {p} else old(files)
      ensures Kept() == AfterTurn(old(Kept()), p, old(files)[p], now, t)
      ensures t.read && !TooOld(old(files)[p], now) && Replays(old(files)[p], t) ==> Stored(old(files)[p])
      // the same in full: when it leaves, and what the archive and the stores get
      ensures var f, m := old(files)[p], t.move;
        var archived := m.mkdir && (m.rename || (m.copy && m.remove));
        var replayed := f.record.Some? && ((hasRedis && t.redis == Clean) || (hasProducer && t.kafka == Clean));
        p !in files <==> t.read && (if now - f.modTime > maxAge then archived else replayed && t.remove)
      ensures var f, m := old(files)[p], t.move;
        expired == if t.read && now - f.modTime > maxAge && m.mkdir && (m.rename || m.copy)
          then old(expired)[p := f] else old(expired)
      ensures var f := old(files)[p];
        var replayed := t.read && now - f.modTime <= maxAge && f.record.Some?;
        && redis == old(redis) + (if replayed && hasRedis && t.redis != Failed then {f.record.value} else {})
        && kafka == old(kafka) + (if replayed && hasProducer && t.kafka != Failed then [f.record.value] else [])
    {
      attempted := attempted + [p];
      if !t.read {
        return;
      }
      var f := files[p];
      if now - f.modTime > maxAge {
        MoveToExpired(p, t.move);
        return;
      }
      var ok := ReplayRecord(f, t);
      if !ok {
        return;
      }
      if t.remove {
        files := files - {p};
      }
    }

    /** Why a file is gone: archived for its age, or else confirmed by a store. */
    ghost predicate Settled(f: File, now: int, p: Path, s: Stores) {
      if TooOld(f, now) then p in s.expired && s.expired[p] == f
      else f.record.Some? && (f.record.value in s.redis || f.record.value in s.kafka)
    }

    /** Of the files that were there, exactly those leave whose turn came and removes them. */
    ghost predicate Drained(was: Files, known: Files, batch: seq<Path>, now: int, turns: Path -> Turn,
                            files: Files, written: Files, s: Stores) {
      && (forall p <- was :: p in files <==> !(p in batch && Leaves(was[p], now, turns(p))))
      && (forall p <- was :: if p in files then files[p] == was[p] else Settled(was[p], now, p, s))
      && (forall p <- files :: p in was || (!alone && p !in known))
      && was.Keys <= known.Keys <= written.Keys
    }

    lemma NothingDrained(files: Files, written: Files, now: int, turns: Path -> Turn, s: Stores)
      requires files.Keys <= written.Keys
      ensures Drained(files, written, [], now, turns, files, written, s)
    {
    }

    /** The router has spooled meanwhile. */
    lemma DrainedAndSpooled(was: Files, known: Files, batch: seq<Path>, now: int, turns: Path -> Turn, s: Stores,
                            files: Files, written: Files, files': Files, written': Files)
      requires Drained(was, known, batch, now, turns, files, written, s)
      requires Grew(files, written, files') && Extends(written, written') && (alone ==> files' == files)
      ensures Drained(was, known, batch, now, turns, files', written', s)
    {
    }

    /** One more file has had its turn. */
    lemma DrainedOneMore(was: Files, known: Files, batch: seq<Path>, now: int, turns: Path -> Turn, s: Stores,
                         files: Files, written: Files, p: Path)
      requires Drained(was, known, batch, now, turns, files, written, s) && p in was && p !in batch
      ensures p in files && files[p] == was[p]
      ensures
        var files' := if Leaves(was[p], now, turns(p)) then files - {p} else files;
        Drained(was, known, batch + [p], now, turns, files', written, AfterTurn(s, p, was[p], now, turns(p)))
    {
    }

    /** Two batches one after the other, the second of files left by the first. */
    lemma DrainedTwice(was: Files, known: Files, batch: seq<Path>, mid: Files, spooled: Files, more: seq<Path>,
                       now: int, turns: Path -> Turn, s: Stores, files: Files, written: Files, s': Stores)
      requires Drained(was, known, batch, now, turns, mid, spooled, s)
      requires Drained(mid, spooled, more, now, turns, files, written, s') && forall p <- more :: p in mid
      requires s.redis <= s'.redis && s.kafka <= s'.kafka
      requires forall p <- s.expired :: p !in more ==> p in s'.expired && s'.expired[p] == s.expired[p]
      ensures Drained(was, known, batch + more, now, turns, files, written, s')
    {
    }

    /** What the turns of a batch add to the archive and the stores. */
    ghost function AfterBatch(s: Stores, batch: seq<Path>, files: Files, now: int, turns: Path -> Turn): Stores
      requires forall p <- batch :: p in files
      decreases |batch|
    {
      if batch == [] then s
      else
        var n := |batch| - 1;
        AfterTurn(AfterBatch(s, batch[..n], files, now, turns), batch[n], files[batch[n]], now, turns(batch[n]))
    }

    lemma {:induction false} SameFiles(s: Stores, batch: seq<Path>, a: Files, b: Files, now: int, turns: Path -> Turn)
      requires forall p <- batch :: p in a && p in b && a[p] == b[p]
      ensures AfterBatch(s, batch, a, now, turns) == AfterBatch(s, batch, b, now, turns)
      decreases |batch|
    {
      if batch == [] {
      } else {
        SameFiles(s, batch[..|batch| - 1], a, b, now, turns);
      }
    }

    /** Nothing is forgotten, and the archive changes only at files of the batch. */
    lemma {:induction false} BatchForgetsNothing(s: Stores, batch: seq<Path>, files: Files, now: int,
                                                 turns: Path -> Turn)
      requires forall p <- batch :: p in files
      ensures var r := AfterBatch(s, batch, files, now, turns);
              && s.redis <= r.redis && s.kafka <= r.kafka
              && (forall p <- s.expired :: p !in batch ==> p in r.expired && r.expired[p] == s.expired[p])
      decreases |batch|
    {
      if batch == [] {
      } else {
        BatchForgetsNothing(s, batch[..|batch| - 1], files, now, turns);
      }
    }

    lemma OneMoreTurn(s: Stores, batch: seq<Path>, p: Path, files: Files, now: int, turns: Path -> Turn)
      requires p in files && forall q <- batch :: q in files
      ensures AfterBatch(s, batch + [p], files, now, turns)
           == AfterTurn(AfterBatch(s, batch, files, now, turns), p, files[p], now, turns(p))
    {
      assert (batch + [p])[..|batch|] == batch;
    }

    lemma {:induction false} BatchAfterBatch(s: Stores, a: seq<Path>, b: seq<Path>, files: Files, now: int,
                                             turns: Path -> Turn)
      requires (forall p <- a :: p in files) && forall p <- b :: p in files
      ensures AfterBatch(s, a + b, files, now, turns)
           == AfterBatch(AfterBatch(s, a, files, now, turns), b, files, now, turns)
      decreases |b|
    {
      if b == [] {
        assert a + b == a;
      } else {
        var n := |b| - 1;
        BatchAfterBatch(s, a, b[..n], files, now, turns);
        assert (a + b)[..|a + b| - 1] == a + b[..n];
      }
    }

    ghost function Listed(files: Files, dir: string, turns: Path -> Turn): set<Path> {
      set p | p in InDir(files, dir) && turns(p).stat
    }

    /** The files of a directory whose name ends in .json and whose details could be read. */
    lemma ListedMeans(files: Files, dir: string, turns: Path -> Turn, p: Path)
      ensures p in Listed(files, dir, turns) <==>
        p in files && p.dir == dir && turns(p).stat && exists stem :: p.name == stem + ".json"
    {
      if |p.name| >= 5 && p.name[|p.name| - 5..] == ".json" {
        assert p.name == p.name[..|p.name| - 5] + ".json";
      }
    }

    lemma FilesAreWritten()
      requires NothingLost()
      ensures batchSize > 0 && files.Keys <= written.Keys && forall p <- files :: files[p] == written[p]
    {
    }

    /** The next file's turn; meanwhile the router has gone on spooling. */
    method TakeTurn(p: Path, now: int, turns: Path -> Turn, ghost was: Files, ghost known: Files,
                    ghost batch: seq<Path>, ghost s: Stores)
      requires NothingLost() && Drained(was, known, batch, now, turns, files, written, Kept())
      requires p in was && p !in batch
      requires (forall q <- batch :: q in written) && Kept() == AfterBatch(s, batch, written, now, turns)
      modifies `files, `written, `expired, `redis, `kafka, `attempted
      ensures NothingLost() && attempted == old(attempted) + [p]
      ensures Drained(was, known, batch + [p], now, turns, files, written, Kept()) && Extends(old(written), written)
      ensures p in written && Kept() == AfterBatch(s, batch + [p], written, now, turns)
    {
      hide AfterBatch, AfterTurn, Drained, Grew, Leaves;
      ghost var before, kept := files, Kept();
      FilesAreWritten();
      RouterSpools();
      DrainedAndSpooled(was, known, batch, now, turns, kept, before, old(written), files, written);
      DrainedOneMore(was, known, batch, now, turns, kept, files, written, p);
      FilesAreWritten();
      SameFiles(s, batch, old(written), written, now, turns);
      OneMoreTurn(s, batch, p, written, now, turns);
      DrainFile(p, now, turns(p));
    }

    /** One directory of one pass. */
    method DrainDir(dir: string, now: int, listed: bool, turns: Path -> Turn)
      requires NothingLost()
      modifies `files, `written, `expired, `redis, `kafka, `attempted
      ensures NothingLost() && old(attempted) <= attempted && Extends(old(written), written)
      ensures var batch := attempted[|old(attempted)|..];
        && Drained(old(files), old(written), batch, now, turns, files, written, Kept())
        && (forall p <- batch :: p in written) && Kept() == AfterBatch(old(Kept()), batch, written, now, turns)
        && if listed then OldestBatch(batch, old(files), Listed(old(files), dir, turns), batchSize) else batch == []
    {
      FilesAreWritten();
      NothingDrained(files, written, now, turns, Kept());
      if !listed {
        assert attempted[|attempted|..] == [];
        return;
      }
      var all := set p | p in InDir(files, dir) && turns(p).stat;
      var order := SortOldestFirst(files, all);
      var limit := if batchSize > |order| then |order| else batchSize;
      FirstOnes(order, files, all, limit, batchSize);
      hide NothingLost, Drained, OldestBatch, OldestFirst, InDir;
      ghost var before := attempted;
      DrainInOrder(order, limit, now, turns, all);
      assert attempted[|before|..] == order[..limit];
    }

    /** The loop over the batch. */
    method DrainInOrder(order: seq<Path>, limit: nat, now: int, turns: Path -> Turn, ghost all: set<Path>)
      requires NothingLost() && OldestFirst(order, files, all) && limit <= |order|
      modifies `files, `written, `expired, `redis, `kafka, `attempted
      ensures NothingLost() && attempted == old(attempted) + order[..limit] && Extends(old(written), written)
      ensures (forall p <- order[..limit] :: p in written)
      ensures Kept() == AfterBatch(old(Kept()), order[..limit], written, now, turns)
      ensures Drained(old(files), old(written), order[..limit], now, turns, files, written, Kept())
    {
      hide NothingLost, Drained, OldestFirst;
      ghost var was, known, before, s := files, written, attempted, Kept();
      FilesAreWritten();
      NothingDrained(files, written, now, turns, Kept());
      assert order[..0] == [];
      var i := 0;
      while i < limit
        invariant 0 <= i <= limit && NothingLost()
        invariant attempted == before + order[..i]
        invariant Drained(was, known, order[..i], now, turns, files, written, Kept())
        invariant Extends(known, written) && forall p <- order[..i] :: p in written
        invariant Kept() == AfterBatch(s, order[..i], written, now, turns)
      {
        NextTurn(order, was, all, i);
        TakeTurn(order[i], now, turns, was, known, order[..i], s);
        i := i + 1;
      }
    }

    /** The paths of one directory among those attempted. */
    ghost function In(batch: seq<Path>, dir: string): set<Path> {
      set p | p in batch && p.dir == dir
    }

    /** A directory that could be listed has had its batch: everything that was in it, or a full one. */
    ghost predicate Served(batch: seq<Path>, was: Files, dir: string, turns: Path -> Turn) {
      Listed(was, dir, turns) <= SetOf(batch) || |In(batch, dir)| >= batchSize
    }

    /**
     A whole pass over the date directories, in the order ReadDir lists them: of the files that were there,
     exactly those leave whose turn comes and removes them, and every directory listed is served.
     */
    method ProcessOnce(dirs: seq<string>, now: int, listed: string -> bool, turns: Path -> Turn)
      requires NothingLost()
      modifies `files, `written, `expired, `redis, `kafka, `attempted
      ensures NothingLost() && old(attempted) <= attempted
      ensures var batch := attempted[|old(attempted)|..];
        && Drained(old(files), old(written), batch, now, turns, files, written, Kept())
        && (forall p <- batch :: p in written) && Kept() == AfterBatch(old(Kept()), batch, written, now, turns)
        && (forall d <- dirs :: listed(d) ==> Served(batch, old(files), d, turns))
    {
      hide NothingLost, Drained, OldestBatch, Served;
      ghost var was, known, before, s := files, written, attempted, Kept();
      FilesAreWritten();
      NothingDrained(files, written, now, turns, Kept());
      assert attempted == before + [];
      ghost var batch: seq<Path> := [];
      var i := 0;
      while i < |dirs|
        invariant 0 <= i <= |dirs| && NothingLost() && attempted == before + batch
        invariant Drained(was, known, batch, now, turns, files, written, Kept())
        invariant (forall p <- batch :: p in written) && Kept() == AfterBatch(s, batch, written, now, turns)
        invariant forall j :: 0 <= j < i && listed(dirs[j]) ==> Served(batch, was, dirs[j], turns)
      {
        ghost var more := DrainNext(dirs[i], now, listed(dirs[i]), turns, was, known, batch, s);
        forall j | 0 <= j < i && listed(dirs[j]) ensures Served(batch + more, was, dirs[j], turns) {
          ServedGrows(batch, more, was, dirs[j], turns);
        }
        batch := batch + more;
        i := i + 1;
      }
      assert attempted[|before|..] == batch;
    }

    /** The router spools, then the next directory is drained; seen from the beginning of the pass. */
    method DrainNext(dir: string, now: int, listed: bool, turns: Path -> Turn,
                     ghost was: Files, ghost known: Files, ghost batch: seq<Path>, ghost s: Stores)
      returns (ghost more: seq<Path>)
      requires NothingLost() && Drained(was, known, batch, now, turns, files, written, Kept())
      requires (forall p <- batch :: p in written) && Kept() == AfterBatch(s, batch, written, now, turns)
      modifies `files, `written, `expired, `redis, `kafka, `attempted
      ensures NothingLost() && attempted == old(attempted) + more
      ensures Drained(was, known, batch + more, now, turns, files, written, Kept())
      ensures (forall p <- batch + more :: p in written)
      ensures Kept() == AfterBatch(s, batch + more, written, now, turns)
      ensures listed ==> Served(batch + more, was, dir, turns)
    {
      hide NothingLost, Drained, OldestBatch, Served, AfterBatch, Grew;
      ghost var before, known', kept := files, written, Kept();
      FilesAreWritten();
      RouterSpools();
      DrainedAndSpooled(was, known, batch, now, turns, kept, before, known', files, written);
      ghost var mid, spooled, soFar := files, written, attempted;
      DrainDir(dir, now, listed, turns);
      more := attempted[|soFar|..];
      InBatch(more, mid, Listed(mid, dir, turns));
      BatchForgetsNothing(kept, more, written, now, turns);
      DrainedTwice(was, known, batch, mid, spooled, more, now, turns, kept, files, written, Kept());
      SameFiles(s, batch, known', written, now, turns);
      BatchAfterBatch(s, batch, more, written, now, turns);
      if listed {
        StillThere(was, known, batch, now, turns, mid, spooled, kept);
        ServedNow(batch, more, was, mid, dir, turns);
      }
    }

    lemma InBatch(more: seq<Path>, files: Files, all: set<Path>)
      ensures OldestBatch(more, files, all, batchSize) || more == [] ==> forall p <- more :: p in files
    {
      assert forall p <- more :: p in SetOf(more);
    }

    lemma StillThere(was: Files, known: Files, batch: seq<Path>, now: int, turns: Path -> Turn, mid: Files,
                     written: Files, s: Stores)
      requires Drained(was, known, batch, now, turns, mid, written, s)
      ensures forall p <- was :: p in mid || p in batch
    {
    }

    lemma ServedGrows(batch: seq<Path>, more: seq<Path>, was: Files, dir: string, turns: Path -> Turn)
      requires Served(batch, was, dir, turns)
      ensures Served(batch + more, was, dir, turns)
    {
      SubsetCard(In(batch, dir), In(batch + more, dir));
    }

    lemma ServedNow(batch: seq<Path>, more: seq<Path>, was: Files, mid: Files, dir: string, turns: Path -> Turn)
      requires OldestBatch(more, mid, Listed(mid, dir, turns), batchSize)
      requires forall p <- was :: p in mid || p in batch
      ensures Served(batch + more, was, dir, turns)
    {
      NoDupsCard(more);
      SubsetCard(SetOf(more), In(batch + more, dir));
    }

    /** The ticker's passes as one directory sees them, `turns[k]` being what happens in the k-th. */
    method PassesOverDir(dir: string, ticks: seq<int>, turns: seq<Path -> Turn>) returns (ghost passes: seq<Pass>)
      requires NothingLost() && |turns| == |ticks|
      modifies `files, `written, `expired, `redis, `kafka, `attempted
      ensures NothingLost() && |passes| == |ticks|
      ensures forall k :: 0 <= k < |passes| ==>
        Regular(passes[k], dir, batchSize) && Took(passes[k], dir, ticks[k], turns[k])
      ensures forall k :: 0 <= k < |passes| - 1 ==> Continues(passes[k], passes[k + 1])
    {
      hide NothingLost, Regular, Took, Continues, Grew;
      passes := [];
      var i := 0;
      while i < |ticks|
        invariant 0 <= i == |passes| <= |ticks| && NothingLost()
        invariant forall k :: 0 <= k < i ==>
          Regular(passes[k], dir, batchSize) && Took(passes[k], dir, ticks[k], turns[k])
        invariant forall k :: 0 <= k < i - 1 ==> Continues(passes[k], passes[k + 1])
        invariant i > 0 ==>
          passes[i - 1].files.Keys <= written.Keys && Continues(passes[i - 1], passes[i - 1].(files := files))
      {
        ghost var before, known := files, written;
        ghost var x := OnePass(dir, ticks[i], turns[i]);
        if i > 0 {
          ContinuesWith(passes[i - 1], before, known, x);
        }
        passes := passes + [x];
        i := i + 1;
      }
    }

    /** What was listed, and what left, is as the operations decide. */
    ghost predicate Took(x: Pass, dir: string, now: int, turns: Path -> Turn) {
      && x.all == Listed(x.files, dir, turns)
      && (forall q <- x.batch :: q in x.files && (q in x.gone <==> Leaves(x.files[q], now, turns(q))))
    }

    method OnePass(dir: string, now: int, turns: Path -> Turn) returns (ghost x: Pass)
      requires NothingLost()
      modifies `files, `written, `expired, `redis, `kafka, `attempted
      ensures NothingLost() && Regular(x, dir, batchSize) && Took(x, dir, now, turns)
      ensures Grew(old(files), old(written), x.files) && Extends(old(written), written)
      ensures x.files.Keys <= written.Keys && Continues(x, x.(files := files))
    {
      hide OldestBatch;
      RouterSpools();
      ghost var was, before := files, attempted;
      DrainDir(dir, now, true, turns);
      ghost var batch := attempted[|before|..];
      ghost var gone := set q | q in batch && q in was && Leaves(was[q], now, turns(q));
      x := Pass(was, Listed(was, dir, turns), batch, gone);
      BatchIsListed(batch, was, dir, turns);
    }

    lemma BatchIsListed(batch: seq<Path>, was: Files, dir: string, turns: Path -> Turn)
      requires NothingLost() && OldestBatch(batch, was, Listed(was, dir, turns), batchSize)
      ensures batchSize > 0 && forall q <- batch :: q in was
    {
      assert forall q <- batch :: q in SetOf(batch);
    }
  }

  lemma NextTurn(order: seq<Path>, files: Files, all: set<Path>, i: nat)
    requires OldestFirst(order, files, all) && i < |order|
    ensures order[i] in files && order[i] !in order[..i] && order[..i + 1] == order[..i] + [order[i]]
  {
  }

  lemma FirstOnes(order: seq<Path>, files: Files, all: set<Path>, limit: nat, n: int)
    requires OldestFirst(order, files, all) && n > 0 && limit == if n > |order| then |order| else n
    ensures OldestBatch(order[..limit], files, all, n)
  {
    HeadIsOldest(order, files, all, limit);
  }

  // ---------------------------------------------------------------- a file that never gets its turn

  const BAD := Path("20240101", "a.json")
  const GOOD := Path("20240101", "b.json")
  const MALFORMED := File(None, 0)
  const SPOOLED := File(Some(Record("m", 1, 1)), 1)
  const WORKING := Turn(true, true, Clean, Clean, true, Move(true, true, true, true))

  function Working(p: Path): Turn {
    WORKING
  }

  /** A worker on its own with one-file batches, a maximal age of 100 and both stores. */
  ghost predicate Small(w: SpoolReplayWorker)
    reads w
  {
    w.NothingLost() && w.alone && w.batchSize == 1 && w.maxAge == 100 && w.hasRedis && w.hasProducer
  }

  lemma SpoolFiles()
    ensures IsSpoolFile(BAD) && IsSpoolFile(GOOD) && BAD != GOOD
  {
    assert BAD.name[1..] == ".json" && GOOD.name[1..] == ".json";
    assert BAD.name[0] != GOOD.name[0];
  }

  lemma TheOldest(batch: seq<Path>, files: Files, all: set<Path>, p: Path)
    requires OldestBatch(batch, files, all, 1) && p in all
    requires forall q <- all :: q != p ==> files[q].modTime > files[p].modTime
    ensures batch == [p]
  {
    if batch != [] {
      assert batch[0] in SetOf(batch);
    }
  }

  /** A pass over one directory in which every operation works: the oldest file p is attempted. */
  method TryOldest(w: SpoolReplayWorker, now: int, ghost p: Path)
    requires Small(w) && p in w.files && IsSpoolFile(p) && p.dir == "20240101"
    requires forall q <- w.files :: q != p ==> w.files[q].modTime > w.files[p].modTime
    modifies w
    ensures Small(w) && w.attempted == old(w.attempted) + [p]
    ensures w.Kept() == w.AfterTurn(old(w.Kept()), p, old(w.files)[p], now, WORKING)
    ensures w.files == if w.Leaves(old(w.files)[p], now, WORKING) then old(w.files) - {p} else old(w.files)
  {
    hide SpoolReplayWorker.NothingLost, OldestBatch, SpoolReplayWorker.AfterTurn, SpoolReplayWorker.Leaves;
    hide SpoolReplayWorker.AfterBatch, IsSpoolFile;
    ghost var s, before, was := w.Kept(), w.attempted, w.files;
    w.FilesAreWritten();
    w.DrainDir("20240101", now, true, Working);
    ghost var batch := w.attempted[|before|..];
    TheOldest(batch, was, w.Listed(was, "20240101", Working), p);
    assert w.files == if w.Leaves(was[p], now, WORKING) then was - {p} else was;
    OneTurn(w, s, p, now);
    assert w.written[p] == was[p];
  }

  lemma OneTurn(w: SpoolReplayWorker, s: Stores, p: Path, now: int)
    requires p in w.written
    ensures w.AfterBatch(s, [p], w.written, now, Working) == w.AfterTurn(s, p, w.written[p], now, WORKING)
  {
    assert [] + [p] == [p];
    w.OneMoreTurn(s, [], p, w.written, now, Working);
  }

  /**
   Everything works, in batches of one: a malformed file is tried again and again, and when both are too old, the
   good one behind it is archived without any store having been asked.
   */
  method MalformedFileStarves(early: seq<int>, late: int) returns (w: SpoolReplayWorker)
    requires (forall k :: 0 <= k < |early| ==> early[k] <= 100) && late > 200
    ensures w.attempted == seq(|early| + 1, _ => BAD) + [GOOD]
    ensures GOOD in w.expired && w.expired[GOOD] == SPOOLED && w.redis == {} && w.kafka == []
  {
    SpoolFiles();
    w := new SpoolReplayWorker(100, 1, true, true, true);
    w.WriteLocalSpool(BAD, MALFORMED);
    w.WriteLocalSpool(GOOD, SPOOLED);
    var i := 0;
    while i < |early|
      invariant 0 <= i <= |early| && Small(w) && w.attempted == seq(i, _ => BAD)
      invariant w.files == map[BAD := MALFORMED, GOOD := SPOOLED] && w.Kept() == Stores(map[], {}, [])
    {
      TryOldest(w, early[i], BAD);
      i := i + 1;
    }
    TryOldest(w, late, BAD);
    TryOldest(w, late, GOOD);
  }
}
