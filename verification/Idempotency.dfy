/**
 The in-memory duplicate cache (internal/router/idempotency.go): 64 shards of message-hash to
 expiry time, with lazy deletion on lookup and a two-phase eviction when a shard overflows.
 */
module Idempotency {
  const NUM_SHARDS: int := 64
  const MAX_SHARD_SIZE: int := 2000
  const ENTRY_TTL: int := 300_000_000_000 // five minutes in nanoseconds

  datatype Entry = Entry(k: nat, exp: int)

  type Shard = map<nat, int>

  // ---------------------------------------------------------------- the partial selection sort

  /** The first m positions hold smallest entries: none of them expires after anything behind it. */
  ghost predicate SortedPrefix(s: seq<Entry>, m: int) {
    forall i, j :: 0 <= i < m && i < j < |s| ==> s[i].exp <= s[j].exp
  }

  method Swap(a: array<Entry>, i: nat, j: nat)
    requires i < a.Length && j < a.Length
    modifies a
    ensures a[..] == old(a[..])[i := old(a[j])][j := old(a[i])]
    ensures multiset(a[..]) == multiset(old(a[..]))
  {
    a[i], a[j] := a[j], a[i];
  }

  method MinFrom(a: array<Entry>, i: nat) returns (minIdx: nat)
    requires i < a.Length
    ensures i <= minIdx < a.Length
    ensures forall j :: i <= j < a.Length ==> a[minIdx].exp <= a[j].exp
  {
    minIdx := i;
    var j := i + 1;
    while j < a.Length
      invariant i < j <= a.Length && i <= minIdx < a.Length
      invariant forall x :: i <= x < j ==> a[minIdx].exp <= a[x].exp
    {
      if a[j].exp < a[minIdx].exp {
        minIdx := j;
      }
      j := j + 1;
    }
  }

  method PartialSelectionSort(a: array<Entry>, mid: nat)
    requires mid <= a.Length
    modifies a
    ensures multiset(a[..]) == multiset(old(a[..]))
    ensures SortedPrefix(a[..], mid)
  {
    var i := 0;
    while i < mid
      invariant 0 <= i <= mid
      invariant multiset(a[..]) == multiset(old(a[..]))
      invariant SortedPrefix(a[..], i)
    {
      var minIdx := MinFrom(a, i);
      ghost var before := a[..];
      Swap(a, i, minIdx);
      SwapExtendsPrefix(before, i, minIdx, a[..]);
      i := i + 1;
    }
  }

  lemma SwapExtendsPrefix(s: seq<Entry>, i: nat, m: nat, t: seq<Entry>)
    requires i <= m < |s| && t == s[i := s[m]][m := s[i]]
    requires SortedPrefix(s, i) && forall j :: i <= j < |s| ==> s[m].exp <= s[j].exp
    ensures SortedPrefix(t, i + 1)
  {
  }

  // ---------------------------------------------------------------- eviction

  function Unexpired(seen: Shard, now: int): Shard {
    map k | k in seen && now <= seen[k] :: seen[k]
  }

  /** `kept` is what may remain of an overfull shard: half of it, and nothing dropped outlives anything kept. */
  ghost predicate HalfDropped(all: Shard, kept: Shard) {
    && kept.Keys <= all.Keys
    && (forall k :: k in kept ==> kept[k] == all[k])
    && |kept| == |all| - |all| / 2
    && (forall d, k :: d in all && d !in kept && k in kept ==> all[d] <= all[k])
  }

  ghost function KeysOf(es: seq<Entry>): set<nat> {
    set e | e in es :: e.k
  }

  /** The entries list every pair of the map exactly once. */
  ghost predicate Lists(es: seq<Entry>, m: Shard) {
    && (forall i :: 0 <= i < |es| ==> es[i].k in m && m[es[i].k] == es[i].exp)
    && (forall i, j :: 0 <= i < j < |es| ==> es[i].k != es[j].k)
    && |es| == |m|
  }

  lemma {:induction false} KeysCard(es: seq<Entry>)
    requires forall i, j :: 0 <= i < j < |es| ==> es[i].k != es[j].k
    ensures |KeysOf(es)| == |es|
  {
    if es == [] {
    } else {
      var n := |es| - 1;
      KeysCard(es[..n]);
      assert es == es[..n] + [es[n]];
      assert KeysOf(es) == KeysOf(es[..n]) + {es[n].k};
    }
  }

  lemma ListsAll(es: seq<Entry>, m: Shard)
    requires Lists(es, m)
    ensures KeysOf(es) == m.Keys
  {
    KeysCard(es);
    SubsetCard(KeysOf(es), m.Keys);
  }

  lemma SubsetCard(a: set<nat>, b: set<nat>)
    requires a <= b && |a| == |b|
    ensures a == b
  {
    assert |b - a| == |b| - |a|;
  }

  /** A permutation of a listing is a listing. */
  lemma PermutedLists(es: seq<Entry>, fs: seq<Entry>, m: Shard)
    requires Lists(es, m) && multiset(fs) == multiset(es)
    ensures Lists(fs, m)
  {
    forall i | 0 <= i < |fs| ensures fs[i] in es {
      assert fs[i] in multiset(fs);
    }
    assert |multiset(fs)| == |multiset(es)|;
    forall i, j | 0 <= i < j < |fs| ensures fs[i].k != fs[j].k {
      OnceInListing(es, m, fs[i]);
      TwiceInMultiset(fs, i, j);
    }
  }

  lemma TwiceInMultiset(fs: seq<Entry>, i: nat, j: nat)
    requires i < j < |fs|
    ensures fs[i] == fs[j] ==> multiset(fs)[fs[i]] >= 2
  {
    assert fs == fs[..j] + [fs[j]] + fs[j + 1..];
    assert fs[i] in fs[..j];
  }

  lemma {:induction false} OnceInListing(es: seq<Entry>, m: Shard, e: Entry)
    requires forall i, j :: 0 <= i < j < |es| ==> es[i].k != es[j].k
    ensures multiset(es)[e] <= 1
  {
    if es == [] {
    } else {
      var n := |es| - 1;
      assert es == es[..n] + [es[n]];
      OnceInListing(es[..n], m, e);
    }
  }

  lemma PrefixExpiresFirst(es: seq<Entry>, m: Shard, mid: nat, d: nat, k: nat)
    requires Lists(es, m) && mid <= |es| && SortedPrefix(es, mid)
    requires d in KeysOf(es[..mid]) && k in KeysOf(es) && k !in KeysOf(es[..mid])
    ensures d in m && k in m && m[d] <= m[k]
  {
    var i :| 0 <= i < mid && es[i].k == d;
    var j :| 0 <= j < |es| && es[j].k == k;
    assert forall x :: 0 <= x < mid ==> es[x] == es[..mid][x] && es[x].k in KeysOf(es[..mid]);
    assert mid <= j;
  }

  /** Dropping the keys of a sorted prefix of half the listing. */
  lemma DropPrefix(es: seq<Entry>, m: Shard, mid: nat)
    requires Lists(es, m) && mid == |es| / 2 && SortedPrefix(es, mid)
    ensures HalfDropped(m, m - KeysOf(es[..mid]))
  {
    ListsAll(es, m);
    KeysCard(es[..mid]);
    var dropped := KeysOf(es[..mid]);
    var kept := m - dropped;
    assert kept.Keys == m.Keys - dropped;
    assert |kept.Keys| == |m.Keys| - |dropped|;
    forall d, k | d in m && d !in kept && k in kept ensures m[d] <= m[k] {
      PrefixExpiresFirst(es, m, mid, d, k);
    }
  }

  // ---------------------------------------------------------------- the cache

  /** The hash has an entry in its shard, expired or not. */
  predicate Remembers(shards: seq<Shard>, h: nat) {
    |shards| == NUM_SHARDS && h in shards[h % NUM_SHARDS]
  }

  class IdempotencyChecker {
    var shards: seq<Shard>

    ghost predicate Valid()
      reads this
    {
      && |shards| == NUM_SHARDS
      && (forall i :: 0 <= i < NUM_SHARDS ==> |shards[i]| <= MAX_SHARD_SIZE)
    }

    predicate Has(h: nat)
      reads this
    {
      Remembers(shards, h)
    }

    constructor ()
      ensures Valid() && |shards| == 64 && forall s <- shards :: s == map[]
      ensures forall h: nat :: !Has(h)
    {
      shards := seq(NUM_SHARDS, _ => map[]);
    }

    /** Memory part of IsDuplicate: a hit counts only strictly before its expiry; a stale entry is removed. */
    method Lookup(h: nat, now: int) returns (hit: bool)
      requires Valid()
      modifies this
      ensures Valid()
      ensures hit <==> old(Has(h)) && now < old(shards)[h % 64][h]
      ensures shards == if hit || !old(Has(h)) then old(shards)
        else old(shards)[h % 64 := old(shards)[h % 64] - {h}]
    {
      var i := h % NUM_SHARDS;
      if h in shards[i] {
        if now < shards[i][h] {
          return true;
        }
        assert (shards[i] - {h}).Keys == shards[i].Keys - {h};
        shards := shards[i := shards[i] - {h}];
      }
      return false;
    }

    method MarkSeen(h: nat, now: int)
      requires Valid()
      modifies this
      ensures Valid()
      ensures forall x: nat :: Has(x) ==> old(Has(x)) || x == h
      // with five minutes to live; nothing goes unless the shard has 2001 entries, and then what is stale first
      ensures var i := h % 64;
              var all := old(shards)[i][h := now + 300_000_000_000];
              && |shards[i]| <= 2000 && (|all| <= 2000 ==> shards[i] == all)
              && (forall k <- shards[i] :: k in all && shards[i][k] == all[k])
              && (forall d <- all :: d !in shards[i] ==> all[d] < now || forall k <- shards[i] :: all[d] <= all[k])
              && (|all| > 2000 ==> forall k <- shards[i] :: now <= all[k])
      ensures var i := h % NUM_SHARDS;
              var all := old(shards)[i][h := now + ENTRY_TTL];
              && shards == old(shards)[i := shards[i]]
              && (|all| <= MAX_SHARD_SIZE ==> shards[i] == all)
              && (|all| > MAX_SHARD_SIZE >= |Unexpired(all, now)| ==> shards[i] == Unexpired(all, now))
              && (|Unexpired(all, now)| > MAX_SHARD_SIZE ==> HalfDropped(Unexpired(all, now), shards[i]))
    {
      var i := h % NUM_SHARDS;
      var sh := shards[i][h := now + ENTRY_TTL];
      assert sh.Keys == shards[i].Keys + {h};
      ghost var all := sh;
      UnexpiredCard(all, now);
      if |sh| > MAX_SHARD_SIZE {
        sh := Evict(sh, now);
      }
      shards := shards[i := sh];
    }
  }

  lemma UnexpiredCard(m: Shard, now: int)
    ensures |Unexpired(m, now)| <= |m|
  {
    assert Unexpired(m, now).Keys <= m.Keys;
    assert |m.Keys - Unexpired(m, now).Keys| == |m.Keys| - |Unexpired(m, now).Keys|;
  }

  method PurgeExpired(all: Shard, now: int) returns (seen: Shard)
    ensures seen == Unexpired(all, now)
    ensures forall k :: k in seen <==> k in all && now <= all[k]
    ensures forall k <- seen :: seen[k] == all[k]
  {
    seen := all;
    var todo := all.Keys;
    while todo != {}
      invariant todo <= all.Keys
      invariant seen == map k | k in all && (k in todo || now <= all[k]) :: all[k]
      decreases |todo|
    {
      var k :| k in todo;
      if now > seen[k] {
        seen := seen - {k};
      }
      todo := todo - {k};
    }
  }

  method Collect(seen: Shard) returns (es: seq<Entry>)
    ensures Lists(es, seen)
  {
    es := [];
    var todo := seen.Keys;
    while todo != {}
      invariant todo <= seen.Keys
      invariant forall i :: 0 <= i < |es| ==> es[i].k in seen && es[i].k !in todo && seen[es[i].k] == es[i].exp
      invariant forall i, j :: 0 <= i < j < |es| ==> es[i].k != es[j].k
      invariant |es| + |todo| == |seen|
      decreases |todo|
    {
      var k :| k in todo;
      es := es + [Entry(k, seen[k])];
      todo := todo - {k};
    }
  }

  /** Collects the shard and moves the half that expires first to the front. */
  method EarliestHalfFirst(seen: Shard) returns (es: seq<Entry>)
    ensures Lists(es, seen) && SortedPrefix(es, |es| / 2)
  {
    var all := Collect(seen);
    var entries := new Entry[|all|](i requires 0 <= i < |all| => all[i]);
    assert entries[..] == all;
    PartialSelectionSort(entries, |all| / 2);
    es := entries[..];
    PermutedLists(all, es, seen);
  }

  method DeleteFirst(all: Shard, es: seq<Entry>, mid: nat) returns (seen: Shard)
    requires mid <= |es|
    ensures seen == all - KeysOf(es[..mid])
  {
    seen := all;
    var i := 0;
    while i < mid
      invariant 0 <= i <= mid
      invariant seen == all - KeysOf(es[..i])
    {
      assert es[..i + 1] == es[..i] + [es[i]];
      assert KeysOf(es[..i + 1]) == KeysOf(es[..i]) + {es[i].k};
      seen := seen - {es[i].k};
      i := i + 1;
    }
  }

  /** evictShardLocked. */
  method Evict(all: Shard, now: int) returns (seen: Shard)
    ensures |Unexpired(all, now)| <= MAX_SHARD_SIZE ==> seen == Unexpired(all, now)
    ensures |Unexpired(all, now)| > MAX_SHARD_SIZE ==> HalfDropped(Unexpired(all, now), seen)
    ensures forall k <- seen :: k in all && now <= all[k] && seen[k] == all[k]
    ensures forall d <- all :: d !in seen ==> all[d] < now || forall k <- seen :: all[d] <= all[k]
  {
    seen := PurgeExpired(all, now);
    if |seen| > MAX_SHARD_SIZE {
      var es := EarliestHalfFirst(seen);
      DropPrefix(es, seen, |es| / 2);
      seen := DeleteFirst(seen, es, |es| / 2);
    }
  }
}
