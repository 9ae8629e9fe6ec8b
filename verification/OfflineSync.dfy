/**
 Offline synchronisation (internal/logic/service/sync.go): a client pages through the messages
 indexed for it, passing the cursor `CurrentSeq` of one reply as `lastSeq` of the next request.

 The user's Redis data is the ZSET `user_msgs:{uid}` (listed in score order), the status hash of
 every message, the counter `user_seq:{uid}` and the offline queue.
 */
module OfflineSync {
  import opened Bytes
  import opened Common
  import opened Messages
  import SeqAllocator

  type MsgId = seq<Byte>

  datatype Status = Pending | Delivered | Acked | Failed

  /** A status hash; `seqField` is what ParseInt makes of its "seq" field (0 if absent or malformed). */
  datatype Hash = Hash(seqField: int, status: Status, fromUid: int, toUid: int, createdAt: int, body: seq<Byte>)

  datatype Entry = Entry(id: MsgId, score: int)

  function BodyOf(id: MsgId, seqNo: int, h: Hash): MsgBody {
    MsgBody(id, h.fromUid, h.toUid, h.createdAt, seqNo, h.body)
  }

  function EffectiveLimit(limit: int): (l: nat)
    ensures 1 <= l <= 200 && (1 <= limit <= 200 ==> l == limit) && (limit < 1 || limit > 200 ==> l == 100)
  {
    if limit <= 0 || limit > 200 then 100 else limit
  }

  // ---------------------------------------------------------------- what a page is

  /** ZSET order: scores never decrease along the listing. */
  ghost predicate Listed(index: seq<Entry>) {
    forall i, j :: 0 <= i < j < |index| ==> index[i].score <= index[j].score
  }

  function After(index: seq<Entry>, last: int): seq<Entry> {
    if index == [] then []
    else if index[0].score > last then [index[0]] + After(index[1..], last)
    else After(index[1..], last)
  }

  function Take(s: seq<Entry>, n: nat): seq<Entry> {
    if |s| <= n then s else s[..n]
  }

  /** The messages a list of index entries contributes to a reply. */
  function Bodies(es: seq<Entry>, hashes: map<MsgId, Hash>): seq<MsgBody> {
    if es == [] then []
    else (if es[0].id in hashes && hashes[es[0].id].seqField > 0 && !hashes[es[0].id].status.Acked?
          then [BodyOf(es[0].id, hashes[es[0].id].seqField, hashes[es[0].id])] else [])
         + Bodies(es[1..], hashes)
  }

  /** Field by field, m is the message whose hash is kept under its id, numbered and not acked. */
  ghost predicate Carries(m: MsgBody, hashes: map<MsgId, Hash>) {
    && m.msgId in hashes
    && var h := hashes[m.msgId];
    && m.fromUid == h.fromUid && m.toUid == h.toUid && m.timestamp == h.createdAt && m.content == h.body
    && m.msgSeq == h.seqField && h.seqField > 0 && h.status != Acked
  }

  lemma {:induction false} BodiesMeans(es: seq<Entry>, hashes: map<MsgId, Hash>, m: MsgBody)
    ensures m in Bodies(es, hashes) <==> Carries(m, hashes) && exists e <- es :: e.id == m.msgId
  {
    if es == [] {
    } else {
      BodiesMeans(es[1..], hashes, m);
      assert forall e :: e in es <==> e == es[0] || e in es[1..];
    }
  }

  /** The cursor after going through the entries. */
  function Cursor(last: int, es: seq<Entry>, hashes: map<MsgId, Hash>): int
    decreases |es|
  {
    if es == [] then last
    else
      var s := if es[0].id in hashes then hashes[es[0].id].seqField else 0;
      Cursor(if s > 0 && s > last then s else last, es[1..], hashes)
  }

  /** The greatest number met, and never less than the cursor before. */
  lemma {:induction false} CursorMeans(last: int, es: seq<Entry>, hashes: map<MsgId, Hash>)
    ensures var c := Cursor(last, es, hashes);
      && c >= last && (forall e <- es :: e.id in hashes && hashes[e.id].seqField > 0 ==> hashes[e.id].seqField <= c)
      && (c == last || exists e <- es :: e.id in hashes && hashes[e.id].seqField == c > 0)
    decreases |es|
  {
    if es == [] {
    } else {
      var s := if es[0].id in hashes then hashes[es[0].id].seqField else 0;
      CursorMeans(if s > 0 && s > last then s else last, es[1..], hashes);
      assert forall e :: e in es <==> e == es[0] || e in es[1..];
    }
  }

  /** Messages on the page that the service drops from the offline queue. */
  function AckedOn(es: seq<Entry>, hashes: map<MsgId, Hash>): set<MsgId> {
    set e | e in es && e.id in hashes && hashes[e.id].seqField > 0 && hashes[e.id].status.Acked? :: e.id
  }

  datatype Faults = Faults(indexRead: bool, maxRead: bool, statusRead: bool)

  const NO_FAULTS := Faults(false, false, false)

  lemma {:induction false} BodiesConcat(a: seq<Entry>, b: seq<Entry>, hashes: map<MsgId, Hash>)
    ensures Bodies(a + b, hashes) == Bodies(a, hashes) + Bodies(b, hashes)
  {
    if a == [] {
      assert a + b == b;
    } else {
      assert (a + b)[1..] == a[1..] + b;
      BodiesConcat(a[1..], b, hashes);
    }
  }

  lemma Settle(done: seq<Entry>, a: seq<Entry>, k: nat, hashes: map<MsgId, Hash>)
    requires k <= |a|
    ensures Bodies(done + a[..k], hashes) == Bodies(done, hashes) + Bodies(a[..k], hashes)
    ensures AckedOn(done + a[..k], hashes) == AckedOn(done, hashes) + AckedOn(a[..k], hashes)
    ensures (done + a[..k]) + a[k..] == done + a
    ensures a[..|a|] == a
  {
    BodiesConcat(done, a[..k], hashes);
  }

  lemma {:induction false} CursorConcat(last: int, a: seq<Entry>, b: seq<Entry>, hashes: map<MsgId, Hash>)
    ensures Cursor(last, a + b, hashes) == Cursor(Cursor(last, a, hashes), b, hashes)
    decreases |a|
  {
    if a == [] {
      assert a + b == b;
    } else {
      assert (a + b)[1..] == a[1..] + b;
      var s := if a[0].id in hashes then hashes[a[0].id].seqField else 0;
      CursorConcat(if s > 0 && s > last then s else last, a[1..], b, hashes);
    }
  }

  // ---------------------------------------------------------------- the service

  lemma NextEntry(index: seq<Entry>, i: nat, last: int, es: seq<Entry>)
    requires i < |index|
    ensures es + After(index[i..], last) ==
      es + (if index[i].score > last then [index[i]] else []) + After(index[i + 1..], last)
  {
    assert index[i..][0] == index[i] && index[i..][1..] == index[i + 1..];
  }

  class SyncService {
    var index: seq<Entry>
    var hashes: map<MsgId, Hash>
    var maxSeq: int
    var offline: set<MsgId>

    constructor (index: seq<Entry>, hashes: map<MsgId, Hash>, maxSeq: int, offline: set<MsgId>)
      ensures this.index == index && this.hashes == hashes && this.maxSeq == maxSeq && this.offline == offline
    {
      this.index, this.hashes, this.maxSeq, this.offline := index, hashes, maxSeq, offline;
    }

    /** ZRANGEBYSCORE user_msgs:{uid} (lastSeq +inf LIMIT 0 limit. */
    method MessagesAfter(lastSeq: int, limit: nat) returns (es: seq<Entry>)
      ensures es == Take(After(index, lastSeq), limit)
      ensures |es| <= limit && forall e <- es :: e in index && e.score > lastSeq
      ensures |es| < limit ==> forall e <- index :: e.score > lastSeq ==> e in es
    {
      es := [];
      var i := 0;
      while i < |index| && |es| < limit
        invariant 0 <= i <= |index| && |es| <= limit
        invariant After(index, lastSeq) == es + After(index[i..], lastSeq)
      {
        hide After;
        NextEntry(index, i, lastSeq, es);
        if index[i].score > lastSeq {
          es := es + [index[i]];
        }
        i := i + 1;
      }
      if |es| < limit {
        assert index[i..] == [];
        assert es + [] == es;
      }
      AllAfter(index, lastSeq);
    }

    /** `statuses[k]` is the hash fetched for `es[k]`, None when Redis has no such key. */
    method BuildMessages(lastSeq: int, es: seq<Entry>, statuses: seq<Option<Hash>>)
      returns (messages: seq<MsgBody>, current: int)
      requires |statuses| == |es|
      requires forall k :: 0 <= k < |es| ==> statuses[k] == if es[k].id in hashes then Some(hashes[es[k].id]) else None
      modifies this`offline
      ensures messages == Bodies(es, hashes)
      ensures current == Cursor(lastSeq, es, hashes)
      ensures offline == old(offline) - AckedOn(es, hashes)
      ensures forall m :: m in messages <==> Carries(m, hashes) && exists e <- es :: e.id == m.msgId
      ensures forall id <- old(offline) :: id !in offline <==>
        (exists e <- es :: e.id == id) && id in hashes && hashes[id].seqField > 0 && hashes[id].status == Acked
    {
      messages, current := [], lastSeq;
      var i := 0;
      while i < |es|
        invariant 0 <= i <= |es|
        invariant messages == Bodies(es[..i], hashes)
        invariant current == Cursor(lastSeq, es[..i], hashes)
        invariant offline == old(offline) - AckedOn(es[..i], hashes)
      {
        var before := es[..i];
        assert es[..i + 1] == before + [es[i]];
        BodiesConcat(before, [es[i]], hashes);
        CursorConcat(lastSeq, before, [es[i]], hashes);
        assert AckedOn(es[..i + 1], hashes) == AckedOn(before, hashes) + AckedOn([es[i]], hashes);
        if statuses[i].Some? && statuses[i].value.seqField > 0 {
          var h := statuses[i].value;
          if h.seqField > current {
            current := h.seqField;
          }
          if h.status.Acked? {
            offline := offline - {es[i].id};
          } else {
            messages := messages + [BodyOf(es[i].id, h.seqField, h)];
          }
        }
        i := i + 1;
      }
      assert es[..i] == es;
      forall m ensures m in messages <==> Carries(m, hashes) && exists e <- es :: e.id == m.msgId {
        BodiesMeans(es, hashes, m);
      }
    }

    method GetOfflineMessages(lastSeq: int, limit: int, f: Faults) returns (r: Result<SyncReply, string>)
      modifies this`offline
      ensures r.Err? <==> f.indexRead || (f.statusRead && Take(After(index, lastSeq), EffectiveLimit(limit)) != [])
      ensures r.Err? ==> offline == old(offline)
      ensures r.Ok? ==>
                var page := Take(After(index, lastSeq), EffectiveLimit(limit));
                && r.value.messages == Bodies(page, hashes)
                && r.value.currentSeq == Cursor(lastSeq, page, hashes)
                && r.value.serverMaxSeq == (if f.maxRead then 0 else maxSeq)
                && (r.value.hasMore <==> r.value.currentSeq < r.value.serverMaxSeq && |page| >= EffectiveLimit(limit))
                && offline == old(offline) - AckedOn(page, hashes)
                && (forall m :: m in r.value.messages <==>
                     Carries(m, hashes) && exists e <- page :: e.id == m.msgId)
      ensures r.Ok? && !f.maxRead ==>
                && (r.value.hasMore <==> AsksForMore(index, hashes, maxSeq, EffectiveLimit(limit), lastSeq))
                && r.value.currentSeq == PageCursor(index, hashes, EffectiveLimit(limit), lastSeq)
      // a false HasMore may be believed if the counter was read or the page is not full
      ensures r.Ok? && !r.value.hasMore && Consistent(index, hashes, maxSeq) &&
              (!f.maxRead || |Take(After(index, lastSeq), EffectiveLimit(limit))| < EffectiveLimit(limit)) ==>
                Unacked(index, hashes, r.value.currentSeq) == []
    {
      var l := EffectiveLimit(limit);
      if f.indexRead {
        return Err("get user messages");
      }
      var es := MessagesAfter(lastSeq, l);
      var serverMax := if f.maxRead then 0 else maxSeq;
      var statuses := [];
      if es != [] {
        if f.statusRead {
          return Err("batch get message status");
        }
        statuses := seq(|es|, k requires 0 <= k < |es| reads this =>
          if es[k].id in hashes then Some(hashes[es[k].id]) else None);
      }
      var messages, current := BuildMessages(lastSeq, es, statuses);
      if Consistent(index, hashes, maxSeq) && (!f.maxRead || |es| < l) && !(current < serverMax && |es| >= l) {
        FalseHasMoreIsFinal(index, hashes, maxSeq, lastSeq, l, serverMax);
      }
      return Ok(SyncReply(current, serverMax, current < serverMax && |es| >= l, messages));
    }

    /** The client's loop: ask again from the returned cursor until the server has no more. */
    method SyncAll(lastSeq: int, limit: int) returns (got: seq<MsgBody>)
      requires Consistent(index, hashes, maxSeq)
      requires NoGap(After(index, lastSeq), hashes, EffectiveLimit(limit))
      modifies this`offline
      ensures got == Unacked(index, hashes, lastSeq)
      ensures forall m :: m in got <==> Wanted(index, hashes, lastSeq, m)
      ensures InSeqOrder(got)
      ensures offline == old(offline) - AckedOn(After(index, lastSeq), hashes)
      ensures forall id <- old(offline) :: id !in offline <==>
        (exists e <- index :: e.id == id && e.score > lastSeq) && id in hashes && hashes[id].status == Acked
    {
      hide After, Bodies, AckedOn, Cursor, Take, NoGap, Consistent, Unacked;
      NoBodies(hashes);
      var cursor, more := lastSeq, true;
      got := [];
      ghost var l := EffectiveLimit(limit);
      ghost var done: seq<Entry> := [];
      ghost var all := After(index, lastSeq);
      assert done + After(index, cursor) == all;
      while more
        invariant done + After(index, cursor) == all
        invariant NoGap(After(index, cursor), hashes, l)
        invariant got == Bodies(done, hashes)
        invariant offline == old(offline) - AckedOn(done, hashes)
        invariant !more ==> Bodies(After(index, cursor), hashes) == [] && AckedOn(After(index, cursor), hashes) == {}
        decreases more, |After(index, cursor)|
      {
        ghost var a := After(index, cursor);
        ghost var k := PageAdvances(index, hashes, maxSeq, cursor, l);
        var r := GetOfflineMessages(cursor, limit, NO_FAULTS);
        got := got + r.value.messages;
        Settle(done, a, k, hashes);
        done := done + a[..k];
        cursor, more := r.value.currentSeq, r.value.hasMore;
      }
      Settle(done, After(index, cursor), |After(index, cursor)|, hashes);
      UnackedIsBodies(index, hashes, maxSeq, lastSeq);
      UnackedInOrder(index, hashes, maxSeq, lastSeq);
      forall m ensures m in got <==> Wanted(index, hashes, lastSeq, m) {
        UnackedIsWanted(index, hashes, lastSeq, m);
      }
      forall id ensures id in AckedOn(all, hashes) <==>
        (exists e <- index :: e.id == id && e.score > lastSeq) && id in hashes && hashes[id].status == Acked
      {
        AckedAbove(index, hashes, maxSeq, lastSeq, id);
      }
    }
  }

  // ---------------------------------------------------------------- a store that agrees with itself

  /**
   Unique positive scores in listing order, none above the counter, and every status hash that
   still exists carrying its message's score. Hashes may have expired.
   */
  ghost predicate Consistent(index: seq<Entry>, hashes: map<MsgId, Hash>, maxSeq: int) {
    && (forall i, j :: 0 <= i < j < |index| ==> index[i].score < index[j].score)
    && (forall i :: 0 <= i < |index| ==> 0 < index[i].score <= maxSeq)
    && (forall i :: 0 <= i < |index| && index[i].id in hashes ==> hashes[index[i].id].seqField == index[i].score)
  }

  predicate Expired(es: seq<Entry>, hashes: map<MsgId, Hash>) {
    forall k :: 0 <= k < |es| ==> es[k].id !in hashes
  }

  /** The `l` entries from position `i` on have all lost their status hash. */
  predicate GapAt(es: seq<Entry>, hashes: map<MsgId, Hash>, l: nat, i: int) {
    0 <= i <= |es| - l && Expired(es[i..i + l], hashes)
  }

  ghost predicate NoGap(es: seq<Entry>, hashes: map<MsgId, Hash>, l: nat) {
    forall i :: !GapAt(es, hashes, l, i)
  }

  /** The un-acked messages above the cursor, in sequence order. */
  function Unacked(index: seq<Entry>, hashes: map<MsgId, Hash>, last: int): seq<MsgBody> {
    if index == [] then []
    else (if index[0].score > last && index[0].id in hashes && !hashes[index[0].id].status.Acked?
          then [BodyOf(index[0].id, index[0].score, hashes[index[0].id])] else [])
         + Unacked(index[1..], hashes, last)
  }

  lemma AckedAbove(index: seq<Entry>, hashes: map<MsgId, Hash>, maxSeq: int, last: int, id: MsgId)
    requires Consistent(index, hashes, maxSeq)
    ensures id in AckedOn(After(index, last), hashes) <==>
      (exists e <- index :: e.id == id && e.score > last) && id in hashes && hashes[id].status == Acked
  {
    AllAfter(index, last);
  }

  /** Field by field, m is an indexed, un-acked message above the cursor. */
  ghost predicate Wanted(index: seq<Entry>, hashes: map<MsgId, Hash>, last: int, m: MsgBody) {
    && m.msgSeq > last
    && Entry(m.msgId, m.msgSeq) in index
    && m.msgId in hashes
    && var h := hashes[m.msgId];
    && m.fromUid == h.fromUid && m.toUid == h.toUid && m.timestamp == h.createdAt && m.content == h.body
    && h.status != Acked
  }

  ghost predicate InSeqOrder(u: seq<MsgBody>) {
    forall i, j :: 0 <= i < j < |u| ==> u[i].msgSeq < u[j].msgSeq
  }

  lemma {:induction false} AfterIsSuffix(index: seq<Entry>, last: int) returns (k: nat)
    requires forall i, j :: 0 <= i < j < |index| ==> index[i].score < index[j].score
    ensures k <= |index| && After(index, last) == index[k..]
    ensures forall i :: 0 <= i < k ==> index[i].score <= last
    ensures forall i :: k <= i < |index| ==> index[i].score > last
  {
    if index == [] {
      k := 0;
    } else {
      k := AfterIsSuffix(index[1..], last);
      if index[0].score > last {
        assert forall i :: 0 <= i < |index| - 1 ==> index[1..][i].score > last;
        assert k == 0;
        assert After(index, last) == [index[0]] + index[1..];
      } else {
        assert index[1..][k..] == index[k + 1..];
        assert forall i :: 0 <= i < k ==> index[1..][i] == index[i + 1];
        assert forall i :: k + 1 <= i < |index| ==> index[i] == index[1..][i - 1];
        k := k + 1;
      }
    }
  }

  lemma {:induction false} ExpiredContributesNothing(last: int, es: seq<Entry>, hashes: map<MsgId, Hash>)
    requires Expired(es, hashes)
    ensures Bodies(es, hashes) == [] && Cursor(last, es, hashes) == last && AckedOn(es, hashes) == {}
  {
    if es == [] {
    } else {
      ExpiredContributesNothing(last, es[1..], hashes);
      assert Bodies(es[1..], hashes) == [];
    }
  }

  /** After an increasing list whose last entry is live, the cursor is that entry's number. */
  lemma {:induction false} CursorReachesLast(last: int, es: seq<Entry>, hashes: map<MsgId, Hash>, maxSeq: int)
    requires es != [] && Consistent(es, hashes, maxSeq) && es[0].score > last
    requires es[|es| - 1].id in hashes
    ensures Cursor(last, es, hashes) == es[|es| - 1].score
    decreases |es|
  {
    if |es| <= 1 {
    } else {
      var c := if es[0].id in hashes then es[0].score else last;
      assert es[1].score > es[0].score;
      CursorReachesLast(c, es[1..], hashes, maxSeq);
    }
  }

  /** How many leading entries one page settles: up to its last live entry, or all of it if nothing is live. */
  lemma LastLive(es: seq<Entry>, hashes: map<MsgId, Hash>) returns (k: nat)
    ensures k <= |es|
    ensures k > 0 ==> es[k - 1].id in hashes
    ensures Expired(es[k..], hashes)
  {
    k := |es|;
    while k > 0 && es[k - 1].id !in hashes
      invariant 0 <= k <= |es| && Expired(es[k..], hashes)
    {
      k := k - 1;
    }
  }

  lemma SuffixFacts(index: seq<Entry>, hashes: map<MsgId, Hash>, maxSeq: int, last: int)
    requires Consistent(index, hashes, maxSeq)
    ensures Consistent(After(index, last), hashes, maxSeq)
    ensures forall i :: 0 <= i < |After(index, last)| ==> After(index, last)[i].score > last
  {
    var m := AfterIsSuffix(index, last);
    hide After;
    assert forall i :: 0 <= i < |index[m..]| ==> index[m..][i] == index[m + i];
  }

  /** Continuing behind the k-th entry above a cursor drops exactly k entries. */
  lemma AfterEntry(index: seq<Entry>, hashes: map<MsgId, Hash>, maxSeq: int, last: int, k: nat)
    requires Consistent(index, hashes, maxSeq) && 0 < k <= |After(index, last)|
    ensures After(index, After(index, last)[k - 1].score) == After(index, last)[k..]
  {
    var m := AfterIsSuffix(index, last);
    var n := AfterIsSuffix(index, index[m + k - 1].score);
    hide After;
    assert m + k < |index| ==> index[m + k].score > index[m + k - 1].score;
    assert n == m + k;
    assert index[m..][k..] == index[m + k..];
  }

  /** What the entries up to the last live one are worth, the rest is not. */
  lemma PageWorth(page: seq<Entry>, k: nat, hashes: map<MsgId, Hash>, maxSeq: int, last: int)
    requires k <= |page| && Expired(page[k..], hashes) && Consistent(page, hashes, maxSeq)
    requires k > 0 ==> page[k - 1].id in hashes && page[0].score > last
    ensures Bodies(page, hashes) == Bodies(page[..k], hashes)
    ensures AckedOn(page, hashes) == AckedOn(page[..k], hashes)
    ensures Cursor(last, page, hashes) == if k == 0 then last else page[k - 1].score
  {
    var live, dead := page[..k], page[k..];
    assert page == live + dead;
    BodiesConcat(live, dead, hashes);
    CursorConcat(last, live, dead, hashes);
    ExpiredContributesNothing(last, dead, hashes);
    ExpiredContributesNothing(Cursor(last, live, hashes), dead, hashes);
    assert AckedOn(page, hashes) == AckedOn(live, hashes) + AckedOn(dead, hashes);
    assert Bodies(live, hashes) + [] == Bodies(live, hashes);
    if k > 0 {
      CursorReachesLast(last, live, hashes, maxSeq);
    }
  }

  /** One page on a consistent store: what it returns, where its cursor lands, and when it asks for more. */
  lemma PageFacts(index: seq<Entry>, hashes: map<MsgId, Hash>, maxSeq: int, last: int, l: nat) returns (k: nat)
    requires Consistent(index, hashes, maxSeq) && l >= 1
    ensures var a := After(index, last); var page := Take(a, l);
            && k <= |page|
            && Expired(page[k..], hashes)
            && (k > 0 ==> page[k - 1].id in hashes)
            && Cursor(last, page, hashes) == (if k == 0 then last else a[k - 1].score)
            && Bodies(page, hashes) == Bodies(a[..k], hashes)
            && AckedOn(page, hashes) == AckedOn(a[..k], hashes)
            && After(index, Cursor(last, page, hashes)) == a[k..]
            && (a != [] ==> a[|a| - 1].score <= maxSeq)
  {
    var a := After(index, last);
    var page := Take(a, l);
    k := LastLive(page, hashes);
    SuffixFacts(index, hashes, maxSeq, last);
    hide After, Bodies, AckedOn, Cursor, Expired;
    PageWorth(page, k, hashes, maxSeq, last);
    assert page[..k] == a[..k];
    if k > 0 {
      AfterEntry(index, hashes, maxSeq, last, k);
    } else {
      assert a[0..] == a;
    }
  }

  lemma NoGapSuffix(es: seq<Entry>, hashes: map<MsgId, Hash>, l: nat, k: nat)
    requires NoGap(es, hashes, l) && k <= |es|
    ensures NoGap(es[k..], hashes, l)
  {
    forall i | 0 <= i <= |es[k..]| - l ensures !GapAt(es[k..], hashes, l, i) {
      assert es[k..][i..i + l] == es[k + i..k + i + l];
      assert !GapAt(es, hashes, l, k + i);
    }
  }

  lemma PageAdvances(index: seq<Entry>, hashes: map<MsgId, Hash>, maxSeq: int, last: int, l: nat) returns (k: nat)
    requires Consistent(index, hashes, maxSeq) && l >= 1 && NoGap(After(index, last), hashes, l)
    ensures var a := After(index, last); var page := Take(a, l); var c := Cursor(last, page, hashes);
            && k <= |a|
            && Bodies(page, hashes) == Bodies(a[..k], hashes)
            && AckedOn(page, hashes) == AckedOn(a[..k], hashes)
            && After(index, c) == a[k..]
            && NoGap(After(index, c), hashes, l)
            && (c < maxSeq && |page| >= l ==> k > 0)
            && (!(c < maxSeq && |page| >= l) ==>
                  Bodies(After(index, c), hashes) == [] && AckedOn(After(index, c), hashes) == {})
  {
    k := PageFacts(index, hashes, maxSeq, last, l);
    var a := After(index, last);
    var page := Take(a, l);
    var c := Cursor(last, page, hashes);
    NoGapSuffix(a, hashes, l, k);
    if |page| >= l {
      assert a[0..l] == page && page[0..] == page;
      assert !GapAt(a, hashes, l, 0);
      SuffixFacts(index, hashes, maxSeq, last);
      assert k < |a| ==> a[k - 1].score < a[k].score <= maxSeq;
      if c >= maxSeq {
        assert a[k..] == [];
      }
    } else {
      assert page == a;
      ExpiredContributesNothing(c, a[k..], hashes);
    }
  }

  lemma {:induction false} UnackedIsBodies(index: seq<Entry>, hashes: map<MsgId, Hash>, maxSeq: int, last: int)
    requires Consistent(index, hashes, maxSeq)
    ensures Unacked(index, hashes, last) == Bodies(After(index, last), hashes)
  {
    if index == [] {
    } else {
      UnackedIsBodies(index[1..], hashes, maxSeq, last);
      if index[0].score > last {
        assert After(index, last)[1..] == After(index[1..], last);
      } else {
        assert [] + Unacked(index[1..], hashes, last) == Unacked(index[1..], hashes, last);
      }
    }
  }

  /** Every un-acked message above the cursor is there, and nothing else. */
  lemma {:induction false} UnackedIsWanted(index: seq<Entry>, hashes: map<MsgId, Hash>, last: int, m: MsgBody)
    ensures m in Unacked(index, hashes, last) <==> Wanted(index, hashes, last, m)
  {
    if index == [] {
    } else {
      UnackedIsWanted(index[1..], hashes, last, m);
      assert index == [index[0]] + index[1..];
    }
  }

  /** Each once, in strictly increasing sequence order. */
  lemma {:induction false} UnackedInOrder(index: seq<Entry>, hashes: map<MsgId, Hash>, maxSeq: int, last: int)
    requires Consistent(index, hashes, maxSeq)
    ensures InSeqOrder(Unacked(index, hashes, last))
  {
    if index == [] {
    } else {
      var rest := index[1..];
      var tail := Unacked(rest, hashes, last);
      UnackedInOrder(rest, hashes, maxSeq, last);
      forall i | 0 <= i < |tail| ensures tail[i].msgSeq > index[0].score {
        UnackedIsWanted(rest, hashes, last, tail[i]);
      }
      var u := Unacked(index, hashes, last);
      if |u| == |tail| {
        assert u == tail;
      } else {
        assert u == [u[0]] + tail && u[0].msgSeq == index[0].score;
      }
    }
  }

  // ---------------------------------------------------------------- exactly when paging ends

  function PageCursor(index: seq<Entry>, hashes: map<MsgId, Hash>, l: nat, cursor: int): int {
    Cursor(cursor, Take(After(index, cursor), l), hashes)
  }

  predicate AsksForMore(index: seq<Entry>, hashes: map<MsgId, Hash>, maxSeq: int, l: nat, cursor: int) {
    PageCursor(index, hashes, l, cursor) < maxSeq && |Take(After(index, cursor), l)| >= l
  }

  /** The cursor after n requests. */
  function Iterate(index: seq<Entry>, hashes: map<MsgId, Hash>, l: nat, cursor: int, n: nat): int
    decreases n
  {
    if n == 0 then cursor else Iterate(index, hashes, l, PageCursor(index, hashes, l, cursor), n - 1)
  }

  /** A gap behind a live entry stays a gap when everything up to that entry is settled. */
  lemma GapBehindLive(a: seq<Entry>, hashes: map<MsgId, Hash>, l: nat, k: nat, i: int)
    requires 0 < k <= l && k <= |a| && a[k - 1].id in hashes && GapAt(a, hashes, l, i)
    ensures k <= i && GapAt(a[k..], hashes, l, i - k)
  {
    assert forall m :: i <= m < i + l ==> a[m] == a[i..i + l][m - i];
    assert a[k..][i - k..i - k + l] == a[i..i + l];
  }

  lemma GapBlocks(index: seq<Entry>, hashes: map<MsgId, Hash>, maxSeq: int, l: nat, cursor: int)
    requires Consistent(index, hashes, maxSeq) && l >= 1
    requires !NoGap(After(index, cursor), hashes, l)
    ensures AsksForMore(index, hashes, maxSeq, l, cursor)
    ensures !NoGap(After(index, PageCursor(index, hashes, l, cursor)), hashes, l)
  {
    var a := After(index, cursor);
    var k := PageFacts(index, hashes, maxSeq, cursor, l);
    SuffixFacts(index, hashes, maxSeq, cursor);
    var i :| GapAt(a, hashes, l, i);
    if k > 0 {
      GapBehindLive(a, hashes, l, k, i);
      assert a[k - 1].score < a[i].score <= maxSeq;
    } else {
      assert cursor < a[0].score <= maxSeq;
    }
  }

  lemma {:induction false} GapBlocksForever(index: seq<Entry>, hashes: map<MsgId, Hash>, maxSeq: int, l: nat,
                                            cursor: int, n: nat)
    requires Consistent(index, hashes, maxSeq) && l >= 1
    requires !NoGap(After(index, cursor), hashes, l)
    ensures AsksForMore(index, hashes, maxSeq, l, Iterate(index, hashes, l, cursor, n))
    decreases n
  {
    GapBlocks(index, hashes, maxSeq, l, cursor);
    if n == 0 {
    } else {
      GapBlocksForever(index, hashes, maxSeq, l, PageCursor(index, hashes, l, cursor), n - 1);
    }
  }

  lemma {:induction false} NoGapEnds(index: seq<Entry>, hashes: map<MsgId, Hash>, maxSeq: int, l: nat, cursor: int)
    returns (n: nat)
    requires Consistent(index, hashes, maxSeq) && l >= 1
    requires NoGap(After(index, cursor), hashes, l)
    ensures !AsksForMore(index, hashes, maxSeq, l, Iterate(index, hashes, l, cursor, n))
    decreases |After(index, cursor)|
  {
    if !AsksForMore(index, hashes, maxSeq, l, cursor) {
      n := 0;
    } else {
      var k := PageAdvances(index, hashes, maxSeq, cursor, l);
      n := NoGapEnds(index, hashes, maxSeq, l, PageCursor(index, hashes, l, cursor));
      n := n + 1;
    }
  }

  /** Paging ends if and only if no full page's worth of consecutive status hashes has expired. */
  lemma PagingEndsIffNoGap(index: seq<Entry>, hashes: map<MsgId, Hash>, maxSeq: int, limit: int, cursor: int)
    requires Consistent(index, hashes, maxSeq)
    ensures NoGap(After(index, cursor), hashes, EffectiveLimit(limit)) <==>
            exists n: nat :: !AsksForMore(index, hashes, maxSeq, EffectiveLimit(limit),
                                          Iterate(index, hashes, EffectiveLimit(limit), cursor, n))
  {
    var l := EffectiveLimit(limit);
    if NoGap(After(index, cursor), hashes, l) {
      var n := NoGapEnds(index, hashes, maxSeq, l, cursor);
    } else {
      forall n: nat ensures AsksForMore(index, hashes, maxSeq, l, Iterate(index, hashes, l, cursor, n)) {
        GapBlocksForever(index, hashes, maxSeq, l, cursor, n);
      }
    }
  }

  lemma {:induction false} CursorStays(index: seq<Entry>, hashes: map<MsgId, Hash>, l: nat, cursor: int, n: nat)
    requires PageCursor(index, hashes, l, cursor) == cursor
    ensures Iterate(index, hashes, l, cursor, n) == cursor
    decreases n
  {
    if n == 0 {
    } else {
      CursorStays(index, hashes, l, cursor, n - 1);
    }
  }

  /**
   The failing family is not empty: with one expired hash and pages of one, every page from the start is
   empty, leaves the cursor at 0 and asks for more, although message b is there.
   */
  lemma ExpiredPageNeverAdvances(h: Hash, n: nat)
    requires h.seqField == 2 && !h.status.Acked?
    ensures var index := [Entry([97], 1), Entry([98], 2)]; var hashes := map[[98] := h];
            var cursor := Iterate(index, hashes, 1, 0, n);
            && Consistent(index, hashes, 2)
            && !NoGap(After(index, 0), hashes, 1)
            && cursor == 0 && Bodies(Take(After(index, cursor), 1), hashes) == []
            && AsksForMore(index, hashes, 2, 1, cursor)
            && BodyOf([98], 2, h) in Unacked(index, hashes, cursor)
  {
    var index := [Entry([97], 1), Entry([98], 2)];
    var hashes := map[[98] := h];
    assert [97] != [98];
    assert index[1..] == [Entry([98], 2)] && index[1..][1..] == [];
    var page := Take(After(index, 0), 1);
    assert page == [Entry([97], 1)] && page[1..] == [];
    assert After(index, 0)[0..1] == [Entry([97], 1)];
    assert GapAt(After(index, 0), hashes, 1, 0);
    ExpiredContributesNothing(0, page, hashes);
    CursorStays(index, hashes, 1, 0, n);
    GapBlocksForever(index, hashes, 2, 1, 0, n);
    UnackedIsWanted(index, hashes, 0, BodyOf([98], 2, h));
  }

  // ---------------------------------------------------------------- when a false HasMore may be believed

  /** `told` is the server maximum of the reply, 0 when it could not be read. */
  lemma FalseHasMoreIsFinal(index: seq<Entry>, hashes: map<MsgId, Hash>, maxSeq: int, last: int, l: nat, told: int)
    requires Consistent(index, hashes, maxSeq) && l >= 1 && !AsksForMore(index, hashes, told, l, last)
    requires told == maxSeq || |Take(After(index, last), l)| < l
    ensures Unacked(index, hashes, PageCursor(index, hashes, l, last)) == []
  {
    var k := PageFacts(index, hashes, maxSeq, last, l);
    var a, c := After(index, last), PageCursor(index, hashes, l, last);
    hide Cursor, Consistent, After, Bodies, Unacked;
    UnackedIsBodies(index, hashes, maxSeq, c);
    if |a| < l {
      ExpiredContributesNothing(c, a[k..], hashes);
    } else {
      NothingAbove(index, hashes, maxSeq, c);
      NoBodies(hashes);
    }
  }

  lemma NoBodies(hashes: map<MsgId, Hash>)
    ensures Bodies([], hashes) == [] && AckedOn([], hashes) == {}
  {
  }

  lemma NothingAbove(index: seq<Entry>, hashes: map<MsgId, Hash>, maxSeq: int, last: int)
    requires Consistent(index, hashes, maxSeq) && last >= maxSeq
    ensures After(index, last) == []
  {
    var _ := AfterIsSuffix(index, last);
  }

  lemma {:induction false} AfterConcat(a: seq<Entry>, b: seq<Entry>, last: int)
    ensures After(a + b, last) == After(a, last) + After(b, last)
  {
    if a == [] {
      assert a + b == b;
    } else {
      assert (a + b)[1..] == a[1..] + b;
      AfterConcat(a[1..], b, last);
    }
  }

  lemma {:induction false} CursorIgnores(last: int, es: seq<Entry>, hashes: map<MsgId, Hash>, id: MsgId, h: Hash)
    requires forall e <- es :: e.id != id
    ensures Cursor(last, es, hashes[id := h]) == Cursor(last, es, hashes)
    decreases |es|
  {
    if es == [] {
    } else {
      var s := if es[0].id in hashes then hashes[es[0].id].seqField else 0;
      CursorIgnores(if s > 0 && s > last then s else last, es[1..], hashes, id, h);
    }
  }

  /**
   And only then: a full page whose server maximum could not be read says that there is no more, and one more
   message in the store would not change that.
   */
  lemma FaultHidesTheRest(index: seq<Entry>, hashes: map<MsgId, Hash>, maxSeq: int, last: int, l: nat,
                          id: MsgId, h: Hash)
    requires Consistent(index, hashes, maxSeq) && last >= 0 && l >= 1 && |After(index, last)| >= l
    requires (forall e <- index :: e.id != id) && h.seqField == maxSeq + 1 && !h.status.Acked?
    ensures
      var index', hashes' := index + [Entry(id, maxSeq + 1)], hashes[id := h];
      && Consistent(index', hashes', maxSeq + 1)
      && Take(After(index', last), l) == Take(After(index, last), l)
      && PageCursor(index', hashes', l, last) == PageCursor(index, hashes, l, last)
      && !AsksForMore(index', hashes', 0, l, last)
      && BodyOf(id, maxSeq + 1, h) in Unacked(index', hashes', PageCursor(index', hashes', l, last))
  {
    hide After, Cursor, Consistent, Unacked;
    var e := Entry(id, maxSeq + 1);
    var index', hashes' := index + [e], hashes[id := h];
    var page := Take(After(index, last), l);
    CursorIsBetween(index, hashes, maxSeq, last, l);
    OneMoreIsConsistent(index, hashes, maxSeq, id, h);
    AfterConcat(index, [e], last);
    assert Take(After(index', last), l) == page;
    AllAfter(index, last);
    CursorIgnores(last, page, hashes, id, h);
    assert e == index'[|index|];
    UnackedIsWanted(index', hashes', PageCursor(index', hashes', l, last), BodyOf(id, maxSeq + 1, h));
  }

  lemma OneMoreIsConsistent(index: seq<Entry>, hashes: map<MsgId, Hash>, maxSeq: int, id: MsgId, h: Hash)
    requires Consistent(index, hashes, maxSeq) && maxSeq >= 0 && h.seqField == maxSeq + 1
    requires forall e <- index :: e.id != id
    ensures Consistent(index + [Entry(id, maxSeq + 1)], hashes[id := h], maxSeq + 1)
  {
  }

  lemma CursorIsBetween(index: seq<Entry>, hashes: map<MsgId, Hash>, maxSeq: int, last: int, l: nat)
    requires Consistent(index, hashes, maxSeq) && l >= 1 && After(index, last) != []
    ensures last <= PageCursor(index, hashes, l, last) <= maxSeq && last < maxSeq
  {
    var k := PageFacts(index, hashes, maxSeq, last, l);
    SuffixFacts(index, hashes, maxSeq, last);
    hide After, Cursor;
    assert After(index, last)[0].score <= maxSeq;
  }

  lemma {:induction false} AllAfter(index: seq<Entry>, last: int)
    ensures forall e :: e in After(index, last) <==> e in index && e.score > last
  {
    if index == [] {
    } else {
      AllAfter(index[1..], last);
      assert index == [index[0]] + index[1..];
    }
  }

  /** With every status hash alive, the exact condition always holds. */
  lemma LiveStoreHasNoGap(index: seq<Entry>, hashes: map<MsgId, Hash>, maxSeq: int, last: int, limit: int)
    requires Consistent(index, hashes, maxSeq)
    requires forall i :: 0 <= i < |index| ==> index[i].id in hashes
    ensures NoGap(After(index, last), hashes, EffectiveLimit(limit))
  {
    var k := AfterIsSuffix(index, last);
    var l := EffectiveLimit(limit);
    forall i | 0 <= i <= |After(index, last)| - l ensures !GapAt(After(index, last), hashes, l, i) {
      var page := After(index, last)[i..i + l];
      assert page[0] == After(index, last)[i] == index[k..][i] == index[k + i];
    }
  }

  // ---------------------------------------------------------------- where the store comes from

  const EXACT_SCORES: nat := 0x20_0000_0000_0000

  /** A sorted set keeps its scores as doubles: 53 significant bits, ties to the even neighbour. */
  function Unit(n: nat): (u: nat)
    ensures u > 0 && (n < EXACT_SCORES ==> u == 1)
  {
    if n < EXACT_SCORES then 1 else 2 * Unit(n / 2)
  }

  function Score(n: nat): int {
    var u := Unit(n);
    var q, r := n / u, n % u;
    if 2 * r < u || (2 * r == u && q % 2 == 0) then q * u else (q + 1) * u
  }

  lemma ScoreIsExact(n: nat)
    requires n <= EXACT_SCORES
    ensures Score(n) == n
  {
    if n == EXACT_SCORES {
      assert Unit(n) == 2 * Unit(n / 2) == 2;
    }
  }

  /** An entry carries the k-th number returned, its hash the number itself. */
  ghost predicate Scored(e: Entry, hashes: map<MsgId, Hash>, log: seq<SeqAllocator.Issue>, k: nat) {
    && k < |log| && (log[k].num >= 0 ==> e.score == Score(log[k].num))
    && (e.id in hashes ==> hashes[e.id].seqField == log[k].num)
  }

  /**
   An index built from numbers the allocator returned, one return per message, is consistent as long as the
   counter has not passed 2^53: the uniqueness theorem turns "listed in score order" into "strictly increasing".
   */
  lemma AllocatedIndexIsConsistent(w: SeqAllocator.UserWorld, steps: seq<SeqAllocator.Step>,
                                   index: seq<Entry>, hashes: map<MsgId, Hash>, given: map<MsgId, nat>)
    requires SeqAllocator.Initial(w) && SeqAllocator.Exec(w, steps).counter <= EXACT_SCORES
    requires Listed(index)
    requires forall i, j :: 0 <= i < j < |index| ==> index[i].id != index[j].id
    requires forall a, b :: a in given && b in given && a != b ==> given[a] != given[b]
    requires forall i :: 0 <= i < |index| ==>
               index[i].id in given && Scored(index[i], hashes, SeqAllocator.Exec(w, steps).issued, given[index[i].id])
    ensures Consistent(index, hashes, SeqAllocator.Exec(w, steps).counter)
  {
    SeqAllocator.NoOverrunBelow(w, steps);
    SeqAllocator.NumbersAreUnique(w, steps);
    var log := SeqAllocator.Exec(w, steps).issued;
    forall i | 0 <= i < |index| ensures index[i].score == log[given[index[i].id]].num {
      ScoreIsExact(log[given[index[i].id]].num);
    }
    forall i, j | 0 <= i < j < |index| ensures index[i].score < index[j].score {
      var a, b := given[index[i].id], given[index[j].id];
      assert a != b;
      assert log[a].num != log[b].num;
    }
  }

  /** Beyond, two numbers can share a score, and whoever has the first message never gets the second. */
  lemma SharedScoreIsSkipped(a: Hash, b: Hash)
    requires a.seqField == EXACT_SCORES && b.seqField == EXACT_SCORES + 1
    ensures
      var index := [Entry([97], Score(a.seqField)), Entry([98], Score(b.seqField))];
      var hashes := map[[97] := a, [98] := b];
      var cursor := PageCursor(index, hashes, 1, 0);
      Listed(index) && cursor == a.seqField && After(index, cursor) == []
  {
    ScoreIsExact(a.seqField);
    SecondScore();
    hide Score;
    var index := [Entry([97], Score(a.seqField)), Entry([98], Score(b.seqField))];
    var hashes := map[[97] := a, [98] := b];
    assert [97] != [98];
    assert hashes[[97]] == a;
    assert index[1..] == [index[1]] && index[1..][1..] == [];
    var page := Take(After(index, 0), 1);
    assert page == [index[0]] && page[1..] == [];
    assert Cursor(0, page, hashes) == a.seqField;
    assert After(index[1..], a.seqField) == [];
  }

  lemma SecondScore()
    ensures Score(EXACT_SCORES + 1) == EXACT_SCORES
  {
    var n: nat := EXACT_SCORES + 1;
    assert Unit(n) == 2 * Unit(n / 2) == 2;
  }
}
