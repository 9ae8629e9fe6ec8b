/**
 The hand-written message bodies of api/protocol/message.go. Text fields are byte strings, as in Go; an
 absent content and an empty one are the same here, and the decoders' error texts are not told apart.
 */
module Messages {
  import opened Common
  import opened Bytes

  const MAX_FIELD: nat := 65535

  ghost predicate IsInt64(v: int) {
    -M64 / 2 <= v < M64 / 2
  }

  /** Writes at the moving offset: what has been written grows by src. */
  method Put(buf: array<Byte>, offset: nat, src: seq<Byte>) returns (next: nat)
    requires offset + |src| <= buf.Length
    modifies buf
    ensures next == offset + |src| && buf[..next] == old(buf[..offset]) + src
  {
    Copy(buf, offset, src);
    next := offset + |src|;
  }

  datatype MsgBody = MsgBody(
    msgId: seq<Byte>, fromUid: int, toUid: int, timestamp: int, msgSeq: int, content: seq<Byte>)

  ghost predicate EncodableMsg(m: MsgBody) {
    |m.msgId| <= MAX_FIELD && IsInt64(m.fromUid) && IsInt64(m.toUid) && IsInt64(m.timestamp) && IsInt64(m.msgSeq)
  }

  /** A field behind its two-byte length. */
  function Field(f: seq<Byte>): seq<Byte> {
    Be16(Unsigned(|f|, M16)) + f
  }

  function MsgBytes(m: MsgBody): seq<Byte> {
    Field(m.msgId) + PutInt64(m.fromUid) + PutInt64(m.toUid) + PutInt64(m.timestamp) + PutInt64(m.msgSeq) + m.content
  }

  method MarshalMsgBody(m: MsgBody) returns (r: Option<seq<Byte>>)
    ensures r == if |m.msgId| > 65535 then None else Some(MsgBytes(m))
  {
    hide Be16, PutInt64;
    if |m.msgId| > MAX_FIELD {
      return None;
    }
    var size := 34 + |m.msgId| + |m.content|;
    var buf := new Byte[size];
    var offset := Put(buf, 0, Be16(|m.msgId|));
    assert buf[..offset] == Be16(|m.msgId|);
    offset := Put(buf, offset, m.msgId);
    offset := Put(buf, offset, PutInt64(m.fromUid));
    offset := Put(buf, offset, PutInt64(m.toUid));
    offset := Put(buf, offset, PutInt64(m.timestamp));
    offset := Put(buf, offset, PutInt64(m.msgSeq));
    offset := Put(buf, offset, m.content);
    assert buf[..offset] == buf[..] && Unsigned(|m.msgId|, M16) == |m.msgId|;
    return Some(buf[..]);
  }

  function ParseMsg(data: seq<Byte>): Option<MsgBody> {
    if |data| < 2 then None
    else
      var n := Read16(data[..2]);
      if |data| < 34 + n then None
      else
        Some(MsgBody(data[2..2 + n], Int64(data[2 + n..10 + n]), Int64(data[10 + n..18 + n]),
                     Int64(data[18 + n..26 + n]), Int64(data[26 + n..34 + n]), data[34 + n..]))
  }

  method UnmarshalMsgBody(data: seq<Byte>) returns (r: Option<MsgBody>)
    ensures r == ParseMsg(data)
  {
    hide Int64;
    if |data| < 2 {
      return None;
    }
    assert data[0..2] == data[..2];
    var msgIdLen := Read16(data[0..2]);
    if |data| < 2 + msgIdLen + 32 {
      return None;
    }
    var msgId := data[2..2 + msgIdLen];
    var offset := 2 + msgIdLen;
    var fromUid := Int64(data[offset..offset + 8]);
    offset := offset + 8;
    var toUid := Int64(data[offset..offset + 8]);
    offset := offset + 8;
    var timestamp := Int64(data[offset..offset + 8]);
    offset := offset + 8;
    var msgSeq := Int64(data[offset..offset + 8]);
    offset := offset + 8;
    var content := if offset < |data| then data[offset..] else [];
    assert content == data[offset..];
    return Some(MsgBody(msgId, fromUid, toUid, timestamp, msgSeq, content));
  }

  /** Where the fields lie in an encoded body. */
  lemma MsgLayout(m: MsgBody)
    ensures
      var s, n := MsgBytes(m), |m.msgId|;
      && |s| == 34 + n + |m.content|
      && s[..2] == Be16(Unsigned(n, M16)) && s[2..2 + n] == m.msgId
      && s[2 + n..10 + n] == PutInt64(m.fromUid) && s[10 + n..18 + n] == PutInt64(m.toUid)
      && s[18 + n..26 + n] == PutInt64(m.timestamp) && s[26 + n..34 + n] == PutInt64(m.msgSeq)
      && s[34 + n..] == m.content
  {
    hide Be16, PutInt64;
  }

  /** What is encoded is decoded. */
  lemma MsgRoundTrip(m: MsgBody)
    requires EncodableMsg(m)
    ensures ParseMsg(MsgBytes(m)) == Some(m)
  {
    hide Be16, PutInt64, Int64, Read16, MsgBytes;
    MsgLayout(m);
    ReadBe16(|m.msgId|);
    Int64RoundTrip(m.fromUid);
    Int64RoundTrip(m.toUid);
    Int64RoundTrip(m.timestamp);
    Int64RoundTrip(m.msgSeq);
  }

  lemma MsgSlices(s: seq<Byte>, n: nat)
    requires |s| >= 34 + n
    ensures s == s[..2] + s[2..2 + n] + s[2 + n..10 + n] + s[10 + n..18 + n] + s[18 + n..26 + n] + s[26 + n..34 + n]
      + s[34 + n..]
  {
    assert s[..10 + n] == s[..2] + s[2..2 + n] + s[2 + n..10 + n];
    assert s[..26 + n] == s[..10 + n] + s[10 + n..18 + n] + s[18 + n..26 + n];
  }

  /** What is decoded is encoded as the very bytes it came from: nothing is lost or normalised. */
  lemma MsgBytesOfParse(data: seq<Byte>)
    ensures ParseMsg(data).None? <==> |data| < 2 || |data| < 34 + Read16(data[..2])
    ensures ParseMsg(data).Some? ==> EncodableMsg(ParseMsg(data).value) && MsgBytes(ParseMsg(data).value) == data
  {
    if ParseMsg(data).Some? {
      MsgOfSlices(data, Read16(data[..2]));
    }
  }

  lemma MsgOfSlices(data: seq<Byte>, n: nat)
    requires |data| >= 34 + n && n == Read16(data[..2])
    ensures MsgBytes(MsgBody(data[2..2 + n], Int64(data[2 + n..10 + n]), Int64(data[10 + n..18 + n]),
                     Int64(data[18 + n..26 + n]), Int64(data[26 + n..34 + n]), data[34 + n..])) == data
  {
    hide Be16, PutInt64, Int64, Read16;
    BeRead16(data[..2]);
    assert Unsigned(n, M16) == n;
    PutOfInt64(data[2 + n..10 + n]);
    PutOfInt64(data[10 + n..18 + n]);
    PutOfInt64(data[18 + n..26 + n]);
    PutOfInt64(data[26 + n..34 + n]);
    MsgSlices(data, n);
  }

  datatype SyncReq = SyncReq(lastSeq: int, limit: int)

  function SyncReqBytes(q: SyncReq): seq<Byte> {
    PutInt64(q.lastSeq) + PutInt32(q.limit)
  }

  method MarshalSyncReq(q: SyncReq) returns (data: seq<Byte>)
    ensures data == SyncReqBytes(q)
  {
    hide PutInt64, PutInt32;
    var buf := new Byte[12];
    var offset := Put(buf, 0, PutInt64(q.lastSeq));
    assert buf[..offset] == PutInt64(q.lastSeq);
    offset := Put(buf, offset, PutInt32(q.limit));
    assert buf[..offset] == buf[..];
    return buf[..];
  }

  method UnmarshalSyncReq(data: seq<Byte>) returns (r: Option<SyncReq>)
    ensures r == ParseSyncReq(data)
  {
    if |data| < 12 {
      return None;
    }
    assert data[0..8] == data[..8];
    return Some(SyncReq(Int64(data[0..8]), Int32(data[8..12])));
  }

  function ParseSyncReq(data: seq<Byte>): Option<SyncReq> {
    if |data| < 12 then None else Some(SyncReq(Int64(data[..8]), Int32(data[8..12])))
  }

  /** The first twelve bytes are the request; whatever follows is ignored. */
  lemma SyncReqRoundTrip(q: SyncReq, tail: seq<Byte>)
    requires IsInt64(q.lastSeq) && -M32 / 2 <= q.limit < M32 / 2
    ensures ParseSyncReq(SyncReqBytes(q) + tail) == Some(q)
    ensures |SyncReqBytes(q)| == 12
    ensures SyncReqBytes(q)[..8] == PutInt64(q.lastSeq) && SyncReqBytes(q)[8..] == PutInt32(q.limit)
  {
    hide PutInt64, PutInt32, Int64, Int32;
    var s := SyncReqBytes(q) + tail;
    assert s[..8] == PutInt64(q.lastSeq) && s[8..12] == PutInt32(q.limit);
    Int64RoundTrip(q.lastSeq);
    Int32RoundTrip(q.limit);
  }

  lemma SyncReqBytesOfParse(data: seq<Byte>)
    ensures ParseSyncReq(data).Some? <==> |data| >= 12
    ensures |data| >= 12 ==> SyncReqBytes(ParseSyncReq(data).value) == data[..12]
  {
    if |data| >= 12 {
      PutOfInt64(data[..8]);
      PutOfInt32(data[8..12]);
    }
  }

  datatype AckBody = AckBody(msgId: seq<Byte>, msgSeq: int, deviceId: seq<Byte>, sessionId: seq<Byte>)

  ghost predicate EncodableAck(a: AckBody) {
    |a.msgId| <= MAX_FIELD && |a.deviceId| <= MAX_FIELD && |a.sessionId| <= MAX_FIELD && IsInt64(a.msgSeq)
  }

  /** The form before the extension: message and sequence number alone. */
  function LegacyAckBytes(msgId: seq<Byte>, msgSeq: int): seq<Byte> {
    Field(msgId) + PutInt64(msgSeq)
  }

  function OptionalField(f: seq<Byte>): seq<Byte> {
    if f == [] then [] else Field(f)
  }

  function AckFlags(a: AckBody): Byte {
    (if a.deviceId != [] then 1 else 0) + (if a.sessionId != [] then 2 else 0)
  }

  function AckBytes(a: AckBody): seq<Byte> {
    LegacyAckBytes(a.msgId, a.msgSeq) + [AckFlags(a)] + OptionalField(a.deviceId) + OptionalField(a.sessionId)
  }

  method MarshalAckBody(a: AckBody) returns (r: Option<seq<Byte>>)
    ensures r == if |a.msgId| > 65535 || |a.deviceId| > 65535 || |a.sessionId| > 65535 then None
      else Some(AckBytes(a))
  {
    hide Be16, PutInt64;
    if |a.msgId| > MAX_FIELD {
      return None;
    }
    if |a.deviceId| > MAX_FIELD || |a.sessionId| > MAX_FIELD {
      return None;
    }
    var flags: Byte, extSize := 0, 1;
    if |a.deviceId| > 0 {
      flags, extSize := flags + 1, extSize + 2 + |a.deviceId|;
    }
    if |a.sessionId| > 0 {
      flags, extSize := flags + 2, extSize + 2 + |a.sessionId|;
    }
    var buf := new Byte[10 + |a.msgId| + extSize];
    var offset := Put(buf, 0, Be16(|a.msgId|));
    assert buf[..offset] == Be16(|a.msgId|);
    offset := Put(buf, offset, a.msgId);
    assert Unsigned(|a.msgId|, M16) == |a.msgId|;
    offset := Put(buf, offset, PutInt64(a.msgSeq));
    offset := Put(buf, offset, [flags]);
    ghost var fixed := buf[..offset];
    assert fixed == LegacyAckBytes(a.msgId, a.msgSeq) + [AckFlags(a)];
    offset := PutOptional(buf, offset, a.deviceId);
    offset := PutOptional(buf, offset, a.sessionId);
    assert buf[..offset] == buf[..];
    return Some(buf[..]);
  }

  method PutOptional(buf: array<Byte>, offset: nat, f: seq<Byte>) returns (next: nat)
    requires offset + |OptionalField(f)| <= buf.Length && |f| <= MAX_FIELD
    modifies buf
    ensures next == offset + |OptionalField(f)| && buf[..next] == old(buf[..offset]) + OptionalField(f)
  {
    next := offset;
    if |f| > 0 {
      FieldBehind(buf[..offset], f);
      hide Be16, Field, Unsigned;
      next := Put(buf, next, Be16(|f|));
      next := Put(buf, next, f);
    }
  }

  lemma FieldBehind(before: seq<Byte>, f: seq<Byte>)
    requires |f| <= MAX_FIELD
    ensures before + Be16(|f|) + f == before + Field(f) && |Field(f)| == 2 + |f|
  {
    hide Be16;
    assert Unsigned(|f|, M16) == |f|;
    assert before + Be16(|f|) + f == before + (Be16(|f|) + f);
  }

  /** A field that may be cut short: absent then, with the offset behind its length. */
  function ParseOptional(data: seq<Byte>, offset: nat, present: bool): (seq<Byte>, nat)
    requires offset <= |data|
  {
    if !present || offset + 2 > |data| then ([], offset)
    else
      var n := Read16(data[offset..offset + 2]);
      if offset + 2 + n <= |data| then (data[offset + 2..offset + 2 + n], offset + 2 + n) else ([], offset + 2)
  }

  function ParseAck(data: seq<Byte>): Option<AckBody> {
    if |data| < 2 then None
    else
      var n := Read16(data[..2]);
      if |data| < 10 + n then None
      else
        var msgId, msgSeq := data[2..2 + n], Int64(data[2 + n..10 + n]);
        if |data| == 10 + n then Some(AckBody(msgId, msgSeq, [], []))
        else
          var flags := data[10 + n];
          var device := ParseOptional(data, 11 + n, flags % 2 == 1);
          Some(AckBody(msgId, msgSeq, device.0, ParseOptional(data, device.1, flags / 2 % 2 == 1).0))
  }

  method UnmarshalAckBody(data: seq<Byte>) returns (r: Option<AckBody>)
    ensures r == ParseAck(data)
  {
    hide Int64;
    if |data| < 2 {
      return None;
    }
    assert data[0..2] == data[..2];
    var msgIdLen := Read16(data[0..2]);
    if |data| < 2 + msgIdLen + 8 {
      return None;
    }
    var msgId := data[2..2 + msgIdLen];
    var offset := 2 + msgIdLen;
    var msgSeq := Int64(data[offset..offset + 8]);
    offset := offset + 8;
    if offset >= |data| {
      return Some(AckBody(msgId, msgSeq, [], []));
    }
    var flags := data[offset];
    offset := offset + 1;
    var deviceId, sessionId := [], [];
    if flags % 2 != 0 && offset + 2 <= |data| {
      var devLen := Read16(data[offset..offset + 2]);
      offset := offset + 2;
      if offset + devLen <= |data| {
        deviceId := data[offset..offset + devLen];
        offset := offset + devLen;
      }
    }
    if flags / 2 % 2 != 0 && offset + 2 <= |data| {
      var sessLen := Read16(data[offset..offset + 2]);
      offset := offset + 2;
      if offset + sessLen <= |data| {
        sessionId := data[offset..offset + sessLen];
      }
    }
    return Some(AckBody(msgId, msgSeq, deviceId, sessionId));
  }

  lemma OptionalLayout(before: seq<Byte>, f: seq<Byte>, tail: seq<Byte>)
    requires |f| <= MAX_FIELD
    ensures
      var s, at := before + OptionalField(f) + tail, |before|;
      if f == [] then |s| == at + |tail|
      else |s| == at + 2 + |f| + |tail| && Read16(s[at..at + 2]) == |f| && s[at + 2..at + 2 + |f|] == f
  {
    hide Be16, Read16;
    if f != [] {
      var s, at := before + OptionalField(f) + tail, |before|;
      assert Unsigned(|f|, M16) == |f|;
      ReadBe16(|f|);
      assert s[at..at + 2] == Be16(|f|) && s[at + 2..at + 2 + |f|] == f;
    }
  }

  /** An optional field that is there in full is read back, with the offset behind it. */
  lemma OptionalRoundTrip(before: seq<Byte>, f: seq<Byte>, tail: seq<Byte>)
    requires |f| <= MAX_FIELD
    ensures ParseOptional(before + OptionalField(f) + tail, |before|, f != []) == (f, |before + OptionalField(f)|)
  {
    hide Be16, Read16;
    OptionalLayout(before, f, tail);
    OptionalLayout(before, f, []);
    assert before + OptionalField(f) + [] == before + OptionalField(f);
  }

  /** One that is cut short is empty; a length that can be read has been passed. */
  lemma CutOptional(data: seq<Byte>, offset: nat)
    requires offset <= |data|
    ensures offset + 2 > |data| ==> ParseOptional(data, offset, true) == ([], offset)
    ensures offset + 2 <= |data| && offset + 2 + Read16(data[offset..offset + 2]) > |data| ==>
      ParseOptional(data, offset, true) == ([], offset + 2)
  {
  }

  lemma LegacyLayout(msgId: seq<Byte>, msgSeq: int, tail: seq<Byte>)
    requires |msgId| <= MAX_FIELD && IsInt64(msgSeq)
    ensures
      var s, n := LegacyAckBytes(msgId, msgSeq) + tail, |msgId|;
      |s| == 10 + n + |tail| && Read16(s[..2]) == n && s[2..2 + n] == msgId && Int64(s[2 + n..10 + n]) == msgSeq
      && s[10 + n..] == tail
  {
    hide Be16, PutInt64, Int64, Read16;
    var s, n := LegacyAckBytes(msgId, msgSeq) + tail, |msgId|;
    assert Unsigned(n, M16) == n;
    ReadBe16(n);
    Int64RoundTrip(msgSeq);
    assert s[..2] == Be16(n) && s[2..2 + n] == msgId && s[2 + n..10 + n] == PutInt64(msgSeq) && s[10 + n..] == tail;
  }

  /** Where the fields of an acknowledgement lie: flag bit 0 is for the device, bit 1 for the session behind it. */
  lemma AckLayout(a: AckBody)
    requires EncodableAck(a)
    ensures
      var s, n := AckBytes(a), |a.msgId|;
      var session := 11 + n + if a.deviceId == [] then 0 else 2 + |a.deviceId|;
      && |s| == session + (if a.sessionId == [] then 0 else 2 + |a.sessionId|)
      && Read16(s[..2]) == n && s[2..2 + n] == a.msgId && Int64(s[2 + n..10 + n]) == a.msgSeq
      && (s[10 + n] % 2 == 1 <==> a.deviceId != []) && (s[10 + n] / 2 == 1 <==> a.sessionId != []) && s[10 + n] <= 3
      && (a.deviceId != [] ==> Read16(s[11 + n..13 + n]) == |a.deviceId| && s[13 + n..session] == a.deviceId)
      && (a.sessionId != [] ==> Read16(s[session..session + 2]) == |a.sessionId| && s[session + 2..] == a.sessionId)
  {
    hide Be16, PutInt64, Int64, Read16, OptionalField, LegacyAckBytes;
    var fixed := LegacyAckBytes(a.msgId, a.msgSeq);
    var d, e := OptionalField(a.deviceId), OptionalField(a.sessionId);
    LegacyLayout(a.msgId, a.msgSeq, [AckFlags(a)] + d + e);
    assert AckBytes(a) == fixed + ([AckFlags(a)] + d + e);
    OptionalLayout(fixed + [AckFlags(a)], a.deviceId, e);
    OptionalLayout(fixed + [AckFlags(a)] + d, a.sessionId, []);
    assert AckBytes(a) == (fixed + [AckFlags(a)] + d) + e + [];
    assert |fixed| == 10 + |a.msgId| && AckBytes(a)[|fixed|] == AckFlags(a);
  }

  lemma AckRoundTrip(a: AckBody)
    requires EncodableAck(a)
    ensures ParseAck(AckBytes(a)) == Some(a)
  {
    hide Be16, PutInt64, Int64, Read16, ParseOptional, OptionalField, LegacyAckBytes;
    var fixed := LegacyAckBytes(a.msgId, a.msgSeq);
    var d, e := OptionalField(a.deviceId), OptionalField(a.sessionId);
    var s := AckBytes(a);
    assert s == fixed + ([AckFlags(a)] + d + e);
    LegacyLayout(a.msgId, a.msgSeq, [AckFlags(a)] + d + e);
    assert s[10 + |a.msgId|] == s[10 + |a.msgId|..][0] == AckFlags(a);
    assert s == (fixed + [AckFlags(a)]) + d + e == ((fixed + [AckFlags(a)] + d) + e) + [];
    OptionalRoundTrip(fixed + [AckFlags(a)], a.deviceId, e);
    OptionalRoundTrip(fixed + [AckFlags(a)] + d, a.sessionId, []);
  }

  /** An acknowledgement without the extension still decodes. */
  lemma LegacyAckDecodes(msgId: seq<Byte>, msgSeq: int)
    requires |msgId| <= MAX_FIELD && IsInt64(msgSeq)
    ensures ParseAck(LegacyAckBytes(msgId, msgSeq)) == Some(AckBody(msgId, msgSeq, [], []))
  {
    hide Read16, Int64, LegacyAckBytes;
    LegacyLayout(msgId, msgSeq, []);
    assert LegacyAckBytes(msgId, msgSeq) + [] == LegacyAckBytes(msgId, msgSeq);
  }

  /** A cut or garbled extension never changes which message is acknowledged. */
  lemma ExtensionKeepsTheMessage(msgId: seq<Byte>, msgSeq: int, extension: seq<Byte>)
    requires |msgId| <= MAX_FIELD && IsInt64(msgSeq)
    ensures
      var r := ParseAck(LegacyAckBytes(msgId, msgSeq) + extension);
      r.Some? && r.value.msgId == msgId && r.value.msgSeq == msgSeq
  {
    hide Read16, Int64, LegacyAckBytes, ParseOptional;
    LegacyLayout(msgId, msgSeq, extension);
  }

  datatype SyncReply = SyncReply(currentSeq: int, serverMaxSeq: int, hasMore: bool, messages: seq<MsgBody>)

  ghost predicate EncodableMsgs(ms: seq<MsgBody>) {
    |ms| < M32 && forall m <- ms :: EncodableMsg(m) && |MsgBytes(m)| < M32
  }

  ghost predicate EncodableReply(r: SyncReply) {
    IsInt64(r.currentSeq) && IsInt64(r.serverMaxSeq) && EncodableMsgs(r.messages)
  }

  function Entry(m: MsgBody): seq<Byte> {
    Be32(Unsigned(|MsgBytes(m)|, M32)) + MsgBytes(m)
  }

  function Entries(ms: seq<MsgBody>): seq<Byte> {
    if ms == [] then [] else Entry(ms[0]) + Entries(ms[1..])
  }

  /** Every byte string the decoder takes: any flag byte, and the authoritative maximum or nothing at the end. */
  function ReplyForm(currentSeq: int, flag: Byte, ms: seq<MsgBody>, serverMax: Option<int>): seq<Byte> {
    PutInt64(currentSeq) + [flag] + Be32(Unsigned(|ms|, M32)) + Entries(ms)
    + if serverMax.Some? then PutInt64(serverMax.value) else []
  }

  /** The maximum a reader is told: an unset one reads as the current position. */
  function ToldMax(r: SyncReply): int {
    if r.serverMaxSeq == 0 then r.currentSeq else r.serverMaxSeq
  }

  function ReplyBytes(r: SyncReply): seq<Byte> {
    ReplyForm(r.currentSeq, if r.hasMore then 1 else 0, r.messages, Some(ToldMax(r)))
  }

  predicate FieldsFit(ms: seq<MsgBody>) {
    forall m <- ms :: |m.msgId| <= MAX_FIELD
  }

  lemma {:induction false} EntriesConcat(a: seq<MsgBody>, b: seq<MsgBody>)
    ensures Entries(a + b) == Entries(a) + Entries(b)
  {
    hide Entry;
    if a == [] {
      assert a + b == b;
    } else {
      EntriesConcat(a[1..], b);
      assert (a + b)[0] == a[0] && (a + b)[1..] == a[1..] + b;
      var x, y, z := Entry(a[0]), Entries(a[1..]), Entries(b);
      assert x + (y + z) == (x + y) + z;
    }
  }

  lemma EntriesSnoc(ms: seq<MsgBody>, i: nat)
    requires i < |ms|
    ensures Entries(ms[..i + 1]) == Entries(ms[..i]) + Entry(ms[i])
  {
    hide Entry;
    assert ms[..i + 1] == ms[..i] + [ms[i]];
    EntriesConcat(ms[..i], [ms[i]]);
    assert [ms[i]][1..] == [];
  }

  /** The bodies one by one, up to the first that cannot be encoded. */
  method MarshalAll(ms: seq<MsgBody>) returns (r: Option<seq<seq<Byte>>>)
    ensures r.Some? <==> FieldsFit(ms)
    ensures r.Some? <==> forall m <- ms :: |m.msgId| <= 65535
    ensures r.Some? ==> Encodes(r.value, ms)
  {
    hide MsgBytes;
    var done := [];
    for i := 0 to |ms|
      invariant |done| == i && FieldsFit(ms[..i])
      invariant forall k :: 0 <= k < i ==> done[k] == MsgBytes(ms[k])
    {
      var b := MarshalMsgBody(ms[i]);
      if b.None? {
        assert ms[i] in ms;
        return None;
      }
      done := done + [b.value];
      assert ms[..i + 1] == ms[..i] + [ms[i]];
    }
    assert ms[..|ms|] == ms;
    return Some(done);
  }

  ghost predicate Encodes(bodies: seq<seq<Byte>>, ms: seq<MsgBody>) {
    |bodies| == |ms| && forall k :: 0 <= k < |ms| ==> bodies[k] == MsgBytes(ms[k])
  }

  method EntriesSize(bodies: seq<seq<Byte>>, ghost ms: seq<MsgBody>) returns (size: nat)
    requires Encodes(bodies, ms)
    ensures size == |Entries(ms)|
  {
    hide MsgBytes, Be32;
    size := 0;
    assert Entries(ms[..0]) == [];
    for i := 0 to |bodies|
      invariant size == |Entries(ms[..i])|
    {
      size := size + (4 + |bodies[i]|);
      EntriesSnoc(ms, i);
    }
    assert ms[..|ms|] == ms;
  }

  lemma EntriesUpTo(ms: seq<MsgBody>, i: nat)
    requires i < |ms|
    ensures Entries(ms[..i + 1]) == Entries(ms[..i]) + Entry(ms[i])
    ensures |Entries(ms[..i + 1])| <= |Entries(ms)|
  {
    hide Entries, Entry;
    EntriesSnoc(ms, i);
    EntriesConcat(ms[..i + 1], ms[i + 1..]);
    assert ms[..i + 1] + ms[i + 1..] == ms;
  }

  method PutEntries(buf: array<Byte>, offset: nat, bodies: seq<seq<Byte>>, ghost ms: seq<MsgBody>) returns (next: nat)
    requires Encodes(bodies, ms) && offset + |Entries(ms)| <= buf.Length
    modifies buf
    ensures next == offset + |Entries(ms)| && buf[..next] == old(buf[..offset]) + Entries(ms)
  {
    hide MsgBytes, Be32, Entries;
    next := offset;
    assert Entries(ms[..0]) == [] by {
      NoEntries(ms);
    }
    for i := 0 to |bodies|
      invariant next == offset + |Entries(ms[..i])| && next <= buf.Length
      invariant buf[..next] == old(buf[..offset]) + Entries(ms[..i])
    {
      EntriesUpTo(ms, i);
      next := Put(buf, next, Be32(Unsigned(|bodies[i]|, M32)));
      next := Put(buf, next, bodies[i]);
    }
    assert ms[..|ms|] == ms;
  }

  lemma NoEntries(ms: seq<MsgBody>)
    ensures Entries(ms[..0]) == []
  {
  }

  method MarshalSyncReply(r: SyncReply) returns (data: Option<seq<Byte>>)
    ensures data == if FieldsFit(r.messages) then Some(ReplyBytes(r)) else None
  {
    hide Be32, PutInt64, MsgBytes, Entries;
    var bodies := MarshalAll(r.messages);
    if bodies.None? {
      return None;
    }
    var size := EntriesSize(bodies.value, r.messages);
    var buf := new Byte[21 + size];
    var offset := Put(buf, 0, PutInt64(r.currentSeq));
    assert buf[..offset] == PutInt64(r.currentSeq);
    offset := Put(buf, offset, [if r.hasMore then 1 else 0]);
    offset := Put(buf, offset, Be32(Unsigned(|bodies.value|, M32)));
    offset := PutEntries(buf, offset, bodies.value, r.messages);
    var serverMaxSeq := r.serverMaxSeq;
    if serverMaxSeq == 0 {
      serverMaxSeq := r.currentSeq;
    }
    offset := Put(buf, offset, PutInt64(serverMaxSeq));
    assert buf[..offset] == buf[..];
    return Some(buf[..]);
  }

  datatype ParsedEntries = ParsedEntries(messages: seq<MsgBody>, rest: seq<Byte>) | Refused

  function ParseEntries(data: seq<Byte>, count: nat): ParsedEntries {
    if count == 0 then ParsedEntries([], data)
    else if |data| < 4 then Refused
    else
      var n := Read32(data[..4]);
      if |data| < 4 + n then Refused
      else
        match ParseMsg(data[4..4 + n])
        case None => Refused
        case Some(m) => Prepend([m], ParseEntries(data[4 + n..], count - 1))
  }

  function Prepend(ms: seq<MsgBody>, p: ParsedEntries): ParsedEntries {
    if p.Refused? then Refused else ParsedEntries(ms + p.messages, p.rest)
  }

  function ParseReply(data: seq<Byte>): Option<SyncReply> {
    if |data| < 13 then None
    else
      var currentSeq := Int64(data[..8]);
      match ParseEntries(data[13..], Read32(data[9..13]))
      case Refused => None
      case ParsedEntries(ms, rest) =>
        if |rest| == 0 then Some(SyncReply(currentSeq, currentSeq, data[8] == 1, ms))
        else if |rest| == 8 then Some(SyncReply(currentSeq, Int64(rest), data[8] == 1, ms))
        else None
  }

  /** One entry more, at an offset into the whole. */
  lemma EntryStep(data: seq<Byte>, offset: nat, count: nat, ms: seq<MsgBody>)
    requires offset <= |data|
    ensures
      var p := Prepend(ms, ParseEntries(data[offset..], count));
      if count == 0 then p == ParsedEntries(ms, data[offset..])
      else if offset + 4 > |data| then p.Refused?
      else
        var n := Read32(data[offset..offset + 4]);
        if offset + 4 + n > |data| then p.Refused?
        else
          match ParseMsg(data[offset + 4..offset + 4 + n])
          case None => p.Refused?
          case Some(m) => p == Prepend(ms + [m], ParseEntries(data[offset + 4 + n..], count - 1))
  {
    hide Read32, ParseMsg;
    var s := data[offset..];
    if count > 0 && |s| >= 4 {
      assert s[..4] == data[offset..offset + 4];
      var n := Read32(s[..4]);
      if |s| >= 4 + n {
        assert s[4..4 + n] == data[offset + 4..offset + 4 + n] && s[4 + n..] == data[offset + 4 + n..];
        match ParseMsg(s[4..4 + n]) {
          case None =>
          case Some(m) =>
            var p := ParseEntries(s[4 + n..], count - 1);
            assert p.ParsedEntries? ==> ms + ([m] + p.messages) == (ms + [m]) + p.messages;
        }
      }
    } else if count == 0 {
      assert ms + [] == ms;
    }
  }

  method UnmarshalSyncReply(data: seq<Byte>) returns (r: Option<SyncReply>)
    ensures r == ParseReply(data)
  {
    hide Read32, Int64, ParseMsg, ParseEntries, Prepend;
    if |data| < 13 {
      return None;
    }
    assert data[0..8] == data[..8];
    var currentSeq := Int64(data[0..8]);
    var hasMore, serverMaxSeq := data[8] == 1, currentSeq;
    var msgCount := Read32(data[9..13]);
    var offset, messages, i := 13, [], 0;
    ghost var all := ParseEntries(data[13..], msgCount);
    PrependNothing(all);
    while i < msgCount
      invariant 0 <= i <= msgCount && 13 <= offset <= |data|
      invariant all == Prepend(messages, ParseEntries(data[offset..], msgCount - i))
    {
      EntryStep(data, offset, msgCount - i, messages);
      if offset + 4 > |data| {
        return None;
      }
      var msgLen := Read32(data[offset..offset + 4]);
      offset := offset + 4;
      if offset + msgLen > |data| {
        return None;
      }
      var mb := UnmarshalMsgBody(data[offset..offset + msgLen]);
      if mb.None? {
        return None;
      }
      messages := messages + [mb.value];
      offset := offset + msgLen;
      i := i + 1;
    }
    EntryStep(data, offset, 0, messages);
    ghost var rest := data[offset..];
    assert |rest| == 8 ==> rest == data[offset..offset + 8];
    if offset + 8 <= |data| {
      serverMaxSeq := Int64(data[offset..offset + 8]);
      offset := offset + 8;
    }
    if offset != |data| {
      return None;
    }
    return Some(SyncReply(currentSeq, serverMaxSeq, hasMore, messages));
  }

  lemma PrependNothing(p: ParsedEntries)
    ensures Prepend([], p) == p
  {
    assert p.ParsedEntries? ==> [] + p.messages == p.messages;
  }

  lemma {:induction false} EntriesRoundTrip(ms: seq<MsgBody>, rest: seq<Byte>)
    requires forall m <- ms :: EncodableMsg(m) && |MsgBytes(m)| < M32
    ensures ParseEntries(Entries(ms) + rest, |ms|) == ParsedEntries(ms, rest)
  {
    hide Read32, Be32, MsgBytes, ParseMsg;
    if ms == [] {
      assert Entries(ms) + rest == rest;
    } else {
      assert ms[0] in ms;
      var tail := Entries(ms[1..]) + rest;
      assert Entries(ms) + rest == Entry(ms[0]) + tail;
      EntryLayout(ms[0], tail);
      hide Entry;
      MsgRoundTrip(ms[0]);
      EntriesRoundTrip(ms[1..], rest);
    }
  }

  lemma EntryLayout(m: MsgBody, tail: seq<Byte>)
    requires |MsgBytes(m)| < M32
    ensures
      var s, n := Entry(m) + tail, |MsgBytes(m)|;
      |s| >= 4 + n && Read32(s[..4]) == n && s[4..4 + n] == MsgBytes(m) && s[4 + n..] == tail
  {
    hide Read32, Be32, MsgBytes;
    var s, n := Entry(m) + tail, |MsgBytes(m)|;
    assert Unsigned(n, M32) == n;
    ReadBe32(n);
    assert s[..4] == Be32(n) && s[4..4 + n] == MsgBytes(m) && s[4 + n..] == tail;
  }

  lemma {:induction false} EntriesOfParse(data: seq<Byte>, count: nat)
    requires count < M32
    ensures var p := ParseEntries(data, count);
      p.ParsedEntries? ==>
        |p.messages| == count && EncodableMsgs(p.messages) && data == Entries(p.messages) + p.rest
  {
    hide Read32, Be32, MsgBytes, ParseMsg;
    if count == 0 || ParseEntries(data, count).Refused? {
    } else {
      var n := Read32(data[..4]);
      var m := ParseMsg(data[4..4 + n]).value;
      var p := ParseEntries(data[4 + n..], count - 1);
      EntriesOfParse(data[4 + n..], count - 1);
      EntryOfParse(data, m);
      assert ParseEntries(data, count) == Prepend([m], p);
      hide ParseEntries, Entry;
      assert ([m] + p.messages)[1..] == p.messages;
      assert data == Entry(m) + data[4 + n..];
      assert Entry(m) + (Entries(p.messages) + p.rest) == (Entry(m) + Entries(p.messages)) + p.rest;
    }
  }

  lemma EntryOfParse(data: seq<Byte>, m: MsgBody)
    requires |data| >= 4 && |data| >= 4 + Read32(data[..4])
    requires ParseMsg(data[4..4 + Read32(data[..4])]) == Some(m)
    ensures var n := Read32(data[..4]);
      EncodableMsg(m) && |MsgBytes(m)| < M32 && data == Entry(m) + data[4 + n..]
  {
    hide Read32, Be32, MsgBytes, ParseMsg;
    var n := Read32(data[..4]);
    BeRead32(data[..4]);
    MsgBytesOfParse(data[4..4 + n]);
    assert Unsigned(n, M32) == n;
    assert data == data[..4] + data[4..4 + n] + data[4 + n..];
  }

  lemma ReplyLayout(currentSeq: int, flag: Byte, ms: seq<MsgBody>, serverMax: Option<int>)
    requires IsInt64(currentSeq) && |ms| < M32
    ensures
      var s := ReplyForm(currentSeq, flag, ms, serverMax);
      && |s| >= 13
      && Int64(s[..8]) == currentSeq && s[8] == flag && Read32(s[9..13]) == |ms|
      && s[13..] == Entries(ms) + if serverMax.Some? then PutInt64(serverMax.value) else []
  {
    hide Be32, PutInt64, Int64, Read32, Entries;
    var s := ReplyForm(currentSeq, flag, ms, serverMax);
    assert Unsigned(|ms|, M32) == |ms|;
    assert s[..8] == PutInt64(currentSeq) && s[9..13] == Be32(|ms|);
    Int64RoundTrip(currentSeq);
    ReadBe32(|ms|);
  }

  /** Every accepted form is read as what it says; a missing maximum, as in older replies, is the position. */
  lemma ReplyFormRoundTrip(currentSeq: int, flag: Byte, ms: seq<MsgBody>, serverMax: Option<int>)
    requires IsInt64(currentSeq) && EncodableMsgs(ms) && (serverMax.Some? ==> IsInt64(serverMax.value))
    ensures ParseReply(ReplyForm(currentSeq, flag, ms, serverMax)) ==
      Some(SyncReply(currentSeq, if serverMax.Some? then serverMax.value else currentSeq, flag == 1, ms))
  {
    hide Be32, PutInt64, Int64, Read32, Entries, ReplyForm, ParseEntries;
    ReplyLayout(currentSeq, flag, ms, serverMax);
    EntriesRoundTrip(ms, if serverMax.Some? then PutInt64(serverMax.value) else []);
    if serverMax.Some? {
      Int64RoundTrip(serverMax.value);
    }
  }

  /** What the server encodes, the client decodes; a maximum of 0 is read back as the position. */
  lemma ReplyRoundTrip(r: SyncReply)
    requires EncodableReply(r)
    ensures ParseReply(ReplyBytes(r)) ==
      Some(r.(serverMaxSeq := if r.serverMaxSeq == 0 then r.currentSeq else r.serverMaxSeq))
  {
    ReplyFormRoundTrip(r.currentSeq, if r.hasMore then 1 else 0, r.messages, Some(ToldMax(r)));
  }

  ghost predicate IsForm(data: seq<Byte>, currentSeq: int, flag: Byte, ms: seq<MsgBody>, serverMax: Option<int>) {
    && IsInt64(currentSeq) && EncodableMsgs(ms) && (serverMax.Some? ==> IsInt64(serverMax.value))
    && data == ReplyForm(currentSeq, flag, ms, serverMax)
  }

  /** Only the accepted forms are read: nothing truncated, and nothing behind the end. */
  lemma ReplyFormOfParse(data: seq<Byte>)
    ensures ParseReply(data).Some? <==> exists cur, flag, ms, max :: IsForm(data, cur, flag, ms, max)
  {
    hide ReplyForm, ParseReply;
    forall cur, flag, ms, max | IsForm(data, cur, flag, ms, max) ensures ParseReply(data).Some? {
      ReplyFormRoundTrip(cur, flag, ms, max);
    }
    if ParseReply(data).Some? {
      FormOfReply(data);
    }
  }

  lemma FormOfReply(data: seq<Byte>)
    requires ParseReply(data).Some?
    ensures
      |data| >= 13 &&
      var p := ParseEntries(data[13..], Read32(data[9..13]));
      p.ParsedEntries? && (p.rest == [] || |p.rest| == 8) &&
      IsForm(data, Int64(data[..8]), data[8], p.messages, if p.rest == [] then None else Some(Int64(p.rest)))
  {
    hide Be32, PutInt64, Int64, Read32, Entries, ParseEntries;
    var count := Read32(data[9..13]);
    EntriesOfParse(data[13..], count);
    var p := ParseEntries(data[13..], count);
    PutOfInt64(data[..8]);
    BeRead32(data[9..13]);
    assert Unsigned(count, M32) == count;
    if p.rest != [] {
      PutOfInt64(p.rest);
    }
    assert data == data[..8] + [data[8]] + data[9..13] + data[13..];
  }
}
