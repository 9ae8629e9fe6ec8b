/**
 The 16-byte framing of api/protocol/protocol.go over TCP, up to the end-to-end statement: whatever list
 of packets is written, the same list is read, however the network cuts the bytes.
 */
module Protocol {
  import opened Common
  import opened Bytes
  import opened Bufio

  const RAW_HEADER_SIZE: nat := 16
  const MAX_BODY_SIZE: nat := 4096
  const MAX_PACK_SIZE: nat := 4112
  const OP_RAW: int := 9

  /** The fields of a protocol packet; an absent body and an empty one are the same here. */
  datatype Packet = Packet(ver: int, op: int, seqNo: int, body: seq<Byte>)

  datatype FrameError = PackLength | HeaderLength | ReadFailed(cause: ReadError)

  ghost predicate Sendable(p: Packet) {
    && -M16 / 2 <= p.ver < M16 / 2
    && -M32 / 2 <= p.op < M32 / 2
    && -M32 / 2 <= p.seqNo < M32 / 2
    && |p.body| <= MAX_BODY_SIZE
  }

  function Header(packLen: int, ver: int, op: int, seqNo: int): (h: seq<Byte>)
    ensures |h| == RAW_HEADER_SIZE
  {
    PutInt32(packLen) + PutInt16(RAW_HEADER_SIZE) + PutInt16(ver) + PutInt32(op) + PutInt32(seqNo)
  }

  function Frame(p: Packet): seq<Byte> {
    Header(RAW_HEADER_SIZE + |p.body|, p.ver, p.op, p.seqNo) + p.body
  }

  function Frames(ps: seq<Packet>): seq<Byte> {
    if ps == [] then [] else Frame(ps[0]) + Frames(ps[1..])
  }

  /** What one read makes of the bytes at hand: the fields, the outcome, and what stays unread. */
  datatype Parsed = Parsed(packet: Packet, error: Option<FrameError>, rest: seq<Byte>)

  /** The body announced by a header, off the front of a complete stream. */
  function ParseBody(p: Packet, packLen: int, headerLen: int, rest: seq<Byte>, size: nat): Parsed {
    var bodyLen := Signed(packLen - headerLen, M32);
    if packLen > MAX_PACK_SIZE then
      Parsed(p, Some(PackLength), rest)
    else if headerLen != RAW_HEADER_SIZE then
      Parsed(p, Some(HeaderLength), rest)
    else if bodyLen <= 0 then
      Parsed(p.(body := []), None, rest)
    else if bodyLen > size then
      Parsed(p.(body := []), Some(ReadFailed(BufferFull)), rest)
    else if bodyLen > |rest| then
      Parsed(p.(body := []), Some(ReadFailed(Eof)), rest)
    else
      Parsed(p.(body := rest[..bodyLen]), None, rest[bodyLen..])
  }

  /** One frame off the front of a complete stream, with a read buffer of the given size. */
  function ParseFrame(s: seq<Byte>, size: nat, was: Packet): Parsed {
    if size < RAW_HEADER_SIZE then
      Parsed(was, Some(ReadFailed(BufferFull)), s)
    else if |s| < RAW_HEADER_SIZE then
      Parsed(was, Some(ReadFailed(Eof)), s)
    else
      var p := Packet(Int16(s[6..8]), Int32(s[8..12]), Int32(s[12..16]), was.body);
      ParseBody(p, Int32(s[..4]), Int16(s[4..6]), s[RAW_HEADER_SIZE..], size)
  }

  lemma HeaderFields(s: seq<Byte>, packLen: int, ver: int, op: int, seqNo: int)
    requires Header(packLen, ver, op, seqNo) <= s
    ensures s[..4] == PutInt32(packLen) && s[4..6] == PutInt16(RAW_HEADER_SIZE) && s[6..8] == PutInt16(ver)
    ensures s[8..12] == PutInt32(op) && s[12..16] == PutInt32(seqNo)
  {
    var h := Header(packLen, ver, op, seqNo);
    assert s[..16] == h;
    assert s[..4] == h[..4] && s[4..6] == h[4..6] && s[6..8] == h[6..8];
    assert s[8..12] == h[8..12] && s[12..16] == h[12..16];
  }

  /** Where a frame keeps what it says. */
  lemma FrameLayout(p: Packet)
    ensures Frame(p) ==
      PutInt32(16 + |p.body|) + PutInt16(16) + PutInt16(p.ver) + PutInt32(p.op) + PutInt32(p.seqNo) + p.body
  {
  }

  /** What a header does to the read: the limits, and a body length that wraps around in 32 bits. */
  lemma HeaderMeans(s: seq<Byte>, size: nat, was: Packet)
    requires |s| >= 16 && size >= 16
    ensures
      var r := ParseFrame(s, size, was);
      var packLen, headerLen := Int32(s[..4]), Int16(s[4..6]);
      var n := packLen - 16 + if packLen < -0x7fff_fff0 then 0x1_0000_0000 else 0;
      var body := if n <= 0 then 0 else n;
      && r.packet.ver == Int16(s[6..8]) && r.packet.op == Int32(s[8..12]) && r.packet.seqNo == Int32(s[12..16])
      && (r.error == Some(PackLength) <==> packLen > 4112)
      && (r.error == Some(HeaderLength) <==> packLen <= 4112 && headerLen != 16)
      && (r.error == None <==> packLen <= 4112 && headerLen == 16 && body <= size && 16 + body <= |s|)
      && (packLen > 4112 || headerLen != 16 ==> r.rest == s[16..] && r.packet.body == was.body)
      && (r.error == None ==> r.packet.body == s[16..16 + body] && r.rest == s[16 + body..])
  {
    hide Int16, Int32, Signed;
    var packLen := Int32(s[..4]);
    if packLen < -0x7fff_fff0 {
      WrapsUp(packLen - 16);
    } else if packLen <= MAX_PACK_SIZE {
      SignedOfUnsigned(packLen - 16, M32);
      FitsAsItIs(packLen - 16);
    }
  }

  lemma WrapsUp(v: int)
    requires -M32 <= v < -M32 / 2
    ensures Signed(v, M32) == v + M32
  {
    assert v % M32 == v + M32;
  }

  lemma FitsAsItIs(v: int)
    requires -M32 / 2 <= v < M32 / 2
    ensures Signed(v, M32) == v
  {
  }

  lemma SameFields(h: seq<Byte>, s: seq<Byte>)
    requires h <= s && |h| == RAW_HEADER_SIZE
    ensures h[..4] == s[..4] && h[4..6] == s[4..6] && h[6..8] == s[6..8]
    ensures h[8..12] == s[8..12] && h[12..16] == s[12..16]
  {
  }

  /** A packet that is sent comes back whole, and nothing behind it is touched. */
  lemma ParseOfFrame(p: Packet, tail: seq<Byte>, size: nat, was: Packet)
    requires Sendable(p) && size >= RAW_HEADER_SIZE && size >= |p.body|
    ensures ParseFrame(Frame(p) + tail, size, was) == Parsed(p, None, tail)
  {
    hide PutInt16, PutInt32, Int16, Int32;
    var packLen := RAW_HEADER_SIZE + |p.body|;
    var s := Frame(p) + tail;
    assert s == Header(packLen, p.ver, p.op, p.seqNo) + (p.body + tail);
    HeaderFields(s, packLen, p.ver, p.op, p.seqNo);
    Int32RoundTrip(packLen);
    Int16RoundTrip(RAW_HEADER_SIZE);
    Int16RoundTrip(p.ver);
    Int32RoundTrip(p.op);
    Int32RoundTrip(p.seqNo);
    assert s[RAW_HEADER_SIZE..] == p.body + tail;
    assert (p.body + tail)[..|p.body|] == p.body && (p.body + tail)[|p.body|..] == tail;
  }

  /** Everything a reader makes of a stream until the first error. */
  function ParseAll(s: seq<Byte>, size: nat): (ps: seq<Packet>)
    decreases |s|
  {
    var r := ParseFrame(s, size, BLANK);
    if r.error.Some? then [] else [r.packet] + ParseAll(r.rest, size)
  }

  const BLANK: Packet := Packet(0, 0, 0, [])

  ghost predicate Deliverable(ps: seq<Packet>, size: nat) {
    size >= RAW_HEADER_SIZE && forall p <- ps :: Sendable(p) && |p.body| <= size
  }

  /** Of a cut-off stream the reader sees a prefix of the packets, and of the whole stream all of them. */
  lemma {:induction false} ParseAllOfFrames(ps: seq<Packet>, s: seq<Byte>, size: nat)
    requires Deliverable(ps, size) && s <= Frames(ps)
    ensures ParseAll(s, size) <= ps
    ensures s == Frames(ps) ==> ParseAll(s, size) == ps
  {
    if ps == [] {
    } else {
      hide Frame, ParseFrame;
      var f := Frame(ps[0]);
      Peel(f, Frames(ps[1..]), s);
      if |f| <= |s| {
        ParseOfFrame(ps[0], s[|f|..], size, BLANK);
        ParseAllOfFrames(ps[1..], s[|f|..], size);
      } else {
        CutFrame(ps[0], s, size);
      }
    }
  }

  lemma Peel(f: seq<Byte>, later: seq<Byte>, s: seq<Byte>)
    requires s <= f + later
    ensures |f| <= |s| ==> s == f + s[|f|..] && s[|f|..] <= later && (s == f + later ==> s[|f|..] == later)
    ensures |s| < |f| ==> s <= f
  {
    if |f| <= |s| {
      assert s[..|f|] == (f + later)[..|f|] == f;
      assert s[|f|..] == (f + later)[|f|..|s|] == later[..|s| - |f|];
    } else {
      assert s == (f + later)[..|s|] == f[..|s|];
    }
  }

  lemma CutFrame(p: Packet, s: seq<Byte>, size: nat)
    requires Sendable(p) && size >= RAW_HEADER_SIZE && size >= |p.body|
    requires s <= Frame(p) && |s| < |Frame(p)|
    ensures ParseAll(s, size) == []
  {
    hide PutInt16, PutInt32, Int16, Int32;
    if |s| >= RAW_HEADER_SIZE {
      var packLen := RAW_HEADER_SIZE + |p.body|;
      assert Header(packLen, p.ver, p.op, p.seqNo) <= s by {
        assert Frame(p)[..16] == Header(packLen, p.ver, p.op, p.seqNo);
      }
      HeaderFields(s, packLen, p.ver, p.op, p.seqNo);
      Int32RoundTrip(packLen);
      Int16RoundTrip(RAW_HEADER_SIZE);
    }
  }

  lemma {:induction false} FramesConcat(a: seq<Packet>, b: seq<Packet>)
    ensures Frames(a + b) == Frames(a) + Frames(b)
  {
    hide Frame;
    if a == [] {
      assert a + b == b;
    } else {
      FramesConcat(a[1..], b);
      assert (a + b)[0] == a[0] && (a + b)[1..] == a[1..] + b;
      var x, y, z := Frame(a[0]), Frames(a[1..]), Frames(b);
      assert x + (y + z) == (x + y) + z;
    }
  }

  /** The five header fields, written one after the other. */
  method PutHeader(buf: array<Byte>, at: nat, packLen: int, ver: int, op: int, seqNo: int)
    requires at + RAW_HEADER_SIZE <= buf.Length
    modifies buf
    ensures buf[..] == Splice(old(buf[..]), at, Header(packLen, ver, op, seqNo))
  {
    hide Splice, PutInt16, PutInt32;
    ghost var was := buf[..];
    var h := PutInt32(packLen);
    Copy(buf, at, h);
    SpliceSplice(was, at, h, PutInt16(RAW_HEADER_SIZE));
    Copy(buf, at + 4, PutInt16(RAW_HEADER_SIZE));
    h := h + PutInt16(RAW_HEADER_SIZE);
    SpliceSplice(was, at, h, PutInt16(ver));
    Copy(buf, at + 6, PutInt16(ver));
    h := h + PutInt16(ver);
    SpliceSplice(was, at, h, PutInt32(op));
    Copy(buf, at + 8, PutInt32(op));
    h := h + PutInt32(op);
    SpliceSplice(was, at, h, PutInt32(seqNo));
    Copy(buf, at + 12, PutInt32(seqNo));
  }

  /** What WriteTCP puts on the stream: a raw packet's body is already framed. */
  function Encoding(p: Packet): seq<Byte> {
    if p.op == OP_RAW then p.body else Frame(p)
  }

  class Proto {
    var ver: int
    var op: int
    var seqNo: int
    var body: seq<Byte>

    function Value(): Packet
      reads this
    {
      Packet(ver, op, seqNo, body)
    }

    constructor (p: Packet)
      ensures Value() == p
    {
      ver, op, seqNo, body := p.ver, p.op, p.seqNo, p.body;
    }

    method WriteTo(b: BytesWriter)
      requires b.Valid()
      modifies b, b.buf
      ensures b.Valid() && b.buf[..b.n] == old(b.buf[..b.n]) + Frame(Value())
      ensures b.buf == old(b.buf) || fresh(b.buf)
    {
      var at := b.Peek(RAW_HEADER_SIZE);
      PutHeader(b.buf, at, RAW_HEADER_SIZE + |body|, ver, op, seqNo);
      assert b.buf[..b.n] == old(b.buf[..b.n]) + Header(RAW_HEADER_SIZE + |body|, ver, op, seqNo);
      if body != [] {
        b.Write(body);
      }
    }

    /** A header for a body of the given length. */
    method WriteHeader(wr: Writer, bodyLen: nat) returns (ok: bool)
      requires wr.Valid()
      modifies wr, wr.buf, wr.wr
      ensures wr.Valid() && (ok ==> !wr.failed)
      ensures wr.Written() ==
        old(wr.Written()) + if ok then Header(RAW_HEADER_SIZE + bodyLen, ver, op, seqNo) else []
      ensures wr.wr.reliable && !old(wr.failed) && wr.buf.Length >= RAW_HEADER_SIZE ==> ok
    {
      hide Header;
      var at := wr.Peek(RAW_HEADER_SIZE);
      if at.None? {
        return false;
      }
      ghost var before := wr.buf[..at.value];
      PutHeader(wr.buf, at.value, RAW_HEADER_SIZE + bodyLen, ver, op, seqNo);
      var h := Header(RAW_HEADER_SIZE + bodyLen, ver, op, seqNo);
      assert wr.buf[..wr.n] == before + h;
      assert wr.wr.out + (before + h) == (wr.wr.out + before) + h;
      return true;
    }

    method WriteTCP(wr: Writer) returns (ok: bool)
      requires wr.Valid() && wr.buf.Length > 0
      modifies wr, wr.buf, wr.wr
      ensures wr.Valid()
      ensures old(wr.Written()) <= wr.Written() <= old(wr.Written()) + Encoding(Value())
      ensures ok ==> wr.Written() == old(wr.Written()) + Encoding(Value()) && !wr.failed
      ensures wr.wr.reliable && !old(wr.failed) && wr.buf.Length >= RAW_HEADER_SIZE ==> ok
      ensures ok && op == 9 ==> wr.Written() == old(wr.Written()) + body
      ensures ok && op != 9 ==> wr.Written() == old(wr.Written()) + Frame(Value())
    {
      hide Header;
      if op == OP_RAW {
        var _, sent := wr.WriteRaw(body);
        return sent;
      }
      ghost var before, h := wr.Written(), Header(RAW_HEADER_SIZE + |body|, ver, op, seqNo);
      ok := WriteHeader(wr, |body|);
      if ok && body != [] {
        var nn;
        nn, ok := wr.Write(body);
        assert before + h + body[..nn] == before + (h + body[..nn]);
      }
    }

    /** A heartbeat reply is a frame whose body is the online count. */
    method WriteTCPHeart(wr: Writer, online: int) returns (ok: bool)
      requires wr.Valid()
      modifies wr, wr.buf, wr.wr
      ensures wr.Valid() && (ok ==> !wr.failed)
      ensures wr.Written() == old(wr.Written()) + if ok then Frame(Value().(body := PutInt32(online))) else []
      ensures wr.wr.reliable && !old(wr.failed) && wr.buf.Length >= 20 ==> ok
    {
      hide Header, PutInt32;
      var at := wr.Peek(RAW_HEADER_SIZE + 4);
      if at.None? {
        return false;
      }
      ghost var before := wr.buf[..at.value];
      PutHeader(wr.buf, at.value, RAW_HEADER_SIZE + 4, ver, op, seqNo);
      Copy(wr.buf, at.value + RAW_HEADER_SIZE, PutInt32(online));
      ghost var f := Frame(Value().(body := PutInt32(online)));
      assert wr.buf[..wr.n] == before + f;
      assert wr.wr.out + (before + f) == (wr.wr.out + before) + f;
      return true;
    }

    /** A frame off the connection: exactly what the stream's front means, whatever the chunks. */
    method ReadTCP(rr: Reader) returns (e: Option<FrameError>)
      requires rr.Valid()
      modifies this, rr, rr.buf, rr.rd
      ensures rr.Valid()
      ensures rr.rd.lively || e.None? || !e.value.ReadFailed? ==>
        Parsed(Value(), e, rr.Rest()) == ParseFrame(old(rr.Rest()), rr.buf.Length, old(Value()))
    {
      hide Int16, Int32, Signed;
      var buf, err := rr.Pop(RAW_HEADER_SIZE);
      if err.Some? {
        return Some(ReadFailed(err.value));
      }
      SameFields(buf, old(rr.Rest()));
      var packLen, headerLen := Int32(buf[..4]), Int16(buf[4..6]);
      ver, op, seqNo := Int16(buf[6..8]), Int32(buf[8..12]), Int32(buf[12..16]);
      if packLen > MAX_PACK_SIZE {
        return Some(PackLength);
      }
      if headerLen != RAW_HEADER_SIZE {
        return Some(HeaderLength);
      }
      var bodyLen := Signed(packLen - headerLen, M32);
      if bodyLen > 0 {
        body, err := rr.Pop(bodyLen);
        if err.Some? {
          return Some(ReadFailed(err.value));
        }
      } else {
        body := [];
      }
      e := None;
    }
  }

  /** What an application sends: packets one by one, or a batch framed beforehand and sent raw. */
  datatype Item = Single(packet: Packet) | Batch(packets: seq<Packet>, ver: int, seqNo: int)

  function Flatten(items: seq<Item>): seq<Packet> {
    if items == [] then [] else Packets(items[0]) + Flatten(items[1..])
  }

  function Packets(item: Item): seq<Packet> {
    match item
    case Single(p) => [p]
    case Batch(ps, _, _) => ps
  }

  ghost predicate WellFormed(items: seq<Item>) {
    forall i <- items :: i.Single? ==> i.packet.op != 9
  }

  /** A batch body, as the workers assemble it. */
  method EncodeBatch(ps: seq<Packet>) returns (body: seq<Byte>)
    ensures body == Frames(ps)
  {
    hide Frame;
    var b := new BytesWriter(MAX_BODY_SIZE);
    var i := 0;
    assert b.buf[..b.n] == Frames([]);
    while i < |ps|
      invariant i <= |ps| && b.Valid() && fresh(b) && fresh(b.buf)
      invariant b.buf[..b.n] == Frames(ps[..i])
    {
      var p := new Proto(ps[i]);
      p.WriteTo(b);
      assert ps[..i + 1] == ps[..i] + [ps[i]];
      FramesConcat(ps[..i], [ps[i]]);
      assert [ps[i]][1..] == [];
      i := i + 1;
    }
    assert ps[..i] == ps;
    return b.buf[..b.n];
  }

  method Send(item: Item, wr: Writer) returns (ok: bool)
    requires wr.Valid() && wr.buf.Length >= RAW_HEADER_SIZE && WellFormed([item])
    modifies wr, wr.buf, wr.wr
    ensures wr.Valid()
    ensures old(wr.Written()) <= wr.Written() <= old(wr.Written()) + Frames(Packets(item))
    ensures ok ==> wr.Written() == old(wr.Written()) + Frames(Packets(item)) && !wr.failed
    ensures wr.wr.reliable && !old(wr.failed) ==> ok
  {
    hide Frame;
    var p: Proto;
    match item {
      case Single(packet) =>
        assert item in [item];
        assert Frames([packet][1..]) == [];
        assert Frames([packet]) == Frame(packet);
        p := new Proto(packet);
      case Batch(packets, ver, seqNo) =>
        var body := EncodeBatch(packets);
        p := new Proto(Packet(ver, OP_RAW, seqNo, body));
    }
    ok := p.WriteTCP(wr);
  }

  /** Writes every item until one fails, then flushes. */
  method SendAll(items: seq<Item>, wr: Writer) returns (ok: bool)
    requires wr.Valid() && wr.buf.Length >= RAW_HEADER_SIZE && WellFormed(items)
    modifies wr, wr.buf, wr.wr
    ensures wr.Valid()
    ensures wr.Written() <= old(wr.Written()) + Frames(Flatten(items))
    ensures ok ==> wr.wr.out == old(wr.Written()) + Frames(Flatten(items))
    ensures wr.wr.reliable && !old(wr.failed) ==> ok
  {
    ghost var all := wr.Written() + Frames(Flatten(items));
    var i := 0;
    while i < |items|
      invariant i <= |items| && wr.Valid()
      invariant wr.Written() + Frames(Flatten(items[i..])) == all
      invariant wr.wr.reliable && !old(wr.failed) ==> !wr.failed
    {
      hide Frames, Flatten, Packets;
      ghost var now := wr.Written() + Frames(Packets(items[i]));
      OneSent(items, i, wr.Written(), all);
      ok := Send(items[i], wr);
      if !ok {
        PrefixGrows(wr.Written(), now, Frames(Flatten(items[i + 1..])));
        return;
      }
      i := i + 1;
    }
    ok := wr.Flush();
    assert ok ==> wr.Written() == wr.wr.out;
  }

  lemma OneSent(items: seq<Item>, i: nat, was: seq<Byte>, all: seq<Byte>)
    requires i < |items| && was + Frames(Flatten(items[i..])) == all
    ensures was + Frames(Packets(items[i])) + Frames(Flatten(items[i + 1..])) == all
  {
    assert items[i..][1..] == items[i + 1..];
    FramesConcat(Packets(items[i]), Flatten(items[i + 1..]));
  }

  lemma PrefixGrows(a: seq<Byte>, b: seq<Byte>, c: seq<Byte>)
    requires a <= b
    ensures a <= b + c
  {
  }

  /** Reads until the first error. */
  method ReceiveAll(rr: Reader) returns (got: seq<Packet>)
    requires rr.Valid()
    modifies rr, rr.buf, rr.rd
    ensures rr.Valid() && got <= ParseAll(old(rr.Rest()), rr.buf.Length)
    ensures rr.rd.lively ==> got == ParseAll(old(rr.Rest()), rr.buf.Length)
  {
    hide ParseFrame;
    got := [];
    while true
      invariant rr.Valid()
      invariant ParseAll(old(rr.Rest()), rr.buf.Length) == got + ParseAll(rr.Rest(), rr.buf.Length)
      decreases |rr.Rest()|
    {
      ParseConsumes(rr.Rest(), rr.buf.Length);
      var p := new Proto(BLANK);
      var e := p.ReadTCP(rr);
      if e.Some? {
        return;
      }
      got := got + [p.Value()];
    }
  }

  lemma ParseConsumes(s: seq<Byte>, size: nat)
    ensures var r := ParseFrame(s, size, BLANK); r.error.None? ==> |r.rest| < |s|
  {
  }

  lemma OnTheWire(out: seq<Byte>, buffered: seq<Byte>, all: seq<Byte>)
    requires out + buffered <= all
    ensures out <= all
  {
    assert out == (out + buffered)[..|out|];
  }

  /**
   End to end. Whatever fails on the way, what arrives is a prefix of what was sent; over a connection
   that works, it is all of it, with every batch unpacked, for any chunks and any sufficient buffers.
   */
  method Transfer(items: seq<Item>, writeSize: nat, readSize: nat, reliable: bool, lively: bool)
    returns (got: seq<Packet>)
    requires WellFormed(items) && Deliverable(Flatten(items), readSize)
    requires writeSize == 0 || writeSize >= RAW_HEADER_SIZE
    ensures got <= Flatten(items)
    ensures reliable && lively ==> got == Flatten(items)
  {
    var sink := new Sink(reliable);
    var wr := new Writer(sink, writeSize);
    var ok := SendAll(items, wr);
    OnTheWire(wr.wr.out, wr.buf[..wr.n], Frames(Flatten(items)));
    var source := new Source(sink.out, lively);
    var rr := new Reader(source, readSize);
    ParseAllOfFrames(Flatten(items), sink.out, readSize);
    assert rr.Rest() == sink.out;
    got := ReceiveAll(rr);
  }
}
