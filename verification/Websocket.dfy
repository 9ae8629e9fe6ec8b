/**
 The WebSocket connection of pkg/websocket/conn.go: frame headers in three length forms, the parser,
 masking in place, and reassembly of fragmented messages with pings answered on the way. The framing
 follows sections 5.2 to 5.5 of RFC 6455.
 */
module Websocket {
  import opened Common
  import opened Bits
  import opened Bytes
  import opened Bufio

  const CONTINUATION: nat := 0
  const TEXT: nat := 1
  const BINARY: nat := 2
  const CLOSE: nat := 8
  const PING: nat := 9
  const PONG: nat := 10
  const CONTINUATION_MAX_READ: nat := 100

  type Key = k: seq<Byte> | |k| == 4 witness [0, 0, 0, 0]

  function XorByte(a: Byte, b: Byte): Byte {
    assert Pow2(8) == 256 by {
      Pow2Add(4, 4);
    }
    XorBound(a, b, 8);
    Xor(a, b)
  }

  /** The payload under a masking key, starting at a position of the key (section 5.3). */
  function Masked(b: seq<Byte>, key: Key, pos: nat): (m: seq<Byte>)
    ensures |m| == |b|
  {
    seq(|b|, i requires 0 <= i < |b| => XorByte(b[i], key[(pos + i) % 4]))
  }

  /** Each byte under its byte of the key. */
  lemma MaskedIsXor(b: seq<Byte>, key: Key, pos: nat)
    ensures forall i | 0 <= i < |b| :: Masked(b, key, pos)[i] == Xor(b[i], key[(pos + i) % 4])
  {
    hide Xor;
  }

  /** Masking twice restores the payload. */
  lemma MaskTwice(b: seq<Byte>, key: Key, pos: nat)
    ensures Masked(Masked(b, key, pos), key, pos) == b
  {
    forall i | 0 <= i < |b| ensures Masked(Masked(b, key, pos), key, pos)[i] == b[i] {
      XorTwice(b[i], key[(pos + i) % 4]);
    }
  }

  /** The returned position continues the mask over the next chunk. */
  lemma MaskContinues(a: seq<Byte>, b: seq<Byte>, key: Key, pos: nat)
    ensures Masked(a + b, key, pos) == Masked(a, key, pos) + Masked(b, key, (pos + |a|) % 4)
  {
    var whole, first, second := Masked(a + b, key, pos), Masked(a, key, pos), Masked(b, key, (pos + |a|) % 4);
    forall i | 0 <= i < |a + b| ensures whole[i] == (first + second)[i] {
      if i >= |a| {
        assert (pos + (|a| + (i - |a|))) % 4 == ((pos + |a|) % 4 + (i - |a|)) % 4;
      }
    }
  }

  method MaskBytes(key: Key, pos: nat, b: array<Byte>) returns (next: nat)
    modifies b
    ensures forall i | 0 <= i < b.Length :: b[i] == Xor(old(b[i]), key[(pos + i) % 4])
    ensures b[..] == Masked(old(b[..]), key, pos) && next == (pos + b.Length) % 4
  {
    hide XorByte;
    ghost var was := b[..];
    var i, at := 0, pos;
    while i < b.Length
      invariant i <= b.Length && at == pos + i
      invariant b[i..] == old(b[..])[i..] && b[..i] == Masked(old(b[..]), key, pos)[..i]
    {
      AndMask(at, 2);
      b[i] := XorByte(b[i], key[And(at, 3)]);
      at := at + 1;
      i := i + 1;
    }
    AndMask(at, 2);
    assert b[..] == Masked(was, key, pos);
    MaskedIsXor(was, key, pos);
    assert forall j :: 0 <= j < b.Length ==> b[j] == b[..][j] && old(b[j]) == was[j];
    return And(at, 3);
  }

  datatype Frame = Frame(fin: bool, op: nat, payload: seq<Byte>)

  datatype WsError = Io(cause: ReadError) | Reserved | Closed | UnknownOp | TooManyFrames | WriteFailed

  /** The length field, and its extension (section 5.2). */
  function LengthBytes(maskBit: nat, length: nat): seq<Byte>
    requires maskBit <= 1
  {
    if length <= 125 then [128 * maskBit + length]
    else if length < M16 then [128 * maskBit + 126] + Be16(length)
    else [128 * maskBit + 127] + Be64(Unsigned(length, M64))
  }

  /** A frame as a peer may send it, masked or not. */
  function Encode(f: Frame, key: Option<Key>): seq<Byte>
    requires f.op < 16
  {
    [(if f.fin then 128 else 0) + f.op]
    + LengthBytes(if key.Some? then 1 else 0, |f.payload|)
    + match key
      case None => f.payload
      case Some(k) => k + Masked(f.payload, k, 0)
  }

  datatype Taken = Taken(bytes: seq<Byte>, rest: seq<Byte>) | Short(cause: ReadError)

  /** n bytes off the front of a complete stream, through a buffer of the given size. */
  function Take(s: seq<Byte>, n: int, size: nat): (t: Taken)
    ensures t.Taken? ==> s == t.bytes + t.rest && |t.bytes| == n
  {
    if n < 0 then Short(NegativeCount)
    else if n > size then Short(BufferFull)
    else if n > |s| then Short(Eof)
    else Taken(s[..n], s[n..])
  }

  datatype ParsedLength = ParsedLength(length: int, rest: seq<Byte>) | LengthShort(cause: ReadError)

  function ParseLength(bits: nat, s: seq<Byte>, size: nat): ParsedLength {
    if bits == 126 then
      match Take(s, 2, size)
      case Short(e) => LengthShort(e)
      case Taken(p, rest) => ParsedLength(Read16(p), rest)
    else if bits == 127 then
      match Take(s, 8, size)
      case Short(e) => LengthShort(e)
      case Taken(p, rest) => ParsedLength(Int64(p), rest)
    else
      ParsedLength(bits, s)
  }

  datatype Parsed = Parsed(frame: Frame, rest: seq<Byte>) | Bad(error: WsError)

  function ParsePayload(fin: bool, op: nat, key: Option<Key>, length: int, s: seq<Byte>, size: nat): Parsed {
    if length <= 0 then Parsed(Frame(fin, op, []), s)
    else
      match Take(s, length, size)
      case Short(e) => Bad(Io(e))
      case Taken(p, rest) => Parsed(Frame(fin, op, if key.Some? then Masked(p, key.value, 0) else p), rest)
  }

  function ParseKeyed(fin: bool, op: nat, masked: bool, length: int, s: seq<Byte>, size: nat): Parsed {
    if !masked then ParsePayload(fin, op, None, length, s, size)
    else
      match Take(s, 4, size)
      case Short(e) => Bad(Io(e))
      case Taken(key, rest) => ParsePayload(fin, op, Some(key), length, rest, size)
  }

  /** One frame off the front of a complete stream. */
  function ParseFrame(s: seq<Byte>, size: nat): (r: Parsed) {
    if s == [] then Bad(Io(Eof))
    else if s[0] / 16 % 8 != 0 then Bad(Reserved)
    else if |s| == 1 then Bad(Io(Eof))
    else
      match ParseLength(s[1] % 128, s[2..], size)
      case LengthShort(e) => Bad(Io(e))
      case ParsedLength(length, rest) => ParseKeyed(s[0] / 128 == 1, s[0] % 16, s[1] / 128 == 1, length, rest, size)
  }

  lemma ParseLengthOfBytes(maskBit: nat, length: nat, s: seq<Byte>, size: nat)
    requires maskBit <= 1 && length < M64 / 2 && size >= 8
    ensures var b := LengthBytes(maskBit, length);
      b[0] / 128 == maskBit && ParseLength(b[0] % 128, b[1..] + s, size) == ParsedLength(length, s)
  {
    hide Be16, Be64, Read16, Int64;
    var b := LengthBytes(maskBit, length);
    if 125 < length < M16 {
      assert b[1..] == Be16(length);
      ReadBe16(length);
      assert (Be16(length) + s)[..2] == Be16(length) && (Be16(length) + s)[2..] == s;
    } else if length >= M16 {
      var e := PutInt64(length);
      assert b[1..] == e;
      Int64RoundTrip(length);
      assert (e + s)[..8] == e && (e + s)[8..] == s;
    } else {
      assert b[1..] + s == s;
    }
  }

  /** A length takes the shortest of the three forms. */
  lemma ShortestForm(maskBit: nat, length: nat)
    requires maskBit <= 1
    ensures |LengthBytes(maskBit, length)| == if length <= 125 then 1 else if length <= 65535 then 3 else 9
  {
  }

  /** Extension bytes behind the length field. */
  function Extension(b: Byte): nat {
    if b % 128 == 126 then 2 else if b % 128 == 127 then 8 else 0
  }

  /** The length of a frame, a signed number in the longest form. */
  function LengthAt(s: seq<Byte>): int
    requires |s| >= 2 && |s| >= 2 + Extension(s[1])
  {
    if Extension(s[1]) == 0 then s[1] % 128
    else if Extension(s[1]) == 2 then (s[2] as int) * 256 + s[3] as int
    else Int64(s[2..10])
  }

  lemma LengthOnTheWire(s: seq<Byte>, size: nat)
    requires |s| >= 2 && |s| >= 2 + Extension(s[1]) && size >= 8
    ensures ParseLength(s[1] % 128, s[2..], size) == ParsedLength(LengthAt(s), s[2 + Extension(s[1])..])
  {
    hide Int64;
    var ext := Extension(s[1]);
    assert s[2..][..ext] == s[2..2 + ext] && s[2..][ext..] == s[2 + ext..];
  }

  lemma KeyAndPayload(fin: bool, op: nat, masked: bool, length: int, s: seq<Byte>, size: nat)
    requires size >= 8
    ensures
      var at := if masked then 4 else 0;
      var n := if length > 0 then length else 0;
      match ParseKeyed(fin, op, masked, length, s, size)
      case Parsed(f, rest) =>
        && n <= size && at + n <= |s| && f.fin == fin && f.op == op && rest == s[at + n..]
        && f.payload == (if masked then Masked(s[4..4 + n], s[..4], 0) else s[..n])
      case Bad(e) =>
        || (e == Io(BufferFull) && at <= |s| && n > size)
        || (e == Io(Eof) && at + n > |s| && (n <= size || at > |s|))
  {
    hide Masked;
    if masked && |s| >= 4 {
      assert length > 0 ==> 4 + length <= |s| ==> s[4..][..length] == s[4..4 + length];
      assert Masked([], s[..4], 0) == [] == s[4..4];
    }
  }

  lemma SlicesBehind(s: seq<Byte>, start: nat, k: nat, n: nat)
    requires start <= |s|
    ensures start + k <= |s| ==> s[start..][..k] == s[start..start + k]
    ensures start + k + n <= |s| ==>
      s[start..][k..k + n] == s[start + k..start + k + n] && s[start..][k + n..] == s[start + k + n..]
    ensures start + n <= |s| ==> s[start..][..n] == s[start..start + n]
  {
  }

  /** Behind the reserved bits and the length, the parser is at the key. */
  lemma HeaderRead(s: seq<Byte>, size: nat, start: nat)
    requires |s| >= 2 && start == 2 + Extension(s[1]) <= |s| && size >= 8
    ensures ParseFrame(s, size) ==
      if s[0] % 128 >= 16 then Bad(Reserved)
      else ParseKeyed(s[0] >= 128, s[0] % 16, s[1] >= 128, LengthAt(s), s[start..], size)
  {
    hide ParseLength, LengthAt, Extension, ParseKeyed;
    LengthOnTheWire(s, size);
  }

  /** The parts of a frame, as slices. */
  lemma FrameParts(s: seq<Byte>, size: nat, start: nat, k: nat, n: nat)
    requires |s| >= 2 && start == 2 + Extension(s[1]) <= |s| && size >= 8
    requires k == (if s[1] >= 128 then 4 else 0) && n == (if LengthAt(s) > 0 then LengthAt(s) else 0)
    ensures
      match ParseFrame(s, size)
      case Parsed(f, rest) =>
        && s[0] % 128 < 16 && n <= size && start + k + n <= |s|
        && f.fin == (s[0] >= 128) && f.op == s[0] % 16 && rest == s[start + k + n..]
        && var bytes := s[start + k..start + k + n];
        && f.payload == if k == 4 then Masked(bytes, s[start..start + 4], 0) else bytes
      case Bad(e) =>
        || (e == Reserved && s[0] % 128 >= 16)
        || (e == Io(BufferFull) && s[0] % 128 < 16 && start + k <= |s| && n > size)
        || (e == Io(Eof) && s[0] % 128 < 16 && start + k + n > |s| && (n <= size || start + k > |s|))
  {
    HeaderRead(s, size, start);
    hide Masked, ParseFrame, LengthAt, Extension, ParseKeyed;
    KeyAndPayload(s[0] >= 128, s[0] % 16, s[1] >= 128, LengthAt(s), s[start..], size);
    SlicesBehind(s, start, k, n);
  }

  lemma UnmaskedOnTheWire(s: seq<Byte>, at: nat, m: seq<Byte>)
    requires 4 <= at && at + |m| <= |s| && m == Masked(s[at..at + |m|], s[at - 4..at], 0)
    ensures forall i {:trigger m[i]} :: 0 <= i < |m| ==> m[i] == Xor(s[at + i], s[at - 4 + i % 4])
  {
    hide Masked, Xor;
    var b, key := s[at..at + |m|], s[at - 4..at];
    MaskedIsXor(b, key, 0);
    forall i {:trigger m[i]} | 0 <= i < |m| ensures m[i] == Xor(s[at + i], s[at - 4 + i % 4]) {
      assert b[i] == s[at + i] && key[(0 + i) % 4] == s[at - 4 + i % 4];
    }
  }

  /** Where a frame keeps what: header, extension, key and payload, each behind the other (section 5.2). */
  lemma FrameOnTheWire(s: seq<Byte>, size: nat)
    requires |s| >= 2 && |s| >= 2 + Extension(s[1]) && size >= 8
    ensures
      var at := 2 + Extension(s[1]) + if s[1] >= 128 then 4 else 0;
      var n := if LengthAt(s) > 0 then LengthAt(s) else 0;
      match ParseFrame(s, size)
      case Parsed(f, rest) =>
        && s[0] % 128 < 16 && n <= size && at + n <= |s|
        && f.fin == (s[0] >= 128) && f.op == s[0] % 16 && |f.payload| == n && rest == s[at + n..]
        && (forall i {:trigger f.payload[i]} :: 0 <= i < n ==>
          f.payload[i] == if s[1] >= 128 then Xor(s[at + i], s[at - 4 + i % 4]) else s[at + i])
      case Bad(e) =>
        || (e == Reserved && s[0] % 128 >= 16)
        || (e == Io(BufferFull) && s[0] % 128 < 16 && at <= |s| && n > size)
        || (e == Io(Eof) && s[0] % 128 < 16 && at + n > |s| && (n <= size || at > |s|))
  {
    hide Masked, Xor, ParseFrame, LengthAt, Extension;
    var start, k := 2 + Extension(s[1]), if s[1] >= 128 then 4 else 0;
    var n := if LengthAt(s) > 0 then LengthAt(s) else 0;
    FrameParts(s, size, start, k, n);
    var r := ParseFrame(s, size);
    if r.Parsed? && k == 4 {
      UnmaskedOnTheWire(s, start + 4, r.frame.payload);
    }
  }

  /** A header or an extension cut off is the end of the stream. */
  lemma CutHeader(s: seq<Byte>, size: nat)
    requires size >= 8 && (|s| < 2 || |s| < 2 + Extension(s[1]))
    ensures ParseFrame(s, size) == Bad(if s != [] && s[0] % 128 >= 16 then Reserved else Io(Eof))
  {
  }

  /** Where the parts of an encoded frame are. */
  lemma PartsOf(head: Byte, length: seq<Byte>, body: seq<Byte>, tail: seq<Byte>)
    requires |length| >= 1
    ensures
      var s := [head] + length + body + tail;
      |s| >= 2 && s[0] == head && s[1] == length[0] && s[2..] == length[1..] + (body + tail)
  {
  }

  /** Every frame, in every length form, masked or not, is read back as it was meant. */
  lemma ParseOfEncode(f: Frame, key: Option<Key>, tail: seq<Byte>, size: nat)
    requires f.op < 16 && |f.payload| <= size && |f.payload| < M64 / 2 && size >= 8
    ensures ParseFrame(Encode(f, key) + tail, size) == Parsed(f, tail)
  {
    hide LengthBytes, ParseLength, Masked;
    var bit := if key.Some? then 1 else 0;
    var l := LengthBytes(bit, |f.payload|);
    var body := match key case None => f.payload case Some(k) => k + Masked(f.payload, k, 0);
    var head := (if f.fin then 128 else 0) + f.op;
    ParseLengthOfBytes(bit, |f.payload|, body + tail, size);
    assert |l| >= 1 by {
      ShortestForm(bit, |f.payload|);
    }
    PartsOf(head, l, body, tail);
    if key.Some? {
      MaskTwice(f.payload, key.value, 0);
      assert (body + tail)[..4] == key.value && (body + tail)[4..] == Masked(f.payload, key.value, 0) + tail;
    }
  }

  /** What one call makes of a complete stream: the message or the error, and the pings to answer. */
  datatype Outcome =
    | Message(op: nat, payload: seq<Byte>, pongs: seq<seq<Byte>>, rest: seq<Byte>)
    | Stopped(error: WsError, pongs: seq<seq<Byte>>)

  /** Reassembly after n frames, with the payload and the operation collected and the pings seen so far. */
  function Assemble(s: seq<Byte>, size: nat, n: nat, acc: seq<Byte>, finOp: nat, pongs: seq<seq<Byte>>): Outcome
    decreases CONTINUATION_MAX_READ + 1 - n
  {
    match ParseFrame(s, size)
    case Bad(e) => Stopped(e, pongs)
    case Parsed(f, rest) =>
      var data := f.op == CONTINUATION || f.op == TEXT || f.op == BINARY;
      var acc' := if data then acc + f.payload else acc;
      var finOp' := if data && f.op != CONTINUATION then f.op else finOp;
      var pongs' := if f.op == PING then pongs + [f.payload] else pongs;
      if data && f.fin then
        Message(if acc == [] then f.op else finOp', acc', pongs, rest)
      else if f.op == CLOSE then
        Stopped(Closed, pongs)
      else if !data && f.op != PING && f.op != PONG then
        Stopped(UnknownOp, pongs)
      else if n > CONTINUATION_MAX_READ then
        Stopped(TooManyFrames, pongs')
      else
        Assemble(rest, size, n + 1, acc', finOp', pongs')
  }

  /** A message in one frame, byte by byte: a client's comes masked and is returned unmasked. */
  lemma OneFrameMessage(s: seq<Byte>, size: nat)
    requires |s| >= 2 && 128 <= s[0] <= 130 && |s| >= 2 + Extension(s[1]) && size >= 8
    requires var at := 2 + Extension(s[1]) + if s[1] >= 128 then 4 else 0;
             0 <= LengthAt(s) <= size && at + LengthAt(s) <= |s|
    ensures
      var at := 2 + Extension(s[1]) + if s[1] >= 128 then 4 else 0;
      var o := Assemble(s, size, 0, [], 0, []);
      && o.Message? && o.op == s[0] - 128 && |o.payload| == LengthAt(s)
      && (forall i {:trigger o.payload[i]} :: 0 <= i < LengthAt(s) ==>
        o.payload[i] == if s[1] >= 128 then Xor(s[at + i], s[at - 4 + i % 4]) else s[at + i])
      && o.pongs == [] && o.rest == s[at + LengthAt(s)..]
  {
    hide ParseFrame, Xor, LengthAt, Extension;
    FrameOnTheWire(s, size);
    var f := ParseFrame(s, size).frame;
    assert [] + f.payload == f.payload;
  }

  /** The replies to a list of pings, in order. */
  function Replies(pings: seq<seq<Byte>>): seq<Byte> {
    if pings == [] then []
    else Replies(pings[..|pings| - 1]) + Encode(Frame(true, PONG, pings[|pings| - 1]), None)
  }

  class Conn {
    const r: Reader
    const w: Writer

    constructor (r: Reader, w: Writer)
      ensures this.r == r && this.w == w
    {
      this.r, this.w := r, w;
    }

    ghost predicate Valid()
      reads this, r, r.rd, w
    {
      r.Valid() && w.Valid() && r.buf.Length >= 16 && w.buf.Length >= 8 && r.buf != w.buf
    }

    /** Nothing can fail on either side but the end of the stream. */
    ghost predicate Healthy()
      reads this, r, w
    {
      r.rd.lively && w.wr.reliable && !w.failed
    }

    /** Reserves space and fills it at once. */
    method Append(bytes: seq<Byte>) returns (ok: bool)
      requires Valid()
      modifies w, w.buf, w.wr
      ensures Valid() && (ok ==> !w.failed)
      ensures w.Written() == old(w.Written()) + if ok then bytes else []
      ensures w.wr.reliable && !old(w.failed) && |bytes| <= w.buf.Length ==> ok
      ensures r.buf[..] == old(r.buf[..])
    {
      var at := w.Peek(|bytes|);
      if at.None? {
        return false;
      }
      ghost var before := w.buf[..at.value];
      Copy(w.buf, at.value, bytes);
      assert w.buf[..w.n] == before + bytes;
      assert w.wr.out + (before + bytes) == (w.wr.out + before) + bytes;
      return true;
    }

    method WriteHeader(msgType: nat, length: nat) returns (ok: bool)
      requires Valid() && msgType < 128
      modifies w, w.buf, w.wr
      ensures Valid() && (ok ==> !w.failed)
      ensures ok ==> w.Written() == old(w.Written()) + [128 + msgType] + LengthBytes(0, length)
      ensures w.wr.reliable && !old(w.failed) ==> ok
      ensures r.buf[..] == old(r.buf[..])
    {
      hide Be16, Be64;
      if length <= 125 {
        ok := Append([128 + msgType, length]);
      } else if length < M16 {
        ok := Append([128 + msgType, 126]);
        if ok {
          ok := Append(Be16(length));
        }
      } else {
        ok := Append([128 + msgType, 127]);
        if ok {
          ok := Append(Be64(Unsigned(length, M64)));
        }
      }
    }

    method WriteBody(b: seq<Byte>) returns (ok: bool)
      requires Valid()
      modifies w, w.buf, w.wr
      ensures Valid() && (!old(w.failed) && ok ==> !w.failed)
      ensures ok ==> w.Written() == old(w.Written()) + b
      ensures w.wr.reliable && !old(w.failed) ==> ok
      ensures r.buf[..] == old(r.buf[..])
    {
      ok := true;
      if |b| > 0 {
        var nn;
        nn, ok := w.Write(b);
      }
    }

    /** An unmasked, unfragmented frame (section 5.2). */
    method WriteMessage(msgType: nat, msg: seq<Byte>) returns (ok: bool)
      requires Valid() && msgType < 16
      modifies w, w.buf, w.wr
      ensures Valid() && (ok ==> !w.failed)
      ensures ok ==> w.Written() == old(w.Written()) + Encode(Frame(true, msgType, msg), None)
      ensures ok ==> w.Written() == old(w.Written()) + ([128 + msgType] + LengthBytes(0, |msg|) + msg)
      ensures w.wr.reliable && !old(w.failed) ==> ok
      ensures r.buf[..] == old(r.buf[..])
    {
      hide LengthBytes;
      ok := WriteHeader(msgType, |msg|);
      if ok {
        ok := WriteBody(msg);
      }
    }

    method ReadLength(bits: nat) returns (length: int, e: Option<ReadError>)
      requires Valid() && bits < 128
      modifies r, r.buf, r.rd
      ensures Valid()
      ensures r.rd.lively || e.None? ==>
        ParseLength(bits, old(r.Rest()), r.buf.Length)
        == (if e.None? then ParsedLength(length, r.Rest()) else LengthShort(e.value))
    {
      var p;
      length := 0;
      if bits == 126 {
        p, e := r.Pop(2);
        if e.None? {
          length := Read16(p);
        }
      } else if bits == 127 {
        p, e := r.Pop(8);
        if e.None? {
          length := Int64(p);
        }
      } else {
        length, e := bits, None;
      }
    }

    method ReadPayload(masked: bool, length: int) returns (payload: seq<Byte>, e: Option<ReadError>)
      requires Valid()
      modifies r, r.buf, r.rd
      ensures Valid()
      ensures forall fin, op :: r.rd.lively || e.None? ==>
        ParseKeyed(fin, op, masked, length, old(r.Rest()), r.buf.Length)
        == (if e.None? then Parsed(Frame(fin, op, payload), r.Rest()) else Bad(Io(e.value)))
    {
      var maskKey: Key := [0, 0, 0, 0];
      payload, e := [], None;
      if masked {
        var p;
        p, e := r.Pop(4);
        if e.Some? {
          return;
        }
        maskKey := p;
      }
      if length > 0 {
        var p;
        p, e := r.Pop(length);
        if e.Some? {
          return;
        }
        var bytes := new Byte[|p|](i requires 0 <= i < |p| => p[i]);
        assert bytes[..] == p;
        if masked {
          var _ := MaskBytes(maskKey, 0, bytes);
        }
        payload := bytes[..];
      }
    }

    /** One frame, whatever the chunks. */
    method ReadFrame() returns (f: Frame, e: Option<WsError>)
      requires Valid()
      modifies r, r.buf, r.rd
      ensures Valid()
      ensures r.rd.lively || e.None? || !e.value.Io? ==>
        ParseFrame(old(r.Rest()), r.buf.Length) == (if e.None? then Parsed(f, r.Rest()) else Bad(e.value))
    {
      hide ParseLength, ParseKeyed;
      f := Frame(false, 0, []);
      ghost var s := r.Rest();
      var b0, e0 := r.ReadByte();
      if e0.Some? {
        return f, Some(Io(e0.value));
      }
      if b0 / 16 % 8 != 0 {
        return f, Some(Reserved);
      }
      var b1, e1 := r.ReadByte();
      if e1.Some? {
        return f, Some(Io(e1.value));
      }
      assert s == [b0, b1] + r.Rest();
      var length, e2 := ReadLength(b1 % 128);
      if e2.Some? {
        return f, Some(Io(e2.value));
      }
      var payload, e3 := ReadPayload(b1 / 128 == 1, length);
      if e3.Some? {
        return f, Some(Io(e3.value));
      }
      return Frame(b0 / 128 == 1, b0 % 16, payload), None;
    }

    /** One frame on the way to a message, with what has been collected before it. */
    method Advance(n: nat, acc: seq<Byte>, finOp: nat, ghost pongs: seq<seq<Byte>>)
      returns (done: bool, op: nat, payload: seq<Byte>, finOp': nat, e: Option<WsError>, ghost pongs': seq<seq<Byte>>)
      requires Valid()
      modifies r, r.buf, r.rd, w, w.buf, w.wr
      ensures Valid() && (old(Healthy()) ==> Healthy())
      ensures !done ==> e.None? && n <= CONTINUATION_MAX_READ
      ensures !done ==>
        Assemble(old(r.Rest()), r.buf.Length, n, acc, finOp, pongs)
        == Assemble(r.Rest(), r.buf.Length, n + 1, payload, finOp', pongs')
      ensures done && (old(Healthy()) || Spoken(e)) ==>
        var o := Assemble(old(r.Rest()), r.buf.Length, n, acc, finOp, pongs);
        Tells(o, op, payload, e, r.Rest()) && o.pongs == pongs'
      ensures old(Healthy()) || Spoken(e) ==>
        pongs <= pongs' && w.Written() == old(w.Written()) + Replies(pongs'[|pongs|..])
    {
      hide ParseFrame, Encode, Replies;
      assert Replies([]) == [] && pongs[|pongs|..] == [] by {
        NoReplies();
      }
      done, payload, finOp', pongs' := true, acc, finOp, pongs;
      var f;
      f, e := ReadFrame();
      op := f.op;
      if e.Some? {
        return;
      }
      if op == BINARY || op == TEXT || op == CONTINUATION {
        if f.fin && |acc| == 0 {
          payload := f.payload;
          return;
        }
        payload := payload + f.payload;
        if op != CONTINUATION {
          finOp' := op;
        }
        if f.fin {
          op := finOp';
          return;
        }
      } else if op == PING {
        var ok := WriteMessage(PONG, f.payload);
        if !ok {
          e := Some(WriteFailed);
          return;
        }
        pongs' := pongs + [f.payload];
        assert pongs'[|pongs|..] == [f.payload];
        OneReply(f.payload);
      } else if op == CLOSE {
        e := Some(Closed);
        return;
      } else if op != PONG {
        e := Some(UnknownOp);
        return;
      }
      if n > CONTINUATION_MAX_READ {
        e := Some(TooManyFrames);
        return;
      }
      done := false;
    }

    /** A message, put together from its fragments, with the pings in between answered in order. */
    method ReadMessage() returns (op: nat, payload: seq<Byte>, e: Option<WsError>)
      requires Valid()
      modifies r, r.buf, r.rd, w, w.buf, w.wr
      ensures Valid()
      ensures old(Healthy()) || Spoken(e) ==>
        var o := Assemble(old(r.Rest()), r.buf.Length, 0, [], 0, []);
        Tells(o, op, payload, e, r.Rest()) && w.Written() == old(w.Written()) + Replies(o.pongs)
      ensures old(Healthy()) ==> Healthy()
    {
      hide Assemble, Tells, Replies;
      var finOp, n, done := 0, 0, false;
      ghost var pongs, before := [], w.Written();
      op, payload, e := 0, [], None;
      NoReplies();
      while !done
        invariant Valid() && (old(Healthy()) ==> Healthy())
        invariant !done ==> n <= CONTINUATION_MAX_READ + 1
        invariant !done ==>
          Assemble(old(r.Rest()), r.buf.Length, 0, [], 0, [])
          == Assemble(r.Rest(), r.buf.Length, n, payload, finOp, pongs)
        invariant var o := Assemble(old(r.Rest()), r.buf.Length, 0, [], 0, []);
          done && (old(Healthy()) || Spoken(e)) ==>
          Tells(o, op, payload, e, r.Rest()) && o.pongs == pongs
        invariant !done || old(Healthy()) || Spoken(e) ==>
          w.Written() == before + Replies(pongs)
        decreases !done, CONTINUATION_MAX_READ + 1 - n
      {
        ghost var was := pongs;
        done, op, payload, finOp, e, pongs := Advance(n, payload, finOp, pongs);
        if was <= pongs {
          RepliesConcat(was, pongs[|was|..]);
          assert was + pongs[|was|..] == pongs;
        }
        n := n + 1;
      }
    }
  }

  lemma NoReplies()
    ensures Replies([]) == []
  {
  }

  /** The reply to one ping: a final, unmasked pong with the same payload. */
  lemma OneReply(p: seq<Byte>)
    ensures Replies([p]) == Encode(Frame(true, PONG, p), None) == [138] + LengthBytes(0, |p|) + p
  {
    hide LengthBytes;
    assert [p][..0] == [];
  }

  /** A close frame ends the conversation, whatever was collected; operations 3 to 7 and above 10 are refused. */
  lemma OtherFrames(f: Frame, key: Option<Key>, tail: seq<Byte>, size: nat, n: nat, acc: seq<Byte>, finOp: nat,
      pongs: seq<seq<Byte>>)
    requires f.op == 8 || 3 <= f.op <= 7 || 11 <= f.op <= 15
    requires |f.payload| <= size < M64 / 2 && size >= 8
    ensures Assemble(Encode(f, key) + tail, size, n, acc, finOp, pongs)
         == Stopped(if f.op == 8 then Closed else UnknownOp, pongs)
  {
    hide Encode, ParseFrame;
    ParseOfEncode(f, key, tail, size);
  }

  lemma {:induction false} RepliesConcat(a: seq<seq<Byte>>, b: seq<seq<Byte>>)
    ensures Replies(a + b) == Replies(a) + Replies(b)
  {
    hide Encode;
    if b == [] {
      assert a + b == a;
    } else {
      var n := |b| - 1;
      RepliesConcat(a, b[..n]);
      assert (a + b)[..|a + b| - 1] == a + b[..n];
    }
  }

  /** The stream itself decided the outcome, not a failure of the connection. */
  ghost predicate Spoken(e: Option<WsError>) {
    e.None? || !(e.value.Io? || e.value.WriteFailed?)
  }

  ghost predicate Tells(o: Outcome, op: nat, payload: seq<Byte>, e: Option<WsError>, rest: seq<Byte>) {
    match o
    case Message(op', payload', _, rest') => e == None && op == op' && payload == payload' && rest == rest'
    case Stopped(error, _) => e == Some(error)
  }

  /** What a peer sends before the final fragment: earlier fragments and control frames, each masked or not. */
  datatype Piece =
    | Fragment(bytes: seq<Byte>, key: Option<Key>)
    | Ping(bytes: seq<Byte>, key: Option<Key>)
    | Pong(bytes: seq<Byte>, key: Option<Key>)

  /** The frame a piece travels in: only the first fragment carries the operation (section 5.4). */
  function AsFrame(piece: Piece, op: nat, started: bool): (f: Frame)
    requires op < 16
    ensures f.op == if piece.Ping? then 9 else if piece.Pong? then 10 else if started then 0 else op
    ensures f.fin == !piece.Fragment? && f.payload == piece.bytes
  {
    match piece
    case Fragment(b, _) => Frame(false, if started then CONTINUATION else op, b)
    case Ping(b, _) => Frame(true, PING, b)
    case Pong(b, _) => Frame(true, PONG, b)
  }

  function Fragmented(op: nat, started: bool, pieces: seq<Piece>, last: seq<Byte>, key: Option<Key>): seq<Byte>
    requires op == TEXT || op == BINARY
    decreases |pieces|
  {
    if pieces == [] then Encode(Frame(true, if started then CONTINUATION else op, last), key)
    else
      Encode(AsFrame(pieces[0], op, started), pieces[0].key)
      + Fragmented(op, started || pieces[0].Fragment?, pieces[1..], last, key)
  }

  function Data(pieces: seq<Piece>): seq<Byte> {
    if pieces == [] then []
    else (if pieces[0].Fragment? then pieces[0].bytes else []) + Data(pieces[1..])
  }

  function Pings(pieces: seq<Piece>): seq<seq<Byte>> {
    if pieces == [] then []
    else (if pieces[0].Ping? then [pieces[0].bytes] else []) + Pings(pieces[1..])
  }

  predicate HasFragment(pieces: seq<Piece>) {
    exists p <- pieces :: p.Fragment?
  }

  /** The operation the caller is told: the final frame's own when nothing was collected before it. */
  function ToldOp(op: nat, started: bool, collected: seq<Byte>, pieces: seq<Piece>): nat {
    if collected + Data(pieces) == [] && (started || HasFragment(pieces)) then CONTINUATION else op
  }

  ghost predicate Fits(pieces: seq<Piece>, last: seq<Byte>, size: nat) {
    && 8 <= size < M64 / 2
    && |last| <= size
    && forall p <- pieces :: |p.bytes| <= size
  }

  lemma AssembleStep(piece: Piece, op: nat, started: bool, rest: seq<Byte>, size: nat, n: nat,
      acc: seq<Byte>, finOp: nat, pongs: seq<seq<Byte>>)
    requires (op == TEXT || op == BINARY) && |piece.bytes| <= size && 8 <= size < M64 / 2
    requires started ==> finOp == op
    ensures
      var pongs' := if piece.Ping? then pongs + [piece.bytes] else pongs;
      var acc' := if piece.Fragment? then acc + piece.bytes else acc;
      Assemble(Encode(AsFrame(piece, op, started), piece.key) + rest, size, n, acc, finOp, pongs)
      == if n > CONTINUATION_MAX_READ then Stopped(TooManyFrames, pongs')
         else Assemble(rest, size, n + 1, acc', if piece.Fragment? then op else finOp, pongs')
  {
    hide Encode, ParseFrame;
    ParseOfEncode(AsFrame(piece, op, started), piece.key, rest, size);
  }

  lemma CollectData(pieces: seq<Piece>, acc: seq<Byte>)
    requires pieces != []
    ensures (if pieces[0].Fragment? then acc + pieces[0].bytes else acc) + Data(pieces[1..]) == acc + Data(pieces)
  {
    var b, later := pieces[0].bytes, Data(pieces[1..]);
    assert acc + (b + later) == (acc + b) + later;
    assert [] + later == later;
  }

  lemma CollectPings(pieces: seq<Piece>, pongs: seq<seq<Byte>>)
    requires pieces != []
    ensures (if pieces[0].Ping? then pongs + [pieces[0].bytes] else pongs) + Pings(pieces[1..]) == pongs + Pings(pieces)
  {
    var b, later := pieces[0].bytes, Pings(pieces[1..]);
    assert pongs + ([b] + later) == (pongs + [b]) + later;
    assert [] + later == later;
  }

  lemma CollectOp(op: nat, started: bool, pieces: seq<Piece>, acc: seq<Byte>)
    requires pieces != []
    ensures
      var acc' := if pieces[0].Fragment? then acc + pieces[0].bytes else acc;
      ToldOp(op, started || pieces[0].Fragment?, acc', pieces[1..]) == ToldOp(op, started, acc, pieces)
  {
    hide Data;
    CollectData(pieces, acc);
    assert HasFragment(pieces) == (pieces[0].Fragment? || HasFragment(pieces[1..])) by {
      assert forall p :: p in pieces <==> p == pieces[0] || p in pieces[1..];
    }
  }

  /**
   What the caller of ReadMessage should get after n frames: the concatenation and the pings in order; with
   more than 101 frames before the final one, an error after the 102nd.
   */
  function Reassembled(op: nat, started: bool, pieces: seq<Piece>, last: seq<Byte>, tail: seq<Byte>, n: nat,
      acc: seq<Byte>, pongs: seq<seq<Byte>>): Outcome
    requires n <= CONTINUATION_MAX_READ + 1
  {
    if n + |pieces| <= CONTINUATION_MAX_READ + 1 then
      Message(ToldOp(op, started, acc, pieces), acc + Data(pieces) + last, pongs + Pings(pieces), tail)
    else
      Stopped(TooManyFrames, pongs + Pings(pieces[..CONTINUATION_MAX_READ + 2 - n]))
  }

  lemma ReassembledStep(op: nat, started: bool, pieces: seq<Piece>, last: seq<Byte>, tail: seq<Byte>, n: nat,
      acc: seq<Byte>, pongs: seq<seq<Byte>>)
    requires n <= CONTINUATION_MAX_READ + 1 && pieces != []
    ensures
      var pongs' := if pieces[0].Ping? then pongs + [pieces[0].bytes] else pongs;
      var acc' := if pieces[0].Fragment? then acc + pieces[0].bytes else acc;
      Reassembled(op, started, pieces, last, tail, n, acc, pongs)
      == if n > CONTINUATION_MAX_READ then Stopped(TooManyFrames, pongs')
         else Reassembled(op, started || pieces[0].Fragment?, pieces[1..], last, tail, n + 1, acc', pongs')
  {
    hide ToldOp, Data;
    var k := CONTINUATION_MAX_READ + 2 - n;
    if k <= |pieces| {
      CollectPings(pieces[..k], pongs);
      assert pieces[..k][1..] == pieces[1..][..k - 1];
    } else {
      hide Pings;
      CollectData(pieces, acc);
      CollectPings(pieces, pongs);
      CollectOp(op, started, pieces, acc);
    }
  }

  lemma AssembleLast(op: nat, started: bool, last: seq<Byte>, key: Option<Key>, tail: seq<Byte>, size: nat, n: nat,
      acc: seq<Byte>, finOp: nat, pongs: seq<seq<Byte>>)
    requires (op == TEXT || op == BINARY) && Fits([], last, size)
    requires if started then finOp == op else acc == []
    requires n <= CONTINUATION_MAX_READ + 1
    ensures Assemble(Fragmented(op, started, [], last, key) + tail, size, n, acc, finOp, pongs)
         == Reassembled(op, started, [], last, tail, n, acc, pongs)
  {
    hide Encode, ParseFrame;
    ParseOfEncode(Frame(true, if started then CONTINUATION else op, last), key, tail, size);
  }

  /** A message sent in pieces is put together again. */
  lemma {:induction false} AssembleFragments(op: nat, started: bool, pieces: seq<Piece>, last: seq<Byte>,
      key: Option<Key>, tail: seq<Byte>, size: nat, n: nat, acc: seq<Byte>, finOp: nat, pongs: seq<seq<Byte>>)
    requires (op == TEXT || op == BINARY) && Fits(pieces, last, size)
    requires if started then finOp == op else acc == []
    requires n <= CONTINUATION_MAX_READ + 1
    ensures Assemble(Fragmented(op, started, pieces, last, key) + tail, size, n, acc, finOp, pongs)
         == Reassembled(op, started, pieces, last, tail, n, acc, pongs)
    decreases |pieces|
  {
    hide Encode, Assemble, AsFrame, Reassembled;
    if pieces == [] {
      AssembleLast(op, started, last, key, tail, size, n, acc, finOp, pongs);
    } else {
      var piece := pieces[0];
      var started' := started || piece.Fragment?;
      var rest := Fragmented(op, started', pieces[1..], last, key) + tail;
      assert Fragmented(op, started, pieces, last, key) + tail == Encode(AsFrame(piece, op, started), piece.key) + rest;
      assert piece in pieces;
      AssembleStep(piece, op, started, rest, size, n, acc, finOp, pongs);
      ReassembledStep(op, started, pieces, last, tail, n, acc, pongs);
      if n <= CONTINUATION_MAX_READ {
        var acc' := if piece.Fragment? then acc + piece.bytes else acc;
        var pongs' := if piece.Ping? then pongs + [piece.bytes] else pongs;
        AssembleFragments(op, started', pieces[1..], last, key, tail, size, n + 1, acc',
          if piece.Fragment? then op else finOp, pongs');
      }
    }
  }

  /**
   The payload is the concatenation and every ping is seen in order, exactly when at most 101 frames precede
   the final one; otherwise the call fails after the 102nd.
   */
  lemma WholeMessage(op: nat, pieces: seq<Piece>, last: seq<Byte>, key: Option<Key>, tail: seq<Byte>, size: nat)
    requires (op == 1 || op == 2) && Fits(pieces, last, size)
    ensures Assemble(Fragmented(op, false, pieces, last, key) + tail, size, 0, [], 0, []) ==
      if |pieces| <= 101 then
        Message(ToldOp(op, false, [], pieces), Data(pieces) + last, Pings(pieces), tail)
      else
        Stopped(TooManyFrames, Pings(pieces[..102]))
  {
    hide Fragmented, Assemble, Data, Pings, ToldOp;
    AssembleFragments(op, false, pieces, last, key, tail, size, 0, [], 0, []);
    assert [] + Data(pieces) == Data(pieces) && [] + Pings(pieces) == Pings(pieces);
    if |pieces| > CONTINUATION_MAX_READ + 1 {
      var early := Pings(pieces[..CONTINUATION_MAX_READ + 2]);
      assert [] + early == early;
    }
  }

  /** The caller is told the message's own operation unless it came in fragments, all empty but the last. */
  lemma WhichOp(op: nat, pieces: seq<Piece>)
    ensures
      var hidden := (exists p <- pieces :: p.Fragment?) && forall p <- pieces :: p.Fragment? ==> p.bytes == [];
      ToldOp(op, false, [], pieces) == if hidden then 0 else op
  {
    DataEmpty(pieces);
  }

  /** The failing family is not empty: a text message whose only earlier fragment is empty is told as operation 0. */
  lemma EmptyFragmentHidesTheOperation(last: seq<Byte>, tail: seq<Byte>, size: nat)
    requires |last| <= size && 8 <= size < M64 / 2
    ensures Assemble(Fragmented(TEXT, false, [Fragment([], None)], last, None) + tail, size, 0, [], 0, [])
         == Message(0, last, [], tail)
  {
    hide Fragmented, Assemble;
    var pieces := [Fragment([], None)];
    WholeMessage(TEXT, pieces, last, None, tail, size);
    assert pieces[1..] == [] && pieces[0] in pieces;
    assert Data(pieces) == [] && Pings(pieces) == [] && [] + last == last;
  }

  lemma {:induction false} DataEmpty(pieces: seq<Piece>)
    ensures Data(pieces) == [] <==> forall p <- pieces :: p.Fragment? ==> p.bytes == []
  {
    if pieces == [] {
    } else {
      DataEmpty(pieces[1..]);
      assert forall p :: p in pieces <==> p == pieces[0] || p in pieces[1..];
    }
  }

  /**
   End to end, over any chunks: the message, the operation the caller is told, the pongs on the wire in
   order, and everything behind the message still unread.
   */
  method Converse(op: nat, pieces: seq<Piece>, last: seq<Byte>, key: Option<Key>, tail: seq<Byte>,
      readSize: nat, writeSize: nat)
    returns (told: nat, payload: seq<Byte>, e: Option<WsError>, replies: seq<Byte>, ghost unread: seq<Byte>)
    requires (op == 1 || op == 2) && Fits(pieces, last, readSize) && readSize >= 16 && writeSize >= 8
    ensures e == if |pieces| <= 101 then None else Some(TooManyFrames)
    ensures e.None? ==> payload == Data(pieces) + last && unread == tail
    ensures e.None? ==> told == ToldOp(op, false, [], pieces)
    ensures replies == Replies(Pings(if e.None? then pieces else pieces[..102]))
  {
    hide Fragmented, Assemble, Replies, Data, Pings, ToldOp, Encode;
    var source := new Source(Fragmented(op, false, pieces, last, key) + tail, true);
    var rr := new Reader(source, readSize);
    var sink := new Sink(true);
    var wr := new Writer(sink, writeSize);
    var c := new Conn(rr, wr);
    WholeMessage(op, pieces, last, key, tail, readSize);
    assert rr.Rest() == source.pending;
    assert wr.Written() == [];
    told, payload, e := c.ReadMessage();
    unread := rr.Rest();
    var ok := wr.Flush();
    replies := sink.out;
    assert wr.Written() == replies;
  }
}
