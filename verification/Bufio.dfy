/**
 Buffered input and output over a socket (pkg/bufio/bufio.go), and the growing byte buffer in which
 batches are assembled (pkg/bytes/writer.go). Slices handed out by the source alias the internal
 buffers; here they are copied out, and space handed out for writing is named by its position.
 */
module Bufio {
  import opened Common
  import opened Bytes

  datatype ReadError = Eof | Broken | NoProgress | BufferFull | NegativeCount

  const MAX_EMPTY_READS: int := 100

  /**
   The receiving side of a connection: each Read delivers any part of what is pending, split as the
   network pleases. A lively one reports an error only at the end of the stream and is never idle for
   a hundred reads in a row.
   */
  class Source {
    var pending: seq<Byte>
    var idle: nat
    const lively: bool

    constructor (data: seq<Byte>, lively: bool)
      ensures pending == data && idle == 0 && this.lively == lively
    {
      pending, idle, this.lively := data, 0, lively;
    }

    method Read(max: nat) returns (data: seq<Byte>, err: Option<ReadError>)
      requires max > 0 && (lively ==> idle < 100)
      modifies this
      ensures old(pending) == data + pending && |data| <= max
      ensures lively && err.Some? ==> err.value == Eof && pending == [] && idle == 0
      ensures lively && err.None? ==> idle == (if data == [] then old(idle) + 1 else 0) && idle < 100
      ensures err.Some? ==> err.value.Eof? || err.value.Broken?
    {
      var k: nat :| k <= max && k <= |pending|;
      var fail: bool := *;
      if k == 0 && lively && idle == 99 && pending != [] { k := 1; }
      data, pending := pending[..k], pending[k..];
      err := None;
      if !lively && fail {
        err := Some(Broken);
      } else if pending == [] && (fail || (lively && data == [] && idle == 99)) {
        err := Some(Eof);
      }
      idle := if err.None? && data == [] then idle + 1 else 0;
    }
  }

  class Reader {
    const buf: array<Byte>
    const rd: Source
    var r: nat
    var w: nat
    var err: Option<ReadError>

    ghost predicate Valid()
      reads this, rd
    {
      && r <= w <= buf.Length
      && (rd.lively ==> rd.idle == 0 && (err.Some? ==> err.value == Eof && rd.pending == []))
    }

    /** Everything the peer has sent and nobody has consumed. */
    ghost function Rest(): seq<Byte>
      reads this, buf, rd
      requires Valid()
    {
      buf[r..w] + rd.pending
    }

    constructor (rd: Source, size: nat)
      requires rd.lively ==> rd.idle == 0
      ensures Valid() && Rest() == rd.pending && this.rd == rd && fresh(buf) && err == None
      ensures buf.Length == if size < 16 then 16 else size
    {
      this.rd := rd;
      buf := new Byte[if size < 16 then 16 else size];
      r, w, err := 0, 0, None;
    }

    /** Unread bytes move to the front. */
    method Slide()
      requires Valid()
      modifies `r, `w, buf
      ensures Valid() && r == 0 && buf[..w] == old(buf[r..w])
    {
      if r > 0 {
        Copy(buf, 0, buf[r..w]);
        w := w - r;
        r := 0;
      }
    }

    /** A chunk behind the unread bytes. */
    method Receive() returns (got: nat)
      requires r == 0 && w < buf.Length && err.None? && (rd.lively ==> rd.idle < 100)
      modifies `w, `err, buf, rd
      ensures w == old(w) + got && w <= buf.Length
      ensures buf[..w] + rd.pending == old(buf[..w] + rd.pending)
      ensures err.Some? ==> err.value.Eof? || err.value.Broken?
      ensures rd.lively && err.Some? ==> err.value == Eof && rd.pending == [] && rd.idle == 0
      ensures rd.lively && err.None? ==>
        rd.idle == (if got == 0 then old(rd.idle) + 1 else 0) && rd.idle < 100
    {
      var data, e := rd.Read(buf.Length - w);
      Copy(buf, w, data);
      w, err, got := w + |data|, e, |data|;
      assert buf[..w] == old(buf[..w]) + data;
    }

    /** One chunk more, with a bounded number of attempts. */
    method Fill()
      requires Valid() && w - r < buf.Length && err.None?
      modifies this, buf, rd
      ensures Valid() && Rest() == old(Rest())
      ensures w - r >= old(w - r)
      ensures w - r > old(w - r) || err.Some?
      ensures err.Some? ==> !err.value.NegativeCount?
    {
      ghost var rest := Rest();
      Slide();
      var i := MAX_EMPTY_READS;
      while i > 0
        invariant 0 <= i <= MAX_EMPTY_READS
        invariant r == 0 && w == old(w - r) < buf.Length && err.None?
        invariant rest == buf[..w] + rd.pending
        invariant rd.lively ==> rd.idle == 100 - i && rd.idle < 100
      {
        var got := Receive();
        assert buf[0..w] == buf[..w];
        if err.Some? || got > 0 {
          return;
        }
        i := i - 1;
      }
      err := Some(NoProgress);
    }

    /** The next n bytes without consuming them, reading as often as needed. */
    method Peek(n: int) returns (d: seq<Byte>, e: Option<ReadError>)
      requires Valid()
      modifies this, buf, rd
      ensures Valid() && Rest() == old(Rest())
      ensures n < 0 <==> e == Some(NegativeCount)
      ensures e.None? ==> 0 <= n <= w - r && n <= |Rest()| && d == Rest()[..n]
      ensures n > buf.Length ==> e == Some(BufferFull)
      ensures rd.lively && 0 <= n <= buf.Length ==> e == if n <= |Rest()| then None else Some(Eof)
    {
      if n < 0 {
        return [], Some(NegativeCount);
      }
      if n > buf.Length {
        return [], Some(BufferFull);
      }
      while w - r < n && err.None?
        invariant Valid() && Rest() == old(Rest())
        decreases buf.Length - (w - r), err.None?
      {
        Fill();
      }
      if w - r < n {
        d := buf[r..w];
        e := err;
        err := None;
        if e.None? || e.value.NegativeCount? {
          e := Some(BufferFull);
        }
        return;
      }
      assert Rest()[..n] == buf[r..r + n];
      return buf[r..r + n], None;
    }

    method Pop(n: int) returns (d: seq<Byte>, e: Option<ReadError>)
      requires Valid()
      modifies this, buf, rd
      ensures Valid()
      ensures e.None? ==> 0 <= n <= |old(Rest())| && d == old(Rest())[..n] && Rest() == old(Rest())[n..]
      ensures e.Some? ==> Rest() == old(Rest()) && d == []
      ensures n < 0 <==> e == Some(NegativeCount)
      ensures n > buf.Length ==> e == Some(BufferFull)
      ensures rd.lively && 0 <= n <= buf.Length ==> e == if n <= |old(Rest())| then None else Some(Eof)
    {
      d, e := Peek(n);
      if e.Some? {
        return [], e;
      }
      r := r + n;
    }

    method ReadByte() returns (c: Byte, e: Option<ReadError>)
      requires Valid() && buf.Length > 0
      modifies this, buf, rd
      ensures Valid()
      ensures e.None? ==> old(Rest()) == [c] + Rest()
      ensures e.Some? ==> Rest() == old(Rest())
      ensures rd.lively ==> e == if old(Rest()) != [] then None else Some(Eof)
    {
      while r == w
        invariant Valid() && Rest() == old(Rest())
        decreases r == w, err.None?
      {
        if err.Some? {
          e := err;
          err := None;
          return 0, e;
        }
        Fill();
      }
      c := buf[r];
      r := r + 1;
      return c, None;
    }
  }

  /** The sending side: a failing Write may have sent any prefix. */
  class Sink {
    var out: seq<Byte>
    const reliable: bool

    constructor (reliable: bool)
      ensures out == [] && this.reliable == reliable
    {
      out, this.reliable := [], reliable;
    }

    method Write(p: seq<Byte>) returns (k: nat, ok: bool)
      modifies this
      ensures k <= |p| && out == old(out) + p[..k]
      ensures ok ==> k == |p|
      ensures reliable ==> ok
    {
      var sent: nat :| sent <= |p|;
      ok := *;
      ok := ok || reliable;
      k := if ok then |p| else sent;
      out := out + p[..k];
    }
  }

  class Writer {
    const buf: array<Byte>
    const wr: Sink
    var n: nat
    var failed: bool

    ghost predicate Valid()
      reads this
    {
      n <= buf.Length
    }

    /** All bytes accepted so far, on the wire or still buffered. */
    ghost function Written(): seq<Byte>
      requires Valid()
      reads this, buf, wr
    {
      wr.out + buf[..n]
    }

    constructor (wr: Sink, size: nat)
      ensures Valid() && Written() == wr.out && this.wr == wr && fresh(buf) && !failed
      ensures buf.Length == if size == 0 then 4096 else size
    {
      this.wr := wr;
      buf := new Byte[if size == 0 then 4096 else size];
      n, failed := 0, false;
    }

    /** What was sent leaves the buffer. */
    method Forget(k: nat)
      requires Valid() && k <= n
      modifies `n, buf
      ensures Valid() && n == old(n) - k && buf[..n] == old(buf[k..n])
    {
      if 0 < k < n {
        Copy(buf, 0, buf[k..n]);
      }
      n := n - k;
    }

    method Flush() returns (ok: bool)
      requires Valid()
      modifies this, buf, wr
      ensures Valid() && Written() == old(Written())
      ensures ok <==> !failed
      ensures ok ==> n == 0
      ensures wr.reliable && !old(failed) ==> ok
    {
      if failed {
        return false;
      }
      if n == 0 {
        return true;
      }
      ghost var bytes := buf[..n];
      var k, sent := wr.Write(buf[..n]);
      if !sent {
        Forget(k);
        failed := true;
        assert bytes == bytes[..k] + bytes[k..];
        return false;
      }
      n := 0;
      return true;
    }

    /** Copies what fits behind the buffered bytes. */
    method Store(p: seq<Byte>) returns (k: nat)
      requires Valid()
      modifies this`n, buf
      ensures Valid() && k == (if |p| <= buf.Length - old(n) then |p| else buf.Length - old(n))
      ensures n == old(n) + k && buf[..n] == old(buf[..n]) + p[..k]
    {
      k := if |p| <= buf.Length - n then |p| else buf.Length - n;
      Copy(buf, n, p[..k]);
      n := n + k;
    }

    /** A full buffer's worth, or straight to the wire when nothing is buffered. */
    method WriteSome(p: seq<Byte>) returns (k: nat)
      requires Valid() && !failed && |p| > buf.Length - n
      modifies this, buf, wr
      ensures Valid() && k <= |p| && Written() == old(Written()) + p[..k]
      ensures !failed ==> k == (if old(n) == 0 then |p| else buf.Length - old(n))
      ensures !failed && old(n) > 0 ==> n == 0
      ensures wr.reliable ==> !failed
    {
      if n == 0 {
        var sent;
        k, sent := wr.Write(p);
        failed := !sent;
        assert buf[..0] == [];
      } else {
        k := Store(p);
        assert wr.out + buf[..n] == old(Written()) + p[..k];
        var _ := Flush();
      }
    }

    method Write(p: seq<Byte>) returns (nn: nat, ok: bool)
      requires Valid() && buf.Length > 0
      modifies this, buf, wr
      ensures Valid() && nn <= |p| && Written() == old(Written()) + p[..nn]
      ensures ok <==> !failed
      ensures ok ==> nn == |p|
      ensures wr.reliable && !old(failed) ==> ok
    {
      nn := 0;
      while |p| - nn > buf.Length - n && !failed
        invariant Valid() && nn <= |p| && Written() == old(Written()) + p[..nn]
        invariant wr.reliable && !old(failed) ==> !failed
        decreases !failed, |p| - nn, n
      {
        var k := WriteSome(p[nn..]);
        assert p[..nn] + p[nn..][..k] == p[..nn + k];
        nn := nn + k;
      }
      if failed {
        return nn, false;
      }
      ghost var before := Written();
      var k := Store(p[nn..]);
      assert Written() == before + p[nn..][..k];
      assert p[..nn] + p[nn..][..k] == p[..nn + k];
      return nn + k, true;
    }

    /** Past the buffer when nothing is buffered. */
    method WriteRaw(p: seq<Byte>) returns (nn: nat, ok: bool)
      requires Valid() && buf.Length > 0
      modifies this, buf, wr
      ensures Valid() && nn <= |p| && Written() == old(Written()) + p[..nn]
      ensures ok <==> !failed
      ensures ok ==> nn == |p|
      ensures wr.reliable && !old(failed) ==> ok
    {
      if failed {
        return 0, false;
      }
      if n == 0 {
        nn, ok := wr.Write(p);
        failed := !ok;
        assert buf[..0] == [];
      } else {
        nn, ok := Write(p);
      }
    }

    /** Reserves the next size bytes of the buffer for the caller to fill in. */
    method Peek(size: nat) returns (at: Option<nat>)
      requires Valid()
      modifies this, buf, wr
      ensures Valid()
      ensures at.Some? ==> at.value + size == n && wr.out + buf[..at.value] == old(Written()) && !failed
      ensures at.None? ==> Written() == old(Written()) && (size > buf.Length || failed)
      ensures wr.reliable && !old(failed) ==> !failed
    {
      if size > buf.Length {
        return None;
      }
      while buf.Length - n < size && !failed
        invariant Valid() && Written() == old(Written())
        invariant wr.reliable && !old(failed) ==> !failed
        decreases !failed, n
      {
        var _ := Flush();
      }
      if failed {
        return None;
      }
      at := Some(n);
      n := n + size;
    }
  }

  /** pkg/bytes: the buffer grows as needed and nothing in it moves. */
  class BytesWriter {
    var n: nat
    var buf: array<Byte>

    ghost predicate Valid()
      reads this
    {
      n <= buf.Length
    }

    constructor (size: nat)
      ensures Valid() && n == 0 && fresh(buf)
    {
      n := 0;
      buf := new Byte[size];
    }

    method Grow(k: nat)
      requires Valid()
      modifies this`buf
      ensures Valid() && n + k <= buf.Length && buf[..n] == old(buf[..n])
      ensures buf == old(buf) || fresh(buf)
    {
      if n + k < buf.Length {
        return;
      }
      var bigger := new Byte[2 * buf.Length + k];
      Copy(bigger, 0, buf[..n]);
      buf := bigger;
    }

    method Peek(k: nat) returns (at: nat)
      requires Valid()
      modifies this
      ensures Valid() && at == old(n) && n == at + k && buf[..at] == old(buf[..n])
      ensures buf == old(buf) || fresh(buf)
    {
      Grow(k);
      at := n;
      n := n + k;
    }

    method Write(p: seq<Byte>)
      requires Valid()
      modifies this, buf
      ensures Valid() && buf[..n] == old(buf[..n]) + p
      ensures buf == old(buf) || fresh(buf)
    {
      Grow(|p|);
      Copy(buf, n, p);
      n := n + |p|;
      assert buf[..n] == old(buf[..n]) + p;
    }
  }
}
