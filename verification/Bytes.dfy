/** Bytes and big-endian integers, including Go's conversions between signed and unsigned widths. */
module Bytes {
  import opened Bits

  type Byte = b: int | 0 <= b < 256

  const M16: int := 0x1_0000
  const M32: int := 0x1_0000_0000
  const M64: int := 0x1_0000_0000_0000_0000

  /** Conversion to an unsigned width: the value modulo the width. */
  function Unsigned(v: int, m: int): (u: int)
    requires m > 0
    ensures 0 <= u < m
  {
    v % m
  }

  /** Conversion to a signed width: two's complement. */
  function Signed(v: int, m: int): (s: int)
    requires m > 0 && m % 2 == 0
    ensures -m / 2 <= s < m / 2
  {
    if v % m < m / 2 then v % m else v % m - m
  }

  /** The two conversions undo each other on values that fit. */
  lemma SignedOfUnsigned(v: int, m: int)
    requires m > 0 && m % 2 == 0
    ensures -m / 2 <= v < m / 2 ==> Signed(Unsigned(v, m), m) == v
    ensures 0 <= v < m ==> Unsigned(Signed(v, m), m) == v
  {
    if 0 <= v < m {
      ModUnique(v, m, 0, v);
      ModUnique(v - m, m, -1, v);
    } else if -m <= v < 0 {
      ModUnique(v, m, -1, v + m);
      ModUnique(v + m, m, 0, v + m);
    }
  }

  /** What a conversion means: nothing but a multiple of the width is added. */
  lemma ConversionIsCongruent(v: int, m: int)
    requires m > 0 && m % 2 == 0
    ensures (Unsigned(v, m) - v) % m == 0 && (Signed(v, m) - v) % m == 0
  {
    var q := v / m;
    assert v == q * m + v % m;
    assert v % m - v == -q * m + 0 && v % m - m - v == (-q - 1) * m + 0;
    ModUnique(v % m - v, m, -q, 0);
    ModUnique(v % m - m - v, m, -q - 1, 0);
  }

  function Be16(u: int): (s: seq<Byte>)
    requires 0 <= u < M16
    ensures |s| == 2
  {
    [u / 256, u % 256]
  }

  function Be32(u: int): (s: seq<Byte>)
    requires 0 <= u < M32
    ensures |s| == 4
  {
    Be16(u / M16) + Be16(u % M16)
  }

  function Be64(u: int): (s: seq<Byte>)
    requires 0 <= u < M64
    ensures |s| == 8
  {
    Be32(u / M32) + Be32(u % M32)
  }

  function Read16(s: seq<Byte>): (u: int)
    requires |s| == 2
    ensures 0 <= u < M16
  {
    (s[0] as int) * 256 + s[1] as int
  }

  function Read32(s: seq<Byte>): (u: int)
    requires |s| == 4
    ensures 0 <= u < M32
  {
    Read16(s[..2]) * M16 + Read16(s[2..])
  }

  function Read64(s: seq<Byte>): (u: int)
    requires |s| == 8
    ensures 0 <= u < M64
  {
    Read32(s[..4]) * M32 + Read32(s[4..])
  }

  /** The most significant byte comes first. Be16, Be32 and Be64 are the inverses. */
  lemma BigEndian(a: int, b: int, c: int, d: int, e: int, f: int, g: int, h: int)
    requires 0 <= a < 256 && 0 <= b < 256 && 0 <= c < 256 && 0 <= d < 256
    requires 0 <= e < 256 && 0 <= f < 256 && 0 <= g < 256 && 0 <= h < 256
    ensures Read16([a, b]) == 0x100 * a + b
    ensures Read32([a, b, c, d]) == 0x100_0000 * a + 0x1_0000 * b + 0x100 * c + d
    ensures Read64([a, b, c, d, e, f, g, h])
      == 0x100_0000_0000_0000 * a + 0x1_0000_0000_0000 * b + 0x100_0000_0000 * c + 0x1_0000_0000 * d
         + 0x100_0000 * e + 0x1_0000 * f + 0x100 * g + h
  {
    var eight: seq<Byte> := [a, b, c, d, e, f, g, h];
    assert eight[..4][..2] == [a, b] && eight[..4][2..] == [c, d];
    assert eight[4..][..2] == [e, f] && eight[4..][2..] == [g, h];
  }

  lemma ReadBe16(u: int)
    requires 0 <= u < M16
    ensures Read16(Be16(u)) == u
  {
  }

  lemma ReadBe32(u: int)
    requires 0 <= u < M32
    ensures Read32(Be32(u)) == u
  {
    assert Be32(u)[..2] == Be16(u / M16) && Be32(u)[2..] == Be16(u % M16);
  }

  lemma ReadBe64(u: int)
    requires 0 <= u < M64
    ensures Read64(Be64(u)) == u
  {
    ReadBe32(u / M32);
    ReadBe32(u % M32);
    assert Be64(u)[..4] == Be32(u / M32) && Be64(u)[4..] == Be32(u % M32);
  }

  lemma BeRead16(s: seq<Byte>)
    requires |s| == 2
    ensures Be16(Read16(s)) == s
  {
  }

  lemma BeRead32(s: seq<Byte>)
    requires |s| == 4
    ensures Be32(Read32(s)) == s
  {
    BeRead16(s[..2]);
    BeRead16(s[2..]);
  }

  lemma BeRead64(s: seq<Byte>)
    requires |s| == 8
    ensures Be64(Read64(s)) == s
  {
    BeRead32(s[..4]);
    BeRead32(s[4..]);
  }

  /** The signed big-endian accessors. */
  function PutInt16(v: int): (s: seq<Byte>)
    ensures |s| == 2
  {
    Be16(Unsigned(v, M16))
  }

  function PutInt32(v: int): (s: seq<Byte>)
    ensures |s| == 4
  {
    Be32(Unsigned(v, M32))
  }

  function PutInt64(v: int): (s: seq<Byte>)
    ensures |s| == 8
  {
    Be64(Unsigned(v, M64))
  }

  function Int16(s: seq<Byte>): (v: int)
    requires |s| == 2
    ensures -M16 / 2 <= v < M16 / 2
  {
    Signed(Read16(s), M16)
  }

  function Int32(s: seq<Byte>): (v: int)
    requires |s| == 4
    ensures -M32 / 2 <= v < M32 / 2
  {
    Signed(Read32(s), M32)
  }

  function Int64(s: seq<Byte>): (v: int)
    requires |s| == 8
    ensures -M64 / 2 <= v < M64 / 2
  {
    Signed(Read64(s), M64)
  }

  lemma Int16RoundTrip(v: int)
    requires -M16 / 2 <= v < M16 / 2
    ensures Int16(PutInt16(v)) == v
  {
    SignedOfUnsigned(v, M16);
    ReadBe16(Unsigned(v, M16));
  }

  lemma Int32RoundTrip(v: int)
    requires -M32 / 2 <= v < M32 / 2
    ensures Int32(PutInt32(v)) == v
  {
    SignedOfUnsigned(v, M32);
    ReadBe32(Unsigned(v, M32));
  }

  lemma Int64RoundTrip(v: int)
    requires -M64 / 2 <= v < M64 / 2
    ensures Int64(PutInt64(v)) == v
  {
    SignedOfUnsigned(v, M64);
    ReadBe64(Unsigned(v, M64));
  }

  lemma PutOfInt32(s: seq<Byte>)
    requires |s| == 4
    ensures PutInt32(Int32(s)) == s
  {
    SignedOfUnsigned(Read32(s), M32);
    BeRead32(s);
  }

  lemma PutOfInt64(s: seq<Byte>)
    requires |s| == 8
    ensures PutInt64(Int64(s)) == s
  {
    SignedOfUnsigned(Read64(s), M64);
    BeRead64(s);
  }

  /** s with b written over it at a position. */
  function Splice(s: seq<Byte>, at: nat, b: seq<Byte>): (t: seq<Byte>)
    requires at + |b| <= |s|
    ensures |t| == |s|
  {
    s[..at] + b + s[at + |b|..]
  }

  /** Adjacent writes are one write. */
  lemma SpliceSplice(s: seq<Byte>, at: nat, a: seq<Byte>, b: seq<Byte>)
    requires at + |a| + |b| <= |s|
    ensures Splice(Splice(s, at, a), at + |a|, b) == Splice(s, at, a + b)
  {
    var t := Splice(s, at, a);
    assert t[..at + |a|] == s[..at] + a;
    assert t[at + |a| + |b|..] == s[at + |a + b|..];
  }

  /** Go's built-in copy, with the source read before anything is written. */
  method Copy(dst: array<Byte>, at: nat, src: seq<Byte>)
    requires at + |src| <= dst.Length
    modifies dst
    ensures dst[..] == Splice(old(dst[..]), at, src)
  {
    forall i | 0 <= i < |src| {
      dst[at + i] := src[i];
    }
  }
}
