/**
 * Byte-level vocabulary shared by the protocol modules: the octet and unsigned
 * integer ranges that Node's Buffer accepts, big-endian field encodings, and the
 * in-place Buffer operations (writeUInt16BE, writeUInt32BE, fill, copy) the
 * handlers use to build their datagrams.
 */
module Bytes {

  type byte = x: int | 0 <= x < 0x100
  type u16 = x: int | 0 <= x < 0x1_0000
  type u32 = x: int | 0 <= x < 0x1_0000_0000

  predicate IsU16(v: int) { 0 <= v < 0x1_0000 }
  predicate IsU32(v: int) { 0 <= v < 0x1_0000_0000 }

  /** Storing a number into a Buffer slot keeps its low eight bits. */
  function LowByte(v: int): byte { v % 0x100 }

  function U16Bytes(v: u16): (r: seq<byte>)
    ensures |r| == 2
  {
    [v / 0x100, v % 0x100]
  }

  function U32Bytes(v: u32): (r: seq<byte>)
    ensures |r| == 4
  {
    [v / 0x100_0000, (v / 0x1_0000) % 0x100, (v / 0x100) % 0x100, v % 0x100]
  }

  function ReadU16(s: seq<byte>, off: nat): u16
    requires off + 2 <= |s|
  {
    (s[off] as int) * 0x100 + s[off + 1] as int
  }

  function ReadU32(s: seq<byte>, off: nat): u32
    requires off + 4 <= |s|
  {
    (s[off] as int) * 0x100_0000 + (s[off + 1] as int) * 0x1_0000 + (s[off + 2] as int) * 0x100 + s[off + 3] as int
  }

  function Zeros(n: nat): (r: seq<byte>)
    ensures |r| == n && forall i :: 0 <= i < n ==> r[i] == 0
  {
    seq(n, _ => 0)
  }

  /** `s` with the bytes from `off` on replaced by `w`. */
  function Put(s: seq<byte>, off: nat, w: seq<byte>): (r: seq<byte>)
    requires off + |w| <= |s|
    ensures |r| == |s|
    ensures forall i :: 0 <= i < |s| ==> r[i] == if off <= i < off + |w| then w[i - off] else s[i]
  {
    s[..off] + w + s[off + |w|..]
  }

  /** Decoding what was encoded gives the value back. */
  lemma ReadU16Put(s: seq<byte>, off: nat, v: u16)
    requires off + 2 <= |s|
    ensures ReadU16(Put(s, off, U16Bytes(v)), off) == v
  {
  }

  lemma ReadU32Put(s: seq<byte>, off: nat, v: u32)
    requires off + 4 <= |s|
    ensures ReadU32(Put(s, off, U32Bytes(v)), off) == v
  {
    var w := U32Bytes(v);
    var t := Put(s, off, w);
    assert t[off..off + 4] == w;
    U32BytesValue(v);
  }

  /** The four octets of a 32-bit value, read back in base 256. */
  lemma U32BytesValue(v: u32)
    ensures var w := U32Bytes(v);
      v == ((w[0] as int * 0x100 + w[1]) * 0x100 + w[2]) * 0x100 + w[3]
  {
    var w := U32Bytes(v);
    DivideOff(v);
    DivideOff(v / 0x100);
    DivideOff(v / 0x1_0000);
    DivDivOctet(v, 0x100);
    DivDivOctet(v, 0x1_0000);
  }

  /** v is its quotient by 256 shifted up eight bits plus its low octet. */
  lemma DivideOff(v: nat)
    ensures v == (v / 0x100) * 0x100 + v % 0x100
  {
  }

  lemma DivDivOctet(v: nat, p: nat)
    requires p == 0x100 || p == 0x1_0000
    ensures v / p / 0x100 == v / (p * 0x100)
  {
    var q := v / (p * 0x100);
    var r := v % (p * 0x100);
    assert v == (q * 0x100 + r / p) * p + r % p;
    ShiftOff(q, r / p);
  }

  /** Encoding what was decoded gives the bytes back. */
  lemma U16BytesRead(s: seq<byte>, off: nat)
    requires off + 2 <= |s|
    ensures U16Bytes(ReadU16(s, off)) == s[off..off + 2]
  {
  }

  lemma U32BytesRead(s: seq<byte>, off: nat)
    requires off + 4 <= |s|
    ensures U32Bytes(ReadU32(s, off)) == s[off..off + 4]
  {
    var a: int, b: int, c: int, d: int := s[off], s[off + 1], s[off + 2], s[off + 3];
    var v := ReadU32(s, off);
    var ab := a * 0x100 + b;
    var abc := ab * 0x100 + c;
    assert v == abc * 0x100 + d;
    ShiftOff(abc, d);
    ShiftOff(ab, c);
    ShiftOff(a, b);
    DivDivOctet(v, 0x100);
    DivDivOctet(v, 0x1_0000);
  }

  /** Taking the low octet off a number shifted up by eight bits. */
  lemma ShiftOff(hi: nat, lo: byte)
    ensures (hi * 0x100 + lo) / 0x100 == hi && (hi * 0x100 + lo) % 0x100 == lo
  {
  }

  // In-place Buffer operations.

  /** buf.writeUInt16BE(v, off) for an in-range value. */
  method WriteU16BE(a: array<byte>, off: nat, v: u16)
    requires off + 2 <= a.Length
    modifies a
    ensures a[..] == Put(old(a[..]), off, U16Bytes(v))
  {
    a[off] := v / 0x100;
    a[off + 1] := v % 0x100;
  }

  /** buf.writeUInt32BE(v, off) for an in-range value. */
  method WriteU32BE(a: array<byte>, off: nat, v: u32)
    requires off + 4 <= a.Length
    modifies a
    ensures a[..] == Put(old(a[..]), off, U32Bytes(v))
  {
    a[off] := v / 0x100_0000;
    a[off + 1] := (v / 0x1_0000) % 0x100;
    a[off + 2] := (v / 0x100) % 0x100;
    a[off + 3] := v % 0x100;
  }

  /** buf[off] = w[0], buf[off + 1] = w[1], ...: consecutive index stores of in-range values. */
  method Store(a: array<byte>, off: nat, w: seq<byte>)
    requires off + |w| <= a.Length
    modifies a
    ensures a[..] == Put(old(a[..]), off, w)
  {
    var i := 0;
    while i < |w|
      invariant 0 <= i <= |w|
      invariant forall k :: 0 <= k < a.Length ==> a[k] == if off <= k < off + i then w[k - off] else old(a[k])
    {
      a[off + i] := w[i];
      i := i + 1;
    }
  }

  /** buf.fill(0, from, to). */
  method FillZero(a: array<byte>, from: nat, to: nat)
    requires from <= to <= a.Length
    modifies a
    ensures a[..] == Put(old(a[..]), from, Zeros(to - from))
  {
    var i := from;
    while i < to
      invariant from <= i <= to
      invariant forall k :: 0 <= k < a.Length ==> a[k] == if from <= k < i then 0 else old(a[k])
    {
      a[i] := 0;
      i := i + 1;
    }
  }

  /** src.copy(a, 0, 0, n): copies min(n, |src|, a.Length) leading bytes, leaving the rest of `a`. */
  method CopyPrefix(src: seq<byte>, a: array<byte>, n: nat)
    modifies a
    ensures var m := Min(Min(n, |src|), a.Length);
      a[..] == Put(old(a[..]), 0, src[..m])
  {
    var m := Min(Min(n, |src|), a.Length);
    var i := 0;
    while i < m
      invariant 0 <= i <= m
      invariant forall k :: 0 <= k < a.Length ==> a[k] == if k < i then src[k] else old(a[k])
    {
      a[i] := src[i];
      i := i + 1;
    }
  }

  /** Buffer.copyBytesFrom(src): a fresh buffer holding the same bytes. */
  method CopyBytesFrom(src: seq<byte>) returns (a: array<byte>)
    ensures fresh(a) && a[..] == src
  {
    a := new byte[|src|](_ => 0);
    CopyPrefix(src, a, |src|);
  }

  function Min(x: int, y: int): int { if x <= y then x else y }
}
