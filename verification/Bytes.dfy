/** Bytes and the big-endian helpers of include/utils.h. */
module Bytes {
  type byte = x: int | 0 <= x < 0x100
  type u16 = x: int | 0 <= x < 0x1_0000
  type u32 = x: int | 0 <= x < 0x1_0000_0000
  type u64 = x: int | 0 <= x < 0x1_0000_0000_0000_0000

  type Bytes = seq<byte>

  datatype Option<+T> = None | Some(value: T)

  /** A C string: no NUL inside; the terminator is written explicitly where it travels. */
  predicate NulFree(s: Bytes) {
    0 !in s
  }

  /** The C string a buffer holds. */
  function CStr(buf: Bytes): Bytes {
    buf[..NulIndex(buf)]
  }

  /** memchr for NUL; the length when there is none. */
  function NulIndex(s: Bytes): (k: nat)
    ensures k <= |s| && NulFree(s[..k])
    ensures k < |s| ==> s[k] == 0
  {
    if s == [] || s[0] == 0 then 0
    else
      var k := NulIndex(s[1..]);
      assert s[..k + 1] == [s[0]] + s[1..][..k];
      k + 1
  }

  lemma {:induction false} NulIndexLands(part: Bytes, rest: Bytes)
    requires NulFree(part)
    ensures NulIndex(part + [0] + rest) == |part|
  {
    var s := part + [0] + rest;
    if part != [] {
      assert s[1..] == part[1..] + [0] + rest;
      NulIndexLands(part[1..], rest);
    }
  }

  lemma TerminatedAt(buf: Bytes, k: nat)
    requires k < |buf| && buf[k] == 0 && NulFree(buf[..k])
    ensures NulIndex(buf) == k
  {
  }

  /** The bytes of an ASCII literal. */
  function Ascii(s: string): (b: Bytes)
    requires forall i :: 0 <= i < |s| ==> s[i] as int < 0x80
    ensures |b| == |s| && forall i :: 0 <= i < |s| ==> b[i] == s[i] as int
  {
    seq(|s|, i requires 0 <= i < |s| => s[i] as int)
  }

  function Pow256(n: nat): (p: nat)
    ensures p >= 1
  {
    if n == 0 then 1 else 256 * Pow256(n - 1)
  }

  /** Reference encoding: the n-byte big-endian form of v, low-order digits only. */
  function BigEndian(v: nat, n: nat): (b: Bytes)
    ensures |b| == n
  {
    if n == 0 then [] else BigEndian(v / 256, n - 1) + [v % 256]
  }

  /** Reference decoding: the number whose base-256 digits are b. */
  function FromBigEndian(b: Bytes): nat {
    if b == [] then 0 else 256 * FromBigEndian(b[..|b| - 1]) + b[|b| - 1]
  }

  lemma {:induction false} BigEndianRoundTrip(v: nat, n: nat)
    requires v < Pow256(n)
    ensures FromBigEndian(BigEndian(v, n)) == v
  {
    if n > 0 {
      BigEndianRoundTrip(v / 256, n - 1);
      var b := BigEndian(v, n);
      assert b[..n - 1] == BigEndian(v / 256, n - 1);
    }
  }

  // The readers of include/utils.h:72-103, shift by shift.

  function ReadU16(b: Bytes): u16
    requires |b| >= 2
  {
    b[0] as int * 0x100 + b[1]
  }

  function ReadU32(b: Bytes): u32
    requires |b| >= 4
  {
    b[0] as int * 0x100_0000 + b[1] as int * 0x1_0000 + b[2] as int * 0x100 + b[3]
  }

  function ReadU64(b: Bytes): u64
    requires |b| >= 8
  {
    b[0] as int * 0x100_0000_0000_0000 + b[1] as int * 0x1_0000_0000_0000
    + b[2] as int * 0x100_0000_0000 + b[3] as int * 0x1_0000_0000
    + b[4] as int * 0x100_0000 + b[5] as int * 0x1_0000 + b[6] as int * 0x100 + b[7]
  }

  lemma FromBigEndianStep(b: Bytes, x: byte)
    ensures FromBigEndian(b + [x]) == 256 * FromBigEndian(b) + x
  {
  }

  lemma FromBigEndian4(b: Bytes)
    requires |b| == 4
    ensures FromBigEndian(b) == ((b[0] as int * 256 + b[1]) * 256 + b[2]) * 256 + b[3]
  {
    assert b == [b[0]] + [b[1]] + [b[2]] + [b[3]];
    FromBigEndianStep([], b[0]);
    assert [] + [b[0]] == [b[0]];
    FromBigEndianStep([b[0]], b[1]);
    FromBigEndianStep([b[0]] + [b[1]], b[2]);
    FromBigEndianStep([b[0]] + [b[1]] + [b[2]], b[3]);
  }

  lemma ReadU16Meaning(b: Bytes)
    requires |b| >= 2
    ensures ReadU16(b) == FromBigEndian(b[..2])
  {
    assert b[..2] == [b[0]] + [b[1]];
    FromBigEndianStep([], b[0]);
    assert [] + [b[0]] == [b[0]];
    FromBigEndianStep([b[0]], b[1]);
  }

  lemma ReadU32Meaning(b: Bytes)
    requires |b| >= 4
    ensures ReadU32(b) == FromBigEndian(b[..4])
  {
    FromBigEndian4(b[..4]);
  }

  lemma ReadU64Meaning(b: Bytes)
    requires |b| >= 8
    ensures ReadU64(b) == FromBigEndian(b[..8])
  {
    var h := b[..4];
    FromBigEndian4(h);
    FromBigEndianStep(h, b[4]);
    FromBigEndianStep(h + [b[4]], b[5]);
    FromBigEndianStep(h + [b[4]] + [b[5]], b[6]);
    FromBigEndianStep(h + [b[4]] + [b[5]] + [b[6]], b[7]);
    assert b[..8] == h + [b[4]] + [b[5]] + [b[6]] + [b[7]];
  }

  /** What a writer stores, the matching reader gives back, whatever follows in the buffer. */
  lemma ReadAfterWrite(rest: Bytes)
    ensures forall v: u16 :: ReadU16(BigEndian(v, 2) + rest) == v
    ensures forall v: u32 :: ReadU32(BigEndian(v, 4) + rest) == v
    ensures forall v: u64 :: ReadU64(BigEndian(v, 8) + rest) == v
  {
    forall v: u16 ensures ReadU16(BigEndian(v, 2) + rest) == v {
      var b := BigEndian(v, 2) + rest;
      ReadU16Meaning(b);
      assert b[..2] == BigEndian(v, 2);
      assert Pow256(2) == 0x1_0000;
      BigEndianRoundTrip(v, 2);
    }
    forall v: u32 ensures ReadU32(BigEndian(v, 4) + rest) == v {
      var b := BigEndian(v, 4) + rest;
      ReadU32Meaning(b);
      assert b[..4] == BigEndian(v, 4);
      assert Pow256(2) == 0x1_0000;
      assert Pow256(4) == 0x1_0000_0000;
      BigEndianRoundTrip(v, 4);
    }
    forall v: u64 ensures ReadU64(BigEndian(v, 8) + rest) == v {
      var b := BigEndian(v, 8) + rest;
      ReadU64Meaning(b);
      assert b[..8] == BigEndian(v, 8);
      assert Pow256(2) == 0x1_0000;
      assert Pow256(4) == 0x1_0000_0000;
      assert Pow256(6) == 0x1_0000_0000_0000;
      assert Pow256(8) == 0x1_0000_0000_0000_0000;
      BigEndianRoundTrip(v, 8);
    }
  }

  lemma BigEndianStep(v: nat, n: nat)
    ensures BigEndian(v, n + 1) == BigEndian(v / 256, n) + [v % 256]
  {
  }

  // The writers of include/utils.h:77-115: they store into a buffer at a position.

  /** buf now holds s at position at, and is otherwise as it was. */
  twostate predicate Stored(buf: array<byte>, at: nat, s: Bytes)
    reads buf
  {
    && at + |s| <= buf.Length
    && forall i :: 0 <= i < buf.Length ==> buf[i] == if at <= i < at + |s| then s[i - at] else old(buf[i])
  }

  method WriteU16(buf: array<byte>, at: nat, v: u16)
    requires at + 2 <= buf.Length
    modifies buf
    ensures Stored(buf, at, BigEndian(v, 2))
  {
    buf[at] := v / 0x100;
    buf[at + 1] := v % 0x100;
    BigEndianStep(v / 256, 0);
    assert BigEndian(v, 2) == [v / 256, v % 256];
  }

  method WriteU32(buf: array<byte>, at: nat, v: u32)
    requires at + 4 <= buf.Length
    modifies buf
    ensures Stored(buf, at, BigEndian(v, 4))
  {
    buf[at] := v / 0x100_0000;
    buf[at + 1] := v / 0x1_0000 % 0x100;
    buf[at + 2] := v / 0x100 % 0x100;
    buf[at + 3] := v % 0x100;
    FourBytes(v);
  }

  lemma FourBytes(v: u32)
    ensures BigEndian(v, 4) == [v / 0x100_0000, v / 0x1_0000 % 0x100, v / 0x100 % 0x100, v % 0x100]
  {
    var v1 := v / 0x100;
    var v2 := v / 0x1_0000;
    var v3 := v / 0x100_0000;
    assert v1 / 256 == v2 && v2 / 256 == v3 && v3 < 256;
    BigEndianStep(v3, 0);
    BigEndianStep(v2, 1);
    BigEndianStep(v1, 2);
    BigEndianStep(v, 3);
  }

  method WriteU64(buf: array<byte>, at: nat, v: u64)
    requires at + 8 <= buf.Length
    modifies buf
    ensures Stored(buf, at, BigEndian(v, 8))
  {
    buf[at] := v / 0x100_0000_0000_0000;
    buf[at + 1] := v / 0x1_0000_0000_0000 % 0x100;
    buf[at + 2] := v / 0x100_0000_0000 % 0x100;
    buf[at + 3] := v / 0x1_0000_0000 % 0x100;
    buf[at + 4] := v / 0x100_0000 % 0x100;
    buf[at + 5] := v / 0x1_0000 % 0x100;
    buf[at + 6] := v / 0x100 % 0x100;
    buf[at + 7] := v % 0x100;
    EightBytes(v);
  }

  lemma EightBytes(v: u64)
    ensures BigEndian(v, 8) == [
      v / 0x100_0000_0000_0000, v / 0x1_0000_0000_0000 % 0x100,
      v / 0x100_0000_0000 % 0x100, v / 0x1_0000_0000 % 0x100,
      v / 0x100_0000 % 0x100, v / 0x1_0000 % 0x100, v / 0x100 % 0x100, v % 0x100]
  {
    var hi: u32 := v / 0x1_0000_0000;
    var v1 := v / 0x100;
    var v2 := v / 0x1_0000;
    var v3 := v / 0x100_0000;
    assert v1 / 256 == v2 && v2 / 256 == v3 && v3 / 256 == hi;
    assert hi / 0x100 == v / 0x100_0000_0000;
    assert hi / 0x1_0000 == v / 0x1_0000_0000_0000;
    assert hi / 0x100_0000 == v / 0x100_0000_0000_0000;
    FourBytes(hi);
    BigEndianStep(v3, 4);
    BigEndianStep(v2, 5);
    BigEndianStep(v1, 6);
    BigEndianStep(v, 7);
  }
}
