/**
 Fixed-width integers as byte strings. A machine word is an unbounded `int`; the writers keep
 its low bits (two's complement for negative values), the readers give the unsigned value.
 */
module Bytes {
  type byte = x: int | 0 <= x < 256
  type bytes = seq<byte>

  datatype Option<+T> = None | Some(value: T)

  const TWO16 := 0x1_0000
  const TWO24 := 0x100_0000
  const TWO31 := 0x8000_0000
  const TWO32 := 0x1_0000_0000
  const TWO33 := 0x2_0000_0000

  function Min(a: int, b: int): int { if a < b then a else b }

  function Max(a: int, b: int): int { if a < b then b else a }

  /** Microseconds to whole milliseconds, rounding toward zero. */
  function Ms(us: int): int { if us >= 0 then us / 1000 else -(-us / 1000) }

  function BE2(n: int): (b: bytes)
    ensures |b| == 2
  {
    [n / 0x100 % 0x100, n % 0x100]
  }

  function BE3(n: int): (b: bytes)
    ensures |b| == 3
  {
    BE2(n / 0x100) + [n % 0x100]
  }

  function BE4(n: int): (b: bytes)
    ensures |b| == 4
  {
    BE3(n / 0x100) + [n % 0x100]
  }

  function LE4(n: int): (b: bytes)
    ensures |b| == 4
  {
    var b := BE4(n);
    [b[3], b[2], b[1], b[0]]
  }

  function BE8(n: int): (b: bytes)
    ensures |b| == 8
  {
    BE4(n / TWO32) + BE4(n)
  }

  function U16(b: bytes): (n: nat)
    requires |b| >= 2
    ensures n < TWO16
  {
    0x100 * (b[0] as int) + b[1]
  }

  function U24(b: bytes): (n: nat)
    requires |b| >= 3
    ensures n < TWO24
  {
    0x100 * U16(b) + b[2]
  }

  function U32(b: bytes): (n: nat)
    requires |b| >= 4
    ensures n < TWO32
  {
    0x100 * U24(b) + b[3]
  }

  function ULE32(b: bytes): (n: nat)
    requires |b| >= 4
    ensures n < TWO32
  {
    U32([b[3], b[2], b[1], b[0]])
  }

  function U64(b: bytes): (n: nat)
    requires |b| >= 8
  {
    TWO32 * U32(b[..4]) + U32(b[4..])
  }

  /** The signed reading of a 32-bit pattern. */
  function S32(n: nat): int
    requires n < TWO32
  {
    if n < TWO31 then n else n - TWO32
  }

  lemma U16OfBE2(n: int, tail: bytes)
    ensures U16(BE2(n) + tail) == n % TWO16
  {
    assert n / 0x100 == 0x100 * (n / 0x100 / 0x100) + n / 0x100 % 0x100;
  }

  lemma U24OfBE3(n: int, tail: bytes)
    ensures U24(BE3(n) + tail) == n % TWO24
  {
    var q := n / 0x100;
    U16OfBE2(q, [n % 0x100] + tail);
    assert BE3(n) + tail == BE2(q) + ([n % 0x100] + tail);
    assert q == TWO16 * (q / TWO16) + q % TWO16;
  }

  lemma U32OfBE4(n: int, tail: bytes)
    ensures U32(BE4(n) + tail) == n % TWO32
  {
    var q := n / 0x100;
    U24OfBE3(q, [n % 0x100] + tail);
    assert BE4(n) + tail == BE3(q) + ([n % 0x100] + tail);
    assert q == TWO24 * (q / TWO24) + q % TWO24;
  }

  /** A number of 32 signed bits survives the writer and the signed reading. */
  lemma S32OfBE4(n: int, tail: bytes)
    requires -0x8000_0000 <= n < 0x8000_0000
    ensures S32(U32(BE4(n) + tail)) == n
  {
    U32OfBE4(n, tail);
  }

  lemma ULE32OfLE4(n: int, tail: bytes)
    ensures ULE32(LE4(n) + tail) == n % TWO32
  {
    var b := LE4(n) + tail;
    assert [b[3], b[2], b[1], b[0]] == BE4(n) + [];
    U32OfBE4(n, []);
  }

  lemma U64OfBE8(n: nat, tail: bytes)
    requires n < TWO32 * TWO32
    ensures U64(BE8(n) + tail) == n
  {
    assert (BE8(n) + tail)[..4] == BE4(n / TWO32) + [];
    assert (BE8(n) + tail)[4..] == BE4(n) + tail;
    U32OfBE4(n / TWO32, []);
    U32OfBE4(n, tail);
  }

  /** The writers invert the readers. */
  lemma BE2OfU16(b: bytes)
    requires |b| >= 2
    ensures BE2(U16(b)) == b[..2]
  {
    assert U16(b) / 0x100 == b[0] && U16(b) % 0x100 == b[1];
  }

  lemma BE3OfU24(b: bytes)
    requires |b| >= 3
    ensures BE3(U24(b)) == b[..3]
  {
    BE2OfU16(b);
    hide U16, BE2;
    assert U24(b) / 0x100 == U16(b) && U24(b) % 0x100 == b[2];
    assert b[..3] == b[..2] + [b[2]];
  }

  lemma BE4OfU32(b: bytes)
    requires |b| >= 4
    ensures BE4(U32(b)) == b[..4]
  {
    BE3OfU24(b);
    hide U24, BE3;
    assert U32(b) / 0x100 == U24(b) && U32(b) % 0x100 == b[3];
    assert b[..4] == b[..3] + [b[3]];
  }

  lemma Assoc<T>(a: seq<T>, b: seq<T>, c: seq<T>)
    ensures a + (b + c) == (a + b) + c
  {
  }
}
