/**
 The CRC of program tables: polynomial 0x04C11DB7, initial value all ones, no reflection and no
 final xor. The register is written as its 32 bits, most significant first.
 */
module Crc32 {
  import opened Bytes

  type Bits = seq<bool>

  /** 0x04C11DB7. */
  const POLY: Bits := OfByte(0x04) + OfByte(0xc1) + OfByte(0x1d) + OfByte(0xb7)

  function Zeros(n: nat): (r: Bits)
    ensures |r| == n
  {
    seq(n, _ => false)
  }

  function Xor(a: Bits, b: Bits): (r: Bits)
    requires |a| == |b|
    ensures |r| == |a|
  {
    seq(|a|, i requires 0 <= i < |a| => a[i] != b[i])
  }

  function Nibble(b: nat): (r: Bits)
    requires b < 16
    ensures |r| == 4
  {
    [b / 8 == 1, b / 4 % 2 == 1, b / 2 % 2 == 1, b % 2 == 1]
  }

  function OfByte(b: byte): (r: Bits)
    ensures |r| == 8
  {
    Nibble(b / 16) + Nibble(b % 16)
  }

  function Value4(r: Bits): (n: nat)
    requires |r| == 4
    ensures n < 16
  {
    (if r[0] then 8 else 0) + (if r[1] then 4 else 0) + (if r[2] then 2 else 0) + (if r[3] then 1 else 0)
  }

  function ToByte(r: Bits): (b: byte)
    requires |r| == 8
  {
    16 * Value4(r[..4]) + Value4(r[4..])
  }

  function Shift(crc: Bits): (r: Bits)
    requires |crc| == 32
    ensures |r| == 32
  {
    var up := crc[1..] + [false];
    if crc[0] then Xor(up, POLY) else up
  }

  function Shifts(crc: Bits, n: nat): (r: Bits)
    requires |crc| == 32
    ensures |r| == 32
  {
    if n == 0 then crc else Shift(Shifts(crc, n - 1))
  }

  /** The byte enters at the top of the register. */
  function Enter(crc: Bits, b: byte): (r: Bits)
    requires |crc| == 32
    ensures |r| == 32
  {
    Xor(crc[..8], OfByte(b)) + crc[8..]
  }

  function Crc(s: bytes): (r: Bits)
    ensures |r| == 32
  {
    if s == [] then seq(32, _ => true) else Shifts(Enter(Crc(s[..|s| - 1]), s[|s| - 1]), 8)
  }

  /** The four bytes that close a section. */
  function Trailer(crc: Bits): (b: bytes)
    requires |crc| == 32
    ensures |b| == 4
  {
    [ToByte(crc[..8]), ToByte(crc[8..16]), ToByte(crc[16..24]), ToByte(crc[24..])]
  }

  /** The register as the code computes it, bit by bit. */
  method Crc32(buf: bytes) returns (crc: Bits)
    ensures crc == Crc(buf)
  {
    crc := seq(32, _ => true);
    var i := 0;
    while i < |buf|
      invariant i <= |buf| && crc == Crc(buf[..i])
    {
      ghost var entered := Enter(crc, buf[i]);
      crc := Enter(crc, buf[i]);
      var j := 0;
      while j < 8
        invariant j <= 8 && |crc| == 32 && crc == Shifts(entered, j)
      {
        crc := Shift(crc);
        j := j + 1;
      }
      assert buf[..i + 1][..i] == buf[..i];
      i := i + 1;
    }
    assert buf[..i] == buf;
  }

  lemma NibbleOfValue(r: Bits)
    requires |r| == 4
    ensures Nibble(Value4(r)) == r
  {
  }

  lemma OfByteOfToByte(r: Bits)
    requires |r| == 8
    ensures OfByte(ToByte(r)) == r
  {
    hide Nibble, Value4;
    var hi, lo := Value4(r[..4]), Value4(r[4..]);
    assert (16 * hi + lo) / 16 == hi && (16 * hi + lo) % 16 == lo;
    NibbleOfValue(r[..4]);
    NibbleOfValue(r[4..]);
    assert r == r[..4] + r[4..];
  }

  /** While the leading bits are zero, shifting only moves the register up. */
  lemma {:induction false} ShiftsOverZeros(crc: Bits, n: nat)
    requires |crc| == 32 && n <= 8 && crc[..8] == Zeros(8)
    ensures Shifts(crc, n) == crc[n..] + Zeros(n)
  {
    if n > 0 {
      ShiftsOverZeros(crc, n - 1);
      var r := Shifts(crc, n - 1);
      assert r[0] == crc[n - 1] == crc[..8][n - 1];
      assert r[1..] + [false] == crc[n..] + Zeros(n);
    } else {
      assert crc[0..] + Zeros(0) == crc;
    }
  }

  /** Feeding the top byte back clears it and moves the rest up. */
  lemma FeedTop(crc: Bits)
    requires |crc| == 32
    ensures Shifts(Enter(crc, ToByte(crc[..8])), 8) == crc[8..] + Zeros(8)
  {
    hide Shifts, ToByte, OfByte;
    OfByteOfToByte(crc[..8]);
    var x := Enter(crc, ToByte(crc[..8]));
    assert x[..8] == Zeros(8) && x[8..] == crc[8..];
    ShiftsOverZeros(x, 8);
  }

  lemma CrcAppend(s: bytes, b: byte)
    ensures Crc(s + [b]) == Shifts(Enter(Crc(s), b), 8)
  {
    assert (s + [b])[..|s|] == s;
  }

  /** The CRC over any section including its own trailer is zero. */
  lemma CrcCloses(s: bytes)
    ensures Crc(s + Trailer(Crc(s))) == Zeros(32)
  {
    hide Crc, Shifts, Enter, ToByte;
    var c, t := Crc(s), Trailer(Crc(s));
    var c1, c2, c3 := c[8..] + Zeros(8), c[16..] + Zeros(16), c[24..] + Zeros(24);
    CrcAppend(s, t[0]);
    FeedTop(c);
    CrcAppend(s + [t[0]], t[1]);
    FeedTop(c1);
    assert c1[..8] == c[8..16] && c1[8..] + Zeros(8) == c2;
    CrcAppend(s + [t[0]] + [t[1]], t[2]);
    FeedTop(c2);
    assert c2[..8] == c[16..24] && c2[8..] + Zeros(8) == c3;
    CrcAppend(s + [t[0]] + [t[1]] + [t[2]], t[3]);
    FeedTop(c3);
    assert c3[..8] == c[24..] && c3[8..] + Zeros(8) == Zeros(32);
    assert s + t == s + [t[0]] + [t[1]] + [t[2]] + [t[3]];
  }

  // ----- the register, as the standard describes it

  /** The powers of the generator polynomial below 32 (Annex A of ISO/IEC 13818-1). */
  const POWERS := {26, 23, 22, 16, 12, 11, 10, 8, 7, 5, 4, 2, 1, 0}

  lemma PolyPowers(i: nat)
    requires i < 32
    ensures POLY[i] <==> 31 - i in POWERS
  {
    assert POLY[..8] == OfByte(0x04) == [false, false, false, false, false, true, false, false];
    assert POLY[8..16] == OfByte(0xc1) == [true, true, false, false, false, false, false, true];
    assert POLY[16..24] == OfByte(0x1d) == [false, false, false, true, true, true, false, true];
    assert POLY[24..] == OfByte(0xb7) == [true, false, true, true, false, true, true, true];
    if i < 8 {
      assert POLY[i] == POLY[..8][i];
    } else if i < 16 {
      assert POLY[i] == POLY[8..16][i - 8];
    } else if i < 24 {
      assert POLY[i] == POLY[16..24][i - 16];
    } else {
      assert POLY[i] == POLY[24..][i - 24];
    }
  }

  /** One step divides by the generator: every power moves up by one, and where x^32 comes out the other
      powers of the generator take its place. */
  lemma ShiftDivides(crc: Bits, power: nat)
    requires |crc| == 32 && power < 32
    ensures Shift(crc)[31 - power] == ((power > 0 && crc[31 - (power - 1)]) != (crc[0] && power in POWERS))
  {
    hide OfByte;
    PolyPowers(31 - power);
  }

  lemma NibbleValue(n: nat)
    requires n < 16
    ensures Value4(Nibble(n)) == n
  {
  }

  lemma BitsValue(r: Bits)
    requires |r| == 8
    ensures 16 * Value4(r[..4]) + Value4(r[4..]) ==
            (if r[0] then 128 else 0) + (if r[1] then 64 else 0) + (if r[2] then 32 else 0) + (if r[3] then 16 else 0)
            + (if r[4] then 8 else 0) + (if r[5] then 4 else 0) + (if r[6] then 2 else 0) + (if r[7] then 1 else 0)
  {
  }

  /** The bits of a byte, the most significant one first. */
  lemma ByteBits(b: byte)
    ensures var r := OfByte(b);
            b == (if r[0] then 128 else 0) + (if r[1] then 64 else 0) + (if r[2] then 32 else 0)
                 + (if r[3] then 16 else 0) + (if r[4] then 8 else 0) + (if r[5] then 4 else 0)
                 + (if r[6] then 2 else 0) + (if r[7] then 1 else 0)
  {
    hide Nibble, Value4;
    var r := OfByte(b);
    assert r[..4] == Nibble(b / 16) && r[4..] == Nibble(b % 16);
    NibbleValue(b / 16);
    NibbleValue(b % 16);
    BitsValue(r);
  }

  /** The register starts with ones, and takes each byte by adding it to its top and eight steps. */
  lemma RegisterSteps(s: bytes, b: byte)
    ensures Crc([]) == seq(32, _ => true)
    ensures |Shifts(Enter(Crc(s), b), 8)| == 32 && Crc(s + [b]) == Shifts(Enter(Crc(s), b), 8)
    ensures forall i :: 0 <= i < 32 ==> Enter(Crc(s), b)[i] == (Crc(s)[i] != (i < 8 && OfByte(b)[i]))
    ensures forall n: nat :: Shifts(Enter(Crc(s), b), n + 1) == Shift(Shifts(Enter(Crc(s), b), n))
  {
    CrcAppend(s, b);
  }
}
