/**
  Bytes of the volume image and the little-endian integer decoding that every
  field decoder of the FAT12 accessor is built on (read_unsigned_le in fat12.c).
*/
module Bytes {

  /** A byte of the image. The C code reads `char`s and masks them with 0xff,
      so every byte is seen as an unsigned value. */
  type byte = x: int | 0 <= x < 256

  /** 256 to the power n. */
  function Pow256(n: nat): (r: nat)
    ensures r >= 1
  {
    if n == 0 then 1 else 256 * Pow256(n - 1)
  }

  /** The unsigned number held little-endian in buf[pos..pos+n]:
      the byte at pos is the least significant one. */
  function LittleEndian(buf: seq<byte>, pos: nat, n: nat): (r: nat)
    requires pos + n <= |buf|
    ensures r < Pow256(n)
    decreases n
  {
    if n == 0 then 0 else buf[pos] + 256 * LittleEndian(buf, pos + 1, n - 1)
  }

  /** The same number written as the positional sum of buf[pos+k] * 256^k for k < n. */
  function PositionalSum(buf: seq<byte>, pos: nat, n: nat): nat
    requires pos + n <= |buf|
  {
    if n == 0 then 0 else PositionalSum(buf, pos, n - 1) + buf[pos + n - 1] * Pow256(n - 1)
  }

  /** Adding one more byte on top adds that byte times 256^n. */
  lemma {:induction false} LittleEndianTop(buf: seq<byte>, pos: nat, n: nat)
    requires pos + n + 1 <= |buf|
    ensures LittleEndian(buf, pos, n + 1) == LittleEndian(buf, pos, n) + buf[pos + n] * Pow256(n)
    decreases n
  {
    if n > 0 {
      LittleEndianTop(buf, pos + 1, n - 1);
      var rest := LittleEndian(buf, pos + 1, n - 1);
      var b: int, p := buf[pos + n], Pow256(n - 1);
      assert Pow256(n) == 256 * p;
      assert LittleEndian(buf, pos + 1, n) == rest + b * p;
      assert 256 * (rest + b * p) == 256 * rest + b * (256 * p) by {
        MulAssoc(b, p);
      }
    }
  }

  /** The little-endian decoding is the positional sum of the bytes. */
  lemma {:induction false} LittleEndianIsPositionalSum(buf: seq<byte>, pos: nat, n: nat)
    requires pos + n <= |buf|
    ensures LittleEndian(buf, pos, n) == PositionalSum(buf, pos, n)
    decreases n
  {
    if n > 0 {
      LittleEndianIsPositionalSum(buf, pos, n - 1);
      LittleEndianTop(buf, pos, n - 1);
    }
  }

  /** The decoding depends only on the n bytes it reads. */
  lemma {:induction false} LittleEndianFrame(buf: seq<byte>, pos: nat, other: seq<byte>, at: nat, n: nat)
    requires pos + n <= |buf| && at + n <= |other|
    requires buf[pos..pos + n] == other[at..at + n]
    ensures LittleEndian(buf, pos, n) == LittleEndian(other, at, n)
    decreases n
  {
    if n > 0 {
      assert buf[pos] == buf[pos..pos + n][0] == other[at..at + n][0] == other[at];
      assert buf[pos + 1..pos + n] == buf[pos..pos + n][1..];
      assert other[at + 1..at + n] == other[at..at + n][1..];
      LittleEndianFrame(buf, pos + 1, other, at + 1, n - 1);
    }
  }

  /** Two-byte fields, as the boot sector and the directory entries use them. */
  lemma LittleEndian2(buf: seq<byte>, pos: nat)
    requires pos + 2 <= |buf|
    ensures LittleEndian(buf, pos, 2) == buf[pos] + 256 * (buf[pos + 1] as int)
  {
    assert LittleEndian(buf, pos + 1, 1) == buf[pos + 1];
  }

  /** Three-byte fields, as the FAT12 entry pairs use them. */
  lemma LittleEndian3(buf: seq<byte>, pos: nat)
    requires pos + 3 <= |buf|
    ensures LittleEndian(buf, pos, 3) == buf[pos] + 256 * (buf[pos + 1] as int) + 65536 * (buf[pos + 2] as int)
  {
    LittleEndian2(buf, pos + 1);
  }

  /** Four-byte fields, as the file size uses them. */
  lemma LittleEndian4(buf: seq<byte>, pos: nat)
    requires pos + 4 <= |buf|
    ensures LittleEndian(buf, pos, 4)
         == buf[pos] + 0x100 * (buf[pos + 1] as int) + 0x1_0000 * (buf[pos + 2] as int) + 0x100_0000 * (buf[pos + 3] as int)
  {
    LittleEndian3(buf, pos + 1);
  }

  /** The n little-endian bytes of x (x must fit in them). */
  function LittleEndianBytes(x: nat, n: nat): (r: seq<byte>)
    requires x < Pow256(n)
    ensures |r| == n
    decreases n
  {
    if n == 0 then [] else [x % 256] + LittleEndianBytes(x / 256, n - 1)
  }

  /** Decoding the encoded bytes gives the number back. */
  lemma {:induction false} LittleEndianRoundTrip(x: nat, n: nat)
    requires x < Pow256(n)
    ensures LittleEndian(LittleEndianBytes(x, n), 0, n) == x
    decreases n
  {
    if n > 0 {
      var bs := LittleEndianBytes(x, n);
      LittleEndianRoundTrip(x / 256, n - 1);
      LittleEndianFrame(bs, 1, LittleEndianBytes(x / 256, n - 1), 0, n - 1);
    }
  }

  /** read_unsigned_le: reads num_bytes bytes, most significant first, shifting the
      accumulated number left by eight bits for each. The shift-and-or is written
      as number * 256 + byte, which is the same because the low eight bits of
      number << 8 are zero. */
  method ReadUnsignedLe(buffer: seq<byte>, position: nat, numBytes: nat) returns (number: nat)
    requires numBytes <= 4
    requires position + numBytes <= |buffer|
    ensures number == LittleEndian(buffer, position, numBytes)
    ensures number < 0x1_0000_0000
  {
    number := 0;
    var k: nat := numBytes;
    while k > 0
      invariant k <= numBytes
      invariant number == LittleEndian(buffer, position + k, numBytes - k)
    {
      k := k - 1;
      number := number * 256 + buffer[position + k];
    }
    assert Pow256(numBytes) <= Pow256(4) == 0x1_0000_0000 by {
      if numBytes < 4 { Pow256Monotone(numBytes, 4); }
    }
  }

  lemma MulAssoc(b: int, p: int)
    ensures 256 * (b * p) == b * (256 * p)
  {
  }

  lemma {:induction false} Pow256Monotone(m: nat, n: nat)
    requires m <= n
    ensures Pow256(m) <= Pow256(n)
    decreases n - m
  {
    if m < n { Pow256Monotone(m, n - 1); }
  }
}
