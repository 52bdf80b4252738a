/**
 Packed booleans: bit `i` of a bit struct is the bit of weight `2^(7 - i % 8)` of
 byte `i / 8` (most significant bit first), unused bits are zero.
 */
module Flags {
  import opened Bytes

  /** 0 or 1; positions past the last flag read as 0. */
  function Bit(bits: seq<bool>, i: nat): (r: nat)
    ensures r <= 1
  {
    if i < |bits| && bits[i] then 1 else 0
  }

  function FlagByte(bits: seq<bool>, j: nat): (r: byte)
  {
    128 * Bit(bits, 8 * j) + 64 * Bit(bits, 8 * j + 1) + 32 * Bit(bits, 8 * j + 2) + 16 * Bit(bits, 8 * j + 3)
    + 8 * Bit(bits, 8 * j + 4) + 4 * Bit(bits, 8 * j + 5) + 2 * Bit(bits, 8 * j + 6) + Bit(bits, 8 * j + 7)
  }

  function Pack(bits: seq<bool>, n: nat): (r: bytes)
    ensures |r| == n
    ensures forall j :: 0 <= j < n ==> r[j] == FlagByte(bits, j)
  {
    if n == 0 then [] else Pack(bits, n - 1) + [FlagByte(bits, n - 1)]
  }

  /** `1 << k` for a bit position inside one byte. */
  function Mask(k: nat): (m: nat)
    requires k < 8
    ensures 1 <= m <= 128
  {
    [1, 2, 4, 8, 16, 32, 64, 128][k]
  }

  /** Whether the bit of weight `2^k` is set in `x`. */
  predicate TestBit(x: byte, k: nat)
    requires k < 8
  {
    x / Mask(k) % 2 == 1
  }

  predicate UnpackBit(b: bytes, i: nat)
    requires i < 8 * |b|
  {
    TestBit(b[i / 8], 7 - i % 8)
  }

  function Unpack(b: bytes, count: nat): (r: seq<bool>)
    requires count <= 8 * |b|
    ensures |r| == count
    ensures forall i :: 0 <= i < count ==> r[i] == UnpackBit(b, i)
  {
    if count == 0 then [] else Unpack(b, count - 1) + [UnpackBit(b, count - 1)]
  }

  /** Each of the eight weights of a byte is independent of the others. */
  lemma {:induction false} BitOfSum(b7: nat, b6: nat, b5: nat, b4: nat, b3: nat, b2: nat, b1: nat, b0: nat, x: byte)
    requires b7 <= 1 && b6 <= 1 && b5 <= 1 && b4 <= 1 && b3 <= 1 && b2 <= 1 && b1 <= 1 && b0 <= 1
    requires x == 128 * b7 + 64 * b6 + 32 * b5 + 16 * b4 + 8 * b3 + 4 * b2 + 2 * b1 + b0
    ensures x / 128 % 2 == b7 && x / 64 % 2 == b6 && x / 32 % 2 == b5 && x / 16 % 2 == b4
    ensures x / 8 % 2 == b3 && x / 4 % 2 == b2 && x / 2 % 2 == b1 && x / 1 % 2 == b0
  {
    assert x / 2 == 64 * b7 + 32 * b6 + 16 * b5 + 8 * b4 + 4 * b3 + 2 * b2 + b1;
    assert x / 4 == 32 * b7 + 16 * b6 + 8 * b5 + 4 * b4 + 2 * b3 + b2;
    assert x / 8 == 16 * b7 + 8 * b6 + 4 * b5 + 2 * b4 + b3;
    assert x / 16 == 8 * b7 + 4 * b6 + 2 * b5 + b4;
    assert x / 32 == 4 * b7 + 2 * b6 + b5;
    assert x / 64 == 2 * b7 + b6;
    assert x / 128 == b7;
  }

  lemma {:induction false} TestFlagByte(bits: seq<bool>, i: nat)
    ensures TestBit(FlagByte(bits, i / 8), 7 - i % 8) <==> Bit(bits, i) == 1
  {
    var j := i / 8;
    BitOfSum(Bit(bits, 8 * j), Bit(bits, 8 * j + 1), Bit(bits, 8 * j + 2), Bit(bits, 8 * j + 3),
             Bit(bits, 8 * j + 4), Bit(bits, 8 * j + 5), Bit(bits, 8 * j + 6), Bit(bits, 8 * j + 7), FlagByte(bits, j));
    assert i == 8 * j + i % 8;
  }

  /** Reading the flags back returns exactly the flags packed. */
  lemma {:induction false} UnpackPack(bits: seq<bool>, n: nat)
    requires |bits| <= 8 * n
    ensures Unpack(Pack(bits, n), |bits|) == bits
  {
    var b := Pack(bits, n);
    forall i | 0 <= i < |bits|
      ensures Unpack(b, |bits|)[i] == bits[i]
    {
      TestFlagByte(bits, i);
    }
  }

  /** Packing into `n` bytes is injective on sequences of equal length that fit. */
  lemma {:induction false} PackInjective(x: seq<bool>, y: seq<bool>, n: nat)
    requires |x| == |y| <= 8 * n && Pack(x, n) == Pack(y, n)
    ensures x == y
  {
    UnpackPack(x, n);
    UnpackPack(y, n);
  }
}
