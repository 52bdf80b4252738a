/**
 The two bit buffers: Rust's `Bits<N>`, a byte array assigned bit by bit, and C++'s
 `BitBuffer<BitCount>`, a bitset filled from its most significant end and written as one
 integer. Both realise the packing of module `Flags`.
 */
module BitBuffers {
  import opened Bytes
  import opened Flags

  // ---------------------------------------------------------------- Rust

  /** `x |= 1 << k` or `x &= !(1 << k)`. */
  function PutBit(x: byte, k: nat, state: bool): (r: byte)
    requires k < 8
  {
    if TestBit(x, k) == state then x
    else if state then SetClear(x, k); x + Mask(k)
    else SetClear(x, k); x - Mask(k)
  }

  /** Adding the weight of a clear bit, or removing that of a set bit, stays inside a byte. */
  lemma SetClear(x: byte, k: nat)
    requires k < 8
    ensures TestBit(x, k) ==> x >= Mask(k)
    ensures !TestBit(x, k) ==> x + Mask(k) < 256
  {
  }

  class Bits {
    const size: nat
    const buffer: array<byte>

    ghost predicate Valid() reads this { buffer.Length == size }

    constructor (n: nat)
      ensures Valid() && size == n && fresh(buffer) && buffer[..] == Pack([], n)
    {
      size := n;
      buffer := new byte[n](_ => 0);
      new;
      assert forall j :: 0 <= j < n ==> buffer[..][j] == Pack([], n)[j];
    }

    method Reset()
      requires Valid()
      modifies buffer
      ensures buffer[..] == Pack([], size)
    {
      for i := 0 to size
        invariant forall j :: 0 <= j < i ==> buffer[j] == 0
      {
        buffer[i] := 0;
      }
      assert forall j :: 0 <= j < size ==> buffer[..][j] == Pack([], size)[j];
    }

    method AssignBit(pos: nat, state: bool)
      requires Valid() && pos < 8 * size
      modifies buffer
      ensures buffer[..] == old(buffer[..])[pos / 8 := PutBit(old(buffer[pos / 8]), 7 - pos % 8, state)]
    {
      var i, bit := pos / 8, 7 - pos % 8;
      buffer[i] := PutBit(buffer[i], bit, state);
    }

    method GetBit(pos: nat) returns (r: bool)
      requires Valid() && pos < 8 * size
      ensures r == UnpackBit(buffer[..], pos)
    {
      var i, bit := pos / 8, 7 - pos % 8;
      r := TestBit(buffer[i], bit);
    }
  }

  /** The generated encoder of a bit struct: one `assign_bit` per field. */
  method PackFields(bits: seq<bool>, n: nat) returns (b: bytes)
    requires |bits| <= 8 * n
    ensures b == Pack(bits, n)
  {
    var buf := new Bits(n);
    for i := 0 to |bits|
      invariant buf.Valid() && buf.size == n && fresh(buf.buffer)
      invariant buf.buffer[..] == Pack(bits[..i], n)
    {
      PackStep(bits, i, n);
      buf.AssignBit(i, bits[i]);
    }
    assert bits[..|bits|] == bits;
    b := buf.buffer[..];
  }

  /** The generated decoder of a bit struct: one `get_bit` per field. */
  method UnpackFields(b: bytes, count: nat) returns (bits: seq<bool>)
    requires count <= 8 * |b|
    ensures bits == Unpack(b, count)
  {
    var buf := new Bits(|b|);
    for i := 0 to |b|
      invariant buf.Valid() && buf.size == |b| && fresh(buf.buffer)
      invariant forall j :: 0 <= j < i ==> buf.buffer[j] == b[j]
    {
      buf.buffer[i] := b[i];
    }
    assert buf.buffer[..] == b;
    bits := [];
    for i := 0 to count
      invariant buf.buffer[..] == b && |bits| == i
      invariant forall j :: 0 <= j < i ==> bits[j] == UnpackBit(b, j)
    {
      var x := buf.GetBit(i);
      bits := bits + [x];
    }
  }

  /** Assigning field `i` to the packing of the fields before it gives the packing including it. */
  lemma {:induction false} PackStep(bits: seq<bool>, i: nat, n: nat)
    requires i < |bits| <= 8 * n
    ensures
      var x := Pack(bits[..i], n);
      x[i / 8 := PutBit(x[i / 8], 7 - i % 8, bits[i])] == Pack(bits[..i + 1], n)
  {
    var x, y := Pack(bits[..i], n), Pack(bits[..i + 1], n);
    hide *;
    forall j | 0 <= j < n && j != i / 8
      ensures x[j] == y[j]
    {
      OtherByte(bits, i, j);
    }
    OwnByte(bits, i);
    OneReplaced(x, y, i / 8, PutBit(x[i / 8], 7 - i % 8, bits[i]));
  }

  lemma OneReplaced(x: bytes, y: bytes, k: nat, v: byte)
    requires k < |x| == |y| && y[k] == v && forall j | 0 <= j < |x| && j != k :: x[j] == y[j]
    ensures x[k := v] == y
  {
  }

  lemma BitOfPrefix(bits: seq<bool>, i: nat, k: nat)
    requires i < |bits|
    ensures k != i ==> Bit(bits[..i + 1], k) == Bit(bits[..i], k)
    ensures Bit(bits[..i], i) == 0
    ensures Bit(bits[..i + 1], i) == if bits[i] then 1 else 0
  {
  }

  lemma {:induction false} OtherByte(bits: seq<bool>, i: nat, j: nat)
    requires i < |bits| && j != i / 8
    ensures FlagByte(bits[..i], j) == FlagByte(bits[..i + 1], j)
  {
    var x, y := bits[..i], bits[..i + 1];
    forall m: nat | 8 * j <= m < 8 * j + 8
      ensures Bit(x, m) == Bit(y, m)
    {
      BitOfPrefix(bits, i, m);
    }
    hide Bit;
  }

  lemma {:induction false} OwnByte(bits: seq<bool>, i: nat)
    requires i < |bits|
    ensures PutBit(FlagByte(bits[..i], i / 8), 7 - i % 8, bits[i]) == FlagByte(bits[..i + 1], i / 8)
  {
    var j, x, y := i / 8, bits[..i], bits[..i + 1];
    forall m: nat | 8 * j <= m < 8 * j + 8
      ensures m != i ==> Bit(x, m) == Bit(y, m)
    {
      BitOfPrefix(bits, i, m);
    }
    BitOfPrefix(bits, i, i);
    TestFlagByte(x, i);
    WeightedByte(x, y, j, i % 8);
    hide FlagByte, TestBit, Bit;
  }

  /** Two flag sequences that differ at one place only have bytes that differ by the weight of that place. */
  lemma {:induction false} WeightedByte(x: seq<bool>, y: seq<bool>, j: nat, r: nat)
    requires r < 8
    requires forall m: nat | 8 * j <= m < 8 * j + 8 :: m != 8 * j + r ==> Bit(x, m) == Bit(y, m)
    ensures FlagByte(y, j) - FlagByte(x, j) == Mask(7 - r) * (Bit(y, 8 * j + r) - Bit(x, 8 * j + r))
  {
    hide Bit;
    if r == 0 {} else if r == 1 {} else if r == 2 {} else if r == 3 {}
    else if r == 4 {} else if r == 5 {} else if r == 6 {} else {}
  }

  // ---------------------------------------------------------------- C++

  /** `std::bitset::to_ullong`: bit 0 is the least significant. */
  function BitsetValue(bs: seq<bool>): (v: nat)
  {
    if bs == [] then 0 else (if bs[0] then 1 else 0) + 2 * BitsetValue(bs[1..])
  }

  /** `std::bitset<n>(v)`: the low `n` bits of `v`. */
  function BitsetOf(v: nat, n: nat): (bs: seq<bool>)
    ensures |bs| == n
  {
    if n == 0 then [] else [v % 2 == 1] + BitsetOf(v / 2, n - 1)
  }

  /** The bitset of `8 * n` bits after writing `bits`, most significant position first. */
  function Layout(bits: seq<bool>, n: nat): (bs: seq<bool>)
    ensures |bs| == 8 * n
  {
    seq(8 * n, k requires 0 <= k < 8 * n => Bit(bits, 8 * n - 1 - k) == 1)
  }

  class BitBuffer {
    const bitCount: nat
    var bitset: seq<bool>
    var position: nat

    ghost predicate Valid() reads this { |bitset| == bitCount && position <= bitCount }

    constructor (n: nat)
      ensures Valid() && bitCount == n && position == 0
      ensures forall k :: 0 <= k < n ==> !bitset[k]
    {
      bitCount := n;
      bitset := seq(n, _ => false);
      position := 0;
    }

    constructor FromValue(n: nat, val: nat)
      ensures Valid() && bitCount == n && position == 0 && bitset == BitsetOf(val, n)
    {
      bitCount := n;
      bitset := BitsetOf(val, n);
      position := 0;
    }

    /** False stands for the thrown "tried to write too many bits". */
    method WriteBit(value: bool) returns (ok: bool)
      requires Valid()
      modifies this
      ensures Valid() && ok == (old(position) < bitCount)
      ensures ok ==> position == old(position) + 1 && bitset == old(bitset)[bitCount - 1 - old(position) := value]
      ensures !ok ==> position == old(position) && bitset == old(bitset)
    {
      if position == bitCount { return false; }
      position := position + 1;
      bitset := bitset[bitCount - position := value];
      return true;
    }

    method ReadBit() returns (ok: bool, value: bool)
      requires Valid()
      modifies this`position
      ensures Valid() && ok == (old(position) < bitCount)
      ensures ok ==> position == old(position) + 1 && value == bitset[bitCount - 1 - old(position)]
      ensures !ok ==> position == old(position)
    {
      if position == bitCount { return false, false; }
      position := position + 1;
      return true, bitset[bitCount - position];
    }

    /** The integer has `bitCount` bits, and a buffer made from it holds the same bits. */
    method Contents() returns (v: nat)
      requires Valid()
      ensures v < Pow2(bitCount) && BitsetOf(v, bitCount) == bitset && v == BitsetValue(bitset)
    {
      ValueRestores(bitset);
      v := BitsetValue(bitset);
    }
  }

  lemma {:induction false} ValueRestores(bs: seq<bool>)
    ensures BitsetValue(bs) < Pow2(|bs|) && BitsetOf(BitsetValue(bs), |bs|) == bs
  {
    if bs != [] {
      ValueRestores(bs[1..]);
      assert bs == [bs[0]] + bs[1..];
    }
  }

  /** `reflectionEncodeBitfield` up to the integer it writes. */
  method BitfieldInteger(bits: seq<bool>, n: nat) returns (v: nat)
    requires |bits| <= 8 * n
    ensures v == BitsetValue(Layout(bits, n)) == FromBE(Pack(bits, n))
  {
    var buf := new BitBuffer(8 * n);
    assert bits[..0] == [];
    EmptyLayout(buf.bitset, n);
    for i := 0 to |bits|
      invariant buf.Valid() && buf.bitCount == 8 * n && buf.position == i && fresh(buf)
      invariant buf.bitset == Layout(bits[..i], n)
    {
      LayoutStep(bits, i, n);
      var ok := buf.WriteBit(bits[i]);
    }
    assert bits[..|bits|] == bits;
    v := buf.Contents();
    LayoutValue(bits, n);
  }

  lemma {:induction false} EmptyLayout(bs: seq<bool>, n: nat)
    requires |bs| == 8 * n && forall k :: 0 <= k < |bs| ==> !bs[k]
    ensures bs == Layout([], n)
  {
    forall k | 0 <= k < 8 * n
      ensures bs[k] == Layout([], n)[k]
    {
      assert Bit([], 8 * n - 1 - k) == 0;
    }
  }

  lemma {:induction false} LayoutStep(bits: seq<bool>, i: nat, n: nat)
    requires i < |bits| <= 8 * n
    ensures Layout(bits[..i], n)[8 * n - 1 - i := bits[i]] == Layout(bits[..i + 1], n)
  {
    var x, y := Layout(bits[..i], n)[8 * n - 1 - i := bits[i]], Layout(bits[..i + 1], n);
    forall k | 0 <= k < 8 * n
      ensures x[k] == y[k]
    {
      BitOfPrefix(bits, i, 8 * n - 1 - k);
    }
  }

  /** Reading `count` bits back out of the integer read from `b` gives the flags packed in its low bytes. */
  method BitfieldFlags(b: bytes, n: nat, count: nat) returns (bits: seq<bool>)
    requires n <= |b| && count <= 8 * n
    ensures bits == Unpack(b[|b| - n..], count)
  {
    var buf := new BitBuffer.FromValue(8 * n, FromBE(b));
    bits := [];
    for i := 0 to count
      invariant buf.Valid() && buf.bitCount == 8 * n && buf.position == i && fresh(buf)
      invariant buf.bitset == BitsetOf(FromBE(b), 8 * n) && |bits| == i
      invariant forall j :: 0 <= j < i ==> bits[j] == UnpackBit(b[|b| - n..], j)
    {
      BitsetReads(b, n, i);
      var ok, x := buf.ReadBit();
      bits := bits + [x];
    }
  }

  // ---------------------------------------------------------------- both agree

  lemma {:induction false} ValueByte(bs: seq<bool>)
    requires |bs| >= 8
    ensures BitsetValue(bs) ==
            (if bs[0] then 1 else 0) + 2 * (if bs[1] then 1 else 0) + 4 * (if bs[2] then 1 else 0)
            + 8 * (if bs[3] then 1 else 0) + 16 * (if bs[4] then 1 else 0) + 32 * (if bs[5] then 1 else 0)
            + 64 * (if bs[6] then 1 else 0) + 128 * (if bs[7] then 1 else 0) + 256 * BitsetValue(bs[8..])
  {
    ValueNibble(bs);
    ValueNibble(bs[4..]);
    assert bs[4..][4..] == bs[8..];
  }

  lemma {:induction false} ValueNibble(bs: seq<bool>)
    requires |bs| >= 4
    ensures BitsetValue(bs) == (if bs[0] then 1 else 0) + 2 * (if bs[1] then 1 else 0) + 4 * (if bs[2] then 1 else 0)
                               + 8 * (if bs[3] then 1 else 0) + 16 * BitsetValue(bs[4..])
  {
    var b1 := bs[1..];
    var b2 := b1[1..];
    var b3 := b2[1..];
    assert b2 == bs[2..] && b3 == bs[3..] && b3[1..] == bs[4..];
    assert BitsetValue(b3) == (if bs[3] then 1 else 0) + 2 * BitsetValue(bs[4..]);
    assert BitsetValue(b2) == (if bs[2] then 1 else 0) + 2 * BitsetValue(b3);
    assert BitsetValue(b1) == (if bs[1] then 1 else 0) + 2 * BitsetValue(b2);
  }

  /** The integer of a C++ bit buffer is the big-endian reading of the Rust byte array. */
  lemma {:induction false} LayoutValue(bits: seq<bool>, n: nat)
    ensures BitsetValue(Layout(bits, n)) == FromBE(Pack(bits, n))
  {
    if n == 0 {
      assert Layout(bits, n) == [] && Pack(bits, n) == [];
    } else {
      hide *;
      LayoutValue(bits, n - 1);
      LayoutLastByte(bits, n);
      PackLastByte(bits, n);
    }
  }

  lemma {:induction false} PackLastByte(bits: seq<bool>, n: nat)
    requires n > 0
    ensures FromBE(Pack(bits, n)) == 256 * FromBE(Pack(bits, n - 1)) + FlagByte(bits, n - 1)
  {
    var p := Pack(bits, n);
    assert p[..n - 1] == Pack(bits, n - 1);
    hide Pack, FlagByte;
  }

  lemma {:induction false} LayoutLastByte(bits: seq<bool>, n: nat)
    requires n > 0
    ensures BitsetValue(Layout(bits, n)) == 256 * BitsetValue(Layout(bits, n - 1)) + FlagByte(bits, n - 1)
  {
    var bs := Layout(bits, n);
    assert bs[8..] == Layout(bits, n - 1);
    LowBits(bits, n);
    hide Layout, BitsetValue, Bit;
    ValueByte(bs);
    var j := n - 1;
    assert FlagByte(bits, j) ==
           (if bs[0] then 1 else 0) + 2 * (if bs[1] then 1 else 0) + 4 * (if bs[2] then 1 else 0)
           + 8 * (if bs[3] then 1 else 0) + 16 * (if bs[4] then 1 else 0) + 32 * (if bs[5] then 1 else 0)
           + 64 * (if bs[6] then 1 else 0) + 128 * (if bs[7] then 1 else 0);
  }

  lemma LowBits(bits: seq<bool>, n: nat)
    requires n > 0
    ensures forall k :: 0 <= k < 8 ==> Layout(bits, n)[k] == (Bit(bits, 8 * (n - 1) + 7 - k) == 1)
  {
  }

  lemma {:induction false} HalfMask(v: nat, k: nat)
    requires 0 < k < 8
    ensures v / 2 / Mask(k - 1) == v / Mask(k)
  {
    assert Mask(k) == 2 * Mask(k - 1);
    if k == 1 {} else if k == 2 {} else if k == 3 {} else if k == 4 {} else if k == 5 {} else if k == 6 {} else {}
  }

  lemma {:induction false} BitsetDrop(v: nat, n: nat, m: nat)
    requires m <= n && m <= 8
    ensures BitsetOf(v, n)[m..] == BitsetOf(v / Pow2(m), n - m)
    decreases m
  {
    if m > 0 {
      BitsetDrop(v / 2, n - 1, m - 1);
      assert BitsetOf(v, n)[m..] == BitsetOf(v / 2, n - 1)[m - 1..];
      HalfPow(v, m);
    }
  }

  lemma {:induction false} Pow2Table(m: nat)
    requires m <= 8
    ensures Pow2(m) == [1, 2, 4, 8, 16, 32, 64, 128, 256][m]
  {
    if m > 0 { Pow2Table(m - 1); }
  }

  lemma {:induction false} HalfPow(v: nat, m: nat)
    requires 0 < m <= 8
    ensures v / 2 / Pow2(m - 1) == v / Pow2(m)
  {
    Pow2Table(m - 1);
    Pow2Table(m);
    if m == 1 {} else if m == 2 {} else if m == 3 {} else if m == 4 {} else if m == 5 {} else if m == 6 {} else if m == 7 {} else {}
  }

  /** Bit `i` read from the C++ bit buffer is bit `i` of the packed bytes. */
  lemma {:induction false} BitsetReads(b: bytes, n: nat, i: nat)
    requires n <= |b| && i < 8 * n
    ensures BitsetOf(FromBE(b), 8 * n)[8 * n - 1 - i] == UnpackBit(b[|b| - n..], i)
    decreases n
  {
    hide *;
    if 8 * n - 1 - i < 8 {
      ReadsLastByte(b, n, i);
    } else {
      BitsetReads(b[..|b| - 1], n - 1, i);
      ReadsEarlierByte(b, n, i);
    }
  }

  lemma {:induction false} ReadsLastByte(b: bytes, n: nat, i: nat)
    requires n <= |b| && 8 * (n - 1) <= i < 8 * n
    ensures BitsetOf(FromBE(b), 8 * n)[8 * n - 1 - i] == UnpackBit(b[|b| - n..], i)
  {
    var v, c := FromBE(b[..|b| - 1]), b[|b| - 1];
    assert FromBE(b) == v * 256 + c;
    LastByteBits(v, c, n, 8 * n - 1 - i);
    hide FromBE, BitsetOf;
    assert i / 8 == n - 1 && 7 - i % 8 == 8 * n - 1 - i;
    assert b[|b| - n..][n - 1] == c;
  }

  /** All bits but the last eight are read from the bytes in front of the last one. */
  lemma {:induction false} ReadsEarlierByte(b: bytes, n: nat, i: nat)
    requires n <= |b| && i < 8 * (n - 1)
    ensures BitsetOf(FromBE(b), 8 * n)[8 * n - 1 - i] == BitsetOf(FromBE(b[..|b| - 1]), 8 * (n - 1))[8 * (n - 1) - 1 - i]
    ensures UnpackBit(b[|b| - n..], i) == UnpackBit(b[..|b| - 1][|b| - n..], i)
  {
    var v, c := FromBE(b[..|b| - 1]), b[|b| - 1];
    var w := v * 256 + c;
    assert FromBE(b) == w;
    hide FromBE;
    BitsetDrop(w, 8 * n, 8);
    Pow2Table(8);
    assert w / 256 == v;
    hide BitsetOf, Pow2;
    assert BitsetOf(w, 8 * n)[8 * n - 1 - i] == BitsetOf(w, 8 * n)[8..][8 * n - 1 - i - 8];
    assert b[..|b| - 1][|b| - n..][i / 8] == b[|b| - n..][i / 8];
  }

  lemma {:induction false} LastByteBits(v: nat, c: byte, n: nat, k: nat)
    requires k < 8 && n > 0
    ensures BitsetOf(v * 256 + c, 8 * n)[k] == TestBit(c, k)
  {
    Pow2Table(8);
    BitsAbove(v, c, 8, 8 * n, k);
  }

  /** Adding a multiple of `2^e` does not touch the bits below `e`. */
  lemma {:induction false} BitsAbove(v: nat, c: nat, e: nat, n: nat, k: nat)
    requires k < e <= 8 && k < n
    ensures BitsetOf(v * Pow2(e) + c, n)[k] == (c / Mask(k) % 2 == 1)
    decreases k
  {
    Halve(v, c, e);
    if k > 0 {
      BitsAbove(v, c / 2, e - 1, n - 1, k - 1);
      HalfMask(c, k);
    }
  }

  lemma {:induction false} Halve(v: nat, c: nat, e: nat)
    requires 0 < e <= 8
    ensures (v * Pow2(e) + c) / 2 == v * Pow2(e - 1) + c / 2
    ensures (v * Pow2(e) + c) % 2 == c % 2
  {
    var h := v * Pow2(e - 1);
    Pow2Table(e - 1);
    Pow2Table(e);
    assert v * Pow2(e) == 2 * h by {
      if e == 1 {} else if e == 2 {} else if e == 3 {} else if e == 4 {} else if e == 5 {} else if e == 6 {} else if e == 7 {} else {}
    }
    assert (2 * h + c) / 2 == h + c / 2;
  }
}
