/**
 The three Adler-32 loops against the definition in section 2.2 of RFC 1950. The machine's
 32-bit unsigned arithmetic is a type of its own, so that a sum that left it would not verify.
 */
module Adler32 {
  import opened Bytes

  newtype u32 = x: int | 0 <= x < 0x1_0000_0000

  const MOD: u32 := 65521

  // ---------------------------------------------------------------- the definition

  function Sum(d: bytes): (s: nat) {
    if d == [] then 0 else d[0] + Sum(d[1..])
  }

  /** The sum of `(n - i) * d[i]`. */
  function WeightedSum(d: bytes): (s: nat) {
    if d == [] then 0 else |d| * d[0] + WeightedSum(d[1..])
  }

  function Low(d: bytes): (a: nat)
    ensures a < 65521
  {
    (1 + Sum(d)) % 65521
  }

  function High(d: bytes): (b: nat)
    ensures b < 65521
  {
    (|d| + WeightedSum(d)) % 65521
  }

  function Checksum(d: bytes): (r: nat) {
    High(d) * 65536 + Low(d)
  }

  lemma {:induction false} SumAppend(d: bytes, c: byte)
    ensures Sum(d + [c]) == Sum(d) + c
  {
    if d == [] {
      assert [] + [c] == [c] && [c][1..] == [];
    } else {
      SumAppend(d[1..], c);
      assert (d + [c])[1..] == d[1..] + [c];
    }
  }

  lemma {:induction false} WeightedAppend(d: bytes, c: byte)
    ensures WeightedSum(d + [c]) == WeightedSum(d) + Sum(d) + c
  {
    if d == [] {
      assert [] + [c] == [c] && [c][1..] == [];
    } else {
      WeightedAppend(d[1..], c);
      assert (d + [c])[1..] == d[1..] + [c] && (d + [c])[0] == d[0];
      assert (|d| + 1) * d[0] == |d| * d[0] + d[0];
    }
  }

  /** One more byte changes the two halves as one turn of the loop does. */
  lemma {:induction false} HalvesAppend(d: bytes, c: byte)
    ensures Low(d + [c]) == (Low(d) + c) % 65521
    ensures High(d + [c]) == (High(d) + Low(d + [c])) % 65521
  {
    SumAppend(d, c);
    WeightedAppend(d, c);
    hide Sum, WeightedSum;
    ModAdd(1 + Sum(d), c);
    ModAddBoth(|d| + WeightedSum(d), 1 + Sum(d) + c);
  }

  lemma {:induction false} ModAddBoth(x: nat, y: nat)
    ensures (x % 65521 + y % 65521) % 65521 == (x + y) % 65521
  {
    ModAdd(x, y % 65521);
    ModAdd(y, x);
  }

  lemma ModAdd(x: nat, y: nat)
    ensures (x % 65521 + y) % 65521 == (x + y) % 65521
  {
  }

  // ---------------------------------------------------------------- putting the halves together

  /** Bitwise or. */
  function Or(x: nat, y: nat): (r: nat)
    decreases x + y
  {
    if x == 0 && y == 0 then 0
    else (if x % 2 == 1 || y % 2 == 1 then 1 else 0) + 2 * Or(x / 2, y / 2)
  }

  lemma {:induction false} OrNothing(x: nat)
    ensures Or(x, 0) == x
  {
    if x > 0 { OrNothing(x / 2); }
  }

  lemma {:induction false} OrDisjoint(hi: nat, lo: nat, k: nat)
    requires lo < Pow2(k)
    ensures Or(hi * Pow2(k), lo) == hi * Pow2(k) + lo
  {
    if k == 0 {
      OrNothing(hi);
    } else {
      var x := hi * Pow2(k - 1);
      assert hi * Pow2(k) == 2 * x;
      OrDisjoint(hi, lo / 2, k - 1);
      assert 2 * x % 2 == 0 && 2 * x / 2 == x;
    }
  }

  lemma {:induction false} SixteenBits()
    ensures Pow2(16) == 65536
  {
    assert Pow2(4) == 16 by { assert Pow2(2) == 4; }
    assert Pow2(8) == 256 by { assert Pow2(6) == 64; }
    assert Pow2(12) == 4096 by { assert Pow2(10) == 1024; }
    assert Pow2(14) == 16384;
  }

  /** `(b << 16) | a`, the shift dropping what leaves the 32 bits. */
  function Combine(a: u32, b: u32): (r: nat) {
    Or(b as nat * 65536 % 0x1_0000_0000, a as nat)
  }

  lemma {:induction false} CombineHalves(a: u32, b: u32)
    requires a < MOD && b < MOD
    ensures Combine(a, b) == b as nat * 65536 + a as nat < 0x1_0000_0000
  {
    SixteenBits();
    OrDisjoint(b as nat, a as nat, 16);
  }

  // ---------------------------------------------------------------- the loops

  /** The run-time loop in C++. */
  method Adler32(data: bytes) returns (r: nat)
    ensures r == Checksum(data)
  {
    var a: u32, b: u32 := 1, 0;
    for i := 0 to |data|
      invariant a as nat == Low(data[..i]) && b as nat == High(data[..i])
    {
      HalvesAppend(data[..i], data[i]);
      assert data[..i + 1] == data[..i] + [data[i]];
      a := (a + data[i] as u32) % MOD;
      b := (b + a) % MOD;
    }
    assert data[..|data|] == data;
    CombineHalves(a, b);
    r := Combine(a, b);
  }

  /** The compile-time loop in Rust. */
  method Adler32Const(data: bytes) returns (r: nat)
    ensures r == Checksum(data)
  {
    var a: u32, b: u32 := 1, 0;
    var i := 0;
    while i < |data|
      invariant 0 <= i <= |data|
      invariant a as nat == Low(data[..i]) && b as nat == High(data[..i])
    {
      var c := data[i];
      HalvesAppend(data[..i], c);
      assert data[..i + 1] == data[..i] + [c];
      a := (a + c as u32) % MOD;
      b := (b + a) % MOD;
      i := i + 1;
    }
    assert data[..|data|] == data;
    CombineHalves(a, b);
    r := Combine(a, b);
  }

  // ---------------------------------------------------------------- the literal version

  type schar = c: int | -128 <= c < 128

  /** A byte as the signed `char` of a string literal. */
  function AsChar(x: byte): (c: schar) {
    if x < 128 then x else x - 256
  }

  /** `a + data[i]`: the negative `char` is converted to 32 unsigned bits first. */
  function PlusChar(a: u32, c: schar): (r: u32) {
    ((a as int + c) % 0x1_0000_0000) as u32
  }

  datatype Halves = Halves(a: u32, b: u32)

  function LiteralHalves(d: bytes): (h: Halves)
    ensures h.a < MOD && h.b < MOD
  {
    if d == [] then Halves(1, 0)
    else
      var h := LiteralHalves(d[..|d| - 1]);
      var a := PlusChar(h.a, AsChar(d[|d| - 1])) % MOD;
      Halves(a, (h.b + a) % MOD)
  }

  /** The compile-time loop in C++ over the characters before the terminator. */
  method Adler32Literal(data: bytes) returns (r: nat)
    ensures r == Combine(LiteralHalves(data).a, LiteralHalves(data).b)
  {
    var a: u32, b: u32 := 1, 0;
    for i := 0 to |data|
      invariant Halves(a, b) == LiteralHalves(data[..i])
    {
      assert data[..i + 1][..i] == data[..i];
      a := PlusChar(a, AsChar(data[i])) % MOD;
      b := (b + a) % MOD;
    }
    assert data[..|data|] == data;
    r := Combine(a, b);
  }

  predicate Ascii(d: bytes) {
    forall i | 0 <= i < |d| :: d[i] < 128
  }

  predicate HalvesAgree(d: bytes) {
    LiteralHalves(d).a as nat == Low(d) && LiteralHalves(d).b as nat == High(d)
  }

  lemma RightStep(a: u32, c: byte)
    requires c < 128 && a < MOD
    ensures PlusChar(a, AsChar(c)) == a + c as u32
  {
  }

  lemma {:induction false} LiteralOnAscii(d: bytes)
    requires Ascii(d)
    ensures HalvesAgree(d)
  {
    if d != [] {
      var n := |d| - 1;
      LiteralOnAscii(d[..n]);
      HalvesAppend(d[..n], d[n]);
      assert d == d[..n] + [d[n]];
      RightStep(LiteralHalves(d[..n]).a, d[n]);
      hide Low, High, PlusChar;
    }
  }

  /** The first character outside ASCII always spoils the low half: by 256, or by 31 where the sum wraps. */
  lemma {:induction false} LiteralOffAscii(d: bytes, c: byte)
    requires HalvesAgree(d) && c >= 128
    ensures !HalvesAgree(d + [c])
  {
    HalvesAppend(d, c);
    assert (d + [c])[..|d|] == d;
    WrongStep(LiteralHalves(d).a, c);
  }

  lemma {:induction false} WrongStep(a: u32, c: byte)
    requires c >= 128 && a < MOD
    ensures (PlusChar(a, AsChar(c)) % MOD) as nat != (a as nat + c) % 65521
  {
    var s := a as int + c - 256;
    if s >= 0 {
      assert PlusChar(a, AsChar(c)) as int == s;
    } else {
      assert PlusChar(a, AsChar(c)) as int == s + 0x1_0000_0000;
    }
  }

  /** The literal version follows the definition along a whole string exactly when the string is ASCII. */
  lemma {:induction false} LiteralExactlyAscii(d: bytes)
    ensures (forall k | 0 <= k <= |d| :: HalvesAgree(d[..k])) <==> Ascii(d)
  {
    hide HalvesAgree;
    if Ascii(d) {
      forall k | 0 <= k <= |d|
        ensures HalvesAgree(d[..k])
      {
        LiteralOnAscii(d[..k]);
      }
    } else if forall k | 0 <= k <= |d| :: HalvesAgree(d[..k]) {
      var k :| 0 <= k < |d| && d[k] >= 128;
      assert HalvesAgree(d[..k]) && HalvesAgree(d[..k + 1]);
      assert d[..k + 1] == d[..k] + [d[k]];
      LiteralOffAscii(d[..k], d[k]);
    }
  }

  lemma {:induction false} CombineExact(d: bytes)
    ensures Combine(LiteralHalves(d).a, LiteralHalves(d).b) == Checksum(d) <==> HalvesAgree(d)
  {
    hide LiteralHalves, Low, High;
    var h := LiteralHalves(d);
    CombineHalves(h.a, h.b);
  }

  /** On ASCII the three versions return the same number. */
  lemma {:induction false} LiteralChecksum(d: bytes)
    requires Ascii(d)
    ensures Combine(LiteralHalves(d).a, LiteralHalves(d).b) == Checksum(d)
  {
    LiteralOnAscii(d);
    CombineExact(d);
  }

  /** They do not on a string whose last character, and no other, is outside ASCII. */
  lemma {:induction false} LiteralDiffers(d: bytes, c: byte)
    requires Ascii(d) && c >= 128
    ensures Combine(LiteralHalves(d + [c]).a, LiteralHalves(d + [c]).b) != Checksum(d + [c])
  {
    hide HalvesAgree;
    LiteralOnAscii(d);
    LiteralOffAscii(d, c);
    CombineExact(d + [c]);
  }
}
