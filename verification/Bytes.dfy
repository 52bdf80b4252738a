/**
 Bytes, fixed-width big-endian integers and two's complement, as the Rust
 `to_be_bytes` family and the C++ byteswapping writers produce them.
 */
module Bytes {

  type byte = x: int | 0 <= x < 256
  type bytes = seq<byte>

  function Pow256(w: nat): (r: nat)
    ensures r >= 1
    ensures w >= 1 ==> r % 256 == 0 && r >= 256
  {
    if w == 0 then 1 else 256 * Pow256(w - 1)
  }

  function Pow2(k: nat): (p: nat)
    ensures p > 0
  {
    if k == 0 then 1 else 2 * Pow2(k - 1)
  }

  /** The low `w` bytes of `n`, most significant first; higher digits are cut off. */
  function BE(n: nat, w: nat): (r: bytes)
    ensures |r| == w
  {
    if w == 0 then [] else BE(n / 256, w - 1) + [n % 256]
  }

  function FromBE(b: bytes): (n: nat)
    ensures n < Pow256(|b|)
  {
    if b == [] then 0 else FromBE(b[..|b| - 1]) * 256 + b[|b| - 1]
  }

  lemma {:induction false} FromBEOfBE(n: nat, w: nat)
    requires n < Pow256(w)
    ensures FromBE(BE(n, w)) == n
  {
    if w > 0 {
      FromBEOfBE(n / 256, w - 1);
      assert BE(n, w)[..w - 1] == BE(n / 256, w - 1);
    }
  }

  lemma {:induction false} BEOfFromBE(b: bytes)
    ensures BE(FromBE(b), |b|) == b
  {
    if b != [] {
      var n := |b| - 1;
      var h, c := b[..n], b[n];
      BEOfFromBE(h);
      var x := FromBE(h);
      assert FromBE(b) == x * 256 + c;
      assert (x * 256 + c) / 256 == x && (x * 256 + c) % 256 == c;
      assert BE(FromBE(b), n + 1) == BE(x, n) + [c] == h + [c];
      assert b == h + [c];
    }
  }

  /** What a 16-bit length prefix keeps of a count. */
  lemma {:induction false} LengthPrefix(n: nat)
    ensures FromBE(BE(n, 2)) == n % 65536
  {
    var hi, lo := n / 256 % 256, n % 256;
    TwoBytes(n);
    ReadTwoBytes(hi, lo);
    hide BE, FromBE;
    assert n % 65536 == hi * 256 + lo;
  }

  lemma {:induction false} TwoBytes(n: nat)
    ensures BE(n, 2) == [n / 256 % 256, n % 256]
  {
    assert BE(n / 256, 1) == BE(n / 256 / 256, 0) + [n / 256 % 256];
    assert BE(n, 2) == BE(n / 256, 1) + [n % 256];
  }

  lemma {:induction false} ReadTwoBytes(hi: byte, lo: byte)
    ensures FromBE([hi, lo]) == hi * 256 + lo
  {
    assert [hi, lo][..1] == [hi] && [hi][..0] == [];
    assert FromBE([hi]) == FromBE([]) * 256 + hi == hi;
  }

  lemma {:induction false} Pow256Of2()
    ensures Pow256(2) == 65536
  {
    assert Pow256(1) == 256 * Pow256(0);
  }

  /** Two's complement: the unsigned image of a signed `w`-byte integer, and back. */
  function ToUnsigned(n: int, w: nat): (u: int)
  {
    if n < 0 then n + Pow256(w) else n
  }

  function ToSigned(u: nat, w: nat): (n: int)
  {
    if 2 * u >= Pow256(w) then u - Pow256(w) else u
  }

  predicate InSignedRange(n: int, w: nat) {
    -(Pow256(w) as int) <= 2 * n < Pow256(w)
  }

  /** The bytes that follow a written slice are where the slice ends. */
  predicate At(b: bytes, p: nat, e: bytes) {
    p + |e| <= |b| && b[p..p + |e|] == e
  }

  lemma {:induction false} AtSplit(b: bytes, p: nat, x: bytes, y: bytes)
    requires At(b, p, x + y)
    ensures At(b, p, x) && At(b, p + |x|, y)
  {
    assert b[p..p + |x|] == (x + y)[..|x|] == x;
    assert b[p + |x|..p + |x| + |y|] == (x + y)[|x|..] == y;
  }

  /** `b` with the bytes from `p` on replaced by `e`, growing when `e` reaches past the end. */
  function Splice(b: bytes, p: nat, e: bytes): (r: bytes)
    requires p <= |b|
    ensures At(r, p, e)
    ensures |r| == if p + |e| > |b| then p + |e| else |b|
    ensures r[..p] == b[..p]
    ensures p + |e| <= |b| ==> r[p + |e|..] == b[p + |e|..]
  {
    if p + |e| > |b| then b[..p] + e else b[..p] + e + b[p + |e|..]
  }

  lemma SpliceNothing(b: bytes, p: nat)
    requires p <= |b|
    ensures Splice(b, p, []) == b
  {
  }

  lemma SpliceSplice(b: bytes, p: nat, x: bytes, y: bytes)
    requires p <= |b|
    ensures Splice(Splice(b, p, x), p + |x|, y) == Splice(b, p, x + y)
  {
  }
}
