/** The URL-safe alphabet of section 5 of RFC 4648, without padding. */
module Base64Url {
  import opened Bytes
  import opened Collections

  type sextet = v: int | 0 <= v < 64

  function Symbol(v: sextet): (c: byte) {
    if v < 26 then 65 + v
    else if v < 52 then 97 + (v - 26)
    else if v < 62 then 48 + (v - 52)
    else if v == 62 then 45
    else 95
  }

  function Upper(): (s: string) { "ABCDEFGHIJKLMNOPQRSTUVWXYZ" }
  function Lower(): (s: string) { "abcdefghijklmnopqrstuvwxyz" }
  function Others(): (s: string) { "0123456789-_" }

  /** The alphabet, symbol by symbol: table 2 of RFC 4648. */
  lemma {:induction false} AlphabetTable(v: sextet)
    ensures |Upper() + Lower() + Others()| == 64 && Symbol(v) == (Upper() + Lower() + Others())[v] as int
  {
    if v < 26 {
      Letters(v);
    } else if v < 52 {
      Letters(v - 26);
    } else {
      Digits(v - 52);
    }
  }

  lemma {:induction false} Letters(k: nat)
    requires k < 26
    ensures |Upper()| == |Lower()| == 26 && Upper()[k] as int == 65 + k && Lower()[k] as int == 97 + k
  {
    if k < 13 {
      assert k == 0 || k == 1 || k == 2 || k == 3 || k == 4 || k == 5 || k == 6 || k == 7 || k == 8 || k == 9 || k == 10 || k == 11 || k == 12;
    } else {
      assert k == 13 || k == 14 || k == 15 || k == 16 || k == 17 || k == 18 || k == 19 || k == 20 || k == 21 || k == 22 || k == 23 || k == 24 || k == 25;
    }
  }

  lemma {:induction false} Digits(k: nat)
    requires k < 12
    ensures |Others()| == 12 && Others()[k] as int == if k < 10 then 48 + k else if k == 10 then 45 else 95
  {
    assert k == 0 || k == 1 || k == 2 || k == 3 || k == 4 || k == 5 || k == 6 || k == 7 || k == 8 || k == 9 || k == 10 || k == 11;
  }

  predicate IsSymbol(c: byte) {
    65 <= c <= 90 || 97 <= c <= 122 || 48 <= c <= 57 || c == 45 || c == 95
  }

  function ValueOf(c: byte): (v: sextet)
    requires IsSymbol(c)
    ensures Symbol(v) == c
  {
    if 65 <= c <= 90 then c - 65
    else if 97 <= c <= 122 then c - 97 + 26
    else if 48 <= c <= 57 then c - 48 + 52
    else if c == 45 then 62
    else 63
  }

  lemma SymbolLaws(v: sextet)
    ensures IsSymbol(Symbol(v)) && ValueOf(Symbol(v)) == v && Symbol(v) != 46 && Symbol(v) <= 0x7F
  {
  }

  // ---------------------------------------------------------------- groups of sextets

  /** The sextets of `d`: three bytes give four, and the last one or two give two or three. */
  function Sextets(d: bytes): (s: seq<sextet>) {
    if d == [] then []
    else if |d| == 1 then [d[0] / 4, d[0] % 4 * 16]
    else if |d| == 2 then [d[0] / 4, d[0] % 4 * 16 + d[1] / 16, d[1] % 16 * 4]
    else Quad(d[0], d[1], d[2]) + Sextets(d[3..])
  }

  /** Bits left over at the end must be zero, and a single left-over sextet holds no byte. */
  function Assemble(s: seq<sextet>): (r: Option<bytes>) {
    if s == [] then Some([])
    else if |s| == 1 then None
    else if |s| == 2 then (if s[1] % 16 != 0 then None else Some([First(s)]))
    else if |s| == 3 then (if s[2] % 4 != 0 then None else Some([First(s), Second(s)]))
    else
      match Assemble(s[4..])
      case None => None
      case Some(d) => Some([First(s), Second(s), Third(s)] + d)
  }

  function First(s: seq<sextet>): (b: byte) requires |s| >= 2 { s[0] as int * 4 + s[1] / 16 }
  function Second(s: seq<sextet>): (b: byte) requires |s| >= 3 { s[1] as int % 16 * 16 + s[2] / 4 }
  function Third(s: seq<sextet>): (b: byte) requires |s| >= 4 { s[2] as int % 4 * 64 + s[3] }

  function Quad(x: byte, y: byte, z: byte): (s: seq<sextet>)
    ensures |s| == 4
  {
    [x / 4, x % 4 * 16 + y / 16, y % 16 * 4 + z / 64, z % 64]
  }

  lemma QuadInverse(x: byte, y: byte, z: byte)
    ensures var s := Quad(x, y, z); First(s) == x && Second(s) == y && Third(s) == z
  {
  }

  lemma TripleInverse(s: seq<sextet>)
    requires |s| >= 4
    ensures Quad(First(s), Second(s), Third(s)) == s[..4]
  {
  }

  lemma {:induction false} AssembleSextets(d: bytes)
    ensures Assemble(Sextets(d)) == Some(d)
  {
    if |d| >= 3 {
      AssembleSextets(d[3..]);
      var q := Quad(d[0], d[1], d[2]);
      QuadInverse(d[0], d[1], d[2]);
      assert Sextets(d) == q + Sextets(d[3..]) && (q + Sextets(d[3..]))[4..] == Sextets(d[3..]);
      assert d == [d[0], d[1], d[2]] + d[3..];
    } else if |d| == 2 {
      assert d == [d[0], d[1]];
    } else if |d| == 1 {
      assert d == [d[0]];
    }
  }

  lemma {:induction false} SextetsOfAssembled(s: seq<sextet>)
    requires Assemble(s).Some?
    ensures Sextets(Assemble(s).value) == s
  {
    if |s| < 4 {
      ShortAssembled(s);
    } else {
      SextetsOfAssembled(s[4..]);
      TripleInverse(s);
      var d, x, y, z := Assemble(s[4..]).value, First(s), Second(s), Third(s);
      assert Assemble(s).value == [x, y, z] + d;
      hide *;
      SextetsOfTriple(x, y, z, d);
      assert s == s[..4] + s[4..];
    }
  }

  lemma {:induction false} ShortAssembled(s: seq<sextet>)
    requires |s| < 4 && Assemble(s).Some?
    ensures Sextets(Assemble(s).value) == s
  {
    if |s| == 2 {
      LastOne(s[0], s[1]);
      assert s == [s[0], s[1]];
    } else if |s| == 3 {
      LastTwo(s[0], s[1], s[2]);
      assert s == [s[0], s[1], s[2]];
    }
  }

  lemma LastOne(x: sextet, y: sextet)
    requires y % 16 == 0
    ensures var b: int := x as int * 4 + y / 16; b / 4 == x && b % 4 * 16 == y
  {
  }

  lemma LastTwo(x: sextet, y: sextet, z: sextet)
    requires z % 4 == 0
    ensures
      var b: int, c: int := x as int * 4 + y / 16, y as int % 16 * 16 + z / 4;
      b / 4 == x && b % 4 * 16 + c / 16 == y && c % 16 * 4 == z
  {
  }

  lemma {:induction false} SextetsOfTriple(x: byte, y: byte, z: byte, d: bytes)
    ensures Sextets([x, y, z] + d) == Quad(x, y, z) + Sextets(d)
  {
    assert ([x, y, z] + d)[3..] == d;
    hide Quad;
  }

  // ---------------------------------------------------------------- the sextets as digits

  function Pow64(n: nat): (r: nat) {
    if n == 0 then 1 else 64 * Pow64(n - 1)
  }

  /** Sextets as the digits of a number, most significant first. */
  function Value64(s: seq<sextet>): (v: nat) {
    if s == [] then 0 else 64 * Value64(s[..|s| - 1]) + s[|s| - 1]
  }

  /** The zero bits behind the last byte: none, four or two of them. */
  function Padding(n: nat): (k: nat) {
    if n % 3 == 0 then 1 else if n % 3 == 1 then 16 else 4
  }

  lemma {:induction false} Value64Append(x: seq<sextet>, y: seq<sextet>)
    ensures Value64(x + y) == Value64(x) * Pow64(|y|) + Value64(y)
  {
    if y == [] {
      assert x + y == x;
    } else {
      var n := |y| - 1;
      Value64Append(x, y[..n]);
      assert (x + y)[..|x + y| - 1] == x + y[..n];
      ShiftIn(Value64(x), Pow64(n), Value64(y[..n]), 64);
    }
  }

  lemma {:induction false} FromBEAppend(x: bytes, y: bytes)
    ensures FromBE(x + y) == FromBE(x) * Pow256(|y|) + FromBE(y)
  {
    if y == [] {
      assert x + y == x;
    } else {
      var n := |y| - 1;
      FromBEAppend(x, y[..n]);
      assert (x + y)[..|x + y| - 1] == x + y[..n];
      ShiftIn(FromBE(x), Pow256(n), FromBE(y[..n]), 256);
      assert FromBE(x + y) == FromBE(x + y[..n]) * 256 + y[n];
      assert FromBE(y) == FromBE(y[..n]) * 256 + y[n];
      hide FromBE;
    }
  }

  lemma ShiftIn(a: nat, p: nat, b: nat, k: nat)
    ensures (a * p + b) * k == a * (k * p) + b * k && k * (a * p + b) == a * (k * p) + k * b
  {
  }

  lemma {:induction false} Value64Of(s: seq<sextet>)
    ensures |s| == 2 ==> Value64(s) == 64 * s[0] as int + s[1]
    ensures |s| == 3 ==> Value64(s) == 64 * (64 * s[0] as int + s[1]) + s[2]
    ensures |s| == 4 ==> Value64(s) == 64 * (64 * (64 * s[0] as int + s[1]) + s[2]) + s[3]
  {
    if 2 <= |s| <= 4 {
      assert Value64(s[..1]) == s[0] by { assert s[..1][..0] == []; }
      assert Value64(s[..2]) == 64 * s[0] as int + s[1] by { assert s[..2][..1] == s[..1]; }
      assert s[..|s|] == s;
      if |s| >= 3 { assert Value64(s[..3]) == 64 * Value64(s[..2]) + s[2] by { assert s[..3][..2] == s[..2]; } }
      if |s| == 4 { assert s[..4][..3] == s[..3]; }
    }
  }

  lemma {:induction false} FromBEOf(d: bytes)
    ensures |d| == 1 ==> FromBE(d) == d[0]
    ensures |d| == 2 ==> FromBE(d) == 256 * d[0] as int + d[1]
    ensures |d| == 3 ==> FromBE(d) == 256 * (256 * d[0] as int + d[1]) + d[2]
  {
    if 1 <= |d| <= 3 {
      assert FromBE(d[..1]) == d[0] by { assert d[..1][..0] == []; }
      assert d[..|d|] == d;
      if |d| >= 2 { assert FromBE(d[..2]) == 256 * d[0] as int + d[1] by { assert d[..2][..1] == d[..1]; } }
    }
  }

  lemma {:induction false} QuadValue(x: byte, y: byte, z: byte)
    ensures Value64(Quad(x, y, z)) == FromBE([x, y, z])
  {
    Value64Of(Quad(x, y, z));
    FromBEOf([x, y, z]);
  }

  /** Four sextets are as wide as three bytes. */
  lemma {:induction false} GroupWidth(m: nat, n: nat)
    requires Pow64(m) == Pow256(n) * Padding(n)
    ensures Pow64(m + 4) == Pow256(n + 3) * Padding(n + 3)
  {
    FourDigits(m);
    assert Pow256(n + 3) == 256 * Pow256(n + 2) && Pow256(n + 2) == 256 * Pow256(n + 1) && Pow256(n + 1) == 256 * Pow256(n);
    assert Padding(n) == Padding(n + 3);
    hide *;
  }

  lemma {:induction false} FourDigits(m: nat)
    ensures Pow64(m + 4) == 0x100_0000 * Pow64(m)
  {
    assert Pow64(m + 4) == 64 * Pow64(m + 3) && Pow64(m + 3) == 64 * Pow64(m + 2) && Pow64(m + 2) == 64 * Pow64(m + 1);
  }

  lemma {:induction false} SextetWidth(d: bytes)
    ensures Pow64(|Sextets(d)|) == Pow256(|d|) * Padding(|d|)
  {
    if |d| >= 3 {
      SextetWidth(d[3..]);
      var m, n := |Sextets(d[3..])|, |d| - 3;
      assert |Sextets(d)| == m + 4;
      hide *;
      GroupWidth(m, n);
    } else {
      assert Pow64(1) == 64 && Pow64(2) == 64 * 64 && Pow64(3) == 64 * 64 * 64;
      assert Pow256(1) == 256 && Pow256(2) == 256 * 256;
    }
  }

  /** The sextets are the digits, to the base 64, of the bytes read as one number and padded with zero bits. */
  lemma {:induction false} SextetsAreDigits(d: bytes)
    ensures Value64(Sextets(d)) == FromBE(d) * Padding(|d|)
  {
    if |d| >= 3 {
      hide *;
      var t, q, r := [d[0], d[1], d[2]], Quad(d[0], d[1], d[2]), d[3..];
      SextetsCut(d);
      SextetsAreDigits(r);
      SextetWidth(r);
      QuadValue(d[0], d[1], d[2]);
      Value64Append(q, Sextets(r));
      FromBEAppend(t, r);
      DigitsStep(Value64(q), Pow64(|Sextets(r)|), Value64(Sextets(r)), Pow256(|r|), FromBE(r), Padding(|r|));
    } else {
      ShortDigits(d);
    }
  }

  lemma {:induction false} ShortDigits(d: bytes)
    requires |d| < 3
    ensures Value64(Sextets(d)) == FromBE(d) * Padding(|d|)
  {
    Value64Of(Sextets(d));
    FromBEOf(d);
    if |d| == 2 {
      hide FromBE, Value64;
    }
  }

  lemma {:induction false} SextetsCut(d: bytes)
    requires |d| >= 3
    ensures Sextets(d) == Quad(d[0], d[1], d[2]) + Sextets(d[3..]) && d == [d[0], d[1], d[2]] + d[3..]
    ensures Padding(|d|) == Padding(|d[3..]|)
  {
    assert Sextets(d) == Quad(d[0], d[1], d[2]) + Sextets(d[3..]);
    SamePadding(|d|);
    hide *;
  }

  lemma SamePadding(n: nat)
    requires n >= 3
    ensures Padding(n) == Padding(n - 3)
  {
    assert n % 3 == (n - 3) % 3;
  }

  lemma DigitsStep(q: nat, p64: nat, v: nat, p256: nat, n: nat, k: nat)
    requires p64 == p256 * k && v == n * k
    ensures q * p64 + v == (q * p256 + n) * k
  {
  }

  // ---------------------------------------------------------------- text

  function Encode(d: bytes): (t: bytes) {
    var s := Sextets(d);
    seq(|s|, k requires 0 <= k < |s| => Symbol(s[k]))
  }

  predicate AllSymbols(t: bytes) {
    forall k | 0 <= k < |t| :: IsSymbol(t[k])
  }

  function Values(t: bytes): (s: seq<sextet>)
    requires AllSymbols(t)
    ensures |s| == |t|
  {
    seq(|t|, k requires 0 <= k < |t| => ValueOf(t[k]))
  }

  function Decode(t: bytes): (r: Option<bytes>) {
    if AllSymbols(t) then Assemble(Values(t)) else None
  }

  lemma {:induction false} EncodedSymbols(d: bytes)
    ensures AllSymbols(Encode(d)) && Values(Encode(d)) == Sextets(d)
    ensures forall k | 0 <= k < |Encode(d)| :: Encode(d)[k] != 46 && Encode(d)[k] <= 0x7F
  {
    hide Sextets;
    var s, t := Sextets(d), Encode(d);
    forall k | 0 <= k < |t|
      ensures IsSymbol(t[k]) && ValueOf(t[k]) == s[k] && t[k] != 46 && t[k] <= 0x7F
    {
      SymbolLaws(s[k]);
    }
  }

  /** Decoding accepts exactly the encodings, and undoes them: every text has at most one meaning. */
  lemma {:induction false} DecodeExactly(t: bytes, d: bytes)
    ensures Decode(t) == Some(d) <==> t == Encode(d)
  {
    if Decode(t) == Some(d) {
      SextetsOfAssembled(Values(t));
      assert Sextets(d) == Values(t);
      hide Sextets;
      assert forall k | 0 <= k < |t| :: Encode(d)[k] == t[k];
    }
    if t == Encode(d) {
      EncodedSymbols(d);
      AssembleSextets(d);
      hide Encode, Sextets, Assemble, Values;
    }
  }
}
