/**
 Well-formed UTF-8 (Table 3-7 of the Unicode Standard), which `str::from_utf8`
 demands of every decoded Rust string.
 */
module Utf8 {
  import opened Bytes

  predicate Tail(b: byte) { 0x80 <= b <= 0xBF }

  /** Length of the well-formed character that starts `b`, or 0 when there is none. */
  function CharLength(b: bytes): (n: nat)
    ensures n <= |b| && n <= 4
  {
    if b == [] then 0
    else if b[0] <= 0x7F then 1
    else if |b| >= 2 && 0xC2 <= b[0] <= 0xDF && Tail(b[1]) then 2
    else if |b| >= 3 && 0xE0 <= b[0] <= 0xEF && SecondOfThree(b[0], b[1]) && Tail(b[2]) then 3
    else if |b| >= 4 && 0xF0 <= b[0] <= 0xF4 && SecondOfFour(b[0], b[1]) && Tail(b[2]) && Tail(b[3]) then 4
    else 0
  }

  predicate SecondOfThree(lead: byte, b: byte) {
    Tail(b) && (lead == 0xE0 ==> b >= 0xA0) && (lead == 0xED ==> b <= 0x9F)
  }

  predicate SecondOfFour(lead: byte, b: byte) {
    Tail(b) && (lead == 0xF0 ==> b >= 0x90) && (lead == 0xF4 ==> b <= 0x8F)
  }

  predicate ValidUtf8(b: bytes)
    decreases |b|
  {
    b == [] || (CharLength(b) > 0 && ValidUtf8(b[CharLength(b)..]))
  }

  lemma {:induction false} CharLengthAppend(x: bytes, y: bytes)
    requires CharLength(x) > 0
    ensures CharLength(x + y) == CharLength(x)
  {
    assert forall k :: 0 <= k < |x| ==> (x + y)[k] == x[k];
  }

  lemma {:induction false} ValidAppend(x: bytes, y: bytes)
    requires ValidUtf8(x) && ValidUtf8(y)
    ensures ValidUtf8(x + y)
    decreases |x|
  {
    if x == [] {
      assert x + y == y;
    } else {
      var n := CharLength(x);
      CharLengthAppend(x, y);
      hide CharLength;
      assert (x + y)[n..] == x[n..] + y;
      ValidAppend(x[n..], y);
    }
  }

  lemma {:induction false} AsciiIsValid(x: bytes)
    requires forall k :: 0 <= k < |x| ==> x[k] <= 0x7F
    ensures ValidUtf8(x)
    decreases |x|
  {
    if x != [] { AsciiIsValid(x[1..]); }
  }

  // ---------------------------------------------------------------- what is well-formed

  /** A Unicode scalar value: any code point but the surrogates. */
  predicate Scalar(c: int) {
    0 <= c < 0xD800 || 0xE000 <= c < 0x11_0000
  }

  /** Its bits, six to a byte behind the first. */
  function EncodeScalar(c: int): (b: bytes)
    requires Scalar(c)
    ensures 1 <= |b| <= 4
  {
    if c < 0x80 then [c]
    else if c < 0x800 then [0xC0 + c / 64, 0x80 + c % 64]
    else if c < 0x1_0000 then [0xE0 + c / 64 / 64, 0x80 + c / 64 % 64, 0x80 + c % 64]
    else [0xF0 + c / 64 / 64 / 64, 0x80 + c / 64 / 64 % 64, 0x80 + c / 64 % 64, 0x80 + c % 64]
  }

  function EncodeText(cs: seq<int>): (b: bytes)
    requires forall c | c in cs :: Scalar(c)
  {
    if cs == [] then [] else EncodeScalar(cs[0]) + EncodeText(cs[1..])
  }

  lemma {:induction false} ScalarLength(c: int)
    requires Scalar(c)
    ensures CharLength(EncodeScalar(c)) == |EncodeScalar(c)|
  {
    if 0x800 <= c < 0x1_0000 {
      ThreeBounds(c);
    } else if c >= 0x1_0000 {
      FourBounds(c);
    }
  }

  lemma ThreeBounds(c: int)
    requires 0x800 <= c < 0xD800 || 0xE000 <= c < 0x1_0000
    ensures
      var lead, second := c / 64 / 64, c / 64 % 64;
      lead < 16 && (lead == 0 ==> second >= 0x20) && (lead == 13 ==> second < 0x20)
  {
  }

  lemma FourBounds(c: int)
    requires 0x1_0000 <= c < 0x11_0000
    ensures
      var lead, second := c / 64 / 64 / 64, c / 64 / 64 % 64;
      lead <= 4 && (lead == 0 ==> second >= 0x10) && (lead == 4 ==> second < 0x10)
  {
  }

  lemma {:induction false} TextIsValid(cs: seq<int>)
    requires forall c | c in cs :: Scalar(c)
    ensures ValidUtf8(EncodeText(cs))
  {
    if cs != [] {
      TextIsValid(cs[1..]);
      ScalarLength(cs[0]);
      CharLengthAppend(EncodeScalar(cs[0]), EncodeText(cs[1..]));
      hide EncodeScalar, CharLength;
      var x, y := EncodeScalar(cs[0]), EncodeText(cs[1..]);
      assert (x + y)[|x|..] == y;
    }
  }

  /** Six more bits, from a byte behind the first. */
  function Shift(x: int, b: byte): (r: int) {
    x * 64 + (b as int - 0x80)
  }

  /** The scalar value of the character that starts `b`. */
  function FirstScalar(b: bytes): (c: int)
    requires CharLength(b) > 0
  {
    match CharLength(b)
    case 1 => b[0] as int
    case 2 => Shift(b[0] as int - 0xC0, b[1])
    case 3 => Shift(Shift(b[0] as int - 0xE0, b[1]), b[2])
    case _ => Shift(Shift(Shift(b[0] as int - 0xF0, b[1]), b[2]), b[3])
  }

  lemma {:induction false} FirstIsScalar(b: bytes)
    requires CharLength(b) > 0
    ensures Scalar(FirstScalar(b)) && EncodeScalar(FirstScalar(b)) == b[..CharLength(b)]
  {
    var n := CharLength(b);
    if n == 2 {
      ShiftBack(b[0] as int - 0xC0, b[1]);
    } else if n == 3 {
      ThreeBack(b);
    } else if n == 4 {
      FourBack(b);
    }
  }

  lemma {:induction false} ThreeBack(b: bytes)
    requires CharLength(b) == 3
    ensures Scalar(FirstScalar(b)) && EncodeScalar(FirstScalar(b)) == b[..3]
  {
    var x := Shift(b[0] as int - 0xE0, b[1]);
    ShiftBack(b[0] as int - 0xE0, b[1]);
    ShiftBack(x, b[2]);
  }

  lemma {:induction false} FourBack(b: bytes)
    requires CharLength(b) == 4
    ensures Scalar(FirstScalar(b)) && EncodeScalar(FirstScalar(b)) == b[..4]
  {
    var x := Shift(b[0] as int - 0xF0, b[1]);
    var y := Shift(x, b[2]);
    ShiftBack(b[0] as int - 0xF0, b[1]);
    ShiftBack(x, b[2]);
    ShiftBack(y, b[3]);
  }

  lemma ShiftBack(x: int, b: byte)
    requires Tail(b)
    ensures Shift(x, b) / 64 == x && 0x80 + Shift(x, b) % 64 == b
  {
  }

  lemma {:induction false} TextFront(c: int, cs: seq<int>)
    requires Scalar(c) && forall x | x in cs :: Scalar(x)
    ensures (forall x | x in [c] + cs :: Scalar(x)) && EncodeText([c] + cs) == EncodeScalar(c) + EncodeText(cs)
  {
    hide Scalar, EncodeScalar;
    assert ([c] + cs)[1..] == cs;
  }

  lemma {:induction false} ValidIsText(b: bytes) returns (cs: seq<int>)
    requires ValidUtf8(b)
    ensures (forall c | c in cs :: Scalar(c)) && EncodeText(cs) == b
    decreases |b|
  {
    if b == [] {
      cs := [];
    } else {
      hide *;
      ValidFront(b);
      FirstIsScalar(b);
      var n := CharLength(b);
      var rest := ValidIsText(b[n..]);
      cs := [FirstScalar(b)] + rest;
      TextFront(FirstScalar(b), rest);
      CutAt(b, n);
    }
  }

  lemma ValidFront(b: bytes)
    requires ValidUtf8(b) && b != []
    ensures 0 < CharLength(b) <= |b| && ValidUtf8(b[CharLength(b)..])
  {
    hide CharLength;
  }

  lemma CutAt(b: bytes, n: nat)
    requires n <= |b|
    ensures b == b[..n] + b[n..]
  {
  }

  /** Bytes are well-formed exactly if they are the encoding of some scalar values. */
  lemma {:induction false} WellFormedExactly(b: bytes)
    ensures ValidUtf8(b) <==> exists cs: seq<int> :: (forall c | c in cs :: Scalar(c)) && EncodeText(cs) == b
  {
    hide ValidUtf8, EncodeText;
    if ValidUtf8(b) {
      var cs := ValidIsText(b);
    }
    if cs: seq<int> :| (forall c | c in cs :: Scalar(c)) && EncodeText(cs) == b {
      TextIsValid(cs);
    }
  }
}
