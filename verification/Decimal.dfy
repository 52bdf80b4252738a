/** Decimal integers as Rust prints them and as `str::parse` reads them. */
module Decimal {
  import opened Bytes
  import opened Collections

  const PLUS: byte := 43
  const MINUS: byte := 45
  const ZERO: byte := 48

  predicate IsDigit(c: byte) { ZERO <= c <= ZERO + 9 }

  predicate AllDigits(s: bytes) {
    forall k | 0 <= k < |s| :: IsDigit(s[k])
  }

  function Digits(n: nat): (s: bytes)
    ensures s != [] && AllDigits(s)
  {
    if n < 10 then [ZERO + n] else Digits(n / 10) + [ZERO + n % 10]
  }

  function Print(n: int): (s: bytes) {
    if n < 0 then [MINUS] + Digits(-n) else Digits(n)
  }

  function DigitsValue(s: bytes): (n: nat)
    requires AllDigits(s)
  {
    if s == [] then 0 else 10 * DigitsValue(s[..|s| - 1]) + (s[|s| - 1] - ZERO)
  }

  /** The part after the sign; only signed types take a minus. */
  predicate Negative(s: bytes, signed: bool) {
    signed && s != [] && s[0] == MINUS
  }

  function Unsigned(s: bytes, signed: bool): (r: bytes) {
    if Negative(s, signed) || (s != [] && s[0] == PLUS) then s[1..] else s
  }

  /** `str::parse` for the integer type whose values lie between `lo` and `hi`; it is signed when `lo < 0`. */
  function Parse(s: bytes, lo: int, hi: int): (r: Option<int>)
    ensures r.Some? ==> lo <= r.value <= hi
  {
    var body := Unsigned(s, lo < 0);
    if body == [] || !AllDigits(body) then None
    else
      var n: int := if Negative(s, lo < 0) then -(DigitsValue(body) as int) else DigitsValue(body);
      if lo <= n <= hi then Some(n) else None
  }

  lemma {:induction false} ValueOfDigits(n: nat)
    ensures DigitsValue(Digits(n)) == n
  {
    if n >= 10 {
      var h := Digits(n / 10);
      ValueOfDigits(n / 10);
      assert (h + [ZERO + n % 10])[..|h|] == h;
    } else {
      assert [ZERO + n][..0] == [];
    }
  }

  /** Every integer of the type is read back from its printed form; any other is refused. */
  lemma {:induction false} ParsePrint(n: int, lo: int, hi: int)
    requires lo < 0 || n >= 0
    ensures Parse(Print(n), lo, hi) == if lo <= n <= hi then Some(n) else None
  {
    hide Digits, DigitsValue;
    if n < 0 {
      ParseNegative(Digits(-n), lo, hi);
      ValueOfDigits(-n);
    } else {
      ParsePlain(Digits(n), lo, hi);
      ValueOfDigits(n);
    }
  }

  lemma {:induction false} ParsePlain(s: bytes, lo: int, hi: int)
    requires s != [] && AllDigits(s)
    ensures Parse(s, lo, hi) == if lo <= DigitsValue(s) <= hi then Some(DigitsValue(s)) else None
  {
    hide DigitsValue;
    assert IsDigit(s[0]);
    assert Unsigned(s, lo < 0) == s;
  }

  lemma {:induction false} ParseNegative(s: bytes, lo: int, hi: int)
    requires s != [] && AllDigits(s) && lo < 0
    ensures Parse([MINUS] + s, lo, hi) == if lo <= -(DigitsValue(s) as int) <= hi then Some(-(DigitsValue(s) as int)) else None
  {
    hide DigitsValue;
    assert Unsigned([MINUS] + s, true) == s;
  }

  /** No sign but a needed minus, and no leading zero. */
  predicate Canonical(s: bytes, signed: bool) {
    if Negative(s, signed) then |s| > 1 && s[1] != ZERO
    else s != [] && s[0] != PLUS && (s[0] == ZERO ==> |s| == 1)
  }

  lemma {:induction false} DigitsOfValue(s: bytes)
    requires s != [] && AllDigits(s) && (s[0] == ZERO ==> |s| == 1)
    ensures Digits(DigitsValue(s)) == s && (s[0] != ZERO ==> DigitsValue(s) > 0)
  {
    var n := |s| - 1;
    if n == 0 {
      assert DigitsValue(s[..0]) == 0;
    } else {
      DigitsOfValue(s[..n]);
      assert s == s[..n] + [s[n]];
    }
  }

  /** What was read prints as it was written, except for a plus sign and leading zeros. */
  lemma {:induction false} PrintParse(s: bytes, lo: int, hi: int)
    requires Parse(s, lo, hi).Some?
    ensures Print(Parse(s, lo, hi).value) == s <==> Canonical(s, lo < 0)
  {
    if Canonical(s, lo < 0) {
      DigitsOfValue(Unsigned(s, lo < 0));
      if Negative(s, lo < 0) { assert s == [MINUS] + s[1..]; }
    } else {
      PrintIsCanonical(Parse(s, lo, hi).value, lo < 0);
    }
  }

  lemma {:induction false} NoLeadingZero(n: nat)
    ensures Digits(n)[0] == ZERO ==> n == 0
  {
    if n >= 10 { NoLeadingZero(n / 10); }
  }

  lemma {:induction false} PrintIsCanonical(n: int, signed: bool)
    requires signed || n >= 0
    ensures Canonical(Print(n), signed)
  {
    if n < 0 {
      NoLeadingZero(-n);
    } else {
      NoLeadingZero(n);
      assert IsDigit(Digits(n)[0]);
    }
  }

  /** Printed numbers are ASCII and hold no dot. */
  lemma PrintedCharacters(n: int)
    ensures forall k | 0 <= k < |Print(n)| :: Print(n)[k] == MINUS || IsDigit(Print(n)[k])
  {
  }
}
