/**
 Session tokens: signed claims, printed, joined with dots and written in URL-safe Base64.
 The message authentication code is any function of the claims; times are nanoseconds.
 */
module SessionTokens {
  import opened Bytes
  import opened Utf8
  import opened Collections
  import opened Decimal
  import Base64Url

  const DOT: byte := 46
  const I32_MIN: int := -0x8000_0000
  const I32_MAX: int := 0x7FFF_FFFF
  const U64_MAX: int := 0xFFFF_FFFF_FFFF_FFFF
  const I64_MAX: int := 0x7FFF_FFFF_FFFF_FFFF
  const NANOS := 1_000_000_000

  type i32 = n: int | I32_MIN <= n <= I32_MAX

  datatype Issuer = Issuer(mac: bytes -> bytes, period: nat)

  /** `ClockOverflow` is the panic when a claimed time does not fit the system clock. */
  datatype Failure = Missing | Malformed | Impersonation | Expired | InvalidSignature | ClockOverflow

  datatype Outcome = Valid(name: bytes) | Rejected(failure: Failure)

  datatype Claims = Claims(account: int, user: int, name: bytes, time: nat)

  // ---------------------------------------------------------------- splitting at dots

  predicate NoDot(s: bytes) {
    forall k | 0 <= k < |s| :: s[k] != DOT
  }

  function FirstDot(s: bytes): (k: nat)
    ensures k <= |s| && NoDot(s[..k]) && (k < |s| ==> s[k] == DOT)
  {
    if s == [] || s[0] == DOT then 0
    else
      var k := FirstDot(s[1..]);
      assert s[..k + 1] == [s[0]] + s[1..][..k];
      k + 1
  }

  function Split(s: bytes): (ps: seq<bytes>)
    ensures |ps| >= 1 && forall k | 0 <= k < |ps| :: NoDot(ps[k])
    decreases |s|
  {
    var k := FirstDot(s);
    if k == |s| then
      assert s[..k] == s;
      [s]
    else [s[..k]] + Split(s[k + 1..])
  }

  lemma {:induction false} DotAfter(x: bytes, y: bytes)
    requires NoDot(x)
    ensures FirstDot(x + [DOT] + y) == |x|
    ensures (x + [DOT] + y)[..|x|] == x && (x + [DOT] + y)[|x| + 1..] == y
  {
    if x != [] {
      DotAfter(x[1..], y);
      assert (x + [DOT] + y)[1..] == x[1..] + [DOT] + y;
    }
  }

  lemma {:induction false} SplitField(x: bytes, y: bytes)
    requires NoDot(x)
    ensures Split(x + [DOT] + y) == [x] + Split(y)
  {
    DotAfter(x, y);
  }

  lemma SplitLast(x: bytes)
    requires NoDot(x)
    ensures Split(x) == [x]
  {
  }

  // ---------------------------------------------------------------- claims

  function WriteClaims(c: Claims): (d: bytes) {
    Print(c.account) + [DOT] + (Print(c.user) + [DOT] + (c.name + [DOT] + Digits(c.time)))
  }

  /** Fields after the fourth are ignored. */
  function ReadClaims(d: bytes): (r: Option<Claims>)
    ensures r.Some? ==> NoDot(r.value.name)
  {
    var ps := Split(d);
    if |ps| < 4 then None
    else
      var account, user, time := Parse(ps[0], I32_MIN, I32_MAX), Parse(ps[1], I32_MIN, I32_MAX), Parse(ps[3], 0, U64_MAX);
      if account.None? || user.None? || time.None? then None
      else Some(Claims(account.value, user.value, ps[2], time.value))
  }

  predicate Writable(c: Claims) {
    I32_MIN <= c.account <= I32_MAX && I32_MIN <= c.user <= I32_MAX && c.time <= U64_MAX
  }

  lemma {:induction false} PrintNoDot(n: int)
    ensures NoDot(Print(n)) && ValidUtf8(Print(n))
  {
    PrintedCharacters(n);
    AsciiIsValid(Print(n));
  }

  lemma {:induction false} SplitClaims(c: Claims, rest: bytes)
    requires NoDot(c.name)
    ensures Split(Print(c.account) + [DOT] + (Print(c.user) + [DOT] + (c.name + [DOT] + rest)))
         == [Print(c.account), Print(c.user), c.name] + Split(rest)
  {
    hide Split, Print;
    PrintNoDot(c.account);
    PrintNoDot(c.user);
    var y := c.name + [DOT] + rest;
    SplitField(c.name, rest);
    SplitField(Print(c.user), y);
    SplitField(Print(c.account), Print(c.user) + [DOT] + y);
    assert [Print(c.account)] + ([Print(c.user)] + ([c.name] + Split(rest))) == [Print(c.account), Print(c.user), c.name] + Split(rest);
  }

  /** Whatever follows the printed time after a dot, the four fields are read back. */
  lemma {:induction false} FieldsReadBack(c: Claims, rest: bytes)
    requires Writable(c) && NoDot(c.name) && Split(rest)[0] == Digits(c.time)
    ensures ReadClaims(Print(c.account) + [DOT] + (Print(c.user) + [DOT] + (c.name + [DOT] + rest))) == Some(c)
  {
    hide Split, Print, Parse, Digits;
    SplitClaims(c, rest);
    ParsePrint(c.account, I32_MIN, I32_MAX);
    ParsePrint(c.user, I32_MIN, I32_MAX);
    PrintNat(c.time);
    ParsePrint(c.time, 0, U64_MAX);
  }

  lemma PrintNat(n: nat)
    ensures Print(n) == Digits(n)
  {
  }

  lemma {:induction false} ClaimsReadBack(c: Claims)
    requires Writable(c) && NoDot(c.name)
    ensures ReadClaims(WriteClaims(c)) == Some(c)
  {
    hide Split, ReadClaims, Digits, Print;
    PrintNat(c.time);
    PrintNoDot(c.time);
    SplitLast(Digits(c.time));
    FieldsReadBack(c, Digits(c.time));
  }

  lemma {:induction false} ClaimsAreText(c: Claims)
    requires ValidUtf8(c.name)
    ensures ValidUtf8(WriteClaims(c))
  {
    hide ValidUtf8, Print, Digits;
    PrintNoDot(c.account);
    PrintNoDot(c.user);
    PrintNoDot(c.time);
    PrintNat(c.time);
    AsciiIsValid([DOT]);
    ValidAppend(c.name, [DOT]);
    ValidAppend(c.name + [DOT], Digits(c.time));
    ValidAppend(Print(c.user), [DOT]);
    ValidAppend(Print(c.user) + [DOT], c.name + [DOT] + Digits(c.time));
    ValidAppend(Print(c.account), [DOT]);
    ValidAppend(Print(c.account) + [DOT], Print(c.user) + [DOT] + (c.name + [DOT] + Digits(c.time)));
  }

  // ---------------------------------------------------------------- tokens

  function Sealed(i: Issuer, d: bytes): (token: bytes) {
    Base64Url.Encode(d) + [DOT] + Base64Url.Encode(i.mac(d))
  }

  function Generate(i: Issuer, account: i32, user: i32, name: bytes, now: nat): (token: bytes) {
    Sealed(i, WriteClaims(Claims(account, user, name, now / NANOS)))
  }

  /** What the claims alone decide, before the signature is looked at. */
  function Judge(i: Issuer, account: i32, user: i32, c: Claims, now: nat): (r: Option<Failure>) {
    if c.account != account || c.user != user then Some(Impersonation)
    else if c.time > I64_MAX then Some(ClockOverflow)
    else if now < c.time * NANOS then Some(Malformed)
    else if now - c.time * NANOS > i.period then Some(Expired)
    else None
  }

  function CheckSignature(i: Issuer, d: bytes, signature: bytes, name: bytes): (r: Outcome) {
    match Base64Url.Decode(signature)
    case None => Rejected(Malformed)
    case Some(sig) => if sig == i.mac(d) then Valid(name) else Rejected(InvalidSignature)
  }

  function CheckClaims(i: Issuer, account: i32, user: i32, d: bytes, signature: bytes, now: nat): (r: Outcome) {
    if !ValidUtf8(d) then Rejected(Malformed)
    else
      match ReadClaims(d)
      case None => Rejected(Malformed)
      case Some(c) =>
        match Judge(i, account, user, c, now)
        case Some(f) => Rejected(f)
        case None => CheckSignature(i, d, signature, c.name)
  }

  function Validate(i: Issuer, account: i32, user: i32, token: bytes, now: nat): (r: Outcome) {
    if token == [] then Rejected(Missing)
    else
      var k := FirstDot(token);
      if k == |token| then Rejected(Malformed)
      else
        match Base64Url.Decode(token[..k])
        case None => Rejected(Malformed)
        case Some(d) => CheckClaims(i, account, user, d, token[k + 1..], now)
  }

  // ---------------------------------------------------------------- theorems

  lemma {:induction false} ValidateSealed(i: Issuer, account: i32, user: i32, d: bytes, now: nat)
    ensures Validate(i, account, user, Sealed(i, d), now)
         == CheckClaims(i, account, user, d, Base64Url.Encode(i.mac(d)), now)
  {
    hide FirstDot, Base64Url.Encode, Base64Url.Decode, CheckClaims;
    Base64Url.EncodedSymbols(d);
    Base64Url.DecodeExactly(Base64Url.Encode(d), d);
    DotAfter(Base64Url.Encode(d), Base64Url.Encode(i.mac(d)));
  }

  lemma {:induction false} SignatureOfSealed(i: Issuer, d: bytes, name: bytes)
    ensures CheckSignature(i, d, Base64Url.Encode(i.mac(d)), name) == Valid(name)
  {
    Base64Url.DecodeExactly(Base64Url.Encode(i.mac(d)), i.mac(d));
  }

  /** Readable text claims under the issuer's seal come out as the claims alone decide. */
  lemma {:induction false} OutcomeOfSealed(i: Issuer, account: i32, user: i32, d: bytes, c: Claims, now: nat)
    requires ValidUtf8(d) && ReadClaims(d) == Some(c)
    ensures Validate(i, account, user, Sealed(i, d), now)
         == match Judge(i, account, user, c, now) case Some(f) => Rejected(f) case None => Valid(c.name)
  {
    hide Validate, Sealed, ReadClaims, ValidUtf8, Judge, CheckSignature, Base64Url.Encode;
    ValidateSealed(i, account, user, d, now);
    SignatureOfSealed(i, d, c.name);
  }

  /** The fate of every generated token: the name, or the first check that fails. */
  lemma {:induction false} OutcomeOfGenerated(i: Issuer, account: i32, user: i32, name: bytes, issued: nat, asAccount: i32, asUser: i32, now: nat)
    requires NoDot(name) && ValidUtf8(name) && issued / NANOS <= I64_MAX
    ensures
      var start := issued / NANOS * NANOS;
      Validate(i, asAccount, asUser, Generate(i, account, user, name, issued), now) ==
      if asAccount != account || asUser != user then Rejected(Impersonation)
      else if now < start then Rejected(Malformed)
      else if now - start > i.period then Rejected(Expired)
      else Valid(name)
  {
    hide Validate, Sealed, ReadClaims, WriteClaims, ValidUtf8, NoDot;
    var c := Claims(account, user, name, issued / NANOS);
    ClaimsReadBack(c);
    ClaimsAreText(c);
    OutcomeOfSealed(i, asAccount, asUser, WriteClaims(c), c, now);
  }

  /** A returned name never has a dot in it. */
  lemma {:induction false} NamesHaveNoDot(i: Issuer, account: i32, user: i32, token: bytes, now: nat)
    requires Validate(i, account, user, token, now).Valid?
    ensures NoDot(Validate(i, account, user, token, now).name)
  {
    hide NoDot, FirstDot, ReadClaims;
  }

  /**
   A token gives back its name to the same ids exactly while it is neither early nor expired,
   and exactly for names without a dot.
   */
  lemma {:induction false} TokenRoundTrip(i: Issuer, account: i32, user: i32, name: bytes, issued: nat, asAccount: i32, asUser: i32, now: nat)
    requires ValidUtf8(name) && issued / NANOS <= I64_MAX
    ensures
      var start := issued / NANOS * NANOS;
      Validate(i, asAccount, asUser, Generate(i, account, user, name, issued), now) == Valid(name) <==>
      NoDot(name) && asAccount == account && asUser == user && start <= now <= start + i.period
  {
    hide Validate, NoDot, Generate, ValidUtf8;
    if NoDot(name) {
      OutcomeOfGenerated(i, account, user, name, issued, asAccount, asUser, now);
    } else if Validate(i, asAccount, asUser, Generate(i, account, user, name, issued), now).Valid? {
      NamesHaveNoDot(i, asAccount, asUser, Generate(i, account, user, name, issued), now);
    }
  }

  /** In particular: from the moment it is issued until the period, counted from the started second, is over. */
  lemma {:induction false} LaterWithinPeriod(i: Issuer, account: i32, user: i32, name: bytes, issued: nat, now: nat)
    requires NoDot(name) && ValidUtf8(name) && issued / NANOS <= I64_MAX
    requires issued <= now && now + NANOS <= issued + i.period
    ensures Validate(i, account, user, Generate(i, account, user, name, issued), now) == Valid(name)
  {
    hide Validate, NoDot, Generate, ValidUtf8;
    TokenRoundTrip(i, account, user, name, issued, account, user, now);
  }

  /** A dotted name is cut at its dot, and a number behind the dot is taken for the time of issue. */
  lemma {:induction false} DottedName(i: Issuer, account: i32, user: i32, name: bytes, time: nat, issued: nat, now: nat)
    requires NoDot(name) && ValidUtf8(name) && time <= I64_MAX && time * NANOS <= now <= time * NANOS + i.period
    ensures Validate(i, account, user, Generate(i, account, user, name + [DOT] + Digits(time), issued), now) == Valid(name)
  {
    hide Validate, Sealed, ReadClaims, NoDot, ValidUtf8, Digits, Print, Split;
    var c := Claims(account, user, name, time);
    var whole := Claims(account, user, name + [DOT] + Digits(time), issued / NANOS);
    var rest := Digits(time) + [DOT] + Digits(whole.time);
    PrintNat(time);
    PrintNoDot(time);
    SplitField(Digits(time), Digits(whole.time));
    FieldsReadBack(c, rest);
    AsciiIsValid([DOT]);
    ValidAppend(name, [DOT]);
    ValidAppend(name + [DOT], Digits(time));
    ClaimsAreText(whole);
    assert WriteClaims(whole) == Print(account) + [DOT] + (Print(user) + [DOT] + (name + [DOT] + rest)) by {
      assert whole.name + [DOT] + Digits(whole.time) == name + [DOT] + rest;
    }
    OutcomeOfSealed(i, account, user, WriteClaims(whole), c, now);
  }

  /** `token` is the seal of readable claims `d` in force at `now` for these ids and this name. */
  predicate Genuine(i: Issuer, account: i32, user: i32, token: bytes, now: nat, name: bytes, d: bytes) {
    && ValidUtf8(d) && ReadClaims(d).Some?
    && ReadClaims(d).value.name == name && Judge(i, account, user, ReadClaims(d).value, now).None?
    && token == Sealed(i, d)
  }

  /** Nothing is accepted but seals of claims in force, and all of those are. */
  lemma {:induction false} ValidExactly(i: Issuer, account: i32, user: i32, token: bytes, now: nat, name: bytes)
    ensures Validate(i, account, user, token, now) == Valid(name) <==>
            exists d: bytes :: Genuine(i, account, user, token, now, name, d)
  {
    hide FirstDot, ReadClaims, ValidUtf8, Judge, Sealed, Base64Url.Decode, Base64Url.Encode;
    if Validate(i, account, user, token, now) == Valid(name) {
      var k := FirstDot(token);
      var d := Base64Url.Decode(token[..k]).value;
      SealOf(i, token, d);
      assert Genuine(i, account, user, token, now, name, d);
    }
    hide Validate;
    if d: bytes :| Genuine(i, account, user, token, now, name, d) {
      OutcomeOfSealed(i, account, user, d, ReadClaims(d).value, now);
    }
  }

  lemma {:induction false} SealOf(i: Issuer, token: bytes, d: bytes)
    requires FirstDot(token) < |token|
    requires Base64Url.Decode(token[..FirstDot(token)]) == Some(d)
    requires Base64Url.Decode(token[FirstDot(token) + 1..]) == Some(i.mac(d))
    ensures token == Sealed(i, d)
  {
    hide FirstDot, Base64Url.Decode, Base64Url.Encode;
    var k := FirstDot(token);
    Base64Url.DecodeExactly(token[..k], d);
    Base64Url.DecodeExactly(token[k + 1..], i.mac(d));
    assert token == token[..k] + [DOT] + token[k + 1..];
  }
}
