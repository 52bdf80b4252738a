/**
 Laws of the wire format, for every schema: round trips (with the exact condition
 under which they hold), decoding of arbitrary bytes, and re-encoding.
 */
module WireLaws {
  import opened Bytes
  import opened Flags
  import opened Utf8
  import opened Wire

  // ---------------------------------------------------------------- maps

  lemma {:induction false} MapOfSound(vs: seq<Value>)
    requires forall k :: 0 <= k < |vs| ==> vs[k].VPair?
    ensures |MapOf(vs)| <= |vs|
    ensures forall x | x in MapOf(vs) :: VPair(x, MapOf(vs)[x]) in vs
  {
    if vs != [] {
      var n := |vs| - 1;
      MapOfSound(vs[..n]);
      var m := MapOf(vs[..n]);
      var e := vs[n];
      assert MapOf(vs) == m[e.left := e.right];
      assert MapOf(vs).Keys == m.Keys + {e.left};
      assert VPair(e.left, e.right) == e;
    }
  }

  lemma {:induction false} MapOfDistinct(vs: seq<Value>)
    requires DistinctKeys(vs)
    ensures |MapOf(vs)| == |vs|
    ensures forall k :: 0 <= k < |vs| ==> vs[k].left in MapOf(vs) && MapOf(vs)[vs[k].left] == vs[k].right
  {
    if vs != [] {
      var n := |vs| - 1;
      var h, e := vs[..n], vs[n];
      FreshKey(vs);
      assert DistinctKeys(h);
      MapOfDistinct(h);
      var m := MapOf(h);
      assert MapOf(vs) == m[e.left := e.right];
      hide MapOf, DistinctKeys;
      assert MapOf(vs).Keys == m.Keys + {e.left};
      forall k | 0 <= k < n
        ensures vs[k].left in MapOf(vs) && MapOf(vs)[vs[k].left] == vs[k].right
      {
        assert vs[k] == h[k];
      }
    }
  }

  lemma {:induction false} FreshKey(vs: seq<Value>)
    requires DistinctKeys(vs) && vs != []
    ensures vs[|vs| - 1].left !in MapOf(vs[..|vs| - 1])
  {
    var n := |vs| - 1;
    MapOfSound(vs[..n]);
    hide MapOf;
    assert forall x | x in MapOf(vs[..n]) :: x != vs[n].left;
  }

  // ---------------------------------------------------------------- round trip

  lemma FlagRoom(d: Dialect, size: nat, count: nat)
    requires FlagsFit(d, size, count)
    ensures 0 <= FlagSkip(d, size, count) <= FlagWidth(d, size, count)
    ensures count <= 8 * (FlagWidth(d, size, count) - FlagSkip(d, size, count))
  {
  }

  lemma {:induction false} UnpackPadded(bits: seq<bool>, k: nat, n: nat)
    requires |bits| <= 8 * n
    ensures Unpack((Zeros(k) + Pack(bits, n))[k..], |bits|) == bits
  {
    UnpackPack(bits, n);
    hide Pack, Unpack;
    assert (Zeros(k) + Pack(bits, n))[k..] == Pack(bits, n);
  }

  lemma {:induction false} FlagsShape(d: Dialect, size: nat, bits: seq<bool>)
    requires FlagsFit(d, size, |bits|)
    ensures
      var k, w := FlagSkip(d, size, |bits|), FlagWidth(d, size, |bits|);
      0 <= k <= w && EncodeFlags(d, size, bits) == Zeros(k) + Pack(bits, w - k)
  {
    FlagRoom(d, size, |bits|);
    hide Pack, FlagSkip, FlagWidth, FlagsFit, Zeros;
  }

  lemma {:induction false} FlagsInverse(d: Dialect, size: nat, bits: seq<bool>)
    requires FlagsFit(d, size, |bits|)
    ensures DecodeFlags(d, size, |bits|, EncodeFlags(d, size, bits)) == bits
  {
    hide Pack, Unpack, FlagSkip, FlagWidth, FlagsFit, Zeros, EncodeFlags;
    var k, w := FlagSkip(d, size, |bits|), FlagWidth(d, size, |bits|);
    FlagRoom(d, size, |bits|);
    FlagsShape(d, size, bits);
    UnpackPadded(bits, k, w - k);
  }

  lemma DecodeFlagsIs(d: Dialect, size: nat, count: nat, b: bytes, p: nat)
    requires p <= |b| && FlagsFit(d, size, count)
    ensures Decode(d, SFlags(size, count), b, p) == DecodeFlagField(d, size, count, b, p)
  {
  }

  lemma {:induction false} FlagsRoundTrip(d: Dialect, size: nat, bits: seq<bool>, b: bytes, p: nat)
    requires FlagsFit(d, size, |bits|) && At(b, p, EncodeFlags(d, size, bits))
    ensures Decode(d, SFlags(size, |bits|), b, p) == Ok(VFlags(bits), p + |EncodeFlags(d, size, bits)|)
  {
    hide EncodeFlags, DecodeFlags, FlagWidth, FlagSkip, Decode;
    FlagsInverse(d, size, bits);
    DecodeFlagsIs(d, size, |bits|, b, p);
  }

  lemma SignedRoundTrip(n: int, w: nat)
    requires w >= 1 && InSignedRange(n, w)
    ensures 0 <= ToUnsigned(n, w) < Pow256(w) && ToSigned(ToUnsigned(n, w), w) == n
  {
  }

  lemma {:induction false} IntRoundTrip(n: int, w: nat, signed: bool, b: bytes, p: nat)
    requires w >= 1 && IntOf(n, w, signed) && At(b, p, BE(if signed then ToUnsigned(n, w) else n, w))
    ensures ReadUInt(b, p, w).Ok? && ReadUInt(b, p, w).pos == p + w
    ensures n == if signed then ToSigned(ReadUInt(b, p, w).value, w) else ReadUInt(b, p, w).value
  {
    if signed { SignedRoundTrip(n, w); }
    FromBEOfBE(if signed then ToUnsigned(n, w) else n, w);
  }

  lemma {:induction false} UIntRoundTrip(n: nat, w: nat, b: bytes, p: nat)
    requires n < Pow256(w) && At(b, p, BE(n, w))
    ensures ReadUInt(b, p, w) == Ok(n, p + w)
  {
    FromBEOfBE(n, w);
  }

  lemma {:induction false} CountRoundTrip(n: nat, b: bytes, p: nat)
    requires n <= MAX_COUNT && At(b, p, BE(n, 2))
    ensures ReadUInt(b, p, 2) == Ok(n, p + 2)
  {
    LengthPrefix(n);
  }

  lemma {:induction false} TagRoundTrip(n: byte, b: bytes, p: nat)
    requires At(b, p, [n])
    ensures ReadUInt(b, p, 1) == Ok(n, p + 1)
  {
    assert b[p..p + 1] == [n];
    assert FromBE([n]) == FromBE([n][..0]) * 256 + n == n;
  }

  /** What decoding a pair of fields is, one field at a time. */
  lemma DecodePair(d: Dialect, x: Schema, y: Schema, b: bytes, p: nat)
    requires p <= |b| && WellFormed(d, x) && WellFormed(d, y)
    ensures WellFormed(d, SPair(x, y))
    ensures Decode(d, SPair(x, y), b, p) == match Decode(d, x, b, p)
                                            case Err(e, q) => Err(e, q)
                                            case Ok(v, q) => PairOf(v, Decode(d, y, b, q))
  {
  }

  lemma {:induction false} DecodeStep(d: Dialect, s: Schema, n: nat, b: bytes, p: nat)
    requires p <= |b| && WellFormed(d, s) && n > 0
    ensures DecodeN(d, s, n, b, p) == match Decode(d, s, b, p)
                                      case Err(e, q) => Err(e, q)
                                      case Ok(v, q) =>
                                        match DecodeN(d, s, n - 1, b, q)
                                        case Err(e, t) => Err(e, t)
                                        case Ok(vs, t) => Ok([v] + vs, t)
  {
    hide Decode, WellFormed;
  }

  /** Decoding where an encoding stands returns the encoded value and stops right behind it. */
  lemma {:induction false} RoundTripAt(d: Dialect, s: Schema, i: Item, b: bytes, p: nat)
    requires WellFormed(d, s) && Typed(d, s, i) && Fits(s, Meaning(i))
    requires At(b, p, Encode(d, s, i))
    ensures Decode(d, s, b, p) == Ok(Meaning(i), p + |Encode(d, s, i)|)
    decreases s, 2, 0
  {
    if s.SPair? {
      hide At, Encode, Decode, Typed, Fits, Meaning;
      RoundTripPair(d, s.left, s.right, i, b, p);
    } else if s.SOption? || s.SEither? {
      hide At, Encode, Decode, Typed, Fits, Meaning;
      RoundTripTagged(d, s, i, b, p);
    } else if s.SArray? || s.SVec? || s.SMap? {
      hide At, Encode, Decode, Fits, Meaning;
      RoundTripList(d, s, i, b, p);
    } else if s.SStatic? {
      hide At;
      RoundTripAt(d, s.body, i, b, p);
    } else {
      hide At, Encode, Decode, Typed, Fits, Meaning;
      RoundTripLeaf(d, s, i, b, p);
    }
  }

  lemma {:induction false} RoundTripLeaf(d: Dialect, s: Schema, i: Item, b: bytes, p: nat)
    requires Leaf(s)
    requires WellFormed(d, s) && Typed(d, s, i) && Fits(s, Meaning(i))
    requires At(b, p, Encode(d, s, i))
    ensures Decode(d, s, b, p) == Ok(Meaning(i), p + |Encode(d, s, i)|)
  {
    hide At, ReadUInt, ValidUtf8, BE, FromBE, Pow256, EncodeFlags, DecodeFlags, FlagWidth, IsFinite;
    match s
    case SBool => TagRoundTrip(if i.b then 1 else 0, b, p);
    case SUInt(w) => UIntRoundTrip(i.n, w, b, p);
    case SInt(w) => IntRoundTrip(i.n, w, true, b, p);
    case SFinite(w) => UIntRoundTrip(i.n, w, b, p);
    case SString => RoundTripString(d, i.text, b, p);
    case SUnit =>
    case SEnum(w, signed, vs) => IntRoundTrip(i.n, w, signed, b, p);
    case SFlags(size, count) => FlagsRoundTrip(d, size, i.bits, b, p);
  }

  lemma {:induction false} RoundTripTagged(d: Dialect, s: Schema, i: Item, b: bytes, p: nat)
    requires s.SOption? || s.SEither?
    requires WellFormed(d, s) && Typed(d, s, i) && Fits(s, Meaning(i))
    requires At(b, p, Encode(d, s, i))
    ensures Decode(d, s, b, p) == Ok(Meaning(i), p + |Encode(d, s, i)|)
    decreases s, 1, 0
  {
    if s.SOption? {
      RoundTripOption(d, s.inner, i, b, p);
    } else {
      RoundTripEither(d, s.first, s.second, i, b, p);
    }
  }

  lemma {:induction false} RoundTripList(d: Dialect, s: Schema, i: Item, b: bytes, p: nat)
    requires s.SArray? || s.SVec? || s.SMap?
    requires WellFormed(d, s) && Typed(d, s, i) && Fits(s, Meaning(i))
    requires At(b, p, Encode(d, s, i))
    ensures Decode(d, s, b, p) == Ok(Meaning(i), p + |Encode(d, s, i)|)
    decreases s, 1, 0
  {
    hide At, EncodeAll, DecodeN, MapOf;
    match s
    case SArray(t, _) =>
      FitsEach(t, i.items);
      RoundTripAll(d, t, i.items, b, p);
    case SVec(t) => RoundTripVec(d, t, i.items, b, p);
    case SMap(e) => RoundTripMap(d, e, i.entries, b, p);
  }

  lemma {:induction false} StringAt(text: bytes, b: bytes, p: nat)
    requires |text| <= MAX_COUNT && At(b, p, BE(|text|, 2) + text)
    ensures ReadUInt(b, p, 2) == Ok(|text|, p + 2)
    ensures p + 2 + |text| <= |b| && b[p + 2..p + 2 + |text|] == text
  {
    AtSplit(b, p, BE(|text|, 2), text);
    CountRoundTrip(|text|, b, p);
    hide ReadUInt, BE;
  }

  lemma {:induction false} RoundTripText(d: Dialect, text: bytes, b: bytes, p: nat)
    requires |text| <= MAX_COUNT && (d.Rust? ==> ValidUtf8(text))
    requires At(b, p, BE(|text|, 2) + text)
    ensures DecodeText(d, b, p) == Ok(VText(text), p + 2 + |text|)
  {
    hide ReadUInt, ValidUtf8, BE, At;
    StringAt(text, b, p);
    var q := p + 2;
    assert b[q..q + |text|] == text;
  }

  lemma {:induction false} RoundTripString(d: Dialect, text: bytes, b: bytes, p: nat)
    requires |text| <= MAX_COUNT && (d.Rust? ==> ValidUtf8(text))
    requires At(b, p, BE(|text|, 2) + text)
    ensures Decode(d, SString, b, p) == Ok(VText(text), p + 2 + |text|)
  {
    hide DecodeText, BE, ValidUtf8;
    RoundTripText(d, text, b, p);
  }

  lemma {:induction false} RoundTripOption(d: Dialect, t: Schema, i: Item, b: bytes, p: nat)
    requires WellFormed(d, t) && Typed(d, SOption(t), i) && Fits(SOption(t), Meaning(i))
    requires At(b, p, Encode(d, SOption(t), i))
    ensures Decode(d, SOption(t), b, p) == Ok(Meaning(i), p + |Encode(d, SOption(t), i)|)
    decreases t, 4, 0
  {
    hide At, ReadUInt, ValidUtf8, BE, FromBE, Pow256, Pack, Unpack, EncodeFlags;
    if i.ISome? {
      AtSplit(b, p, [1], Encode(d, t, i.item));
      TagRoundTrip(1, b, p);
      RoundTripAt(d, t, i.item, b, p + 1);
    } else {
      TagRoundTrip(0, b, p);
    }
  }

  lemma {:induction false} RoundTripEither(d: Dialect, t: Schema, y: Schema, i: Item, b: bytes, p: nat)
    requires WellFormed(d, t) && WellFormed(d, y)
    requires Typed(d, SEither(t, y), i) && Fits(SEither(t, y), Meaning(i))
    requires At(b, p, Encode(d, SEither(t, y), i))
    ensures Decode(d, SEither(t, y), b, p) == Ok(Meaning(i), p + |Encode(d, SEither(t, y), i)|)
    decreases SEither(t, y), 0, 0
  {
    hide *;
    EitherCases(d, t, y, i);
    if i.IFirst? {
      FirstParts(d, t, y, i.item);
      TaggedAt(1, Encode(d, t, i.item), b, p);
      RoundTripAt(d, t, i.item, b, p + 1);
      DecodeFirst(d, t, y, 1, b, p);
    } else {
      SecondParts(d, t, y, i.item);
      TaggedAt(0, Encode(d, y, i.item), b, p);
      RoundTripAt(d, y, i.item, b, p + 1);
      DecodeSecond(d, t, y, b, p);
    }
  }

  lemma {:induction false} TaggedAt(n: byte, e: bytes, b: bytes, p: nat)
    requires At(b, p, [n] + e)
    ensures p < |b| && At(b, p + 1, e) && ReadUInt(b, p, 1) == Ok(n, p + 1) && |[n] + e| == 1 + |e|
  {
    assert p < |b|;
    hide ReadUInt, At;
    AtSplit(b, p, [n], e);
    TagRoundTrip(n, b, p);
  }

  lemma {:induction false} EitherCases(d: Dialect, t: Schema, y: Schema, i: Item)
    requires Typed(d, SEither(t, y), i)
    ensures i == IFirst(i.item) || i == ISecond(i.item)
  {
  }

  lemma {:induction false} FirstParts(d: Dialect, t: Schema, y: Schema, x: Item)
    ensures Typed(d, SEither(t, y), IFirst(x)) <==> Typed(d, t, x)
    ensures Typed(d, t, x) ==> Encode(d, SEither(t, y), IFirst(x)) == [1] + Encode(d, t, x)
    ensures Meaning(IFirst(x)) == VFirst(Meaning(x))
    ensures Fits(SEither(t, y), Meaning(IFirst(x))) <==> Fits(t, Meaning(x))
  {
  }

  lemma {:induction false} SecondParts(d: Dialect, t: Schema, y: Schema, x: Item)
    ensures Typed(d, SEither(t, y), ISecond(x)) <==> Typed(d, y, x)
    ensures Typed(d, y, x) ==> Encode(d, SEither(t, y), ISecond(x)) == [0] + Encode(d, y, x)
    ensures Meaning(ISecond(x)) == VSecond(Meaning(x))
    ensures Fits(SEither(t, y), Meaning(ISecond(x))) <==> Fits(y, Meaning(x))
  {
  }

  lemma {:induction false} DecodeEither(d: Dialect, t: Schema, y: Schema, b: bytes, p: nat)
    requires p <= |b| && WellFormed(d, t) && WellFormed(d, y)
    ensures WellFormed(d, SEither(t, y))
    ensures
      var n, r := ReadUInt(b, p, 1), Decode(d, SEither(t, y), b, p);
      && (n.Err? ==> r == Err(n.error, n.pos))
      && (n.Ok? && n.value != 0 ==> r == FirstOf(Decode(d, t, b, n.pos)))
      && (n.Ok? && n.value == 0 ==> r == SecondOf(Decode(d, y, b, n.pos)))
  {
    hide ReadUInt;
  }

  lemma {:induction false} DecodeFirst(d: Dialect, t: Schema, y: Schema, n: nat, b: bytes, p: nat)
    requires p < |b| && WellFormed(d, t) && WellFormed(d, y) && ReadUInt(b, p, 1) == Ok(n, p + 1) && n != 0
    ensures WellFormed(d, SEither(t, y)) && Decode(d, SEither(t, y), b, p) == FirstOf(Decode(d, t, b, p + 1))
    ensures Decode(d, t, b, p + 1).Ok? ==>
              Decode(d, SEither(t, y), b, p) == Ok(VFirst(Decode(d, t, b, p + 1).value), Decode(d, t, b, p + 1).pos)
  {
    hide ReadUInt, Decode, WellFormed;
    DecodeEither(d, t, y, b, p);
  }

  lemma {:induction false} DecodeSecond(d: Dialect, t: Schema, y: Schema, b: bytes, p: nat)
    requires p < |b| && WellFormed(d, t) && WellFormed(d, y) && ReadUInt(b, p, 1) == Ok(0, p + 1)
    ensures WellFormed(d, SEither(t, y)) && Decode(d, SEither(t, y), b, p) == SecondOf(Decode(d, y, b, p + 1))
    ensures Decode(d, y, b, p + 1).Ok? ==>
              Decode(d, SEither(t, y), b, p) == Ok(VSecond(Decode(d, y, b, p + 1).value), Decode(d, y, b, p + 1).pos)
  {
    hide ReadUInt, Decode, WellFormed;
    DecodeEither(d, t, y, b, p);
  }

  lemma {:induction false} RoundTripVec(d: Dialect, t: Schema, items: seq<Item>, b: bytes, p: nat)
    requires WellFormed(d, t) && Typed(d, SVec(t), IList(items)) && Fits(SVec(t), Meaning(IList(items)))
    requires At(b, p, Encode(d, SVec(t), IList(items)))
    ensures Decode(d, SVec(t), b, p) == Ok(Meaning(IList(items)), p + |Encode(d, SVec(t), IList(items))|)
    decreases t, 4, 0
  {
    hide At, ReadUInt, BE, Decode, DecodeN, EncodeAll, Meanings, WellFormed, Typed, Fits, Encode, Meaning;
    VecParts(d, t, items);
    AtSplit(b, p, BE(|items|, 2), EncodeAll(d, t, items));
    CountRoundTrip(|items|, b, p);
    FitsEach(t, items);
    RoundTripAll(d, t, items, b, p + 2);
    DecodeVec(d, t, b, p);
  }

  lemma {:induction false} VecParts(d: Dialect, t: Schema, items: seq<Item>)
    requires Typed(d, SVec(t), IList(items))
    ensures forall x | x in items :: Typed(d, t, x)
    ensures Encode(d, SVec(t), IList(items)) == BE(|items|, 2) + EncodeAll(d, t, items)
    ensures Meaning(IList(items)) == VList(Meanings(items))
    ensures Fits(SVec(t), Meaning(IList(items))) <==> |items| <= MAX_COUNT && forall v | v in Meanings(items) :: Fits(t, v)
  {
    hide EncodeAll, Meanings, BE;
  }

  lemma {:induction false} DecodeVec(d: Dialect, t: Schema, b: bytes, p: nat)
    requires p <= |b| && WellFormed(d, t)
    ensures WellFormed(d, SVec(t))
    ensures
      var n, r := ReadUInt(b, p, 2), Decode(d, SVec(t), b, p);
      && (n.Err? ==> r == Err(n.error, n.pos))
      && (n.Ok? ==> r == ListOf(DecodeN(d, t, n.value, b, n.pos)))
  {
    hide DecodeN, ReadUInt;
  }

  lemma {:induction false} RoundTripMap(d: Dialect, e: Schema, entries: seq<Item>, b: bytes, p: nat)
    requires WellFormed(d, SMap(e)) && Typed(d, SMap(e), ITable(entries)) && Fits(SMap(e), Meaning(ITable(entries)))
    requires At(b, p, Encode(d, SMap(e), ITable(entries)))
    ensures Decode(d, SMap(e), b, p) == Ok(Meaning(ITable(entries)), p + |Encode(d, SMap(e), ITable(entries))|)
    decreases e, 4, 0
  {
    hide At, ReadUInt, BE, FromBE, MapOf, DecodeN, EncodeAll, DistinctKeys, Meanings;
    AtSplit(b, p, BE(|entries|, 2), EncodeAll(d, e, entries));
    MapOfDistinct(Meanings(entries));
    CountRoundTrip(|entries|, b, p);
    FitsEntries(e, entries);
    RoundTripAll(d, e, entries, b, p + 2);
  }

  lemma {:induction false} RoundTripPair(d: Dialect, x: Schema, y: Schema, i: Item, b: bytes, p: nat)
    requires WellFormed(d, x) && WellFormed(d, y)
    requires Typed(d, SPair(x, y), i) && Fits(SPair(x, y), Meaning(i))
    requires At(b, p, Encode(d, SPair(x, y), i))
    ensures Decode(d, SPair(x, y), b, p) == Ok(Meaning(i), p + |Encode(d, SPair(x, y), i)|)
    decreases SPair(x, y), 1, 0
  {
    hide At, Decode, Encode, Meaning, Typed, Fits, WellFormed;
    PairParts(d, x, y, i);
    var e := Encode(d, x, i.left);
    AtSplit(b, p, e, Encode(d, y, i.right));
    RoundTripAt(d, x, i.left, b, p);
    RoundTripAt(d, y, i.right, b, p + |e|);
    DecodePair(d, x, y, b, p);
  }

  lemma PairParts(d: Dialect, x: Schema, y: Schema, i: Item)
    requires Typed(d, SPair(x, y), i)
    ensures i.IPair? && Typed(d, x, i.left) && Typed(d, y, i.right)
    ensures Encode(d, SPair(x, y), i) == Encode(d, x, i.left) + Encode(d, y, i.right)
    ensures Meaning(i) == VPair(Meaning(i.left), Meaning(i.right))
    ensures Fits(SPair(x, y), Meaning(i)) <==> Fits(x, Meaning(i.left)) && Fits(y, Meaning(i.right))
  {
  }

  lemma {:induction false} FitsEach(s: Schema, items: seq<Item>)
    requires forall v | v in Meanings(items) :: Fits(s, v)
    ensures forall x | x in items :: Fits(s, Meaning(x))
  {
    forall x | x in items
      ensures Fits(s, Meaning(x))
    {
      var k :| 0 <= k < |items| && items[k] == x;
      assert Meanings(items)[k] == Meaning(x);
    }
  }

  lemma {:induction false} FitsEntries(e: Schema, entries: seq<Item>)
    requires DistinctKeys(Meanings(entries))
    requires forall k | k in MapOf(Meanings(entries)) :: Fits(e, VPair(k, MapOf(Meanings(entries))[k]))
    ensures forall x | x in entries :: Fits(e, Meaning(x))
  {
    var vs := Meanings(entries);
    MapOfDistinct(vs);
    forall x | x in entries
      ensures Fits(e, Meaning(x))
    {
      var k :| 0 <= k < |entries| && entries[k] == x;
      assert vs[k] == VPair(vs[k].left, MapOf(vs)[vs[k].left]);
    }
  }

  lemma {:induction false} RoundTripAll(d: Dialect, s: Schema, items: seq<Item>, b: bytes, p: nat)
    requires WellFormed(d, s)
    requires forall x | x in items :: Typed(d, s, x) && Fits(s, Meaning(x))
    requires At(b, p, EncodeAll(d, s, items))
    ensures DecodeN(d, s, |items|, b, p) == Ok(Meanings(items), p + |EncodeAll(d, s, items)|)
    decreases s, 3, |items|
  {
    hide *;
    if items == [] {
      NoneRoundTrip(d, s, b, p);
    } else {
      HeadAndRest(d, s, items, b, p);
      RoundTripAt(d, s, items[0], b, p);
      RoundTripAll(d, s, items[1..], b, p + |Encode(d, s, items[0])|);
      MoreRoundTrip(d, s, items, b, p);
    }
  }

  lemma {:induction false} HeadAndRest(d: Dialect, s: Schema, items: seq<Item>, b: bytes, p: nat)
    requires items != [] && forall x | x in items :: Typed(d, s, x) && Fits(s, Meaning(x))
    requires At(b, p, EncodeAll(d, s, items))
    ensures Typed(d, s, items[0]) && Fits(s, Meaning(items[0])) && p + |Encode(d, s, items[0])| <= |b|
    ensures forall x | x in items[1..] :: Typed(d, s, x) && Fits(s, Meaning(x))
    ensures At(b, p, Encode(d, s, items[0])) && At(b, p + |Encode(d, s, items[0])|, EncodeAll(d, s, items[1..]))
  {
    hide *;
    AllParts(d, s, items);
    var e, r := Encode(d, s, items[0]), EncodeAll(d, s, items[1..]);
    AtSplit(b, p, e, r);
    AtInside(b, p, e);
  }

  lemma AtInside(b: bytes, p: nat, e: bytes)
    requires At(b, p, e)
    ensures p + |e| <= |b|
  {
  }

  lemma NoneRoundTrip(d: Dialect, s: Schema, b: bytes, p: nat)
    requires WellFormed(d, s) && At(b, p, EncodeAll(d, s, []))
    ensures p <= |b| && DecodeN(d, s, 0, b, p) == Ok(Meanings([]), p + |EncodeAll(d, s, [])|)
  {
    hide WellFormed;
  }

  lemma {:induction false} MoreRoundTrip(d: Dialect, s: Schema, items: seq<Item>, b: bytes, p: nat)
    requires items != [] && WellFormed(d, s) && forall x | x in items :: Typed(d, s, x)
    requires Typed(d, s, items[0]) && forall x | x in items[1..] :: Typed(d, s, x)
    requires p + |Encode(d, s, items[0])| <= |b|
    requires Decode(d, s, b, p) == Ok(Meaning(items[0]), p + |Encode(d, s, items[0])|)
    requires
      var q := p + |Encode(d, s, items[0])|;
      DecodeN(d, s, |items| - 1, b, q) == Ok(Meanings(items[1..]), q + |EncodeAll(d, s, items[1..])|)
    ensures DecodeN(d, s, |items|, b, p) == Ok(Meanings(items), p + |EncodeAll(d, s, items)|)
  {
    hide *;
    AllParts(d, s, items);
    DecodeStep(d, s, |items|, b, p);
  }

  lemma {:induction false} AllParts(d: Dialect, s: Schema, items: seq<Item>)
    requires items != [] && forall x | x in items :: Typed(d, s, x)
    ensures EncodeAll(d, s, items) == Encode(d, s, items[0]) + EncodeAll(d, s, items[1..])
    ensures Meanings(items) == [Meaning(items[0])] + Meanings(items[1..])
  {
    hide Encode, Typed, Meaning;
  }

  /** A decoder never returns a value whose counts do not fit their prefixes. */
  lemma {:induction false} DecodedFits(d: Dialect, s: Schema, b: bytes, p: nat)
    requires p <= |b| && WellFormed(d, s) && Decode(d, s, b, p).Ok?
    ensures Fits(s, Decode(d, s, b, p).value)
    decreases s, 2, 0
  {
    Pow256Of2();
    match s
    case SOption(t) =>
      var n := ReadUInt(b, p, 1);
      if n.value != 0 { DecodedFits(d, t, b, n.pos); }
    case SEither(t, y) =>
      var n := ReadUInt(b, p, 1);
      DecodedFits(d, if n.value != 0 then t else y, b, n.pos);
    case SArray(t, n) => DecodedFitsAll(d, t, n, b, p);
    case SVec(t) =>
      var n := ReadUInt(b, p, 2);
      DecodedFitsAll(d, t, n.value, b, n.pos);
    case SMap(e) =>
      var n := ReadUInt(b, p, 2);
      DecodedFitsAll(d, e, n.value, b, n.pos);
      var vs := DecodeN(d, e, n.value, b, n.pos).value;
      DecodedPairs(d, e, n.value, b, n.pos);
      MapOfSound(vs);
    case SPair(x, y) =>
      DecodedFits(d, x, b, p);
      DecodedFits(d, y, b, Decode(d, x, b, p).pos);
    case SStatic(c) => DecodedFits(d, c, b, p);
    case _ =>
  }

  lemma {:induction false} DecodedFitsAll(d: Dialect, s: Schema, n: nat, b: bytes, p: nat)
    requires p <= |b| && WellFormed(d, s) && DecodeN(d, s, n, b, p).Ok?
    ensures forall v | v in DecodeN(d, s, n, b, p).value :: Fits(s, v)
    decreases s, 3, n
  {
    if n > 0 {
      DecodedFits(d, s, b, p);
      DecodedFitsAll(d, s, n - 1, b, Decode(d, s, b, p).pos);
    }
  }

  lemma {:induction false} DecodedPairs(d: Dialect, e: Schema, n: nat, b: bytes, p: nat)
    requires p <= |b| && WellFormed(d, e) && e.SPair? && DecodeN(d, e, n, b, p).Ok?
    ensures forall k :: 0 <= k < n ==> DecodeN(d, e, n, b, p).value[k].VPair?
    decreases n
  {
    if n > 0 {
      DecodedPairs(d, e, n - 1, b, Decode(d, e, b, p).pos);
    }
  }

  lemma StandsBehind(pre: bytes, e: bytes, post: bytes)
    ensures At(pre + e + post, |pre|, e)
  {
  }

  /**
   Encoding then decoding, inside any prefix and suffix, gives back the value and ends at
   the end of the encoding exactly when every count fits its 16-bit prefix: a longer string,
   vector or table has its length cut off modulo 65536 and never comes back.
   */
  lemma {:induction false} RoundTrip(d: Dialect, s: Schema, i: Item, pre: bytes, post: bytes)
    requires WellFormed(d, s) && Typed(d, s, i)
    ensures Decode(d, s, pre + Encode(d, s, i) + post, |pre|) == Ok(Meaning(i), |pre| + |Encode(d, s, i)|)
            <==> Fits(s, Meaning(i))
  {
    hide Decode, Encode, Typed, WellFormed, Fits, Meaning, At;
    var e := Encode(d, s, i);
    var b := pre + e + post;
    StandsBehind(pre, e, post);
    if Fits(s, Meaning(i)) {
      RoundTripAt(d, s, i, b, |pre|);
    }
    if Decode(d, s, b, |pre|) == Ok(Meaning(i), |pre| + |e|) {
      DecodedFits(d, s, b, |pre|);
    }
  }

  /** Tables that hold the same entries decode to the same map, whatever their iteration orders. */
  lemma {:induction false} IterationOrderIsIrrelevant(s: Schema, i: Item, j: Item)
    requires WellFormed(Rust, s) && Typed(Rust, s, i) && Typed(Rust, s, j)
    requires Meaning(i) == Meaning(j) && Fits(s, Meaning(i))
    ensures Decode(Rust, s, Encode(Rust, s, i), 0) == Ok(Meaning(j), |Encode(Rust, s, i)|)
    ensures Decode(Rust, s, Encode(Rust, s, j), 0) == Ok(Meaning(i), |Encode(Rust, s, j)|)
  {
    hide Decode, Encode, Typed, WellFormed, Fits, Meaning;
    RoundTripAt(Rust, s, i, Encode(Rust, s, i), 0);
    RoundTripAt(Rust, s, j, Encode(Rust, s, j), 0);
  }

  /** Equal meanings of tables: any reordering of the entries of a table is the same table. */
  lemma {:induction false} ReorderedTable(entries: seq<Item>, order: seq<nat>, shuffled: seq<Item>)
    requires DistinctKeys(Meanings(entries)) && Reorders(entries, order, shuffled)
    ensures DistinctKeys(Meanings(shuffled))
    ensures Meaning(ITable(shuffled)) == Meaning(ITable(entries))
  {
    hide *;
    ReorderedMeanings(entries, order, shuffled);
    ReorderedMap(Meanings(entries), order, Meanings(shuffled));
    TableMeaning(entries);
    TableMeaning(shuffled);
  }

  lemma TableMeaning(entries: seq<Item>)
    ensures Meaning(ITable(entries)) == VMap(MapOf(Meanings(entries)))
  {
  }

  lemma {:induction false} ReorderedMeanings(entries: seq<Item>, order: seq<nat>, shuffled: seq<Item>)
    requires Reorders(entries, order, shuffled)
    ensures Reorders(Meanings(entries), order, Meanings(shuffled))
  {
    hide Meaning, Meanings;
  }

  lemma {:induction false} ReorderedMap(vs: seq<Value>, order: seq<nat>, ws: seq<Value>)
    requires DistinctKeys(vs) && Reorders(vs, order, ws)
    ensures DistinctKeys(ws) && MapOf(vs) == MapOf(ws)
  {
    ReorderedKeys(vs, order, ws);
    ReorderedEntries(vs, order, ws);
    hide MapOf, DistinctKeys, Reorders;
    MapOfDistinct(vs);
    MapOfDistinct(ws);
    EqualBySize(MapOf(ws).Keys, MapOf(vs).Keys);
  }

  /** `ws` lists the elements of `vs` in another order. */
  predicate Reorders<T(==)>(vs: seq<T>, order: seq<nat>, ws: seq<T>) {
    && |order| == |vs| == |ws|
    && (forall k :: 0 <= k < |order| ==> order[k] < |vs| && ws[k] == vs[order[k]])
    && (forall j, k :: 0 <= j < k < |order| ==> order[j] != order[k])
  }

  lemma {:induction false} ReorderedKeys(vs: seq<Value>, order: seq<nat>, ws: seq<Value>)
    requires DistinctKeys(vs) && Reorders(vs, order, ws)
    ensures DistinctKeys(ws)
  {
    forall j, k | 0 <= j < k < |ws|
      ensures ws[j].left != ws[k].left
    {
      var x, y := order[j], order[k];
      assert if x < y then vs[x].left != vs[y].left else vs[y].left != vs[x].left;
    }
  }

  lemma {:induction false} ReorderedEntries(vs: seq<Value>, order: seq<nat>, ws: seq<Value>)
    requires DistinctKeys(vs) && Reorders(vs, order, ws)
    ensures forall x | x in MapOf(ws) :: x in MapOf(vs) && MapOf(ws)[x] == MapOf(vs)[x]
  {
    hide MapOf;
    MapOfDistinct(vs);
    MapOfSound(ws);
    forall x | x in MapOf(ws)
      ensures x in MapOf(vs) && MapOf(ws)[x] == MapOf(vs)[x]
    {
      var k :| 0 <= k < |ws| && ws[k] == VPair(x, MapOf(ws)[x]);
      assert vs[order[k]] == VPair(x, MapOf(ws)[x]);
    }
  }

  lemma {:induction false} EqualBySize<T>(a: set<T>, b: set<T>)
    requires a <= b && |a| == |b|
    ensures a == b
  {
    if x :| x in b && x !in a {
      assert a <= b - {x};
      SubsetSize(a, b - {x});
    }
  }

  lemma {:induction false} SubsetSize<T>(a: set<T>, b: set<T>)
    requires a <= b
    ensures |a| <= |b|
  {
    if x :| x in a {
      SubsetSize(a - {x}, b - {x});
    }
  }

  // ---------------------------------------------------------------- arbitrary bytes

  /** `r` is the outcome `q` with positions counted from `off` on. */
  predicate Shifted<T(==)>(r: Decoded<T>, q: Decoded<T>, off: nat) {
    && r.pos + off == q.pos
    && (match q
        case Ok(v, _) => r.Ok? && r.value == v
        case Err(e, _) => r.Err? && r.error == e)
  }

  /** `c` is the part of `b` from `off` on. */
  predicate Suffix(b: bytes, off: nat, c: bytes) {
    off <= |b| && c == b[off..]
  }

  /** Decoding from a suffix of the buffer is decoding from the buffer, positions shifted. */
  lemma {:induction false} Relocate(d: Dialect, s: Schema, b: bytes, off: nat, c: bytes, p: nat)
    requires Suffix(b, off, c) && p <= |c| && WellFormed(d, s)
    ensures |c| + off == |b| && Shifted(Decode(d, s, c, p), Decode(d, s, b, p + off), off)
    decreases s, 2, 0
  {
    SuffixSize(b, off, c);
    if s.SPair? {
      RelocatePair(d, s.left, s.right, b, off, c, p);
    } else if s.SOption? || s.SEither? {
      RelocateTagged(d, s, b, off, c, p);
    } else if s.SVec? || s.SMap? {
      RelocateCounted(d, s, b, off, c, p);
    } else {
      hide Suffix, ReadUInt, Decode, DecodeN, WellFormed;
      match s
      case SArray(t, n) =>
        RelocateN(d, t, n, b, off, c, p);
        RelocateArray(d, t, n, b, off, c, p);
      case SStatic(t) =>
        RelocateStatic(d, t, b, off, c, p);
      case _ => RelocateLeaf(d, s, b, off, c, p);
    }
  }

  lemma {:induction false} RelocateArray(d: Dialect, t: Schema, n: nat, b: bytes, off: nat, c: bytes, p: nat)
    requires p <= |c| && |c| + off == |b| && WellFormed(d, SArray(t, n))
    requires Shifted(DecodeN(d, t, n, c, p), DecodeN(d, t, n, b, p + off), off)
    ensures Shifted(Decode(d, SArray(t, n), c, p), Decode(d, SArray(t, n), b, p + off), off)
  {
    hide DecodeN;
  }

  lemma {:induction false} RelocateStatic(d: Dialect, t: Schema, b: bytes, off: nat, c: bytes, p: nat)
    requires Suffix(b, off, c) && p <= |c| && WellFormed(d, SStatic(t))
    ensures |c| + off == |b| && Shifted(Decode(d, SStatic(t), c, p), Decode(d, SStatic(t), b, p + off), off)
    decreases t, 4, 0
  {
    hide Suffix, Shifted;
    Relocate(d, t, b, off, c, p);
  }

  lemma {:induction false} RelocateLeaf(d: Dialect, s: Schema, b: bytes, off: nat, c: bytes, p: nat)
    requires Leaf(s)
    requires Suffix(b, off, c) && p <= |c| && WellFormed(d, s)
    ensures |c| + off == |b| && Shifted(Decode(d, s, c, p), Decode(d, s, b, p + off), off)
  {
    SuffixSize(b, off, c);
    hide Suffix;
    match s
    case SString => RelocateString(d, b, off, c, p);
    case SUnit =>
    case SFlags(size, count) => RelocateFlags(d, size, count, b, off, c, p);
    case _ => RelocateNumber(d, s, b, off, c, p);
  }

  lemma {:induction false} RelocateNumber(d: Dialect, s: Schema, b: bytes, off: nat, c: bytes, p: nat)
    requires s.SBool? || s.SUInt? || s.SInt? || s.SFinite? || s.SEnum?
    requires Suffix(b, off, c) && p <= |c| && WellFormed(d, s)
    ensures |c| + off == |b| && Shifted(Decode(d, s, c, p), Decode(d, s, b, p + off), off)
  {
    hide Suffix, ReadUInt, IsFinite, ToSigned;
    RelocateRead(b, off, c, p, if s.SBool? then 1 else s.width);
  }

  lemma {:induction false} RelocatePair(d: Dialect, x: Schema, y: Schema, b: bytes, off: nat, c: bytes, p: nat)
    requires Suffix(b, off, c) && p <= |c| && WellFormed(d, x) && WellFormed(d, y)
    ensures |c| + off == |b| && Shifted(Decode(d, SPair(x, y), c, p), Decode(d, SPair(x, y), b, p + off), off)
    decreases SPair(x, y), 1, 0
  {
    hide Suffix, Decode;
    Relocate(d, x, b, off, c, p);
    DecodePair(d, x, y, b, p + off);
    DecodePair(d, x, y, c, p);
    var r := Decode(d, x, c, p);
    if r.Ok? { Relocate(d, y, b, off, c, r.pos); }
  }

  lemma {:induction false} RelocateTagged(d: Dialect, s: Schema, b: bytes, off: nat, c: bytes, p: nat)
    requires s.SOption? || s.SEither?
    requires Suffix(b, off, c) && p <= |c| && WellFormed(d, s)
    ensures |c| + off == |b| && Shifted(Decode(d, s, c, p), Decode(d, s, b, p + off), off)
    decreases s, 1, 0
  {
    if s.SOption? {
      RelocateOption(d, s.inner, b, off, c, p);
    } else {
      RelocateEither(d, s.first, s.second, b, off, c, p);
    }
  }

  lemma {:induction false} RelocateOption(d: Dialect, t: Schema, b: bytes, off: nat, c: bytes, p: nat)
    requires Suffix(b, off, c) && p <= |c| && WellFormed(d, t)
    ensures |c| + off == |b| && Shifted(Decode(d, SOption(t), c, p), Decode(d, SOption(t), b, p + off), off)
    decreases SOption(t), 0, 0
  {
    hide Suffix, ReadUInt;
    RelocateRead(b, off, c, p, 1);
    var n := ReadUInt(c, p, 1);
    if n.Ok? && n.value != 0 { Relocate(d, t, b, off, c, n.pos); }
  }

  lemma {:induction false} RelocateEither(d: Dialect, t: Schema, y: Schema, b: bytes, off: nat, c: bytes, p: nat)
    requires Suffix(b, off, c) && p <= |c| && WellFormed(d, t) && WellFormed(d, y)
    ensures |c| + off == |b| && Shifted(Decode(d, SEither(t, y), c, p), Decode(d, SEither(t, y), b, p + off), off)
    decreases SEither(t, y), 0, 0
  {
    hide Suffix, ReadUInt, Decode;
    RelocateRead(b, off, c, p, 1);
    DecodeEither(d, t, y, c, p);
    DecodeEither(d, t, y, b, p + off);
    var n := ReadUInt(c, p, 1);
    if n.Ok? {
      if n.value != 0 { Relocate(d, t, b, off, c, n.pos); } else { Relocate(d, y, b, off, c, n.pos); }
    }
  }

  lemma {:induction false} RelocateCounted(d: Dialect, s: Schema, b: bytes, off: nat, c: bytes, p: nat)
    requires s.SVec? || s.SMap?
    requires Suffix(b, off, c) && p <= |c| && WellFormed(d, s)
    ensures |c| + off == |b| && Shifted(Decode(d, s, c, p), Decode(d, s, b, p + off), off)
    decreases s, 1, 0
  {
    hide Suffix, ReadUInt, DecodeN, MapOf;
    RelocateRead(b, off, c, p, 2);
    var n := ReadUInt(c, p, 2);
    if n.Ok? { RelocateN(d, if s.SVec? then s.elem else s.entry, n.value, b, off, c, n.pos); }
  }

  lemma SuffixSize(b: bytes, off: nat, c: bytes)
    requires Suffix(b, off, c)
    ensures |c| + off == |b|
  {
  }

  lemma SuffixSlice(b: bytes, off: nat, c: bytes, p: nat, q: nat)
    requires Suffix(b, off, c) && p <= q <= |c|
    ensures |c| + off == |b| && c[p..q] == b[p + off..q + off]
  {
  }

  lemma {:induction false} RelocateRead(b: bytes, off: nat, c: bytes, p: nat, w: nat)
    requires Suffix(b, off, c) && p <= |c|
    ensures |c| + off == |b| && Shifted(ReadUInt(c, p, w), ReadUInt(b, p + off, w), off)
  {
    SuffixSize(b, off, c);
    if p + w <= |c| { SuffixSlice(b, off, c, p, p + w); }
    hide Suffix, FromBE;
  }

  lemma {:induction false} RelocateString(d: Dialect, b: bytes, off: nat, c: bytes, p: nat)
    requires Suffix(b, off, c) && p <= |c|
    ensures |c| + off == |b| && Shifted(Decode(d, SString, c, p), Decode(d, SString, b, p + off), off)
  {
    hide Suffix, ReadUInt, ValidUtf8, FromBE, Pow256;
    RelocateRead(b, off, c, p, 2);
    var n := ReadUInt(c, p, 2);
    if n.Ok? && n.pos + n.value <= |c| { SuffixSlice(b, off, c, n.pos, n.pos + n.value); }
  }

  lemma {:induction false} RelocateFlags(d: Dialect, size: nat, count: nat, b: bytes, off: nat, c: bytes, p: nat)
    requires Suffix(b, off, c) && p <= |c| && FlagsFit(d, size, count)
    ensures |c| + off == |b|
    ensures Shifted(Decode(d, SFlags(size, count), c, p), Decode(d, SFlags(size, count), b, p + off), off)
  {
    hide Suffix, DecodeFlags, FlagSkip, FlagWidth;
    SuffixSize(b, off, c);
    var w := FlagWidth(d, size, count);
    if p + w <= |c| { SuffixSlice(b, off, c, p, p + w); }
  }

  lemma {:induction false} RelocateN(d: Dialect, s: Schema, n: nat, b: bytes, off: nat, c: bytes, p: nat)
    requires Suffix(b, off, c) && p <= |c| && WellFormed(d, s)
    ensures |c| + off == |b| && Shifted(DecodeN(d, s, n, c, p), DecodeN(d, s, n, b, p + off), off)
    decreases s, 3, n
  {
    hide *;
    SuffixSize(b, off, c);
    if n == 0 {
      RelocateNone(d, s, b, off, c, p);
    } else {
      Relocate(d, s, b, off, c, p);
      var r := Decode(d, s, c, p);
      if r.Ok? { RelocateN(d, s, n - 1, b, off, c, r.pos); }
      RelocateStep(d, s, n, b, off, c, p);
    }
  }

  lemma {:induction false} RelocateNone(d: Dialect, s: Schema, b: bytes, off: nat, c: bytes, p: nat)
    requires p <= |c| && |c| + off == |b| && WellFormed(d, s)
    ensures Shifted(DecodeN(d, s, 0, c, p), DecodeN(d, s, 0, b, p + off), off)
  {
    hide WellFormed;
  }

  lemma {:induction false} RelocateStep(d: Dialect, s: Schema, n: nat, b: bytes, off: nat, c: bytes, p: nat)
    requires p <= |c| && |c| + off == |b| && WellFormed(d, s) && n > 0
    requires Shifted(Decode(d, s, c, p), Decode(d, s, b, p + off), off)
    requires Decode(d, s, c, p).Ok? ==>
               var q := Decode(d, s, c, p).pos;
               Shifted(DecodeN(d, s, n - 1, c, q), DecodeN(d, s, n - 1, b, q + off), off)
    ensures Shifted(DecodeN(d, s, n, c, p), DecodeN(d, s, n, b, p + off), off)
  {
    hide Decode, WellFormed;
  }
}
