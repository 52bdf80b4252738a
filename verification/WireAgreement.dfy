/**
 The C++ client and the Rust server speak one format: on every schema both sides have,
 with bit structs of 1, 2, 4 or 8 bytes, they write the same bytes and read the same values.
 */
module WireAgreement {
  import opened Bytes
  import opened Flags
  import opened Utf8
  import opened Wire
  import opened WireLaws
  import opened WireReencode

  /** The Rust size of a bit struct is the size of the C++ integer, and every byte of it is used. */
  predicate FlagsCompatible(size: nat, count: nat) {
    size == FlagWidth(Cpp, size, count) == (count + 7) / 8
  }

  /** Types both sides have. The client has no hash tables. */
  predicate Portable(s: Schema) {
    match s
    case SOption(t) => Portable(t)
    case SEither(t, y) => Portable(t) && Portable(y)
    case SArray(t, _) => Portable(t)
    case SVec(t) => Portable(t)
    case SMap(_) => false
    case SPair(a, b) => Portable(a) && Portable(b)
    case SStatic(b) => Portable(b)
    case SFlags(size, count) => count <= 64 && FlagsCompatible(size, count)
    case _ => true
  }

  lemma CompatibleFlags(size: nat, bits: seq<bool>)
    requires |bits| <= 64 && FlagsCompatible(size, |bits|)
    ensures EncodeFlags(Rust, size, bits) == EncodeFlags(Cpp, size, bits)
  {
  }

  /** Bit structs agree on all their values exactly when the sizes are compatible. */
  lemma {:induction false} FlagsAgreeExactly(size: nat, count: nat)
    requires count <= 64 && count <= 8 * size
    ensures (forall bits: seq<bool> | |bits| == count :: EncodeFlags(Rust, size, bits) == EncodeFlags(Cpp, size, bits))
            <==> FlagsCompatible(size, count)
  {
    if FlagsCompatible(size, count) {
      forall bits: seq<bool> | |bits| == count
        ensures EncodeFlags(Rust, size, bits) == EncodeFlags(Cpp, size, bits)
      {
        CompatibleFlags(size, bits);
      }
    } else {
      var bits := seq(count, _ => true);
      IncompatibleFlags(size, bits);
      assert EncodeFlags(Rust, size, bits) != EncodeFlags(Cpp, size, bits);
    }
  }

  lemma {:induction false} IncompatibleFlags(size: nat, bits: seq<bool>)
    requires |bits| <= 64 && |bits| <= 8 * size && !FlagsCompatible(size, |bits|)
    requires forall k :: 0 <= k < |bits| ==> bits[k]
    ensures EncodeFlags(Rust, size, bits) != EncodeFlags(Cpp, size, bits)
  {
    hide Pack;
    var w := FlagWidth(Cpp, size, |bits|);
    if size == w {
      assert EncodeFlags(Cpp, size, bits)[0] == 0;
      assert Bit(bits, 0) == 1;
      FirstRustByte(size, bits);
    }
  }

  lemma {:induction false} FirstRustByte(size: nat, bits: seq<bool>)
    requires 0 < size && |bits| <= 8 * size
    ensures EncodeFlags(Rust, size, bits)[0] == FlagByte(bits, 0)
  {
    hide Pack, FlagByte;
    assert Zeros(0) + Pack(bits, size) == Pack(bits, size);
  }

  /** The size Rust picks by default is compatible unless it is 3, 5, 6 or 7 bytes. */
  lemma DefaultSizeCompatible(count: nat)
    requires count <= 64
    ensures FlagsCompatible((count + 7) / 8, count) <==> (count + 7) / 8 !in {3, 5, 6, 7}
  {
  }

  // ---------------------------------------------------------------- encoding

  /** Both sides write the same bytes for every object of a portable type. */
  lemma {:induction false} SameBytes(s: Schema, i: Item)
    requires Portable(s) && Typed(Rust, s, i)
    ensures Typed(Cpp, s, i) && Encode(Cpp, s, i) == Encode(Rust, s, i)
    decreases s, 2, 0
  {
    match s
    case SOption(t) => if i.ISome? { SameBytes(t, i.item); }
    case SEither(t, y) => if i.IFirst? { SameBytes(t, i.item); } else { SameBytes(y, i.item); }
    case SArray(t, _) => SameBytesAll(t, i.items);
    case SVec(t) => SameBytesAll(t, i.items);
    case SPair(a, b) =>
      SameBytes(a, i.left);
      SameBytes(b, i.right);
    case SStatic(b) => SameBytes(b, i);
    case SFlags(size, _) => CompatibleFlags(size, i.bits);
    case _ =>
  }

  lemma {:induction false} SameBytesAll(s: Schema, items: seq<Item>)
    requires Portable(s) && forall x | x in items :: Typed(Rust, s, x)
    ensures (forall x | x in items :: Typed(Cpp, s, x)) && EncodeAll(Cpp, s, items) == EncodeAll(Rust, s, items)
    decreases s, 3, |items|
  {
    hide Encode, Typed, Portable;
    if items != [] {
      SameBytes(s, items[0]);
      SameBytesAll(s, items[1..]);
      assert forall x | x in items :: x == items[0] || x in items[1..];
    }
  }

  // ---------------------------------------------------------------- decoding

  /**
   What Rust accepts, C++ reads as the same value; C++ rejects what Rust rejects, except
   ill-formed UTF-8 and floats that are not finite.
   */
  predicate Agree<T(==)>(r: Decoded<T>, c: Decoded<T>) {
    match r
    case Ok(_, _) => c == r
    case Err(e, _) => e == InvalidStringValue || e == NonFiniteValue || (c.Err? && c.error == e)
  }

  lemma {:induction false} SameReading(s: Schema, b: bytes, p: nat)
    requires Portable(s) && WellFormed(Rust, s) && p <= |b|
    ensures WellFormed(Cpp, s) && Agree(Decode(Rust, s, b, p), Decode(Cpp, s, b, p))
    decreases s, 2, 0
  {
    PortableWellFormed(s);
    if s.SPair? {
      SameReadingPair(s.left, s.right, b, p);
    } else if s.SFlags? {
      hide DecodeFlags;
      SameFlags(s.size, s.count, b, p);
    } else {
      hide ReadUInt, ValidUtf8, FromBE, IsFinite;
      match s
      case SOption(t) =>
        var n := ReadUInt(b, p, 1);
        if n.Ok? && n.value != 0 { SameReading(t, b, n.pos); }
      case SEither(t, y) =>
        var n := ReadUInt(b, p, 1);
        if n.Ok? { SameReading(if n.value != 0 then t else y, b, n.pos); }
      case SArray(t, n) => SameReadings(t, n, b, p);
      case SVec(t) =>
        var n := ReadUInt(b, p, 2);
        if n.Ok? { SameReadings(t, n.value, b, n.pos); }
      case SStatic(t) => SameReading(t, b, p);
      case _ =>
    }
  }

  lemma {:induction false} PortableWellFormed(s: Schema)
    requires Portable(s) && WellFormed(Rust, s)
    ensures WellFormed(Cpp, s)
  {
    match s
    case SOption(t) => PortableWellFormed(t);
    case SEither(t, y) => PortableWellFormed(t); PortableWellFormed(y);
    case SArray(t, _) => PortableWellFormed(t);
    case SVec(t) => PortableWellFormed(t);
    case SPair(a, b) => PortableWellFormed(a); PortableWellFormed(b);
    case SStatic(b) => PortableWellFormed(b);
    case _ =>
  }

  lemma {:induction false} SameReadingPair(x: Schema, y: Schema, b: bytes, p: nat)
    requires Portable(x) && Portable(y) && WellFormed(Rust, x) && WellFormed(Rust, y) && p <= |b|
    ensures WellFormed(Cpp, x) && WellFormed(Cpp, y)
    ensures Agree(Decode(Rust, SPair(x, y), b, p), Decode(Cpp, SPair(x, y), b, p))
    decreases SPair(x, y), 1, 0
  {
    hide Decode, Portable, WellFormed;
    PortableWellFormed(x);
    PortableWellFormed(y);
    SameReading(x, b, p);
    var r := Decode(Rust, x, b, p);
    if r.Ok? { SameReading(y, b, r.pos); }
    DecodePair(Rust, x, y, b, p);
    DecodePair(Cpp, x, y, b, p);
  }

  lemma SameFlags(size: nat, count: nat, b: bytes, p: nat)
    requires count <= 64 && FlagsCompatible(size, count) && p <= |b|
    ensures Agree(Decode(Rust, SFlags(size, count), b, p), Decode(Cpp, SFlags(size, count), b, p))
  {
  }

  lemma {:induction false} SameReadings(s: Schema, n: nat, b: bytes, p: nat)
    requires Portable(s) && WellFormed(Rust, s) && p <= |b|
    ensures WellFormed(Cpp, s) && Agree(DecodeN(Rust, s, n, b, p), DecodeN(Cpp, s, n, b, p))
    decreases s, 3, n
  {
    hide Decode, WellFormed, Portable;
    PortableWellFormed(s);
    if n > 0 {
      SameReading(s, b, p);
      var r := Decode(Rust, s, b, p);
      if r.Ok? { SameReadings(s, n - 1, b, r.pos); }
    }
  }

  /** Each side decodes the other's output to the value the other side encoded. */
  lemma {:induction false} CrossLanguage(s: Schema, i: Item, pre: bytes, post: bytes)
    requires Portable(s) && WellFormed(Rust, s) && Typed(Rust, s, i) && Fits(s, Meaning(i))
    ensures Typed(Cpp, s, i) && WellFormed(Cpp, s)
    ensures Decode(Cpp, s, pre + Encode(Rust, s, i) + post, |pre|) == Ok(Meaning(i), |pre| + |Encode(Rust, s, i)|)
    ensures Decode(Rust, s, pre + Encode(Cpp, s, i) + post, |pre|) == Ok(Meaning(i), |pre| + |Encode(Cpp, s, i)|)
  {
    hide Encode, Decode, Typed, WellFormed, Portable, Fits, Meaning;
    SameBytes(s, i);
    PortableWellFormed(s);
    RoundTrip(Rust, s, i, pre, post);
    RoundTrip(Cpp, s, i, pre, post);
  }

  // ---------------------------------------------------------------- what the server accepts

  /** Without hash tables an object is determined by its meaning. */
  lemma {:induction false} MeaningInjective(s: Schema, i: Item, j: Item)
    requires Portable(s) && Typed(Rust, s, i) && Typed(Cpp, s, j) && Meaning(i) == Meaning(j)
    ensures i == j
    decreases s, 1
  {
    if Leaf(s) {
      LeafInjective(s, i, j);
    } else {
      hide FlagsCompatible;
      match s
      case SOption(t) => if i.ISome? { MeaningInjective(t, i.item, j.item); }
      case SEither(t, y) => MeaningInjective(if i.IFirst? then t else y, i.item, j.item);
      case SArray(t, _) => MeaningsInjective(t, i.items, j.items);
      case SVec(t) => MeaningsInjective(t, i.items, j.items);
      case SPair(a, b) =>
        MeaningInjective(a, i.left, j.left);
        MeaningInjective(b, i.right, j.right);
      case SStatic(t) => MeaningInjective(t, i, j);
    }
  }

  lemma LeafInjective(s: Schema, i: Item, j: Item)
    requires Leaf(s) && Typed(Rust, s, i) && Typed(Cpp, s, j) && Meaning(i) == Meaning(j)
    ensures i == j
  {
  }

  lemma {:induction false} MeaningsInjective(s: Schema, xs: seq<Item>, ys: seq<Item>)
    requires Portable(s) && Meanings(xs) == Meanings(ys)
    requires (forall x | x in xs :: Typed(Rust, s, x)) && forall y | y in ys :: Typed(Cpp, s, y)
    ensures xs == ys
    decreases s, 2
  {
    hide Typed, Meaning, Meanings, Portable;
    assert |xs| == |Meanings(xs)| == |ys|;
    forall k | 0 <= k < |xs|
      ensures xs[k] == ys[k]
    {
      assert Meaning(xs[k]) == Meanings(xs)[k] == Meaning(ys[k]);
      MeaningInjective(s, xs[k], ys[k]);
    }
  }

  /**
   The server reads what a client wrote if and only if it is an object of the server's type too:
   all text well-formed UTF-8 and every float that must be finite finite. Otherwise it is
   refused for one of these two reasons.
   */
  lemma {:induction false} ServerReadsExactly(s: Schema, i: Item, pre: bytes, post: bytes)
    requires Portable(s) && WellFormed(Rust, s) && Typed(Cpp, s, i) && Fits(s, Meaning(i))
    ensures
      var r := Decode(Rust, s, pre + Encode(Cpp, s, i) + post, |pre|);
      && (r.Ok? <==> Typed(Rust, s, i))
      && (r.Ok? ==> r == Ok(Meaning(i), |pre| + |Encode(Cpp, s, i)|))
      && (r.Err? ==> r.error == InvalidStringValue || r.error == NonFiniteValue)
  {
    hide Decode, Encode, Typed, WellFormed, Fits, Meaning, Portable;
    var b := pre + Encode(Cpp, s, i) + post;
    SameReading(s, b, |pre|);
    RoundTrip(Cpp, s, i, pre, post);
    if Decode(Rust, s, b, |pre|).Ok? {
      var x := Reify(Rust, s, b, |pre|);
      MeaningInjective(s, x, i);
    }
    if Typed(Rust, s, i) {
      CrossLanguage(s, i, pre, post);
    }
  }

  predicate NoText(s: Schema) {
    match s
    case SString => false
    case SOption(t) => NoText(t)
    case SEither(t, y) => NoText(t) && NoText(y)
    case SArray(t, _) => NoText(t)
    case SVec(t) => NoText(t)
    case SMap(e) => NoText(e)
    case SPair(a, b) => NoText(a) && NoText(b)
    case SStatic(t) => NoText(t)
    case _ => true
  }

  /** Only text is refused for being ill-formed text. */
  lemma {:induction false} NoTextError(s: Schema, b: bytes, p: nat)
    requires NoText(s) && WellFormed(Rust, s) && p <= |b|
    ensures Decode(Rust, s, b, p).Err? ==> Decode(Rust, s, b, p).error != InvalidStringValue
    decreases s, 2, 0
  {
    if s.SPair? {
      NoTextErrorPair(s.left, s.right, b, p);
    } else {
      hide ReadUInt, FromBE, IsFinite, DecodeFlags, DecodeN;
      match s
      case SOption(t) =>
        var n := ReadUInt(b, p, 1);
        if n.Ok? && n.value != 0 { NoTextError(t, b, n.pos); }
        ReadError(b, p, 1);
      case SEither(t, y) =>
        var n := ReadUInt(b, p, 1);
        if n.Ok? { NoTextError(if n.value != 0 then t else y, b, n.pos); }
        ReadError(b, p, 1);
      case SArray(t, n) => NoTextErrors(t, n, b, p);
      case SVec(t) =>
        var n := ReadUInt(b, p, 2);
        if n.Ok? { NoTextErrors(t, n.value, b, n.pos); }
        ReadError(b, p, 2);
      case SMap(t) =>
        var n := ReadUInt(b, p, 2);
        if n.Ok? { NoTextErrors(t, n.value, b, n.pos); }
        ReadError(b, p, 2);
      case SStatic(t) => NoTextError(t, b, p);
      case _ => ReadErrors(b, p);
    }
  }

  lemma ReadError(b: bytes, p: nat, w: nat)
    requires p <= |b|
    ensures ReadUInt(b, p, w).Err? ==> ReadUInt(b, p, w).error == NotEnoughData
  {
  }

  lemma ReadErrors(b: bytes, p: nat)
    requires p <= |b|
    ensures forall w :: ReadUInt(b, p, w).Err? ==> ReadUInt(b, p, w).error == NotEnoughData
  {
  }

  lemma {:induction false} NoTextErrorPair(x: Schema, y: Schema, b: bytes, p: nat)
    requires NoText(x) && NoText(y) && WellFormed(Rust, x) && WellFormed(Rust, y) && p <= |b|
    ensures
      var r := Decode(Rust, SPair(x, y), b, p);
      r.Err? ==> r.error != InvalidStringValue
    decreases SPair(x, y), 1, 0
  {
    hide Decode, WellFormed, NoText;
    NoTextError(x, b, p);
    var r := Decode(Rust, x, b, p);
    if r.Ok? { NoTextError(y, b, r.pos); }
    DecodePair(Rust, x, y, b, p);
  }

  lemma {:induction false} NoTextErrors(s: Schema, n: nat, b: bytes, p: nat)
    requires NoText(s) && WellFormed(Rust, s) && p <= |b|
    ensures DecodeN(Rust, s, n, b, p).Err? ==> DecodeN(Rust, s, n, b, p).error != InvalidStringValue
    decreases s, 3, n
  {
    hide Decode, WellFormed, NoText;
    if n > 0 {
      NoTextError(s, b, p);
      var r := Decode(Rust, s, b, p);
      if r.Ok? { NoTextErrors(s, n - 1, b, r.pos); }
    }
  }
}
