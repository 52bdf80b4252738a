/**
 The wire format shared by the Rust `esp` crate (with the code its derive macros
 generate) and the C++ `ByteBuffer`: schemas, the objects an encoder is given, the
 values a decoder returns, and one reference encoder and decoder.

 The two implementations differ in a few places only; `Dialect` selects the side.
 */
module Wire {
  import opened Bytes
  import opened Flags
  import opened Utf8

  datatype Dialect = Rust | Cpp

  /**
   Encodable types. `SUInt` also stands for `f32` and `f64` (their bit patterns). `SFinite` is
   `FiniteF32` and `FiniteF64` in Rust, a plain `float` or `double` in C++.
   A derived struct, a tuple or an address is its fields in order: right-nested
   `SPair`s ended by `SUnit`. `SStatic` marks a struct derived with
   `dynamic_size(as_static = true)`. `SEither` is `Either<T, Y>` and `Result<T, E>`.
   The entry of a map is the pair of its key and value schemas.
   */
  datatype Schema =
    | SBool
    | SUInt(width: nat)
    | SInt(width: nat)
    | SFinite(width: nat)
    | SString
    | SOption(inner: Schema)
    | SEither(first: Schema, second: Schema)
    | SArray(elem: Schema, len: nat)
    | SVec(elem: Schema)
    | SMap(entry: Schema)
    | SUnit
    | SPair(left: Schema, right: Schema)
    | SStatic(body: Schema)
    | SEnum(width: nat, signed: bool, variants: seq<int>)
    | SFlags(size: nat, count: nat)

  /** What an encoder walks over. A hash table is listed in its iteration order. */
  datatype Item =
    | IBool(b: bool)
    | IInt(n: int)
    | IText(text: bytes)
    | INone
    | ISome(item: Item)
    | IFirst(item: Item)
    | ISecond(item: Item)
    | IUnit
    | IPair(left: Item, right: Item)
    | IList(items: seq<Item>)
    | ITable(entries: seq<Item>)
    | IFlags(bits: seq<bool>)

  /** What a decoder returns: hash tables are maps, whatever order they arrived in. */
  datatype Value =
    | VBool(b: bool)
    | VInt(n: int)
    | VText(text: bytes)
    | VNone
    | VSome(value: Value)
    | VFirst(value: Value)
    | VSecond(value: Value)
    | VUnit
    | VPair(left: Value, right: Value)
    | VList(values: seq<Value>)
    | VMap(m: map<Value, Value>)
    | VFlags(bits: seq<bool>)

  datatype DecodeError = NotEnoughData | InvalidEnumValue | InvalidStringValue | NonFiniteValue | DataTooLong

  /** A decoding outcome and the read position it leaves behind, also on failure. */
  datatype Decoded<+T> = Ok(value: T, pos: nat) | Err(error: DecodeError, pos: nat)

  const MAX_COUNT := 65535

  // ---------------------------------------------------------------- meaning

  /** The map that results from inserting the pairs one after the other. */
  function MapOf(vs: seq<Value>): (m: map<Value, Value>)
  {
    if vs == [] then map[]
    else
      var m := MapOf(vs[..|vs| - 1]);
      var e := vs[|vs| - 1];
      if e.VPair? then m[e.left := e.right] else m
  }

  function Meaning(i: Item): (v: Value)
    decreases i, 0
  {
    match i
    case IBool(b) => VBool(b)
    case IInt(n) => VInt(n)
    case IText(t) => VText(t)
    case INone => VNone
    case ISome(x) => VSome(Meaning(x))
    case IFirst(x) => VFirst(Meaning(x))
    case ISecond(x) => VSecond(Meaning(x))
    case IUnit => VUnit
    case IPair(x, y) => VPair(Meaning(x), Meaning(y))
    case IList(items) => VList(Meanings(items))
    case ITable(entries) => VMap(MapOf(Meanings(entries)))
    case IFlags(bits) => VFlags(bits)
  }

  function Meanings(items: seq<Item>): (vs: seq<Value>)
    ensures |vs| == |items|
    ensures forall k :: 0 <= k < |items| ==> vs[k] == Meaning(items[k])
    decreases items, 1
  {
    if items == [] then [] else [Meaning(items[0])] + Meanings(items[1..])
  }

  // ---------------------------------------------------------------- typing

  /** Bytes a bit struct takes: `size` in Rust, the smallest C++ integer type in C++. */
  function FlagWidth(d: Dialect, size: nat, count: nat): (w: nat)
  {
    if d.Rust? then size
    else if count == 0 then 0
    else if count <= 8 then 1
    else if count <= 16 then 2
    else if count <= 32 then 4
    else 8
  }

  /** Leading zero bytes: a C++ `BitBuffer` of 3, 5, 6 or 7 bytes sits at the low end of its integer. */
  function FlagSkip(d: Dialect, size: nat, count: nat): (k: int)
  {
    if d.Rust? then 0 else FlagWidth(d, size, count) - (count + 7) / 8
  }

  predicate FlagsFit(d: Dialect, size: nat, count: nat) {
    if d.Rust? then count <= 8 * size else count <= 64
  }

  function Zeros(n: nat): (z: bytes)
    ensures |z| == n
  {
    seq(n, _ => 0)
  }

  function EncodeFlags(d: Dialect, size: nat, bits: seq<bool>): (r: bytes)
    requires FlagsFit(d, size, |bits|)
    ensures |r| == FlagWidth(d, size, |bits|)
  {
    var k := FlagSkip(d, size, |bits|);
    Zeros(k) + Pack(bits, FlagWidth(d, size, |bits|) - k)
  }

  /** The flags in the bytes of a bit struct. */
  function DecodeFlags(d: Dialect, size: nat, count: nat, b: bytes): (r: seq<bool>)
    requires FlagsFit(d, size, count) && |b| == FlagWidth(d, size, count)
    ensures |r| == count
  {
    Unpack(b[FlagSkip(d, size, count)..], count)
  }

  predicate IntOf(n: int, width: nat, signed: bool) {
    if signed then InSignedRange(n, width) else 0 <= n < Pow256(width)
  }

  /** Not every bit of the exponent is set: eight bits of it in four bytes, eleven in eight. */
  predicate IsFinite(n: int, width: nat) {
    if width == 8 then n / 0x10_0000_0000_0000 % 2048 != 2047 else n / 0x80_0000 % 256 != 255
  }

  /** Types without parts. */
  predicate Leaf(s: Schema) {
    s.SBool? || s.SUInt? || s.SInt? || s.SFinite? || s.SString? || s.SUnit? || s.SEnum? || s.SFlags?
  }

  predicate WellFormed(d: Dialect, s: Schema) {
    match s
    case SBool => true
    case SUInt(_) => true
    case SInt(w) => w >= 1
    case SFinite(w) => w == 4 || w == 8
    case SString => true
    case SOption(t) => WellFormed(d, t)
    case SEither(t, y) => WellFormed(d, t) && WellFormed(d, y)
    case SArray(t, _) => WellFormed(d, t)
    case SVec(t) => WellFormed(d, t)
    case SMap(e) => d.Rust? && e.SPair? && WellFormed(d, e)
    case SUnit => true
    case SPair(a, b) => WellFormed(d, a) && WellFormed(d, b)
    case SStatic(b) => WellFormed(d, b) && HasStaticSize(b)
    case SEnum(w, signed, vs) => w >= 1 && forall k :: 0 <= k < |vs| ==> IntOf(vs[k], w, signed)
    case SFlags(size, count) => FlagsFit(d, size, count)
  }

  /** `i` is an object of the type `s`. Keys of a hash table are distinct. */
  predicate Typed(d: Dialect, s: Schema, i: Item)
    decreases s
  {
    match s
    case SBool => i.IBool?
    case SUInt(w) => i.IInt? && IntOf(i.n, w, false)
    case SInt(w) => i.IInt? && w >= 1 && IntOf(i.n, w, true)
    case SFinite(w) => i.IInt? && IntOf(i.n, w, false) && (d.Rust? ==> IsFinite(i.n, w))
    case SString => i.IText? && (d.Rust? ==> ValidUtf8(i.text))
    case SOption(t) => i.INone? || (i.ISome? && Typed(d, t, i.item))
    case SEither(t, y) => (i.IFirst? && Typed(d, t, i.item)) || (i.ISecond? && Typed(d, y, i.item))
    case SArray(t, n) => i.IList? && |i.items| == n && forall x | x in i.items :: Typed(d, t, x)
    case SVec(t) => i.IList? && forall x | x in i.items :: Typed(d, t, x)
    case SMap(e) =>
      && d.Rust? && e.SPair? && i.ITable?
      && (forall x | x in i.entries :: Typed(d, e, x))
      && DistinctKeys(Meanings(i.entries))
    case SUnit => i.IUnit?
    case SPair(a, b) => i.IPair? && Typed(d, a, i.left) && Typed(d, b, i.right)
    case SStatic(b) => HasStaticSize(b) && Typed(d, b, i)
    case SEnum(w, signed, vs) => i.IInt? && w >= 1 && i.n in vs && IntOf(i.n, w, signed)
    case SFlags(size, count) => i.IFlags? && |i.bits| == count && FlagsFit(d, size, count)
  }

  predicate DistinctKeys(vs: seq<Value>) {
    && (forall k :: 0 <= k < |vs| ==> vs[k].VPair?)
    && (forall j, k :: 0 <= j < k < |vs| ==> vs[j].left != vs[k].left)
  }

  /** Every length prefix can hold its count. Arrays, structs and tuples have no prefix. */
  predicate Fits(s: Schema, v: Value)
    decreases s
  {
    match s
    case SString => v.VText? ==> |v.text| <= MAX_COUNT
    case SOption(t) => v.VSome? ==> Fits(t, v.value)
    case SEither(t, y) => (v.VFirst? ==> Fits(t, v.value)) && (v.VSecond? ==> Fits(y, v.value))
    case SArray(t, _) => v.VList? ==> forall x | x in v.values :: Fits(t, x)
    case SVec(t) => v.VList? ==> |v.values| <= MAX_COUNT && forall x | x in v.values :: Fits(t, x)
    case SMap(e) => v.VMap? ==> |v.m| <= MAX_COUNT && forall k | k in v.m :: Fits(e, VPair(k, v.m[k]))
    case SPair(a, b) => v.VPair? ==> Fits(a, v.left) && Fits(b, v.right)
    case SStatic(b) => Fits(b, v)
    case _ => true
  }

  // ---------------------------------------------------------------- encoding

  function Encode(d: Dialect, s: Schema, i: Item): (r: bytes)
    requires Typed(d, s, i)
    decreases s, 2, 0
  {
    match s
    case SBool => [if i.b then 1 else 0]
    case SUInt(w) => BE(i.n, w)
    case SInt(w) => BE(ToUnsigned(i.n, w), w)
    case SFinite(w) => BE(i.n, w)
    case SString => BE(|i.text|, 2) + i.text
    case SOption(t) => if i.INone? then [0] else [1] + Encode(d, t, i.item)
    case SEither(t, y) => if i.IFirst? then [1] + Encode(d, t, i.item) else [0] + Encode(d, y, i.item)
    case SArray(t, _) => EncodeAll(d, t, i.items)
    case SVec(t) => BE(|i.items|, 2) + EncodeAll(d, t, i.items)
    case SMap(e) => BE(|i.entries|, 2) + EncodeAll(d, e, i.entries)
    case SUnit => []
    case SPair(a, b) => Encode(d, a, i.left) + Encode(d, b, i.right)
    case SStatic(b) => Encode(d, b, i)
    case SEnum(w, signed, _) => BE(if signed then ToUnsigned(i.n, w) else i.n, w)
    case SFlags(size, _) => EncodeFlags(d, size, i.bits)
  }

  function EncodeAll(d: Dialect, s: Schema, items: seq<Item>): (r: bytes)
    requires forall x | x in items :: Typed(d, s, x)
    decreases s, 3, |items|
  {
    if items == [] then [] else Encode(d, s, items[0]) + EncodeAll(d, s, items[1..])
  }

  // ---------------------------------------------------------------- decoding

  function ReadUInt(b: bytes, p: nat, w: nat): (r: Decoded<nat>)
    requires p <= |b|
    ensures p <= r.pos <= |b|
  {
    if p + w > |b| then Err(NotEnoughData, p) else Ok(FromBE(b[p..p + w]), p + w)
  }

  function Decode(d: Dialect, s: Schema, b: bytes, p: nat): (r: Decoded<Value>)
    requires p <= |b| && WellFormed(d, s)
    ensures p <= r.pos <= |b|
    decreases s, 2, 0
  {
    match s
    case SBool => (
      match ReadUInt(b, p, 1)
      case Err(e, q) => Err(e, q)
      case Ok(n, q) => Ok(VBool(n != 0), q)
    )
    case SUInt(w) => (
      match ReadUInt(b, p, w)
      case Err(e, q) => Err(e, q)
      case Ok(n, q) => Ok(VInt(n), q)
    )
    case SInt(w) => (
      match ReadUInt(b, p, w)
      case Err(e, q) => Err(e, q)
      case Ok(n, q) => Ok(VInt(ToSigned(n, w)), q)
    )
    case SFinite(w) => DecodeFinite(d, w, b, p)
    case SString => DecodeText(d, b, p)
    case SOption(t) => (
      match ReadUInt(b, p, 1)
      case Err(e, q) => Err(e, q)
      case Ok(n, q) => if n == 0 then Ok(VNone, q) else SomeOf(Decode(d, t, b, q))
    )
    case SEither(t, y) => (
      match ReadUInt(b, p, 1)
      case Err(e, q) => Err(e, q)
      case Ok(n, q) =>
        if n != 0 then FirstOf(Decode(d, t, b, q)) else SecondOf(Decode(d, y, b, q))
    )
    case SArray(t, n) => ListOf(DecodeN(d, t, n, b, p))
    case SVec(t) => (
      match ReadUInt(b, p, 2)
      case Err(e, q) => Err(e, q)
      case Ok(n, q) => ListOf(DecodeN(d, t, n, b, q))
    )
    case SMap(e) => (
      match ReadUInt(b, p, 2)
      case Err(e, q) => Err(e, q)
      case Ok(n, q) => TableOf(DecodeN(d, e, n, b, q))
    )
    case SUnit => Ok(VUnit, p)
    case SPair(a, c) => (
      match Decode(d, a, b, p)
      case Err(e, q) => Err(e, q)
      case Ok(x, q) => PairOf(x, Decode(d, c, b, q))
    )
    case SStatic(c) => Decode(d, c, b, p)
    case SEnum(w, signed, vs) => DecodeEnum(w, signed, vs, b, p)
    case SFlags(size, count) => DecodeFlagField(d, size, count, b, p)
  }

  /** Only the server refuses NaN and the infinities. */
  function DecodeFinite(d: Dialect, w: nat, b: bytes, p: nat): (r: Decoded<Value>)
    requires p <= |b|
    ensures p <= r.pos <= |b|
  {
    match ReadUInt(b, p, w)
    case Err(e, q) => Err(e, q)
    case Ok(n, q) => if d.Rust? && !IsFinite(n, w) then Err(NonFiniteValue, q) else Ok(VInt(n), q)
  }

  function DecodeText(d: Dialect, b: bytes, p: nat): (r: Decoded<Value>)
    requires p <= |b|
    ensures p <= r.pos <= |b|
  {
    match ReadUInt(b, p, 2)
    case Err(e, q) => Err(e, q)
    case Ok(n, q) =>
      if q + n > |b| then Err(NotEnoughData, q)
      else if d.Rust? && !ValidUtf8(b[q..q + n]) then Err(InvalidStringValue, q)
      else Ok(VText(b[q..q + n]), q + n)
  }

  function DecodeEnum(w: nat, signed: bool, vs: seq<int>, b: bytes, p: nat): (r: Decoded<Value>)
    requires p <= |b|
    ensures p <= r.pos <= |b|
  {
    match ReadUInt(b, p, w)
    case Err(e, q) => Err(e, q)
    case Ok(n, q) =>
      var x := if signed then ToSigned(n, w) else n;
      if x in vs then Ok(VInt(x), q) else Err(InvalidEnumValue, q)
  }

  /** A Rust reader that runs out of bytes in a bit field has consumed them; the C++ one checks first. */
  function DecodeFlagField(d: Dialect, size: nat, count: nat, b: bytes, p: nat): (r: Decoded<Value>)
    requires p <= |b| && FlagsFit(d, size, count)
    ensures p <= r.pos <= |b|
  {
    var w := FlagWidth(d, size, count);
    if p + w > |b| then Err(NotEnoughData, if d.Rust? then |b| else p)
    else Ok(VFlags(DecodeFlags(d, size, count, b[p..p + w])), p + w)
  }

  function SomeOf(r: Decoded<Value>): (q: Decoded<Value>)
  {
    match r
    case Ok(v, p) => Ok(VSome(v), p)
    case Err(e, p) => Err(e, p)
  }

  function FirstOf(r: Decoded<Value>): (q: Decoded<Value>)
  {
    match r
    case Ok(v, p) => Ok(VFirst(v), p)
    case Err(e, p) => Err(e, p)
  }

  function SecondOf(r: Decoded<Value>): (q: Decoded<Value>)
  {
    match r
    case Ok(v, p) => Ok(VSecond(v), p)
    case Err(e, p) => Err(e, p)
  }

  function PairOf(x: Value, r: Decoded<Value>): (q: Decoded<Value>)
  {
    match r
    case Ok(v, p) => Ok(VPair(x, v), p)
    case Err(e, p) => Err(e, p)
  }

  function ListOf(r: Decoded<seq<Value>>): (q: Decoded<Value>)
  {
    match r
    case Ok(v, p) => Ok(VList(v), p)
    case Err(e, p) => Err(e, p)
  }

  function TableOf(r: Decoded<seq<Value>>): (q: Decoded<Value>)
  {
    match r
    case Ok(v, p) => Ok(VMap(MapOf(v)), p)
    case Err(e, p) => Err(e, p)
  }

  function DecodeN(d: Dialect, s: Schema, n: nat, b: bytes, p: nat): (r: Decoded<seq<Value>>)
    requires p <= |b| && WellFormed(d, s)
    ensures p <= r.pos <= |b|
    ensures r.Ok? ==> |r.value| == n
    decreases s, 3, n
  {
    if n == 0 then Ok([], p)
    else
      match Decode(d, s, b, p)
      case Err(e, q) => Err(e, q)
      case Ok(v, q) =>
        match DecodeN(d, s, n - 1, b, q)
        case Err(e, t) => Err(e, t)
        case Ok(vs, t) => Ok([v] + vs, t)
  }

  // ---------------------------------------------------------------- sizes

  predicate HasStaticSize(s: Schema) {
    match s
    case SString => false
    case SVec(_) => false
    case SMap(_) => false
    case SOption(t) => HasStaticSize(t)
    case SEither(t, y) => HasStaticSize(t) && HasStaticSize(y)
    case SArray(t, _) => HasStaticSize(t)
    case SPair(a, b) => HasStaticSize(a) && HasStaticSize(b)
    case SStatic(b) => HasStaticSize(b)
    case _ => true
  }

  /** `StaticSize::ENCODED_SIZE`. A struct without fields counts 0, also when it is a bit struct. */
  function StaticSize(s: Schema): (n: nat)
    requires HasStaticSize(s)
  {
    match s
    case SBool => 1
    case SUInt(w) => w
    case SInt(w) => w
    case SFinite(w) => w
    case SOption(t) => 1 + StaticSize(t)
    case SEither(t, y) => 1 + if StaticSize(t) >= StaticSize(y) then StaticSize(t) else StaticSize(y)
    case SArray(t, n) => StaticSize(t) * n
    case SUnit => 0
    case SPair(a, b) => StaticSize(a) + StaticSize(b)
    case SStatic(b) => StaticSize(b)
    case SEnum(w, _, _) => w
    case SFlags(size, count) => if count == 0 then 0 else size
  }

  /** `DynamicSize::encoded_size`. */
  function EncodedSize(s: Schema, i: Item): (n: nat)
    requires Typed(Rust, s, i)
    decreases s, 2, 0
  {
    match s
    case SBool => 1
    case SUInt(w) => w
    case SInt(w) => w
    case SFinite(w) => w
    case SString => 2 + |i.text|
    case SOption(t) => 1 + if i.INone? then 0 else EncodedSize(t, i.item)
    case SEither(t, y) => 1 + if i.IFirst? then EncodedSize(t, i.item) else EncodedSize(y, i.item)
    case SArray(t, _) => EncodedSizes(t, i.items)
    case SVec(t) => 2 + EncodedSizes(t, i.items)
    case SMap(e) => 2 + EncodedSizes(e, i.entries)
    case SUnit => 0
    case SPair(a, b) => EncodedSize(a, i.left) + EncodedSize(b, i.right)
    case SStatic(b) => StaticSize(b)
    case SEnum(w, _, _) => w
    case SFlags(size, count) => if count == 0 then 0 else size
  }

  function EncodedSizes(s: Schema, items: seq<Item>): (n: nat)
    requires forall x | x in items :: Typed(Rust, s, x)
    decreases s, 3, |items|
  {
    if items == [] then 0 else EncodedSize(s, items[0]) + EncodedSizes(s, items[1..])
  }

  /** No part of `i` is a bit struct that has no fields and yet an explicit non-zero size. */
  predicate Clean(s: Schema, i: Item)
    requires Typed(Rust, s, i)
    decreases s
  {
    match s
    case SOption(t) => i.ISome? ==> Clean(t, i.item)
    case SEither(t, y) => if i.IFirst? then Clean(t, i.item) else Clean(y, i.item)
    case SArray(t, _) => forall x | x in i.items :: Clean(t, x)
    case SVec(t) => forall x | x in i.items :: Clean(t, x)
    case SMap(e) => forall x | x in i.entries :: Clean(e, x)
    case SPair(a, b) => Clean(a, i.left) && Clean(b, i.right)
    case SStatic(b) => Clean(b, i)
    case SFlags(size, count) => count == 0 ==> size == 0
    case _ => true
  }

  predicate NoAsStatic(s: Schema) {
    match s
    case SOption(t) => NoAsStatic(t)
    case SEither(t, y) => NoAsStatic(t) && NoAsStatic(y)
    case SArray(t, _) => NoAsStatic(t)
    case SVec(t) => NoAsStatic(t)
    case SMap(e) => NoAsStatic(e)
    case SPair(a, b) => NoAsStatic(a) && NoAsStatic(b)
    case SStatic(_) => false
    case _ => true
  }
}
