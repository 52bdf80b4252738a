/**
 The state of a player in a level, the packet sent most often. A client writes its flags one by
 one, the server keeps them as raw bit fields of a whole number of bytes and sends them on; what
 another client reads is what the first one wrote, unless the server refuses it: it takes finite
 floats only. Floats are their bit patterns.
 */
module PlayerUpdates {
  import opened Bytes
  import opened Flags
  import opened Wire
  import opened WireLaws
  import opened WireAgreement
  import opened CodecSteps
  import opened CppBuffer

  type f32 = n: nat | n < 0x1_0000_0000
  type icon = n: nat | n <= 9

  datatype Point = Point(x: f32, y: f32)

  datatype Teleport = NoTeleport | Teleport(from: Point, to: Point)

  /** `SpecificIconData`. */
  datatype Icon = Icon(
    position: Point,
    rotation: f32,
    iconType: icon,
    isVisible: bool,
    isLookingLeft: bool,
    isUpsideDown: bool,
    isDashing: bool,
    isMini: bool,
    isGrounded: bool,
    isStationary: bool,
    isFalling: bool,
    didJustJump: bool,
    isRotating: bool,
    isSideways: bool,
    teleport: Teleport)

  datatype PlayerData = PlayerData(
    timestamp: f32,
    player1: Icon,
    player2: Icon,
    lastDeathTimestamp: f32,
    currentPercentage: f32,
    isDead: bool,
    isPaused: bool,
    isPracticing: bool,
    isDualMode: bool,
    isInEditor: bool,
    isEditorBuilding: bool)

  // ---------------------------------------------------------------- the two schemas

  /** The server's `FiniteF32`, the client's `float`. */
  const F32 := SFinite(4)
  const POINT := SPair(F32, SPair(F32, SUnit))
  const TELEPORT := SPair(POINT, SPair(POINT, SUnit))
  const KIND := SEnum(1, false, [0, 1, 2, 3, 4, 5, 6, 7, 8, 9])

  /** The client packs eleven and six flags; the server has `Bits<2>` and `Bits<1>`. */
  function IconSchema(d: Dialect): (s: Schema) {
    SPair(POINT, SPair(F32, SPair(KIND, SPair(SFlags(2, if d.Cpp? then 11 else 16), SPair(MaybeTeleport(d), SUnit)))))
  }

  function MaybeTeleport(d: Dialect): (s: Schema) {
    SOption(if d.Cpp? then TELEPORT else SStatic(TELEPORT))
  }

  function PlayerSchema(d: Dialect): (s: Schema) {
    SPair(F32, SPair(IconSchema(d), SPair(IconSchema(d), SPair(F32, SPair(F32, SPair(SFlags(1, if d.Cpp? then 6 else 8), SUnit))))))
  }

  // ---------------------------------------------------------------- what is written

  function PointItem(p: Point): (i: Item) {
    IPair(IInt(p.x), IPair(IInt(p.y), IUnit))
  }

  function TeleportItem(t: Teleport): (i: Item) {
    if t.NoTeleport? then INone else ISome(IPair(PointItem(t.from), IPair(PointItem(t.to), IUnit)))
  }

  function IconFlags(c: Icon): (bits: seq<bool>)
    ensures |bits| == 11
  {
    [c.isVisible, c.isLookingLeft, c.isUpsideDown, c.isDashing, c.isMini, c.isGrounded, c.isStationary, c.isFalling,
     c.didJustJump, c.isRotating, c.isSideways]
  }

  function PlayerFlags(p: PlayerData): (bits: seq<bool>)
    ensures |bits| == 6
  {
    [p.isDead, p.isPaused, p.isPracticing, p.isDualMode, p.isInEditor, p.isEditorBuilding]
  }

  /** Flags as the side `d` holds them: the server has every bit of the field. */
  function Widen(d: Dialect, bits: seq<bool>, count: nat): (r: seq<bool>)
    requires |bits| <= count
  {
    if d.Cpp? then bits else bits + seq(count - |bits|, _ => false)
  }

  function IconItem(d: Dialect, c: Icon): (i: Item) {
    IPair(PointItem(c.position), IPair(IInt(c.rotation), IPair(IInt(c.iconType),
      IPair(IFlags(Widen(d, IconFlags(c), 16)), IPair(TeleportItem(c.teleport), IUnit)))))
  }

  function PlayerItem(d: Dialect, p: PlayerData): (i: Item) {
    IPair(IInt(p.timestamp), IPair(IconItem(d, p.player1), IPair(IconItem(d, p.player2),
      IPair(IInt(p.lastDeathTimestamp), IPair(IInt(p.currentPercentage), IPair(IFlags(Widen(d, PlayerFlags(p), 8)), IUnit))))))
  }

  // ---------------------------------------------------------------- what is read

  function NumberOf(v: Value): (n: f32) {
    if v.VInt? && 0 <= v.n < 0x1_0000_0000 then v.n else 0
  }

  function KindOf(v: Value): (n: icon) {
    if v.VInt? && 0 <= v.n <= 9 then v.n else 0
  }

  function Head(v: Value): (r: Value) {
    if v.VPair? then v.left else VUnit
  }

  function Rest(v: Value): (r: Value) {
    if v.VPair? then v.right else VUnit
  }

  function PointOf(v: Value): (p: Point) {
    Point(NumberOf(Head(v)), NumberOf(Head(Rest(v))))
  }

  function TeleportOf(v: Value): (t: Teleport) {
    if v.VSome? then Teleport(PointOf(Head(v.value)), PointOf(Head(Rest(v.value)))) else NoTeleport
  }

  predicate FlagAt(v: Value, k: nat) {
    v.VFlags? && k < |v.bits| && v.bits[k]
  }

  /** The fields of an icon in the order they are read. */
  function IconOf(v: Value): (c: Icon) {
    var a := Rest(v);
    var b := Rest(a);
    var f := Rest(b);
    var g := Head(f);
    Icon(PointOf(Head(v)), NumberOf(Head(a)), KindOf(Head(b)),
         FlagAt(g, 0), FlagAt(g, 1), FlagAt(g, 2), FlagAt(g, 3), FlagAt(g, 4), FlagAt(g, 5), FlagAt(g, 6), FlagAt(g, 7),
         FlagAt(g, 8), FlagAt(g, 9), FlagAt(g, 10), TeleportOf(Head(Rest(f))))
  }

  function PlayerOf(v: Value): (p: PlayerData) {
    var a := Rest(v);
    var b := Rest(a);
    var c := Rest(b);
    var d := Rest(c);
    var g := Head(Rest(d));
    PlayerData(NumberOf(Head(v)), IconOf(Head(a)), IconOf(Head(b)), NumberOf(Head(c)), NumberOf(Head(d)),
               FlagAt(g, 0), FlagAt(g, 1), FlagAt(g, 2), FlagAt(g, 3), FlagAt(g, 4), FlagAt(g, 5))
  }

  lemma MeaningOfPair(i: Item, j: Item)
    ensures Meaning(IPair(i, j)) == VPair(Meaning(i), Meaning(j))
  {
  }

  lemma {:induction false} MeaningOfPoint(p: Point)
    ensures PointOf(Meaning(PointItem(p))) == p
  {
    MeaningOfPair(IInt(p.x), IPair(IInt(p.y), IUnit));
    MeaningOfPair(IInt(p.y), IUnit);
  }

  lemma {:induction false} MeaningOfTeleport(t: Teleport)
    ensures TeleportOf(Meaning(TeleportItem(t))) == t
  {
    if t.Teleport? {
      MeaningOfPoint(t.from);
      MeaningOfPoint(t.to);
      MeaningOfPair(PointItem(t.from), IPair(PointItem(t.to), IUnit));
      MeaningOfPair(PointItem(t.to), IUnit);
      assert Meaning(TeleportItem(t)) == VSome(Meaning(IPair(PointItem(t.from), IPair(PointItem(t.to), IUnit))));
      hide Meaning, PointItem, PointOf;
    }
  }

  lemma MeaningOfFlags(bits: seq<bool>)
    ensures Meaning(IFlags(bits)) == VFlags(bits)
  {
  }

  lemma MeaningOfInt(n: int)
    ensures Meaning(IInt(n)) == VInt(n)
  {
  }

  lemma {:induction false} IconFlagsBack(d: Dialect, c: Icon)
    ensures
      var g := VFlags(Widen(d, IconFlags(c), 16));
      && FlagAt(g, 0) == c.isVisible && FlagAt(g, 1) == c.isLookingLeft && FlagAt(g, 2) == c.isUpsideDown
      && FlagAt(g, 3) == c.isDashing && FlagAt(g, 4) == c.isMini && FlagAt(g, 5) == c.isGrounded
      && FlagAt(g, 6) == c.isStationary && FlagAt(g, 7) == c.isFalling && FlagAt(g, 8) == c.didJustJump
      && FlagAt(g, 9) == c.isRotating && FlagAt(g, 10) == c.isSideways
  {
    hide FlagAt, Widen;
    var f := IconFlags(c);
    FlagBack(d, f, 16, 0); FlagBack(d, f, 16, 1); FlagBack(d, f, 16, 2); FlagBack(d, f, 16, 3);
    FlagBack(d, f, 16, 4); FlagBack(d, f, 16, 5); FlagBack(d, f, 16, 6); FlagBack(d, f, 16, 7);
    FlagBack(d, f, 16, 8); FlagBack(d, f, 16, 9); FlagBack(d, f, 16, 10);
  }

  lemma FlagBack(d: Dialect, bits: seq<bool>, count: nat, k: nat)
    requires k < |bits| <= count
    ensures FlagAt(VFlags(Widen(d, bits, count)), k) == bits[k]
  {
  }

  /** Every field of an icon comes back as itself, on either side. */
  lemma {:induction false} MeaningOfIcon(d: Dialect, c: Icon)
    ensures IconOf(Meaning(IconItem(d, c))) == c
  {
    MeaningOfPoint(c.position);
    MeaningOfTeleport(c.teleport);
    IconFlagsBack(d, c);
    hide Meaning, PointItem, TeleportItem, PointOf, TeleportOf, FlagAt, Widen, IconFlags;
    var w := IFlags(Widen(d, IconFlags(c), 16));
    var t := IPair(TeleportItem(c.teleport), IUnit);
    MeaningOfPair(PointItem(c.position), IPair(IInt(c.rotation), IPair(IInt(c.iconType), IPair(w, t))));
    MeaningOfPair(IInt(c.rotation), IPair(IInt(c.iconType), IPair(w, t)));
    MeaningOfPair(IInt(c.iconType), IPair(w, t));
    MeaningOfPair(w, t);
    MeaningOfPair(TeleportItem(c.teleport), IUnit);
    MeaningOfFlags(w.bits);
    MeaningOfInt(c.rotation);
    MeaningOfInt(c.iconType);
  }

  lemma {:induction false} PlayerFlagsBack(d: Dialect, p: PlayerData)
    ensures
      var g := VFlags(Widen(d, PlayerFlags(p), 8));
      && FlagAt(g, 0) == p.isDead && FlagAt(g, 1) == p.isPaused && FlagAt(g, 2) == p.isPracticing
      && FlagAt(g, 3) == p.isDualMode && FlagAt(g, 4) == p.isInEditor && FlagAt(g, 5) == p.isEditorBuilding
  {
    hide FlagAt, Widen;
    var f := PlayerFlags(p);
    FlagBack(d, f, 8, 0); FlagBack(d, f, 8, 1); FlagBack(d, f, 8, 2);
    FlagBack(d, f, 8, 3); FlagBack(d, f, 8, 4); FlagBack(d, f, 8, 5);
  }

  lemma {:induction false} MeaningOfPlayer(d: Dialect, p: PlayerData)
    ensures PlayerOf(Meaning(PlayerItem(d, p))) == p
  {
    MeaningOfIcon(d, p.player1);
    MeaningOfIcon(d, p.player2);
    PlayerFlagsBack(d, p);
    hide Meaning, IconItem, IconOf, FlagAt, Widen, PlayerFlags;
    var w := IFlags(Widen(d, PlayerFlags(p), 8));
    var z := IPair(w, IUnit);
    var y := IPair(IInt(p.currentPercentage), z);
    var x := IPair(IInt(p.lastDeathTimestamp), y);
    MeaningOfPair(IInt(p.timestamp), IPair(IconItem(d, p.player1), IPair(IconItem(d, p.player2), x)));
    MeaningOfPair(IconItem(d, p.player1), IPair(IconItem(d, p.player2), x));
    MeaningOfPair(IconItem(d, p.player2), x);
    MeaningOfPair(IInt(p.lastDeathTimestamp), y);
    MeaningOfPair(IInt(p.currentPercentage), z);
    MeaningOfPair(w, IUnit);
    MeaningOfFlags(w.bits);
    MeaningOfInt(p.timestamp);
    MeaningOfInt(p.lastDeathTimestamp);
    MeaningOfInt(p.currentPercentage);
  }

  // ---------------------------------------------------------------- which states are finite

  predicate FinitePoint(p: Point) {
    IsFinite(p.x, 4) && IsFinite(p.y, 4)
  }

  predicate FiniteTeleport(t: Teleport) {
    t.Teleport? ==> FinitePoint(t.from) && FinitePoint(t.to)
  }

  predicate FiniteIcon(c: Icon) {
    FinitePoint(c.position) && IsFinite(c.rotation, 4) && FiniteTeleport(c.teleport)
  }

  /** No float of the state is NaN or infinite. */
  predicate FinitePlayer(p: PlayerData) {
    && IsFinite(p.timestamp, 4) && IsFinite(p.lastDeathTimestamp, 4) && IsFinite(p.currentPercentage, 4)
    && FiniteIcon(p.player1) && FiniteIcon(p.player2)
  }

  // ---------------------------------------------------------------- the same bytes on both sides

  /**
   `i` as the client has it and `j` as the server has it are the same `n` bytes, and `j` is an
   object of the server's type exactly if `finite`.
   */
  ghost predicate Twin(x: Schema, i: Item, y: Schema, j: Item, n: nat, finite: bool) {
    && WellFormed(Cpp, x) && WellFormed(Rust, y) && Portable(y) && NoText(y)
    && Typed(Cpp, x, i) && Typed(Cpp, y, j) && (Typed(Rust, y, j) <==> finite)
    && Fits(x, Meaning(i)) && Fits(y, Meaning(j))
    && Encode(Cpp, x, i) == Encode(Cpp, y, j) && |Encode(Cpp, x, i)| == n
  }

  lemma {:induction false} TwinPair(x: Schema, i: Item, y: Schema, j: Item, n: nat, f: bool,
                                    x': Schema, i': Item, y': Schema, j': Item, m: nat, f': bool)
    requires Twin(x, i, y, j, n, f) && Twin(x', i', y', j', m, f')
    ensures Twin(SPair(x, x'), IPair(i, i'), SPair(y, y'), IPair(j, j'), n + m, f && f')
  {
    hide Typed, Encode, Fits, Meaning, WellFormed, Portable, NoText;
    PairTyped(Cpp, x, x', i, i');
    PairTyped(Cpp, y, y', j, j');
    PairTyped(Rust, y, y', j, j');
    PairShared(y, y');
    PairParts(Cpp, x, x', IPair(i, i'));
    PairParts(Cpp, y, y', IPair(j, j'));
  }

  lemma PairShared(x: Schema, y: Schema)
    ensures Portable(SPair(x, y)) <==> Portable(x) && Portable(y)
    ensures NoText(SPair(x, y)) <==> NoText(x) && NoText(y)
  {
  }

  lemma {:induction false} PairTyped(d: Dialect, x: Schema, y: Schema, i: Item, j: Item)
    ensures Typed(d, SPair(x, y), IPair(i, j)) <==> Typed(d, x, i) && Typed(d, y, j)
    ensures WellFormed(d, SPair(x, y)) <==> WellFormed(d, x) && WellFormed(d, y)
  {
  }

  /** `TwinPair` for a part that is the same object and the same type on both sides. */
  lemma {:induction false} TwinThen(x: Schema, i: Item, n: nat, f: bool, x': Schema, i': Item, y': Schema, j': Item, m: nat, f': bool)
    requires Twin(x, i, x, i, n, f) && Twin(x', i', y', j', m, f')
    ensures Twin(SPair(x, x'), IPair(i, i'), SPair(x, y'), IPair(i, j'), n + m, f && f')
  {
    hide Twin;
    TwinPair(x, i, x, i, n, f, x', i', y', j', m, f');
  }

  lemma {:induction false} TwinUnit()
    ensures Twin(SUnit, IUnit, SUnit, IUnit, 0, true)
  {
  }

  lemma {:induction false} TwinNumber(n: f32)
    ensures Twin(F32, IInt(n), F32, IInt(n), 4, IsFinite(n, 4))
  {
    Pow256Of2();
    assert Pow256(4) == 256 * Pow256(3) && Pow256(3) == 256 * Pow256(2);
    hide BE, IsFinite;
  }

  lemma {:induction false} TwinKind(n: icon)
    ensures Twin(KIND, IInt(n), KIND, IInt(n), 1, true)
  {
    hide BE, IntOf;
    KindShape(n);
  }

  lemma {:induction false} KindShape(n: icon)
    ensures n in KIND.variants && IntOf(n, 1, false)
    ensures forall k | 0 <= k < |KIND.variants| :: IntOf(KIND.variants[k], 1, false)
  {
    assert Pow256(1) == 256 * Pow256(0);
    assert KIND.variants[n] == n;
  }

  lemma {:induction false} TwinFlags(size: nat, bits: seq<bool>)
    requires (size == 1 && 0 < |bits| <= 8) || (size == 2 && 8 < |bits| <= 16)
    ensures Twin(SFlags(size, |bits|), IFlags(bits), SFlags(size, 8 * size), IFlags(Widen(Rust, bits, 8 * size)), size, true)
  {
    hide Pack;
    PackWidened(bits, size);
    var w := Widen(Rust, bits, 8 * size);
    assert Zeros(0) == [];
    assert EncodeFlags(Cpp, size, bits) == Pack(bits, size);
    assert EncodeFlags(Cpp, size, w) == Pack(w, size);
  }

  /** Flags that are not there are packed like flags that are off. */
  lemma {:induction false} PackWidened(bits: seq<bool>, n: nat)
    requires |bits| <= 8 * n
    ensures Pack(bits, n) == Pack(Widen(Rust, bits, 8 * n), n)
  {
    hide FlagByte, Pack, Widen;
    forall j | 0 <= j < n
      ensures FlagByte(bits, j) == FlagByte(Widen(Rust, bits, 8 * n), j)
    {
      FlagByteWidened(bits, 8 * n, j);
    }
  }

  lemma {:induction false} FlagByteWidened(bits: seq<bool>, count: nat, j: nat)
    requires |bits| <= count
    ensures FlagByte(bits, j) == FlagByte(Widen(Rust, bits, count), j)
  {
    hide Bit, Widen;
    BitWidened(bits, count, 8 * j); BitWidened(bits, count, 8 * j + 1);
    BitWidened(bits, count, 8 * j + 2); BitWidened(bits, count, 8 * j + 3);
    BitWidened(bits, count, 8 * j + 4); BitWidened(bits, count, 8 * j + 5);
    BitWidened(bits, count, 8 * j + 6); BitWidened(bits, count, 8 * j + 7);
  }

  lemma BitWidened(bits: seq<bool>, count: nat, i: nat)
    requires |bits| <= count
    ensures Bit(bits, i) == Bit(Widen(Rust, bits, count), i)
  {
  }

  lemma {:induction false} TwinPoint(p: Point)
    ensures Twin(POINT, PointItem(p), POINT, PointItem(p), 8, FinitePoint(p))
  {
    hide Twin, IsFinite;
    TwinUnit();
    TwinNumber(p.x);
    TwinNumber(p.y);
    var y := IPair(IInt(p.y), IUnit);
    TwinThen(F32, IInt(p.y), 4, IsFinite(p.y, 4), SUnit, IUnit, SUnit, IUnit, 0, true);
    TwinThen(F32, IInt(p.x), 4, IsFinite(p.x, 4), SPair(F32, SUnit), y, SPair(F32, SUnit), y, 4, IsFinite(p.y, 4));
  }

  lemma {:induction false} TwinNone(x: Schema, y: Schema)
    requires WellFormed(Cpp, x) && WellFormed(Rust, y) && Portable(y) && NoText(y)
    ensures Twin(SOption(x), INone, SOption(y), INone, 1, true)
  {
  }

  lemma {:induction false} TwinSome(x: Schema, i: Item, y: Schema, j: Item, n: nat, f: bool)
    requires Twin(x, i, y, j, n, f) && HasStaticSize(y)
    ensures Twin(SOption(x), ISome(i), SOption(SStatic(y)), ISome(j), 1 + n, f)
  {
    SomeParts(Cpp, x, i);
    SomeParts(Cpp, SStatic(y), j);
    SomeParts(Rust, SStatic(y), j);
    StaticParts(Cpp, y, j);
    StaticParts(Rust, y, j);
    StaticBytes(Cpp, y, j);
    SharedParts(y);
    hide Encode, Typed, Fits, Meaning, WellFormed, HasStaticSize, Portable, NoText;
  }

  lemma {:induction false} SharedParts(s: Schema)
    ensures Portable(SOption(SStatic(s))) == Portable(s) && NoText(SOption(SStatic(s))) == NoText(s)
  {
    assert Portable(SStatic(s)) == Portable(s) && NoText(SStatic(s)) == NoText(s);
  }

  lemma {:induction false} SomeParts(d: Dialect, s: Schema, i: Item)
    ensures WellFormed(d, SOption(s)) <==> WellFormed(d, s)
    ensures Typed(d, SOption(s), ISome(i)) <==> Typed(d, s, i)
    ensures Fits(SOption(s), Meaning(ISome(i))) <==> Fits(s, Meaning(i))
    ensures Typed(d, s, i) ==> Encode(d, SOption(s), ISome(i)) == [1] + Encode(d, s, i)
  {
  }

  lemma {:induction false} StaticParts(d: Dialect, s: Schema, i: Item)
    requires HasStaticSize(s)
    ensures WellFormed(d, SStatic(s)) <==> WellFormed(d, s)
    ensures Typed(d, SStatic(s), i) <==> Typed(d, s, i)
    ensures Fits(SStatic(s), Meaning(i)) <==> Fits(s, Meaning(i))
  {
    StaticFits(s, Meaning(i));
    hide Meaning, Fits;
  }

  lemma StaticFits(s: Schema, v: Value)
    ensures Fits(SStatic(s), v) <==> Fits(s, v)
  {
  }

  lemma {:induction false} StaticBytes(d: Dialect, s: Schema, i: Item)
    requires Typed(d, SStatic(s), i)
    ensures Typed(d, s, i) && Encode(d, SStatic(s), i) == Encode(d, s, i)
  {
  }

  function TeleportSize(t: Teleport): (n: nat) {
    if t.NoTeleport? then 0 else 16
  }

  lemma {:induction false} TwinTeleport(t: Teleport)
    ensures Twin(MaybeTeleport(Cpp), TeleportItem(t), MaybeTeleport(Rust), TeleportItem(t), 1 + TeleportSize(t), FiniteTeleport(t))
  {
    TeleportShape();
    hide Twin, PointItem, FinitePoint, WellFormed, Portable, NoText, HasStaticSize;
    if t.NoTeleport? {
      TwinNone(TELEPORT, SStatic(TELEPORT));
    } else {
      TwinUnit();
      TwinPoint(t.from);
      TwinPoint(t.to);
      var y, f := IPair(PointItem(t.to), IUnit), FinitePoint(t.to);
      TwinThen(POINT, PointItem(t.to), 8, f, SUnit, IUnit, SUnit, IUnit, 0, true);
      TwinThen(POINT, PointItem(t.from), 8, FinitePoint(t.from), SPair(POINT, SUnit), y, SPair(POINT, SUnit), y, 8, f);
      TwinSome(TELEPORT, IPair(PointItem(t.from), y), TELEPORT, IPair(PointItem(t.from), y), 16, FinitePoint(t.from) && f);
    }
  }

  lemma {:induction false} TeleportShape()
    ensures HasStaticSize(TELEPORT) && WellFormed(Cpp, TELEPORT) && WellFormed(Rust, SStatic(TELEPORT))
    ensures Portable(SStatic(TELEPORT)) && NoText(SStatic(TELEPORT))
  {
    PairShape(F32, SUnit);
    PairShape(F32, SPair(F32, SUnit));
    PairShape(POINT, SUnit);
    PairShape(POINT, SPair(POINT, SUnit));
  }

  predicate Plain(s: Schema) {
    HasStaticSize(s) && WellFormed(Cpp, s) && WellFormed(Rust, s) && Portable(s) && NoText(s)
  }

  lemma {:induction false} PairShape(x: Schema, y: Schema)
    ensures Plain(SPair(x, y)) <==> Plain(x) && Plain(y)
  {
  }

  lemma {:induction false} TwinIcon(c: Icon)
    ensures Twin(IconSchema(Cpp), IconItem(Cpp, c), IconSchema(Rust), IconItem(Rust, c), 16 + TeleportSize(c.teleport), FiniteIcon(c))
  {
    hide Twin, PointItem, TeleportItem, MaybeTeleport, TeleportSize, IconFlags, Widen, IsFinite, FinitePoint;
    var i5, n, f := IPair(TeleportItem(c.teleport), IUnit), 1 + TeleportSize(c.teleport), FiniteTeleport(c.teleport);
    var x5, y5 := SPair(MaybeTeleport(Cpp), SUnit), SPair(MaybeTeleport(Rust), SUnit);
    TwinUnit();
    TwinTeleport(c.teleport);
    TwinPair(MaybeTeleport(Cpp), TeleportItem(c.teleport), MaybeTeleport(Rust), TeleportItem(c.teleport), n, f, SUnit, IUnit, SUnit, IUnit, 0, true);
    var u, w := IFlags(Widen(Cpp, IconFlags(c), 16)), IFlags(Widen(Rust, IconFlags(c), 16));
    IconTwinFlags(c);
    var x4, y4 := SPair(SFlags(2, 11), x5), SPair(SFlags(2, 16), y5);
    TwinPair(SFlags(2, 11), u, SFlags(2, 16), w, 2, true, x5, i5, y5, i5, n, f);
    TwinIconHead(c, x4, IPair(u, i5), y4, IPair(w, i5), 2 + n, f);
  }

  lemma {:induction false} TwinIconHead(c: Icon, x: Schema, i: Item, y: Schema, j: Item, n: nat, f: bool)
    requires Twin(x, i, y, j, n, f)
    ensures Twin(SPair(POINT, SPair(F32, SPair(KIND, x))), IPair(PointItem(c.position), IPair(IInt(c.rotation), IPair(IInt(c.iconType), i))),
                 SPair(POINT, SPair(F32, SPair(KIND, y))), IPair(PointItem(c.position), IPair(IInt(c.rotation), IPair(IInt(c.iconType), j))),
                 13 + n, FinitePoint(c.position) && IsFinite(c.rotation, 4) && f)
  {
    hide Twin, PointItem, IsFinite, FinitePoint;
    TwinKind(c.iconType);
    TwinThen(KIND, IInt(c.iconType), 1, true, x, i, y, j, n, f);
    TwinNumber(c.rotation);
    var r := IsFinite(c.rotation, 4);
    var u, w := IPair(IInt(c.iconType), i), IPair(IInt(c.iconType), j);
    TwinThen(F32, IInt(c.rotation), 4, r, SPair(KIND, x), u, SPair(KIND, y), w, 1 + n, f);
    TwinPoint(c.position);
    TwinThen(POINT, PointItem(c.position), 8, FinitePoint(c.position), SPair(F32, SPair(KIND, x)), IPair(IInt(c.rotation), u),
             SPair(F32, SPair(KIND, y)), IPair(IInt(c.rotation), w), 5 + n, r && f);
  }

  lemma {:induction false} IconTwinFlags(c: Icon)
    ensures Twin(SFlags(2, 11), IFlags(Widen(Cpp, IconFlags(c), 16)), SFlags(2, 16), IFlags(Widen(Rust, IconFlags(c), 16)), 2, true)
  {
    hide Twin, IconFlags;
    TwinFlags(2, IconFlags(c));
  }

  lemma {:induction false} PlayerTwinFlags(p: PlayerData)
    ensures Twin(SFlags(1, 6), IFlags(Widen(Cpp, PlayerFlags(p), 8)), SFlags(1, 8), IFlags(Widen(Rust, PlayerFlags(p), 8)), 1, true)
  {
    hide Twin, PlayerFlags;
    TwinFlags(1, PlayerFlags(p));
  }

  /** A player takes 45 bytes and 16 more for each spider teleport. */
  function PlayerSize(p: PlayerData): (n: nat)
    ensures 45 <= n <= 77
  {
    45 + TeleportSize(p.player1.teleport) + TeleportSize(p.player2.teleport)
  }

  lemma {:induction false} TwinPlayer(p: PlayerData)
    ensures Twin(PlayerSchema(Cpp), PlayerItem(Cpp, p), PlayerSchema(Rust), PlayerItem(Rust, p), PlayerSize(p), FinitePlayer(p))
  {
    hide Twin, IconItem, IconSchema, PlayerFlags, Widen, TeleportSize, FiniteIcon, IsFinite;
    var u, w := IFlags(Widen(Cpp, PlayerFlags(p), 8)), IFlags(Widen(Rust, PlayerFlags(p), 8));
    TwinUnit();
    PlayerTwinFlags(p);
    var x6, y6, u6, w6 := SPair(SFlags(1, 6), SUnit), SPair(SFlags(1, 8), SUnit), IPair(u, IUnit), IPair(w, IUnit);
    TwinPair(SFlags(1, 6), u, SFlags(1, 8), w, 1, true, SUnit, IUnit, SUnit, IUnit, 0, true);
    var x5, y5, u5, w5 := SPair(F32, x6), SPair(F32, y6), IPair(IInt(p.currentPercentage), u6), IPair(IInt(p.currentPercentage), w6);
    TwinNumber(p.currentPercentage);
    TwinThen(F32, IInt(p.currentPercentage), 4, IsFinite(p.currentPercentage, 4), x6, u6, y6, w6, 1, true);
    TwinNumber(p.lastDeathTimestamp);
    TwinThen(F32, IInt(p.lastDeathTimestamp), 4, IsFinite(p.lastDeathTimestamp, 4), x5, u5, y5, w5, 5, IsFinite(p.currentPercentage, 4));
    TwinPlayerHead(p, SPair(F32, x5), IPair(IInt(p.lastDeathTimestamp), u5), SPair(F32, y5), IPair(IInt(p.lastDeathTimestamp), w5), 9,
                   IsFinite(p.lastDeathTimestamp, 4) && IsFinite(p.currentPercentage, 4));
  }

  lemma {:induction false} TwinPlayerHead(p: PlayerData, x: Schema, i: Item, y: Schema, j: Item, n: nat, f: bool)
    requires Twin(x, i, y, j, n, f)
    ensures Twin(SPair(F32, SPair(IconSchema(Cpp), SPair(IconSchema(Cpp), x))),
                 IPair(IInt(p.timestamp), IPair(IconItem(Cpp, p.player1), IPair(IconItem(Cpp, p.player2), i))),
                 SPair(F32, SPair(IconSchema(Rust), SPair(IconSchema(Rust), y))),
                 IPair(IInt(p.timestamp), IPair(IconItem(Rust, p.player1), IPair(IconItem(Rust, p.player2), j))),
                 36 + TeleportSize(p.player1.teleport) + TeleportSize(p.player2.teleport) + n,
                 IsFinite(p.timestamp, 4) && FiniteIcon(p.player1) && FiniteIcon(p.player2) && f)
  {
    hide Twin, IconItem, IconSchema, TeleportSize, FiniteIcon, IsFinite;
    var a, b := TeleportSize(p.player1.teleport), TeleportSize(p.player2.teleport);
    var g, h := FiniteIcon(p.player1), FiniteIcon(p.player2);
    TwinNumber(p.timestamp);
    TwinIcon(p.player1);
    TwinIcon(p.player2);
    var u, w := IPair(IconItem(Cpp, p.player2), i), IPair(IconItem(Rust, p.player2), j);
    TwinPair(IconSchema(Cpp), IconItem(Cpp, p.player2), IconSchema(Rust), IconItem(Rust, p.player2), 16 + b, h, x, i, y, j, n, f);
    TwinPair(IconSchema(Cpp), IconItem(Cpp, p.player1), IconSchema(Rust), IconItem(Rust, p.player1), 16 + a, g,
             SPair(IconSchema(Cpp), x), u, SPair(IconSchema(Rust), y), w, 16 + b + n, h && f);
    TwinThen(F32, IInt(p.timestamp), 4, IsFinite(p.timestamp, 4),
             SPair(IconSchema(Cpp), SPair(IconSchema(Cpp), x)), IPair(IconItem(Cpp, p.player1), u),
             SPair(IconSchema(Rust), SPair(IconSchema(Rust), y)), IPair(IconItem(Rust, p.player1), w), 32 + a + b + n, g && h && f);
  }

  // ---------------------------------------------------------------- the bytes

  function B(b: bool): (n: nat)
    ensures n <= 1
  {
    if b then 1 else 0
  }

  function PointLayout(p: Point): (b: bytes) {
    BE(p.x, 4) + BE(p.y, 4)
  }

  function TeleportLayout(t: Teleport): (b: bytes) {
    if t.NoTeleport? then [0] else [1] + (PointLayout(t.from) + PointLayout(t.to))
  }

  /** The eleven flags, from the highest bit of two bytes down. */
  function IconFlagLayout(c: Icon): (b: bytes) {
    [128 * B(c.isVisible) + 64 * B(c.isLookingLeft) + 32 * B(c.isUpsideDown) + 16 * B(c.isDashing)
     + 8 * B(c.isMini) + 4 * B(c.isGrounded) + 2 * B(c.isStationary) + B(c.isFalling),
     128 * B(c.didJustJump) + 64 * B(c.isRotating) + 32 * B(c.isSideways)]
  }

  function IconLayout(c: Icon): (b: bytes) {
    PointLayout(c.position) + (BE(c.rotation, 4) + ([c.iconType] + (IconFlagLayout(c) + TeleportLayout(c.teleport))))
  }

  function PlayerFlagLayout(p: PlayerData): (b: byte) {
    128 * B(p.isDead) + 64 * B(p.isPaused) + 32 * B(p.isPracticing) + 16 * B(p.isDualMode) + 8 * B(p.isInEditor) + 4 * B(p.isEditorBuilding)
  }

  function PlayerLayout(p: PlayerData): (b: bytes) {
    BE(p.timestamp, 4) + (IconLayout(p.player1) + (IconLayout(p.player2)
      + (BE(p.lastDeathTimestamp, 4) + (BE(p.currentPercentage, 4) + [PlayerFlagLayout(p)]))))
  }

  /** `i` is an object of the client's type `s`, written as the bytes `b`. */
  predicate Writes(s: Schema, i: Item, b: bytes) {
    Typed(Cpp, s, i) && Encode(Cpp, s, i) == b
  }

  lemma {:induction false} WritesPair(x: Schema, i: Item, a: bytes, y: Schema, j: Item, b: bytes)
    requires Writes(x, i, a) && Writes(y, j, b)
    ensures Writes(SPair(x, y), IPair(i, j), a + b)
  {
    hide Typed, Encode;
    PairTyped(Cpp, x, y, i, j);
    PairParts(Cpp, x, y, IPair(i, j));
  }

  /** The last field of a struct. */
  lemma {:induction false} WritesLast(x: Schema, i: Item, a: bytes)
    requires Writes(x, i, a)
    ensures Writes(SPair(x, SUnit), IPair(i, IUnit), a)
  {
    assert Writes(SUnit, IUnit, []);
    hide Writes;
    WritesPair(x, i, a, SUnit, IUnit, []);
    assert a + [] == a;
  }

  lemma {:induction false} WritesNumber(n: f32)
    ensures Writes(F32, IInt(n), BE(n, 4))
  {
    TwinNumber(n);
    hide BE;
  }

  lemma {:induction false} WritesPoint(p: Point)
    ensures Writes(POINT, PointItem(p), PointLayout(p))
  {
    hide Writes;
    WritesNumber(p.x);
    WritesNumber(p.y);
    WritesLast(F32, IInt(p.y), BE(p.y, 4));
    WritesPair(F32, IInt(p.x), BE(p.x, 4), SPair(F32, SUnit), IPair(IInt(p.y), IUnit), BE(p.y, 4));
  }

  lemma {:induction false} WritesTeleport(t: Teleport)
    ensures Writes(MaybeTeleport(Cpp), TeleportItem(t), TeleportLayout(t))
  {
    hide PointItem, PointLayout;
    if t.Teleport? {
      hide Writes;
      WritesPoint(t.from);
      WritesPoint(t.to);
      WritesLast(POINT, PointItem(t.to), PointLayout(t.to));
      WritesPair(POINT, PointItem(t.from), PointLayout(t.from), SPair(POINT, SUnit), IPair(PointItem(t.to), IUnit), PointLayout(t.to));
      WritesSome(TELEPORT, IPair(PointItem(t.from), IPair(PointItem(t.to), IUnit)), PointLayout(t.from) + PointLayout(t.to));
    }
  }

  lemma {:induction false} WritesSome(x: Schema, i: Item, a: bytes)
    requires Writes(x, i, a)
    ensures Writes(SOption(x), ISome(i), [1] + a)
  {
    hide Typed, Encode, WellFormed, Fits, Meaning;
    SomeParts(Cpp, x, i);
  }

  lemma {:induction false} WritesFlags(size: nat, bits: seq<bool>)
    requires (size == 1 && |bits| == 6) || (size == 2 && |bits| == 11)
    ensures Writes(SFlags(size, |bits|), IFlags(bits), Pack(bits, size))
  {
    hide Pack;
    assert EncodeFlags(Cpp, size, bits) == Zeros(0) + Pack(bits, size);
    assert Zeros(0) + Pack(bits, size) == Pack(bits, size);
  }

  lemma {:induction false} IconFlagBytes(c: Icon)
    ensures Pack(IconFlags(c), 2) == IconFlagLayout(c)
  {
    var f := IconFlags(c);
    TwoFlagBytes(f);
    IconBits(c);
    hide Pack, Bit, IconFlags, FlagByte;
    ByteOf(f, 0);
    ByteOf(f, 1);
  }

  lemma {:induction false} TwoFlagBytes(f: seq<bool>)
    ensures Pack(f, 2) == [FlagByte(f, 0), FlagByte(f, 1)]
  {
    hide FlagByte;
  }

  lemma ByteOf(f: seq<bool>, j: nat)
    ensures
      var k := 8 * j;
      FlagByte(f, j) == 128 * Bit(f, k) + 64 * Bit(f, k + 1) + 32 * Bit(f, k + 2) + 16 * Bit(f, k + 3)
                        + 8 * Bit(f, k + 4) + 4 * Bit(f, k + 5) + 2 * Bit(f, k + 6) + Bit(f, k + 7)
  {
    hide Bit;
  }

  lemma {:induction false} IconBits(c: Icon)
    ensures
      var f := IconFlags(c);
      && Bit(f, 0) == B(c.isVisible) && Bit(f, 1) == B(c.isLookingLeft) && Bit(f, 2) == B(c.isUpsideDown) && Bit(f, 3) == B(c.isDashing)
      && Bit(f, 4) == B(c.isMini) && Bit(f, 5) == B(c.isGrounded) && Bit(f, 6) == B(c.isStationary) && Bit(f, 7) == B(c.isFalling)
      && Bit(f, 8) == B(c.didJustJump) && Bit(f, 9) == B(c.isRotating) && Bit(f, 10) == B(c.isSideways)
      && Bit(f, 11) == Bit(f, 12) == Bit(f, 13) == Bit(f, 14) == Bit(f, 15) == 0
  {
    hide Bit, B;
    var f := IconFlags(c);
    BitIs(f, 0); BitIs(f, 1); BitIs(f, 2); BitIs(f, 3); BitIs(f, 4); BitIs(f, 5); BitIs(f, 6); BitIs(f, 7);
    BitIs(f, 8); BitIs(f, 9); BitIs(f, 10); BitIs(f, 11); BitIs(f, 12); BitIs(f, 13); BitIs(f, 14); BitIs(f, 15);
  }

  lemma BitIs(f: seq<bool>, k: nat)
    ensures Bit(f, k) == if k < |f| then B(f[k]) else 0
  {
  }

  lemma {:induction false} PlayerFlagBytes(p: PlayerData)
    ensures Pack(PlayerFlags(p), 1) == [PlayerFlagLayout(p)]
  {
    var f := PlayerFlags(p);
    assert Pack(f, 1)[0] == FlagByte(f, 0);
    hide Pack;
    assert FlagByte(f, 0) == PlayerFlagLayout(p);
  }

  lemma {:induction false} WritesKind(n: icon)
    ensures Writes(KIND, IInt(n), [n])
  {
    TwinKind(n);
    hide Typed;
    KindByte(n);
    hide BE;
  }

  lemma KindByte(n: icon)
    ensures BE(n, 1) == [n]
  {
    assert BE(n / 256, 0) == [];
  }

  lemma {:induction false} WritesIcon(c: Icon)
    ensures Writes(IconSchema(Cpp), IconItem(Cpp, c), IconLayout(c))
  {
    hide Writes, PointItem, TeleportItem, PointLayout, TeleportLayout, IconFlagLayout, IconFlags, MaybeTeleport, BE;
    WritesTeleport(c.teleport);
    var m := MaybeTeleport(Cpp);
    WritesLast(m, TeleportItem(c.teleport), TeleportLayout(c.teleport));
    WritesFlags(2, IconFlags(c));
    IconFlagBytes(c);
    var s5, i5, b5 := SPair(m, SUnit), IPair(TeleportItem(c.teleport), IUnit), TeleportLayout(c.teleport);
    WritesPair(SFlags(2, 11), IFlags(IconFlags(c)), IconFlagLayout(c), s5, i5, b5);
    var s4, i4, b4 := SPair(SFlags(2, 11), s5), IPair(IFlags(IconFlags(c)), i5), IconFlagLayout(c) + b5;
    WritesKind(c.iconType);
    WritesPair(KIND, IInt(c.iconType), [c.iconType], s4, i4, b4);
    var s3, i3, b3 := SPair(KIND, s4), IPair(IInt(c.iconType), i4), [c.iconType] + b4;
    WritesNumber(c.rotation);
    WritesPair(F32, IInt(c.rotation), BE(c.rotation, 4), s3, i3, b3);
    WritesPoint(c.position);
    WritesPair(POINT, PointItem(c.position), PointLayout(c.position), SPair(F32, s3), IPair(IInt(c.rotation), i3), BE(c.rotation, 4) + b3);
  }

  /** The layout of a player's state, field by field and flag by flag. */
  lemma {:induction false} WritesPlayer(p: PlayerData)
    ensures Writes(PlayerSchema(Cpp), PlayerItem(Cpp, p), PlayerLayout(p))
  {
    hide Writes, IconItem, IconSchema, IconLayout, PlayerFlagLayout, PlayerFlags, BE;
    var f := IFlags(PlayerFlags(p));
    WritesFlags(1, PlayerFlags(p));
    PlayerFlagBytes(p);
    WritesLast(SFlags(1, 6), f, [PlayerFlagLayout(p)]);
    var s6, i6, b6 := SPair(SFlags(1, 6), SUnit), IPair(f, IUnit), [PlayerFlagLayout(p)];
    WritesNumber(p.currentPercentage);
    WritesPair(F32, IInt(p.currentPercentage), BE(p.currentPercentage, 4), s6, i6, b6);
    var s5, i5, b5 := SPair(F32, s6), IPair(IInt(p.currentPercentage), i6), BE(p.currentPercentage, 4) + b6;
    WritesNumber(p.lastDeathTimestamp);
    WritesPair(F32, IInt(p.lastDeathTimestamp), BE(p.lastDeathTimestamp, 4), s5, i5, b5);
    WritesPlayerHead(p, SPair(F32, s5), IPair(IInt(p.lastDeathTimestamp), i5), BE(p.lastDeathTimestamp, 4) + b5);
  }

  lemma {:induction false} WritesPlayerHead(p: PlayerData, s: Schema, i: Item, b: bytes)
    requires Writes(s, i, b)
    ensures Writes(SPair(F32, SPair(IconSchema(Cpp), SPair(IconSchema(Cpp), s))),
                   IPair(IInt(p.timestamp), IPair(IconItem(Cpp, p.player1), IPair(IconItem(Cpp, p.player2), i))),
                   BE(p.timestamp, 4) + (IconLayout(p.player1) + (IconLayout(p.player2) + b)))
  {
    hide Writes, IconItem, IconSchema, IconLayout, BE;
    WritesIcon(p.player2);
    WritesPair(IconSchema(Cpp), IconItem(Cpp, p.player2), IconLayout(p.player2), s, i, b);
    var s2, i2, b2 := SPair(IconSchema(Cpp), s), IPair(IconItem(Cpp, p.player2), i), IconLayout(p.player2) + b;
    WritesIcon(p.player1);
    WritesPair(IconSchema(Cpp), IconItem(Cpp, p.player1), IconLayout(p.player1), s2, i2, b2);
    WritesNumber(p.timestamp);
    WritesPair(F32, IInt(p.timestamp), BE(p.timestamp, 4), SPair(IconSchema(Cpp), s2), IPair(IconItem(Cpp, p.player1), i2), IconLayout(p.player1) + b2);
  }

  // ---------------------------------------------------------------- relay

  /**
   A player's state inside any packet, `PlayerSize` bytes as the client writes it. Another client
   always reads it back. The server reads it if and only if every float in it is finite; then it
   has the same state and writes the same bytes, and otherwise the value is refused as not finite.
   */
  lemma {:induction false} Relay(p: PlayerData, pre: bytes, post: bytes)
    ensures Twin(PlayerSchema(Cpp), PlayerItem(Cpp, p), PlayerSchema(Rust), PlayerItem(Rust, p), PlayerSize(p), FinitePlayer(p))
    ensures
      var e := Encode(Cpp, PlayerSchema(Cpp), PlayerItem(Cpp, p));
      var server, client := Decode(Rust, PlayerSchema(Rust), pre + e + post, |pre|), Decode(Cpp, PlayerSchema(Cpp), pre + e + post, |pre|);
      && client.Ok? && client.pos == |pre| + PlayerSize(p) && PlayerOf(client.value) == p
      && (server.Ok? <==> FinitePlayer(p))
      && (server.Ok? ==> && server.pos == |pre| + PlayerSize(p) && PlayerOf(server.value) == p
                         && server.value == Meaning(PlayerItem(Rust, p)) && Typed(Rust, PlayerSchema(Rust), PlayerItem(Rust, p))
                         && Encode(Rust, PlayerSchema(Rust), PlayerItem(Rust, p)) == e)
      && (server.Err? ==> server.error == NonFiniteValue)
  {
    TwinPlayer(p);
    MeaningOfPlayer(Cpp, p);
    MeaningOfPlayer(Rust, p);
    hide Encode, Decode, Typed, WellFormed, Fits, Meaning, PlayerItem, PlayerOf, PlayerSchema, Portable, NoText, FinitePlayer;
    RoundTrip(Cpp, PlayerSchema(Cpp), PlayerItem(Cpp, p), pre, post);
    var e := Encode(Cpp, PlayerSchema(Cpp), PlayerItem(Cpp, p));
    ServerReadsExactly(PlayerSchema(Rust), PlayerItem(Rust, p), pre, post);
    NoTextError(PlayerSchema(Rust), pre + e + post, |pre|);
    if FinitePlayer(p) { SameBytes(PlayerSchema(Rust), PlayerItem(Rust, p)); }
  }

  /** A timestamp of infinity is enough to be refused. */
  lemma {:induction false} InfinityIsRefused(p: PlayerData, pre: bytes, post: bytes)
    requires p.timestamp == 0x7F80_0000
    ensures Twin(PlayerSchema(Cpp), PlayerItem(Cpp, p), PlayerSchema(Rust), PlayerItem(Rust, p), PlayerSize(p), false)
    ensures
      var server := Decode(Rust, PlayerSchema(Rust), pre + Encode(Cpp, PlayerSchema(Cpp), PlayerItem(Cpp, p)) + post, |pre|);
      server.Err? && server.error == NonFiniteValue
  {
    hide Encode, Decode, Typed, WellFormed, Fits, Meaning, PlayerItem, PlayerOf, PlayerSchema, FinitePlayer, Portable, NoText;
    InfinityIsNotFinite(p);
    Relay(p, pre, post);
  }

  lemma InfinityIsNotFinite(p: PlayerData)
    requires p.timestamp == 0x7F80_0000
    ensures !FinitePlayer(p)
  {
  }

  /** `customEncode` of a player at the end of a buffer. */
  method EncodePlayer(buffer: ByteBuffer, p: PlayerData)
    requires buffer.position == |buffer.data|
    modifies buffer
    ensures Twin(PlayerSchema(Cpp), PlayerItem(Cpp, p), PlayerSchema(Rust), PlayerItem(Rust, p), PlayerSize(p), FinitePlayer(p))
    ensures buffer.position == |buffer.data|
    ensures buffer.data == old(buffer.data) + Encode(Cpp, PlayerSchema(Cpp), PlayerItem(Cpp, p))
  {
    TwinPlayer(p);
    hide Encode, Typed, WellFormed, Fits, Meaning, PlayerItem, PlayerSchema;
    buffer.WriteValue(PlayerSchema(Cpp), PlayerItem(Cpp, p));
  }

  lemma {:induction false} PlayerWellFormed()
    ensures WellFormed(Cpp, PlayerSchema(Cpp))
  {
    var o := Point(0, 0);
    var c := Icon(o, 0, 0, false, false, false, false, false, false, false, false, false, false, false, NoTeleport);
    TwinPlayer(PlayerData(0, c, c, 0, 0, false, false, false, false, false, false));
    hide PlayerSchema, WellFormed;
  }

  /** `customDecode` of a player, on any input. */
  method DecodePlayer(buffer: ByteBuffer) returns (r: Result<PlayerData>)
    requires buffer.Valid()
    modifies buffer`position
    ensures WellFormed(Cpp, PlayerSchema(Cpp)) && buffer.Valid()
    ensures buffer.position == Decode(Cpp, PlayerSchema(Cpp), buffer.data, old(buffer.position)).pos
    ensures r == match Decode(Cpp, PlayerSchema(Cpp), buffer.data, old(buffer.position))
                 case Ok(v, _) => Success(PlayerOf(v))
                 case Err(e, _) => Failure(e)
  {
    PlayerWellFormed();
    hide Decode, WellFormed, PlayerSchema, PlayerOf;
    var v := buffer.ReadValue(PlayerSchema(Cpp));
    r := if v.Failure? then Failure(v.error) else Success(PlayerOf(v.value));
  }
}
