/**
 Remote players are shown between the last two states received from the server. Numbers are
 reals; rounding is not modelled.
 */
module Interpolation {
  import opened Collections

  datatype Point = Point(x: real, y: real)

  datatype Teleport = Teleport(from: Point, to: Point)

  datatype IconType = Unknown | Cube | Ship | Ball | Ufo | Wave | Robot | Spider | Swing | Jetpack

  /** `looks` are the flags besides `didJustJump`, in declaration order. */
  datatype Icon = Icon(
    position: Point,
    rotation: real,
    iconType: IconType,
    looks: seq<bool>,
    didJustJump: bool,
    teleport: Option<Teleport>)

  datatype Visual = Visual(player1: Icon, player2: Icon, percentage: real, flags: seq<bool>)

  /** `PlayerData`, as received. */
  datatype Data = Data(timestamp: real, visual: Visual, lastDeath: real)

  datatype Frame = Frame(timestamp: real, visual: Visual)

  datatype FrameFlags = FrameFlags(
    death: bool,
    jump1: bool,
    jump2: bool,
    teleport1: Option<Teleport>,
    teleport2: Option<Teleport>)

  datatype Player = Player(
    updateCounter: real,
    timeCounter: real,
    lastDeath: real,
    totalFrames: nat,
    older: Frame,
    newer: Frame,
    shown: Visual,
    pendingRealFrame: bool,
    flags: FrameFlags)

  const MARGIN := 0.002
  const SPIDER_JUMP := 33.0

  const NO_FLAGS := FrameFlags(false, false, false, None, None)
  const NO_ICON := Icon(Point(0.0, 0.0), 0.0, Unknown, [], false, None)
  const NO_VISUAL := Visual(NO_ICON, NO_ICON, 0.0, [])
  const NEW_PLAYER := Player(0.0, 0.0, 0.0, 0, Frame(0.0, NO_VISUAL), Frame(0.0, NO_VISUAL), NO_VISUAL, false, NO_FLAGS)

  function Abs(x: real): (r: real)
    ensures r == x || r == -x
    ensures r >= 0.0
  {
    if x < 0.0 then -x else x
  }

  predicate SameTime(x: real, y: real) {
    Abs(y - x) < MARGIN
  }

  // ---------------------------------------------------------------- one player

  function Updated(p: Player, realtime: bool, data: Data, updateCounter: real): (q: Player) {
    var died := !SameTime(p.lastDeath, data.lastDeath);
    var flags := FrameFlags(
      p.flags.death || (died && p.totalFrames > 0),
      data.visual.player1.didJustJump,
      data.visual.player1.didJustJump,
      data.visual.player1.teleport,
      data.visual.player2.teleport);
    var q := p.(updateCounter := updateCounter, pendingRealFrame := true, totalFrames := p.totalFrames + 1,
                lastDeath := if died then data.lastDeath else p.lastDeath, flags := flags);
    if realtime then q.(shown := data.visual)
    else q.(older := p.newer, newer := Frame(data.timestamp, data.visual), timeCounter := p.newer.timestamp)
  }

  /** `std::lerp`. */
  function Lerp(a: real, b: real, t: real): (r: real) {
    a + t * (b - a)
  }

  /** `CCPoint::lerp`. */
  function LerpPoint(p: Point, q: Point, t: real): (r: Point) {
    Point(p.x * (1.0 - t) + q.x * t, p.y * (1.0 - t) + q.y * t)
  }

  predicate HoldsHeight(older: Icon, newer: Icon) {
    older.iconType == Spider && Abs(older.position.y - newer.position.y) >= SPIDER_JUMP
  }

  function LerpIcon(older: Icon, newer: Icon, out: Icon, t: real): (r: Icon) {
    out.(iconType := older.iconType, looks := older.looks, didJustJump := older.didJustJump,
         position := if HoldsHeight(older, newer) then Point(Lerp(older.position.x, newer.position.x, t), older.position.y)
                     else LerpPoint(older.position, newer.position, t),
         rotation := Lerp(older.rotation, newer.rotation, t))
  }

  function LerpVisual(older: Visual, newer: Visual, out: Visual, t: real): (r: Visual) {
    Visual(LerpIcon(older.player1, newer.player1, out.player1, t), LerpIcon(older.player2, newer.player2, out.player2, t),
           older.percentage, older.flags)
  }

  function Delta(p: Player): (d: real) {
    p.newer.timestamp - p.older.timestamp
  }

  function Ticked(p: Player, realtime: bool, dt: real): (q: Player) {
    if realtime || p.totalFrames < 2 || Delta(p) == 0.0 then p
    else
      var t := (p.timeCounter - p.older.timestamp) / Delta(p);
      p.(shown := LerpVisual(p.older.visual, p.newer.visual, p.shown, t), timeCounter := p.timeCounter + dt)
  }

  lemma {:induction false} NonEmpty(s: set<int>)
    ensures s != {} ==> exists x :: x in s
  {
    if forall x :: x !in s {
      assert s <= {};
    }
  }

  // ---------------------------------------------------------------- the object

  class PlayerInterpolator {
    var players: map<int, Player>
    const realtime: bool

    constructor (realtime: bool)
      ensures players == map[] && this.realtime == realtime
    {
      players := map[];
      this.realtime := realtime;
    }

    /** Adding a player twice keeps the first. */
    method AddPlayer(id: int)
      modifies this
      ensures players == if id in old(players) then old(players) else old(players)[id := NEW_PLAYER]
    {
      if id !in players { players := players[id := NEW_PLAYER]; }
    }

    method RemovePlayer(id: int)
      modifies this
      ensures players == old(players) - {id}
    {
      players := players - {id};
    }

    method UpdatePlayer(id: int, data: Data, updateCounter: real)
      requires id in players
      modifies this
      ensures players == old(players)[id := Updated(old(players)[id], realtime, data, updateCounter)]
    {
      var player := players[id];
      player := player.(updateCounter := updateCounter, pendingRealFrame := true, totalFrames := player.totalFrames + 1);
      if !SameTime(player.lastDeath, data.lastDeath) {
        player := player.(lastDeath := data.lastDeath);
        if player.totalFrames > 1 {
          player := player.(flags := player.flags.(death := true));
        }
      }
      player := player.(flags := player.flags.(
        teleport1 := data.visual.player1.teleport, teleport2 := data.visual.player2.teleport,
        jump1 := data.visual.player1.didJustJump, jump2 := data.visual.player1.didJustJump));
      if realtime {
        player := player.(shown := data.visual);
      } else {
        player := player.(older := player.newer);
        player := player.(newer := Frame(data.timestamp, data.visual));
        player := player.(timeCounter := player.older.timestamp);
      }
      players := players[id := player];
    }

    /** Visits the players in any order. */
    method Tick(dt: real)
      modifies this
      ensures players.Keys == old(players).Keys
      ensures forall id | id in players :: players[id] == Ticked(old(players)[id], realtime, dt)
    {
      if realtime { return; }
      var rest: set<int> := players.Keys;
      while rest != {}
        invariant rest <= players.Keys && players.Keys == old(players).Keys
        invariant forall id | id in players :: players[id] ==
                    if id in rest then old(players)[id] else Ticked(old(players)[id], realtime, dt)
        decreases |rest|
      {
        NonEmpty(rest);
        var id :| id in rest;
        var player := players[id];
        if player.totalFrames >= 2 && Delta(player) != 0.0 {
          var ratio := (player.timeCounter - player.older.timestamp) / Delta(player);
          player := player.(shown := LerpVisual(player.older.visual, player.newer.visual, player.shown, ratio));
          player := player.(timeCounter := player.timeCounter + dt);
          players := players[id := player];
        }
        rest := rest - {id};
      }
    }

    /** Hands out the pending flags and clears them. */
    method SwapFrameFlags(id: int) returns (out: FrameFlags)
      requires id in players
      modifies this
      ensures out == old(players)[id].flags
      ensures players == old(players)[id := old(players)[id].(flags := NO_FLAGS)]
    {
      var state := players[id];
      out := state.flags;
      state := state.(flags := state.flags.(death := false, jump1 := false, jump2 := false));
      state := state.(flags := state.flags.(teleport1 := None, teleport2 := None));
      players := players[id := state];
    }

    method IsPlayerStale(id: int, lastServerPacket: real) returns (stale: bool)
      requires id in players
      ensures stale <==> players[id].updateCounter != 0.0 &&
                         (lastServerPacket > players[id].updateCounter + 0.5 || lastServerPacket < players[id].updateCounter - 0.5)
    {
      var uc := players[id].updateCounter;
      stale := uc != 0.0 && Abs(uc - lastServerPacket) > 0.5;
    }
  }

  // ---------------------------------------------------------------- what is shown between updates

  function Sum(dts: seq<real>): (s: real) {
    if dts == [] then 0.0 else Sum(dts[..|dts| - 1]) + dts[|dts| - 1]
  }

  function TickedAll(p: Player, dts: seq<real>): (q: Player) {
    if dts == [] then p else Ticked(TickedAll(p, dts[..|dts| - 1]), false, dts[|dts| - 1])
  }

  /** `out` lies where a player moving evenly from `older` to `newer` is after `elapsed` of `delta`. */
  predicate OnCourse(older: Icon, newer: Icon, out: Icon, elapsed: real, delta: real) {
    && (out.position.x - older.position.x) * delta == (newer.position.x - older.position.x) * elapsed
    && (out.rotation - older.rotation) * delta == (newer.rotation - older.rotation) * elapsed
    && (if older.iconType == Spider && !(-33.0 < older.position.y - newer.position.y < 33.0) then out.position.y == older.position.y
        else (out.position.y - older.position.y) * delta == (newer.position.y - older.position.y) * elapsed)
    && out.iconType == older.iconType && out.looks == older.looks && out.didJustJump == older.didJustJump
  }

  predicate ShownOnCourse(p: Player, elapsed: real) {
    && OnCourse(p.older.visual.player1, p.newer.visual.player1, p.shown.player1, elapsed, Delta(p))
    && OnCourse(p.older.visual.player2, p.newer.visual.player2, p.shown.player2, elapsed, Delta(p))
    && p.shown.percentage == p.older.visual.percentage && p.shown.flags == p.older.visual.flags
  }

  lemma {:induction false} LerpCourse(a: real, b: real, e: real, d: real)
    requires d != 0.0
    ensures (Lerp(a, b, e / d) - a) * d == (b - a) * e
  {
    var t := e / d;
    assert t * d == e;
    assert (Lerp(a, b, t) - a) * d == (b - a) * (t * d);
  }

  /** The two ways of interpolating agree. */
  lemma {:induction false} LerpPointIsLerp(p: Point, q: Point, t: real)
    ensures LerpPoint(p, q, t) == Point(Lerp(p.x, q.x, t), Lerp(p.y, q.y, t))
  {
    SameLerp(p.x, q.x, t);
    SameLerp(p.y, q.y, t);
  }

  lemma SameLerp(a: real, b: real, t: real)
    ensures a * (1.0 - t) + b * t == Lerp(a, b, t)
  {
  }

  lemma {:induction false} IconCourse(older: Icon, newer: Icon, out: Icon, e: real, d: real)
    requires d != 0.0
    ensures OnCourse(older, newer, LerpIcon(older, newer, out, e / d), e, d)
  {
    hide Lerp, LerpPoint;
    LerpPointIsLerp(older.position, newer.position, e / d);
    LerpCourse(older.position.x, newer.position.x, e, d);
    LerpCourse(older.position.y, newer.position.y, e, d);
    LerpCourse(older.rotation, newer.rotation, e, d);
  }

  lemma {:induction false} TickCourse(p: Player, dt: real)
    requires p.totalFrames >= 2 && Delta(p) != 0.0
    ensures
      var q := Ticked(p, false, dt);
      && q.older == p.older && q.newer == p.newer && q.totalFrames == p.totalFrames && q.flags == p.flags
      && q.timeCounter == p.timeCounter + dt && ShownOnCourse(q, p.timeCounter - p.older.timestamp)
  {
    hide OnCourse, LerpIcon;
    var e, o, n := p.timeCounter - p.older.timestamp, p.older.visual, p.newer.visual;
    IconCourse(o.player1, n.player1, p.shown.player1, e, Delta(p));
    IconCourse(o.player2, n.player2, p.shown.player2, e, Delta(p));
  }

  /**
   After an update that is not the first and moves time, and then any ticks: shown is the even
   movement between the two last states at the time elapsed before the last tick.
   */
  lemma {:induction false} ShownIsInterpolated(p: Player, data: Data, counter: real, dts: seq<real>)
    requires p.totalFrames >= 1 && data.timestamp != p.newer.timestamp
    ensures
      var u := Updated(p, false, data, counter);
      var q := TickedAll(u, dts);
      && q.older == p.newer && q.newer == Frame(data.timestamp, data.visual) && q.totalFrames == p.totalFrames + 1
      && q.timeCounter == q.older.timestamp + Sum(dts)
      && (dts != [] ==> ShownOnCourse(q, Sum(dts[..|dts| - 1])))
  {
    var u := Updated(p, false, data, counter);
    if dts != [] {
      hide Updated, Ticked, ShownOnCourse, Delta;
      var h := dts[..|dts| - 1];
      ShownIsInterpolated(p, data, counter, h);
      DeltaMoves(TickedAll(u, h));
      TickCourse(TickedAll(u, h), dts[|dts| - 1]);
    }
  }

  lemma DeltaMoves(p: Player)
    requires p.newer.timestamp != p.older.timestamp
    ensures Delta(p) != 0.0
  {
  }

  predicate Between(a: real, x: real, b: real) {
    a <= x <= b || b <= x <= a
  }

  /** A coordinate on course stays on its segment exactly while no more than the delta has elapsed, or if it stands still. */
  lemma {:induction false} OnSegment(a: real, b: real, x: real, e: real, d: real)
    requires d > 0.0 && e >= 0.0 && (x - a) * d == (b - a) * e
    ensures Between(a, x, b) <==> e <= d || a == b
  {
    var v := x - a;
    var w := b - a;
    SegmentSigns(v, w, e, d);
  }

  lemma {:induction false} SegmentSigns(v: real, w: real, e: real, d: real)
    requires d > 0.0 && e >= 0.0 && v * d == w * e
    ensures (0.0 <= v <= w || w <= v <= 0.0) <==> e <= d || w == 0.0
  {
    if w > 0.0 {
      Positive(v, w, e, d);
    } else if w < 0.0 {
      assert (-v) * d == (-w) * e;
      Positive(-v, -w, e, d);
    } else {
      assert v * d == 0.0;
      assert v == 0.0;
    }
  }

  lemma {:induction false} Positive(v: real, w: real, e: real, d: real)
    requires d > 0.0 && e >= 0.0 && w > 0.0 && v * d == w * e
    ensures v >= 0.0 && (v <= w <==> e <= d)
  {
    if v < 0.0 { MulLess(v, 0.0, d); MulAtMost(0.0, e, w); }
    if v <= w { MulAtMost(v, w, d); if e > d { MulLess(d, e, w); } }
    if v > w { MulLess(w, v, d); if e <= d { MulAtMost(e, d, w); } }
  }

  lemma MulAtMost(x: real, y: real, k: real)
    requires x <= y && k >= 0.0
    ensures x * k <= y * k
  {
  }

  lemma MulLess(x: real, y: real, k: real)
    requires x < y && k > 0.0
    ensures x * k < y * k
  {
  }

  /** Two points on course are apart as their times are. */
  lemma {:induction false} CourseDifference(v: real, u: real, w: real, e: real, f: real, d: real)
    requires v * d == w * e && u * d == w * f
    ensures (u - v) * d == w * (f - e)
  {
    assert (u - v) * d == u * d - v * d;
    assert w * (f - e) == w * f - w * e;
  }

  lemma {:induction false} SignOfProduct(v: real, w: real, d: real, g: real)
    requires d > 0.0 && g >= 0.0 && v * d == w * g
    ensures w >= 0.0 ==> v >= 0.0
  {
    if w >= 0.0 && v < 0.0 {
      MulLess(v, 0.0, d);
      MulAtMost(0.0, w, g);
    }
  }

  /** Later is never further from the newer state: a coordinate on course moves one way only. */
  lemma {:induction false} MovesOneWay(a: real, b: real, x: real, y: real, e: real, f: real, d: real)
    requires d > 0.0 && 0.0 <= e <= f && (x - a) * d == (b - a) * e && (y - a) * d == (b - a) * f
    ensures (a <= b ==> x <= y) && (b <= a ==> y <= x)
  {
    var v, u, w := x - a, y - a, b - a;
    CourseDifference(v, u, w, e, f, d);
    SignOfProduct(u - v, w, d, f - e);
    Negated(u - v, w, d, f - e);
    SignOfProduct(-(u - v), -w, d, f - e);
  }

  lemma {:induction false} Negated(v: real, w: real, d: real, g: real)
    requires v * d == w * g
    ensures (-v) * d == (-w) * g
  {
    assert (-v) * d == -(v * d);
    assert (-w) * g == -(w * g);
  }

  predicate Toward(a: real, x: real, y: real, b: real) {
    (a <= b ==> x <= y) && (b <= a ==> y <= x)
  }

  predicate IconToward(older: Icon, x: Icon, y: Icon, newer: Icon) {
    && Toward(older.position.x, x.position.x, y.position.x, newer.position.x)
    && Toward(older.position.y, x.position.y, y.position.y, newer.position.y)
    && Toward(older.rotation, x.rotation, y.rotation, newer.rotation)
  }

  predicate IconBetween(older: Icon, x: Icon, newer: Icon) {
    && Between(older.position.x, x.position.x, newer.position.x)
    && Between(older.position.y, x.position.y, newer.position.y)
    && Between(older.rotation, x.rotation, newer.rotation)
    && (HoldsHeight(older, newer) ==> x.position.y == older.position.y)
  }

  lemma {:induction false} IconStaysBetween(older: Icon, newer: Icon, out: Icon, elapsed: real, delta: real)
    requires OnCourse(older, newer, out, elapsed, delta) && 0.0 <= elapsed <= delta && delta > 0.0
    ensures IconBetween(older, out, newer)
  {
    OnSegment(older.position.x, newer.position.x, out.position.x, elapsed, delta);
    OnSegment(older.rotation, newer.rotation, out.rotation, elapsed, delta);
    if !HoldsHeight(older, newer) {
      OnSegment(older.position.y, newer.position.y, out.position.y, elapsed, delta);
    }
  }

  lemma {:induction false} IconMovesOneWay(older: Icon, newer: Icon, x: Icon, y: Icon, e: real, f: real, delta: real)
    requires OnCourse(older, newer, x, e, delta) && OnCourse(older, newer, y, f, delta) && 0.0 <= e <= f && delta > 0.0
    ensures IconToward(older, x, y, newer)
  {
    MovesOneWay(older.position.x, newer.position.x, x.position.x, y.position.x, e, f, delta);
    MovesOneWay(older.rotation, newer.rotation, x.rotation, y.rotation, e, f, delta);
    if !HoldsHeight(older, newer) {
      MovesOneWay(older.position.y, newer.position.y, x.position.y, y.position.y, e, f, delta);
    }
  }

  lemma {:induction false} SumGrows(dts: seq<real>, i: nat)
    requires i <= |dts| && forall k | 0 <= k < |dts| :: dts[k] >= 0.0
    ensures 0.0 <= Sum(dts[..i]) <= Sum(dts)
  {
    if dts != [] && i < |dts| {
      SumGrows(dts[..|dts| - 1], i);
      assert dts[..|dts| - 1][..i] == dts[..i];
    } else if dts != [] {
      SumGrows(dts[..|dts| - 1], |dts| - 1);
      assert dts[..|dts| - 1][..|dts| - 1] == dts[..|dts| - 1] && dts[..i] == dts;
    }
  }

  /**
   After an update with a positive delta, from the `i`-th tick to the last each coordinate has
   moved towards the newer state, and while no more than the delta has elapsed the picture is
   between the two states.
   */
  lemma {:induction false} PictureMovesOneWay(p: Player, data: Data, counter: real, dts: seq<real>, i: nat)
    requires p.totalFrames >= 1 && data.timestamp > p.newer.timestamp
    requires 1 <= i <= |dts| && forall k | 0 <= k < |dts| :: dts[k] >= 0.0
    ensures
      var u := Updated(p, false, data, counter);
      var x, y := TickedAll(u, dts[..i]).shown, TickedAll(u, dts).shown;
      var older, newer := p.newer.visual, data.visual;
      && IconToward(older.player1, x.player1, y.player1, newer.player1)
      && IconToward(older.player2, x.player2, y.player2, newer.player2)
      && (Sum(dts[..|dts| - 1]) <= data.timestamp - p.newer.timestamp ==>
            IconBetween(older.player1, y.player1, newer.player1) && IconBetween(older.player2, y.player2, newer.player2))
  {
    hide Updated, TickedAll, OnCourse, IconToward, IconBetween, Sum;
    var u := Updated(p, false, data, counter);
    var older, newer, delta := p.newer.visual, data.visual, data.timestamp - p.newer.timestamp;
    var h := dts[..|dts| - 1];
    ShownIsInterpolated(p, data, counter, dts[..i]);
    ShownIsInterpolated(p, data, counter, dts);
    assert dts[..i][..i - 1] == h[..i - 1];
    SumGrows(h, i - 1);
    var x, y := TickedAll(u, dts[..i]).shown, TickedAll(u, dts).shown;
    var e, f := Sum(h[..i - 1]), Sum(h);
    IconMovesOneWay(older.player1, newer.player1, x.player1, y.player1, e, f, delta);
    IconMovesOneWay(older.player2, newer.player2, x.player2, y.player2, e, f, delta);
    if f <= delta {
      IconStaysBetween(older.player1, newer.player1, y.player1, f, delta);
      IconStaysBetween(older.player2, newer.player2, y.player2, f, delta);
    }
  }

  /** The first tick after an update shows the state that was newest before it, the full delta the new one. */
  lemma {:induction false} CourseEnds(older: Icon, newer: Icon, out: Icon, delta: real)
    requires delta != 0.0
    ensures OnCourse(older, newer, out, 0.0, delta) ==> out.position == older.position && out.rotation == older.rotation
    ensures OnCourse(older, newer, out, delta, delta) && !HoldsHeight(older, newer) ==>
              out.position == newer.position && out.rotation == newer.rotation
  {
    if OnCourse(older, newer, out, 0.0, delta) {
      Cancel(out.position.x - older.position.x, 0.0, delta);
      Cancel(out.rotation - older.rotation, 0.0, delta);
      if !HoldsHeight(older, newer) { Cancel(out.position.y - older.position.y, 0.0, delta); }
    }
    if OnCourse(older, newer, out, delta, delta) && !HoldsHeight(older, newer) {
      Cancel(out.position.x - older.position.x, newer.position.x - older.position.x, delta);
      Cancel(out.position.y - older.position.y, newer.position.y - older.position.y, delta);
      Cancel(out.rotation - older.rotation, newer.rotation - older.rotation, delta);
    }
  }

  lemma {:induction false} Cancel(x: real, y: real, d: real)
    requires d != 0.0
    ensures x * d == y * d <==> x == y
  {
    assert x * d == y * d ==> (x - y) * d == 0.0;
  }

  // ---------------------------------------------------------------- deaths

  datatype Event = Update(data: Data, counter: real) | Tick(dt: real) | Swap

  function Step(p: Player, realtime: bool, e: Event): (q: Player) {
    match e
    case Update(data, counter) => Updated(p, realtime, data, counter)
    case Tick(dt) => Ticked(p, realtime, dt)
    case Swap => p.(flags := NO_FLAGS)
  }

  /** A player's state after the events since it was added. */
  function After(realtime: bool, es: seq<Event>): (p: Player) {
    if es == [] then NEW_PLAYER else Step(After(realtime, es[..|es| - 1]), realtime, es[|es| - 1])
  }

  /** Event `k` is a state, not the first, whose death time differs from the one on record. */
  predicate NewDeath(realtime: bool, es: seq<Event>, k: nat)
    requires k < |es|
  {
    && es[k].Update?
    && (exists j :: 0 <= j < k && es[j].Update?)
    && !(-0.002 < es[k].data.lastDeath - After(realtime, es[..k]).lastDeath < 0.002)
  }

  predicate NoSwapAfter(es: seq<Event>, k: nat) {
    forall j :: k < j < |es| ==> !es[j].Swap?
  }

  lemma {:induction false} FramesCount(realtime: bool, es: seq<Event>)
    ensures After(realtime, es).totalFrames > 0 <==> exists j :: 0 <= j < |es| && es[j].Update?
  {
    if es != [] {
      var h := es[..|es| - 1];
      FramesCount(realtime, h);
      StepCounts(After(realtime, h), realtime, es[|es| - 1]);
      hide Step;
      if j :| 0 <= j < |es| && es[j].Update? {
        assert j < |h| ==> h[j].Update?;
      }
      if j :| 0 <= j < |h| && h[j].Update? {
        assert es[j].Update?;
      }
    }
  }

  lemma {:induction false} StepCounts(p: Player, realtime: bool, e: Event)
    ensures Step(p, realtime, e).totalFrames == if e.Update? then p.totalFrames + 1 else p.totalFrames
    ensures Step(p, realtime, e).flags.death <==>
      !e.Swap? && (p.flags.death || (e.Update? && p.totalFrames > 0 && !SameTime(p.lastDeath, e.data.lastDeath)))
  {
    hide LerpVisual;
  }

  lemma {:induction false} EarlierDeath(realtime: bool, es: seq<Event>, k: nat)
    requires k < |es| - 1
    ensures
      var h := es[..|es| - 1];
      && (NewDeath(realtime, es, k) <==> NewDeath(realtime, h, k))
      && (NoSwapAfter(es, k) <==> NoSwapAfter(h, k) && !es[|es| - 1].Swap?)
  {
    hide After;
    var h := es[..|es| - 1];
    assert h[..k] == es[..k] && h[k] == es[k];
    assert forall j | 0 <= j < |h| :: h[j] == es[j];
  }

  /**
   What the next swap reports about a death, after any events: true exactly when a state that
   changed the death time, other than the first state, has come in since the last swap. So every
   such change is reported, and no report comes again without a new one.
   */
  lemma {:induction false} DeathReports(realtime: bool, es: seq<Event>)
    ensures After(realtime, es).flags.death <==>
            exists k :: 0 <= k < |es| && NewDeath(realtime, es, k) && NoSwapAfter(es, k)
  {
    if es != [] {
      var n := |es| - 1;
      var h := es[..n];
      DeathReports(realtime, h);
      FramesCount(realtime, h);
      StepCounts(After(realtime, h), realtime, es[n]);
      hide Step, NoSwapAfter;
      forall k | 0 <= k < n
        ensures NewDeath(realtime, es, k) <==> NewDeath(realtime, h, k)
        ensures NoSwapAfter(es, k) <==> NoSwapAfter(h, k) && !es[n].Swap?
      {
        EarlierDeath(realtime, es, k);
      }
      assert NoSwapAfter(es, n);
    }
  }

  // ---------------------------------------------------------------- the last state

  /** Event `k` is the last state received. */
  predicate LastUpdate(es: seq<Event>, k: nat) {
    k < |es| && es[k].Update? && forall j | k < j < |es| :: !es[j].Update?
  }

  /** `f` holds the jump and the teleports of this state. The source takes both jumps from the first icon. */
  predicate FlagsOf(f: FrameFlags, v: Visual) {
    && f.jump1 == f.jump2 == v.player1.didJustJump
    && f.teleport1 == v.player1.teleport && f.teleport2 == v.player2.teleport
  }

  lemma {:induction false} LastUpdateStep(es: seq<Event>, k: nat)
    requires es != []
    ensures
      var n := |es| - 1;
      && (es[n].Update? ==> (LastUpdate(es, k) <==> k == n))
      && (!es[n].Update? ==> (LastUpdate(es, k) <==> k < n && LastUpdate(es[..n], k)))
      && (k < n ==> (NoSwapAfter(es, k) <==> NoSwapAfter(es[..n], k) && !es[n].Swap?))
  {
    var n := |es| - 1;
    var h := es[..n];
    assert forall j | 0 <= j < n :: h[j] == es[j];
    if es[n].Update? && k < n { assert !LastUpdate(es, k); }
  }

  lemma {:induction false} FlagStep(p: Player, realtime: bool, e: Event)
    ensures
      var f := Step(p, realtime, e).flags;
      match e
      case Update(data, _) => FlagsOf(f, data.visual)
      case Tick(_) => f == p.flags
      case Swap => !f.death && !f.jump1 && !f.jump2 && f.teleport1.None? && f.teleport2.None?
  {
    hide LerpVisual;
  }

  /**
   What the next swap reports about jumps and teleports, after any events: those of the last state,
   if it has come in since the last swap, and nothing otherwise. Those of earlier states are lost.
   */
  lemma {:induction false} FlagReports(realtime: bool, es: seq<Event>)
    ensures
      var f := After(realtime, es).flags;
      && (forall k | 0 <= k < |es| :: LastUpdate(es, k) && NoSwapAfter(es, k) ==> FlagsOf(f, es[k].data.visual))
      && ((forall k | 0 <= k < |es| :: LastUpdate(es, k) ==> !NoSwapAfter(es, k)) ==>
            !f.jump1 && !f.jump2 && f.teleport1.None? && f.teleport2.None?)
  {
    if es != [] {
      var n := |es| - 1;
      var h := es[..n];
      FlagReports(realtime, h);
      FlagStep(After(realtime, h), realtime, es[n]);
      hide Step, LastUpdate, NoSwapAfter, FlagsOf;
      forall k | 0 <= k <= n
        ensures es[n].Update? ==> (LastUpdate(es, k) <==> k == n)
        ensures !es[n].Update? ==> (LastUpdate(es, k) <==> k < n && LastUpdate(h, k))
        ensures k < n ==> es[k] == h[k] && (NoSwapAfter(es, k) <==> NoSwapAfter(h, k) && !es[n].Swap?)
      {
        LastUpdateStep(es, k);
      }
      assert NoSwapAfter(es, n) by { NoneAfterLast(es); }
    }
  }

  lemma NoneAfterLast(es: seq<Event>)
    requires es != []
    ensures NoSwapAfter(es, |es| - 1)
  {
  }

  lemma {:induction false} StateStep(p: Player, realtime: bool, e: Event)
    ensures
      var q := Step(p, realtime, e);
      match e
      case Update(data, counter) =>
        && q.updateCounter == counter
        && (if realtime then q.shown == data.visual
            else q.newer == Frame(data.timestamp, data.visual) && q.older == p.newer && q.shown == p.shown)
      case Tick(_) =>
        && q.updateCounter == p.updateCounter && q.newer == p.newer && q.older == p.older
        && (realtime || p.totalFrames < 2 ==> q.shown == p.shown)
      case Swap => q == p.(flags := q.flags)
  {
    hide LerpVisual;
  }

  /**
   After any events, the last state received decides when the player is stale; in realtime mode it
   is what is shown, and otherwise the newer of the two states shown between, the older being the
   newest before it.
   */
  lemma {:induction false} LastStateShown(realtime: bool, es: seq<Event>, k: nat)
    requires LastUpdate(es, k)
    ensures
      var p, d := After(realtime, es), es[k].data;
      && p.updateCounter == es[k].counter
      && (if realtime then p.shown == d.visual
          else p.newer == Frame(d.timestamp, d.visual) && p.older == After(realtime, es[..k]).newer)
  {
    var n := |es| - 1;
    var h := es[..n];
    StateStep(After(realtime, h), realtime, es[n]);
    hide Step;
    if k < n {
      LastUpdateStep(es, k);
      LastStateShown(realtime, h, k);
      assert h[..k] == es[..k];
    }
  }

  /**
   The death time on record, against which the next state is compared: that of some state received
   or the initial 0, and within the margin of the last state's.
   */
  lemma {:induction false} DeathOnRecord(realtime: bool, es: seq<Event>)
    ensures
      var t := After(realtime, es).lastDeath;
      && (t == 0.0 || exists k :: 0 <= k < |es| && es[k].Update? && es[k].data.lastDeath == t)
      && (forall k | 0 <= k < |es| && LastUpdate(es, k) :: -0.002 < es[k].data.lastDeath - t < 0.002)
  {
    if es != [] {
      var n := |es| - 1;
      var h := es[..n];
      DeathOnRecord(realtime, h);
      RecordStep(After(realtime, h), realtime, es[n]);
      hide Step, LastUpdate;
      forall k | 0 <= k <= n
        ensures es[n].Update? ==> (LastUpdate(es, k) <==> k == n)
        ensures !es[n].Update? ==> (LastUpdate(es, k) <==> k < n && LastUpdate(h, k))
        ensures k < n ==> h[k] == es[k]
      {
        LastUpdateStep(es, k);
      }
    }
  }

  lemma {:induction false} RecordStep(p: Player, realtime: bool, e: Event)
    ensures
      var t := Step(p, realtime, e).lastDeath;
      if e.Update? then (t == p.lastDeath || t == e.data.lastDeath) && -0.002 < e.data.lastDeath - t < 0.002
      else t == p.lastDeath
  {
    hide LerpVisual;
  }

  /** Between states no teleport is shown; they are reported by the flags. */
  lemma {:induction false} NoTeleportShown(es: seq<Event>)
    ensures After(false, es).shown.player1.teleport.None? && After(false, es).shown.player2.teleport.None?
  {
    if es != [] {
      var n := |es| - 1;
      NoTeleportShown(es[..n]);
      TeleportStep(After(false, es[..n]), es[n]);
      hide Step;
    }
  }

  lemma {:induction false} TeleportStep(p: Player, e: Event)
    ensures
      var q := Step(p, false, e);
      q.shown.player1.teleport == p.shown.player1.teleport && q.shown.player2.teleport == p.shown.player2.teleport
  {
    hide Lerp, LerpPoint, HoldsHeight;
  }

  /** Before the first state, and without realtime before the second, nothing is shown. */
  lemma {:induction false} NothingShownYet(realtime: bool, es: seq<Event>)
    ensures
      var p := After(realtime, es);
      p.totalFrames == 0 || (!realtime && p.totalFrames == 1) ==> p.shown == NO_VISUAL
  {
    if es != [] {
      var n := |es| - 1;
      NothingShownYet(realtime, es[..n]);
      StateStep(After(realtime, es[..n]), realtime, es[n]);
      StepCounts(After(realtime, es[..n]), realtime, es[n]);
      hide Step;
    }
  }
}
