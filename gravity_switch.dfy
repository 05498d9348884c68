// Side-scrolling gravity game: a shark swims right, falling up or down as
// the player flips its gravity; spikes scroll in from the right and a trail
// of past positions is drawn behind it.

module GravitySwitch {
  import opened Lists

  const CanvasWidth: int := 1400
  const CanvasHeight: int := 700

  /** The trail stops growing, and the shark stops moving right, around the
      middle of the screen. */
  const Middle: int := 700

  const FrameCount: int := 4          // three sprite images and the second one again
  const FrameInterval: real := 200.0  // milliseconds per animation frame
  const MoveInterval: real := 1.0 / 60.0
  const SlowStart: real := 2000.0     // milliseconds of slow swimming at the start

  const TrailShift: int := 2
  const TrailDrop: int := 40          // the trail runs 40 below the sprite's top edge
  const SpriteSize: int := 80
  const FloorMargin: int := 60
  const ObstacleStep: int := 4
  const MinSpikeSize: int := 200
  const MaxSpikeSize: int := CanvasHeight / 2 - 80

  datatype Gravity = Up | Down

  datatype Point = Point(x: int, y: int)

  /** An axis-aligned box given by its top-left corner and its size. */
  datatype Box = Box(x: int, y: int, width: int, height: int)

  predicate Within(inner: Box, outer: Box)
  {
    outer.x <= inner.x && inner.x + inner.width <= outer.x + outer.width &&
    outer.y <= inner.y && inner.y + inner.height <= outer.y + outer.height
  }

  // ------------------------------------------------------------------ player

  function Toggled(g: Gravity): (r: Gravity)
    ensures r != g
  {
    if g == Up then Down else Up
  }

  /** Flipping gravity twice changes nothing. */
  lemma ToggleInvolution(g: Gravity)
    ensures Toggled(Toggled(g)) == g
  {
  }

  /** The animation clock: time since the last frame change, and the
      frame shown. */
  datatype Clock = Clock(timer: real, index: int)

  /** The clock after `dt` more milliseconds: once the frame interval is
      reached the timer restarts and the next frame is shown, wrapping
      round after the last one. */
  function Animated(c: Clock, dt: real): (r: Clock)
    ensures 0 <= c.index < FrameCount ==> 0 <= r.index < FrameCount
    ensures c.timer + dt < FrameInterval ==> r == Clock(c.timer + dt, c.index)
    ensures c.timer + dt >= FrameInterval && 0 <= c.index < FrameCount ==>
              r == Clock(0.0, (c.index + 1) % FrameCount)
  {
    if c.timer + dt >= FrameInterval then
      Clock(0.0, if c.index + 1 >= FrameCount then 0 else c.index + 1)
    else Clock(c.timer + dt, c.index)
  }

  /** The clock after a run of frames lasting `dts` milliseconds each. */
  function AnimatedAll(c: Clock, dts: seq<real>): Clock
    decreases |dts|
  {
    if dts == [] then c else AnimatedAll(Animated(c, dts[0]), dts[1..])
  }

  /** When every frame lasts at least the frame interval, each one shows
      the next image, so the index advances by the number of frames,
      modulo the number of images. */
  lemma {:induction false} FramesCycle(c: Clock, dts: seq<real>)
    requires 0 <= c.index < FrameCount && c.timer >= 0.0
    requires forall i :: 0 <= i < |dts| ==> dts[i] >= FrameInterval
    decreases |dts|
    ensures AnimatedAll(c, dts).index == (c.index + |dts|) % FrameCount
  {
    if dts != [] {
      var c1 := Animated(c, dts[0]);
      FramesCycle(c1, dts[1..]);
      assert (c1.index + |dts[1..]|) % FrameCount == (c.index + |dts|) % FrameCount by {
        assert c1.index == (c.index + 1) % FrameCount;
        ModuloShift(c.index + 1, |dts| - 1);
      }
    }
  }

  lemma ModuloShift(a: int, k: int)
    requires a >= 0 && k >= 0
    ensures (a % FrameCount + k) % FrameCount == (a + k) % FrameCount
  {
  }

  /** One move of the shark. In the slow start it swims 1 right and falls
      2; afterwards it swims 2 right while not past the middle and falls
      4. Falling "up" decreases y. */
  function Drifted(g: Gravity, slow: bool, p: Point): (r: Point)
    ensures r.x >= p.x
    ensures slow ==> r.x == p.x + 1
    ensures !slow ==> (r.x > p.x <==> p.x <= Middle)
    ensures !slow && p.x <= Middle ==> r.x == p.x + 2
    ensures (if g == Up then p.y - r.y else r.y - p.y) == (if slow then 2 else 4)
  {
    var x := if slow then p.x + 1 else if p.x <= Middle then p.x + 2 else p.x;
    var dy := if slow then 2 else 4;
    Point(x, if g == Up then p.y - dy else p.y + dy)
  }

  /** The two gravities move the shark by mirror-image amounts. */
  lemma DriftMirrors(slow: bool, p: Point)
    ensures Drifted(Up, slow, p).x == Drifted(Down, slow, p).x
    ensures Drifted(Up, slow, p).y + Drifted(Down, slow, p).y == 2 * p.y
  {
  }

  /** After the slow start the shark never gets more than 2 past the
      middle. */
  lemma FastSwimStopsAtMiddle(g: Gravity, p: Point)
    requires p.x <= Middle + 2
    ensures Drifted(g, false, p).x <= Middle + 2
  {
  }

  /** The hit box of a shark drawn at `p`. */
  function Hitbox(p: Point): (r: Box)
    ensures Within(r, Box(p.x, p.y, SpriteSize, SpriteSize))
    ensures r.width == 30 && r.height == 45
  {
    Box(p.x + 20, p.y + 20, 30, 45)
  }

  /** Whether the shark's top edge has hit the ceiling or its body the
      floor. */
  predicate OutOfField(y: int)
  {
    y <= 0 || y + FloorMargin >= CanvasHeight
  }

  lemma SafeBand(y: int)
    ensures !OutOfField(y) <==> 0 < y < CanvasHeight - FloorMargin
  {
  }

  class Player {
    var state: Gravity
    var x: int
    var y: int
    var frameIndex: int
    var frameTimer: real
    var moveTimer: real
    var slowStartTimer: real

    ghost predicate Valid()
      reads this
    {
      0 <= frameIndex < FrameCount
    }

    constructor (spawn: Point)
      ensures Valid() && state == Down && Where() == spawn
      ensures frameIndex == 0 && frameTimer == 0.0 && moveTimer == 0.0 && slowStartTimer == 0.0
    {
      state := Down;
      x, y := spawn.x, spawn.y;
      frameIndex := 0;
      frameTimer, moveTimer, slowStartTimer := 0.0, 0.0, 0.0;
    }

    function Where(): Point
      reads this
    {
      Point(x, y)
    }

    /** One frame of `dt` milliseconds: the animation clock runs, and once
        the move timer has passed the move interval the shark moves every
        frame (the move timer is never reset). */
    method Update(deltaTime: real)
      modifies this
      ensures old(Valid()) ==> Valid()
      ensures state == old(state)
      ensures Clock(frameTimer, frameIndex) == Animated(old(Clock(frameTimer, frameIndex)), deltaTime)
      ensures moveTimer == old(moveTimer) + deltaTime && slowStartTimer == old(slowStartTimer) + deltaTime
      ensures Where() == if moveTimer >= MoveInterval then Drifted(state, slowStartTimer <= SlowStart, old(Where()))
                         else old(Where())
    {
      frameTimer := frameTimer + deltaTime;
      if frameTimer >= FrameInterval {
        frameTimer := 0.0;
        frameIndex := frameIndex + 1;
        if frameIndex >= FrameCount {
          frameIndex := 0;
        }
      }
      moveTimer := moveTimer + deltaTime;
      slowStartTimer := slowStartTimer + deltaTime;
      if moveTimer >= MoveInterval {
        if slowStartTimer <= SlowStart {
          x := x + 1;
          y := if state == Up then y - 2 else y + 2;
        } else {
          if x <= Middle {
            x := x + 2;
          }
          y := if state == Up then y - 4 else y + 4;
        }
      }
    }

    method ToggleState()
      modifies this`state
      ensures state == Toggled(old(state))
    {
      state := if state == Up then Down else Up;
    }

    function GetBounds(): (r: Box)
      reads this
      ensures r == Hitbox(Where())
    {
      Box(x + 20, y + 20, 30, 45)
    }
  }

  // ------------------------------------------------------------------- trail

  /** Every point moved 2 to the left. */
  function ShiftedLeft(ps: seq<Point>): (r: seq<Point>)
  {
    seq(|ps|, i requires 0 <= i < |ps| => Point(ps[i].x - TrailShift, ps[i].y))
  }

  /** The trail after adding `p`: it grows by the new point until the
      middle has been reached; from then on every point, the new one
      included, moves 2 left and the oldest is dropped. */
  function Added(ps: seq<Point>, p: Point, reached: bool): (r: seq<Point>)
    ensures !reached ==> |r| == |ps| + 1 && r[..|ps|] == ps && r[|ps|] == p
    ensures reached ==> |r| == |ps|
    ensures reached ==> forall k :: 0 <= k < |ps| - 1 ==> r[k] == Point(ps[k + 1].x - TrailShift, ps[k + 1].y)
    ensures reached && ps != [] ==> r[|ps| - 1] == Point(p.x - TrailShift, p.y)
  {
    if reached then ShiftedLeft(ps + [p])[1..] else ps + [p]
  }

  /** The trail's points and whether the middle has been reached. */
  datatype TrailState = TrailState(points: seq<Point>, reached: bool)

  function AddedState(t: TrailState, p: Point): TrailState
  {
    TrailState(Added(t.points, p, t.reached), t.reached || p.x >= Middle)
  }

  /** The trail after adding the points `news` in order. */
  function AddedAll(t: TrailState, news: seq<Point>): TrailState
    decreases |news|
  {
    if news == [] then t else AddedAll(AddedState(t, news[0]), news[1..])
  }

  /** Once the middle has been reached it stays reached and the trail
      keeps its length. */
  lemma {:induction false} LengthFreezesAtMiddle(t: TrailState, news: seq<Point>)
    requires t.reached
    decreases |news|
    ensures AddedAll(t, news).reached && |AddedAll(t, news).points| == |t.points|
  {
    if news != [] {
      LengthFreezesAtMiddle(AddedState(t, news[0]), news[1..]);
    }
  }

  /** Before the middle, the trail is every point added so far. */
  lemma {:induction false} TrailGrowsBeforeMiddle(t: TrailState, news: seq<Point>)
    requires !t.reached && forall i :: 0 <= i < |news| ==> news[i].x < Middle
    decreases |news|
    ensures AddedAll(t, news) == TrailState(t.points + news, false)
  {
    if news != [] {
      TrailGrowsBeforeMiddle(AddedState(t, news[0]), news[1..]);
      assert t.points + [news[0]] + news[1..] == t.points + news;
    }
  }

  /** Adding a point at or past the middle marks the middle as reached. */
  lemma {:induction false} MiddleIsReached(t: TrailState, news: seq<Point>, i: int)
    requires 0 <= i < |news| && news[i].x >= Middle
    decreases |news|
    ensures AddedAll(t, news).reached
  {
    if i == 0 {
      LengthFreezesAtMiddle(AddedState(t, news[0]), news[1..]);
    } else {
      MiddleIsReached(AddedState(t, news[0]), news[1..], i - 1);
    }
  }

  class Trail {
    var points: seq<Point>
    var reachMiddle: bool

    constructor ()
      ensures points == [] && !reachMiddle
    {
      points, reachMiddle := [], false;
    }

    method AddPoint(p: Point)
      modifies this
      ensures TrailState(points, reachMiddle) == AddedState(old(TrailState(points, reachMiddle)), p)
    {
      ghost var grown := points + [p];
      points := points + [Point(p.x, p.y)];
      assert points == grown;
      if reachMiddle {
        var i := 0;
        while i < |points|
          invariant 0 <= i <= |points| == |grown| && reachMiddle
          invariant forall j :: 0 <= j < i ==> points[j] == ShiftedLeft(grown)[j]
          invariant forall j :: i <= j < |points| ==> points[j] == grown[j]
        {
          points := points[i := Point(points[i].x - TrailShift, points[i].y)];
          i := i + 1;
        }
        assert points == ShiftedLeft(grown);
        points := points[1..];
      }
      if p.x >= Middle {
        reachMiddle := true;
      }
    }
  }

  // --------------------------------------------------------------- obstacles

  /** A spike: its anchor point, its size, and whether it hangs from the
      ceiling (anchor on its top edge) or stands on the floor (anchor on
      its bottom edge). */
  datatype Spike = Spike(x: int, y: int, size: int, isTop: bool)

  function Scrolled(s: Spike): (r: Spike)
    ensures r.x < s.x && r.y == s.y && r.size == s.size && r.isTop == s.isTop
  {
    s.(x := s.x - ObstacleStep)
  }

  predicate OffScreen(s: Spike)
  {
    s.x + s.size < 0
  }

  predicate Visible(s: Spike)
  {
    !OffScreen(s)
  }

  /** A spike only ever moves left, so once off screen it stays off. */
  lemma OffScreenStaysOff(s: Spike)
    requires OffScreen(s)
    ensures OffScreen(Scrolled(s))
  {
  }

  function ScrolledTimes(s: Spike, n: nat): Spike
    decreases n
  {
    if n == 0 then s else Scrolled(ScrolledTimes(s, n - 1))
  }

  /** After `n` frames a spike has moved 4n to the left, and it is off
      screen exactly when that is more than its right edge. */
  lemma {:induction false} ScrolledTimesLeaves(s: Spike, n: nat)
    decreases n
    ensures ScrolledTimes(s, n) == s.(x := s.x - ObstacleStep * n)
    ensures OffScreen(ScrolledTimes(s, n)) <==> s.x + s.size < ObstacleStep * n
  {
    if n > 0 {
      ScrolledTimesLeaves(s, n - 1);
    }
  }

  /** The box around a spike. */
  function SpikeBox(s: Spike): (r: Box)
    ensures r.x == s.x && r.width == s.size && r.height == s.size
    ensures s.isTop ==> r.y == s.y
    ensures !s.isTop ==> r.y + r.height == s.y
  {
    Box(s.x, if s.isTop then s.y else s.y - s.size, s.size, s.size)
  }

  /** The box holds the spike's triangle: both ends of the edge through
      the anchor and the tip, which lies `size` below or above it. */
  lemma SpikeBoxHoldsTriangle(s: Spike)
    requires s.size >= 0
    ensures var b := SpikeBox(s);
            var tipY := if s.isTop then s.y + s.size else s.y - s.size;
            b.x <= s.x && s.x + s.size <= b.x + b.width &&
            b.y <= s.y <= b.y + b.height && b.y <= tipY <= b.y + b.height
  {
  }

  /** Whether the spike's box lies wholly to the left of `px`, where the
      shark is. */
  predicate Passed(s: Spike, px: int)
  {
    SpikeBox(s).x + SpikeBox(s).width < px
  }

  function ScrolledAll(ss: seq<Spike>): (r: seq<Spike>)
    ensures |r| == |ss| && forall i :: 0 <= i < |ss| ==> r[i] == Scrolled(ss[i])
  {
    seq(|ss|, i requires 0 <= i < |ss| => Scrolled(ss[i]))
  }

  /** How many spikes lie wholly left of `px`. */
  function PassedCount(ss: seq<Spike>, px: int): (r: nat)
    ensures r <= |ss|
  {
    if ss == [] then 0
    else PassedCount(ss[..|ss| - 1], px) + (if Passed(ss[|ss| - 1], px) then 1 else 0)
  }

  /** The count is the length of the list of spikes behind the shark. */
  lemma {:induction false} PassedCountIsFilter(ss: seq<Spike>, px: int)
    ensures PassedCount(ss, px) == |Filter(ss, s => Passed(s, px))|
  {
    if ss != [] {
      PassedCountIsFilter(ss[..|ss| - 1], px);
    }
  }

  /** When every spike is behind the shark, all of them count. */
  lemma {:induction false} AllPassed(ss: seq<Spike>, px: int)
    requires forall i :: 0 <= i < |ss| ==> Passed(ss[i], px)
    ensures PassedCount(ss, px) == |ss|
  {
    if ss != [] {
      AllPassed(ss[..|ss| - 1], px);
    }
  }

  class Obstacle {
    var x: int
    var y: int
    var size: int
    var isTop: bool

    constructor (s: Spike)
      ensures Shape() == s
    {
      x, y, size, isTop := s.x, s.y, s.size, s.isTop;
    }

    function Shape(): Spike
      reads this
    {
      Spike(x, y, size, isTop)
    }

    /** The spike scrolls 4 to the left each frame, whatever the frame's
        length. */
    method Update(deltaTime: real)
      modifies this`x
      ensures Shape() == Scrolled(old(Shape()))
    {
      x := x - ObstacleStep;
    }

    predicate IsOffScreen()
      reads this
      ensures IsOffScreen() <==> OffScreen(Shape())
    {
      x + size < 0
    }

    function GetBounds(): (r: Box)
      reads this
      ensures r == SpikeBox(Shape())
    {
      Box(x, if isTop then y else y - size, size, size)
    }
  }

  /** The obstacles have, in order, the shapes `ss`. */
  ghost predicate Placed(obs: seq<Obstacle>, ss: seq<Spike>)
    reads obs
  {
    |obs| == |ss| && forall k :: 0 <= k < |obs| ==> obs[k].Shape() == ss[k]
  }

  ghost function ShapesOf(obs: seq<Obstacle>): (r: seq<Spike>)
    reads obs
    ensures Placed(obs, r)
  {
    if obs == [] then [] else ShapesOf(obs[..|obs| - 1]) + [obs[|obs| - 1].Shape()]
  }

  /** How many of the first `n` spikes lie wholly left of `px`: what the
      filter loop counts. */
  function PassedAmong(ss: seq<Spike>, n: nat, px: int): (r: nat)
    requires n <= |ss|
    ensures r <= n
  {
    if n == 0 then 0 else PassedAmong(ss, n - 1, px) + (if Passed(ss[n - 1], px) then 1 else 0)
  }

  lemma {:induction false} PassedAmongIsCount(ss: seq<Spike>, n: nat, px: int)
    requires n <= |ss|
    ensures PassedAmong(ss, n, px) == PassedCount(ss[..n], px)
  {
    if n > 0 {
      PassedAmongIsCount(ss, n - 1, px);
      assert ss[..n][..n - 1] == ss[..n - 1];
    }
  }

  /** The indices, among the first `n`, of the spikes still on screen:
      what the filter loop keeps. */
  function Remaining(moved: seq<Spike>, n: nat): (r: seq<int>)
    requires n <= |moved|
    ensures |r| <= n
  {
    if n == 0 then [] else Remaining(moved, n - 1) + (if OffScreen(moved[n - 1]) then [] else [n - 1])
  }

  lemma {:induction false} RemainingSurvive(moved: seq<Spike>, n: nat)
    requires n <= |moved|
    ensures Remaining(moved, n) == Survivors(moved, n, Visible)
  {
    if n > 0 {
      RemainingSurvive(moved, n - 1);
    }
  }

  /** The body of the obstacle filter, for one spike: it scrolls, it may
      now lie behind the shark, and it is kept unless it is now off
      screen. */
  method StepObstacle(obstacle: Obstacle, px: int, deltaTime: real) returns (keep: bool, passed: bool)
    modifies obstacle
    ensures obstacle.Shape() == Scrolled(old(obstacle.Shape()))
    ensures keep == Visible(obstacle.Shape()) && passed == Passed(obstacle.Shape(), px)
  {
    obstacle.Update(deltaTime);
    passed := obstacle.GetBounds().x + obstacle.GetBounds().width < px;
    keep := !obstacle.IsOffScreen();
  }

  /** How far the obstacle filter has got after `i` obstacles: those
      have scrolled into `moved`, the rest still have to, `kept` and
      `idx` hold the survivors so far and `passed` counts the spikes
      left behind so far. */
  ghost predicate SweptTo(pre: seq<Obstacle>, moved: seq<Spike>, px: int, i: nat,
                          kept: seq<Obstacle>, passed: nat, idx: seq<int>)
    reads pre
  {
    |moved| == |pre| && i <= |pre| &&
    (forall j :: 0 <= j < i ==> pre[j].Shape() == moved[j]) &&
    (forall j :: i <= j < |pre| ==> Scrolled(pre[j].Shape()) == moved[j]) &&
    idx == Remaining(moved, i) && Picks(kept, pre, idx) &&
    passed == PassedAmong(moved, i, px)
  }

  /** One round of the obstacle filter: obstacle `i` scrolls, is counted
      if it is now behind `px`, and is kept if it is still on screen. */
  method SweepStep(pre: seq<Obstacle>, ghost moved: seq<Spike>, px: int, deltaTime: real,
                   i: nat, kept: seq<Obstacle>, passed: nat, ghost idx: seq<int>)
    returns (keptNext: seq<Obstacle>, passedNext: nat, ghost idxNext: seq<int>)
    requires Distinct(pre) && i < |pre|
    requires SweptTo(pre, moved, px, i, kept, passed, idx)
    modifies pre[i]
    ensures SweptTo(pre, moved, px, i + 1, keptNext, passedNext, idxNext)
  {
    var obstacle := pre[i];
    DistinctAt(pre, i);
    var keep, behind := StepObstacle(obstacle, px, deltaTime);
    assert obstacle.Shape() == moved[i];
    assert PassedAmong(moved, i + 1, px) == PassedAmong(moved, i, px) + (if behind then 1 else 0);
    assert Remaining(moved, i + 1) == Remaining(moved, i) + (if keep then [i] else []);
    passedNext := if behind then passed + 1 else passed;
    keptNext, idxNext := kept, idx;
    if keep {
      keptNext, idxNext := kept + [obstacle], idx + [i];
    }
  }

  /** The loop of the obstacle filter: every spike scrolls, each one now
      wholly left of `px` adds one to the count, and the ones still on
      screen are kept in order; `moved` holds the shapes afterwards and
      `idx` the indices of the kept obstacles. */
  method SweepObstacles(pre: seq<Obstacle>, ghost moved: seq<Spike>, px: int, deltaTime: real)
    returns (kept: seq<Obstacle>, passed: nat, ghost idx: seq<int>)
    requires Distinct(pre) && |moved| == |pre|
    requires forall j :: 0 <= j < |pre| ==> Scrolled(pre[j].Shape()) == moved[j]
    modifies pre
    ensures Placed(pre, moved)
    ensures idx == Remaining(moved, |pre|) && Picks(kept, pre, idx)
    ensures passed == PassedAmong(moved, |pre|, px)
  {
    idx := [];
    kept, passed := [], 0;
    var i := 0;
    while i < |pre|
      invariant 0 <= i <= |pre|
      invariant SweptTo(pre, moved, px, i, kept, passed, idx)
    {
      kept, passed, idx := SweepStep(pre, moved, px, deltaTime, i, kept, passed, idx);
      i := i + 1;
    }
  }

  /** The obstacle filter: the sweep, summed up on the shapes the
      obstacles had beforehand. */
  method FilterObstacles(pre: seq<Obstacle>, ghost start: seq<Spike>, px: int, deltaTime: real)
    returns (kept: seq<Obstacle>, passed: nat)
    requires Distinct(pre) && Placed(pre, start)
    modifies pre
    ensures Distinct(kept) && forall o :: o in kept ==> o in pre
    ensures Placed(kept, Filter(ScrolledAll(start), Visible))
    ensures passed == PassedCount(ScrolledAll(start), px)
  {
    ghost var moved := ScrolledAll(start);
    ghost var idx;
    kept, passed, idx := SweepObstacles(pre, moved, px, deltaTime);
    RemainingSurvive(moved, |moved|);
    SurvivorsSelect(moved, |moved|, Visible);
    PassedAmongIsCount(moved, |moved|, px);
    assert moved[..|moved|] == moved;
    PickDistinct(kept, pre, idx);
    PicksFrom(kept, pre, idx);
  }

  // -------------------------------------------------------------------- game

  class Game {
    var player: Player
    var trail: Trail
    var obstacles: seq<Obstacle>
    var lastTime: real
    var gameOver: bool
    var score: int

    /** No obstacle is listed twice and the animation frame is in range. */
    ghost predicate Valid()
      reads this, player
    {
      Distinct(obstacles) && player.Valid()
    }

    /** A new spike at the right edge, hanging from the ceiling or standing
        on the floor; `size` and `isTop` are the two random draws. */
    method SpawnObstacle(size: int, isTop: bool)
      requires Valid() && MinSpikeSize <= size <= MaxSpikeSize
      modifies this`obstacles
      ensures Valid()
      ensures |obstacles| == |old(obstacles)| + 1 && obstacles[..|old(obstacles)|] == old(obstacles)
      ensures fresh(obstacles[|old(obstacles)|])
      ensures obstacles[|old(obstacles)|].Shape() == Spike(CanvasWidth, if isTop then 0 else CanvasHeight, size, isTop)
    {
      var obstacle := new Obstacle(Spike(CanvasWidth, if isTop then 0 else CanvasHeight, size, isTop));
      assert (obstacles + [obstacle])[..|obstacles|] == obstacles;
      obstacles := obstacles + [obstacle];
    }

    /** A fresh round: the shark at the left edge, half-way down, no trail,
        no obstacles but a first spike, and no score. */
    constructor (size: int, isTop: bool)
      requires MinSpikeSize <= size <= MaxSpikeSize
      ensures Valid() && fresh(player) && fresh(trail)
      ensures player.Where() == Point(0, CanvasHeight / 2) && player.state == Down
      ensures player.frameIndex == 0 && player.frameTimer == 0.0
      ensures player.moveTimer == 0.0 && player.slowStartTimer == 0.0
      ensures trail.points == [] && !trail.reachMiddle
      ensures |obstacles| == 1 && obstacles[0].Shape() == Spike(CanvasWidth, if isTop then 0 else CanvasHeight, size, isTop)
      ensures lastTime == 0.0 && !gameOver && score == 0
    {
      player := new Player(Point(0, CanvasHeight / 2));
      trail := new Trail();
      lastTime := 0.0;
      obstacles := [];
      gameOver := false;
      score := 0;
      new;
      SpawnObstacle(size, isTop);
    }

    /** A mouse press flips the shark's gravity. */
    method MouseDown()
      modifies player`state
      ensures player.state == Toggled(old(player.state))
    {
      player.ToggleState();
    }

    /** The space bar restarts a finished round; `now` is the clock
        reading and `size` and `isTop` the first spike's random draws. */
    method KeyDown(key: string, now: real, size: int, isTop: bool)
      requires Valid() && MinSpikeSize <= size <= MaxSpikeSize
      modifies this
      ensures Valid()
      ensures !(old(gameOver) && key == " ") ==>
                player == old(player) && trail == old(trail) && obstacles == old(obstacles) &&
                gameOver == old(gameOver) && score == old(score) && lastTime == old(lastTime)
      ensures old(gameOver) && key == " " ==>
                fresh(player) && player.Where() == Point(0, CanvasHeight / 2) && player.state == Down &&
                player.frameIndex == 0 && player.frameTimer == 0.0 &&
                player.moveTimer == 0.0 && player.slowStartTimer == 0.0 &&
                fresh(trail) && trail.points == [] && !trail.reachMiddle &&
                |obstacles| == 1 && obstacles[0].Shape() == Spike(CanvasWidth, if isTop then 0 else CanvasHeight, size, isTop) &&
                !gameOver && score == 0 && lastTime == now
    {
      if gameOver && key == " " {
        obstacles := [];
        player := new Player(Point(0, CanvasHeight / 2));
        trail := new Trail();
        gameOver := false;
        lastTime := now;
        score := 0;
        SpawnObstacle(size, isTop);
      }
    }

    /** The obstacle part of a frame: every spike scrolls, each spike
        wholly behind the shark adds one to the score, and the spikes off
        screen are dropped. */
    method AdvanceObstacles(ghost start: seq<Spike>, deltaTime: real)
      requires Valid() && Placed(obstacles, start)
      modifies this`obstacles, this`score, obstacles
      ensures Valid()
      ensures forall o :: o in obstacles ==> o in old(obstacles)
      ensures Placed(obstacles, Filter(ScrolledAll(start), Visible))
      ensures score == old(score) + PassedCount(ScrolledAll(start), player.x)
    {
      var kept, passed := FilterObstacles(obstacles, start, player.x, deltaTime);
      ghost var after := Filter(ScrolledAll(start), Visible);
      obstacles := kept;
      assert Placed(obstacles, after);
      score := score + passed;
      assert Placed(obstacles, after);
    }

    /** One frame of the game loop at clock reading `timestamp`. A finished
        round only clears the score; otherwise the round is played on. */
    method Tick(timestamp: real, collided: bool)
      requires Valid()
      modifies this`lastTime, this`obstacles, this`score, this`gameOver, trail, player, obstacles
      ensures Valid()
      ensures old(gameOver) ==>
                gameOver && score == 0 && lastTime == old(lastTime) && obstacles == old(obstacles) &&
                unchanged(player) && unchanged(trail) && (forall o :: o in obstacles ==> unchanged(o))
      ensures !old(gameOver) ==> Played(timestamp, collided)
    {
      if gameOver {
        score := 0;
        return;
      }
      Play(timestamp, collided);
    }

    /** What one frame of a running round does: the trail gets the shark's
        position, the obstacles advance, the round ends on a collision
        (`collided` is the outcome of the triangle test against the
        remaining spikes) or when the shark has left the field, and then
        the shark moves. */
    twostate predicate Played(timestamp: real, collided: bool)
      reads this, trail, player, obstacles
    {
      var dt := timestamp - old(lastTime);
      var moved := ScrolledAll(old(ShapesOf(obstacles)));
      lastTime == timestamp &&
      TrailState(trail.points, trail.reachMiddle) ==
        AddedState(old(TrailState(trail.points, trail.reachMiddle)), Point(old(player.x), old(player.y) + TrailDrop)) &&
      Placed(obstacles, Filter(moved, Visible)) &&
      score == old(score) + PassedCount(moved, old(player.x)) &&
      gameOver == (collided || OutOfField(old(player.y))) &&
      player.state == old(player.state) &&
      Clock(player.frameTimer, player.frameIndex) == Animated(old(Clock(player.frameTimer, player.frameIndex)), dt) &&
      player.moveTimer == old(player.moveTimer) + dt && player.slowStartTimer == old(player.slowStartTimer) + dt &&
      player.Where() == (if player.moveTimer >= MoveInterval
                         then Drifted(player.state, player.slowStartTimer <= SlowStart, old(player.Where()))
                         else old(player.Where()))
    }

    method Play(timestamp: real, collided: bool)
      requires Valid() && !gameOver
      modifies this`lastTime, this`obstacles, this`score, this`gameOver, trail, player, obstacles
      ensures Valid() && Played(timestamp, collided)
    {
      ghost var start := ShapesOf(obstacles);
      ghost var p0 := player.Where();
      var deltaTime := timestamp - lastTime;
      lastTime := timestamp;
      Scroll(start, deltaTime);
      assert player.Where() == p0;
      Judge(collided, deltaTime);
    }

    /** The first half of a frame: the trail gets the shark's position and
        the obstacles advance. */
    method Scroll(ghost start: seq<Spike>, deltaTime: real)
      requires Valid() && Placed(obstacles, start)
      modifies this`obstacles, this`score, trail, obstacles
      ensures Valid()
      ensures TrailState(trail.points, trail.reachMiddle) ==
                AddedState(old(TrailState(trail.points, trail.reachMiddle)), Point(player.x, player.y + TrailDrop))
      ensures Placed(obstacles, Filter(ScrolledAll(start), Visible))
      ensures score == old(score) + PassedCount(ScrolledAll(start), player.x)
    {
      trail.AddPoint(Point(player.x, player.y + TrailDrop));
      ghost var trail1 := TrailState(trail.points, trail.reachMiddle);
      AdvanceObstacles(start, deltaTime);
      assert TrailState(trail.points, trail.reachMiddle) == trail1;
    }

    /** The second half of a frame: the round ends on a collision or when
        the shark has left the field, and then the shark moves. */
    method Judge(collided: bool, deltaTime: real)
      requires Valid() && !gameOver
      modifies this`gameOver, player
      ensures Valid()
      ensures gameOver == (collided || OutOfField(old(player.y)))
      ensures player.state == old(player.state)
      ensures Clock(player.frameTimer, player.frameIndex) == Animated(old(Clock(player.frameTimer, player.frameIndex)), deltaTime)
      ensures player.moveTimer == old(player.moveTimer) + deltaTime
      ensures player.slowStartTimer == old(player.slowStartTimer) + deltaTime
      ensures player.Where() == (if player.moveTimer >= MoveInterval
                                 then Drifted(player.state, player.slowStartTimer <= SlowStart, old(player.Where()))
                                 else old(player.Where()))
    {
      if collided {
        gameOver := true;
      }
      if player.y <= 0 || player.y + FloorMargin >= CanvasHeight {
        gameOver := true;
      }
      player.Update(deltaTime);
    }
  }
}
