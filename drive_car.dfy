// Top-down driving game: the player's car, the traffic cars and the
// dashed centre line, and one tick of the game loop.

module DriveCar {
  import opened Lists

  const CanvasWidth: real := 400.0
  const CanvasHeight: real := 600.0

  // Every car has the same size and the same speed limits.
  const CarWidth: real := 40.0
  const CarHeight: real := 80.0
  const MinSpeed: real := 3.0
  const MaxSpeed: real := 8.0
  const Acceleration: real := 0.1
  const StartSpeed: real := 5.0
  const SteerStep: real := 5.0

  const CarSpawnInterval: int := 2000
  const LineSpawnInterval: int := 100

  /** The keys the game listens to, pressed or not. */
  datatype Keys = Keys(w: bool, s: bool, a: bool, d: bool)

  /** A top-left corner. */
  datatype Pos = Pos(x: real, y: real)

  /** An axis-aligned rectangle: top-left corner, width and height. */
  datatype Rect = Rect(x: real, y: real, width: real, height: real)

  function Min(a: real, b: real): real { if a < b then a else b }
  function Max(a: real, b: real): real { if a < b then b else a }

  // ---------------------------------------------------------------- steering

  /** The speed after one tick with the given keys: `w` accelerates up to
      the maximum, then `s` brakes down to the minimum. */
  function Steered(speed: real, keys: Keys): (v: real)
    ensures MinSpeed <= speed <= MaxSpeed ==> MinSpeed <= v <= MaxSpeed
    ensures !keys.w && !keys.s ==> v == speed
    ensures keys.w && !keys.s && speed <= MaxSpeed ==> speed <= v <= speed + Acceleration
    ensures keys.s && !keys.w && speed >= MinSpeed ==> speed - Acceleration <= v <= speed
  {
    var faster := if keys.w then Min(MaxSpeed, speed + Acceleration) else speed;
    if keys.s then Max(MinSpeed, faster - Acceleration) else faster
  }

  /** The horizontal position after one tick: `a` moves left but not past
      the left edge, then `d` moves right but not past the right edge. */
  function Swerved(x: real, keys: Keys, canvasWidth: real): (r: real)
    ensures canvasWidth >= CarWidth && 0.0 <= x <= canvasWidth - CarWidth ==>
              0.0 <= r <= canvasWidth - CarWidth
    ensures !keys.a && !keys.d ==> r == x
    ensures keys.a && !keys.d && x >= 0.0 ==> x - SteerStep <= r <= x && r >= 0.0
    ensures keys.d && !keys.a && x <= canvasWidth - CarWidth ==>
              x <= r <= x + SteerStep && r <= canvasWidth - CarWidth
  {
    var left := if keys.a then Max(0.0, x - SteerStep) else x;
    if keys.d then Min(canvasWidth - CarWidth, left + SteerStep) else left
  }

  /** Pressing both pedals leaves a speed away from the limits where it was. */
  lemma BothPedalsCancel(speed: real, keys: Keys)
    requires keys.w && keys.s && MinSpeed + Acceleration <= speed <= MaxSpeed - Acceleration
    ensures Steered(speed, keys) == speed
  {
  }

  // --------------------------------------------------------------- collision

  /** The collision test of the game: two rectangles collide unless one
      lies strictly to the left of, right of, above or below the other,
      so rectangles that only touch collide. */
  predicate Overlap(a: Rect, b: Rect)
  {
    !(a.x > b.x + b.width || a.x + a.width < b.x ||
      a.y > b.y + b.height || a.y + a.height < b.y)
  }

  /** An independent reading: the two closed intervals share a point. */
  predicate IntervalsMeet(lo1: real, hi1: real, lo2: real, hi2: real)
  {
    Max(lo1, lo2) <= Min(hi1, hi2)
  }

  lemma OverlapIffIntervalsMeet(a: Rect, b: Rect)
    requires a.width >= 0.0 && a.height >= 0.0 && b.width >= 0.0 && b.height >= 0.0
    ensures Overlap(a, b) <==>
              IntervalsMeet(a.x, a.x + a.width, b.x, b.x + b.width) &&
              IntervalsMeet(a.y, a.y + a.height, b.y, b.y + b.height)
  {
  }

  lemma OverlapSymmetric(a: Rect, b: Rect)
    ensures Overlap(a, b) == Overlap(b, a)
  {
  }

  function CarRect(p: Pos): Rect
  {
    Rect(p.x, p.y, CarWidth, CarHeight)
  }

  /** Two cars side by side whose edges touch count as a collision; any gap
      between them does not. */
  lemma TouchingCarsCollide(a: Pos, gap: real)
    requires gap >= 0.0
    ensures Overlap(CarRect(a), CarRect(Pos(a.x + CarWidth + gap, a.y))) <==> gap == 0.0
  {
  }

  // ------------------------------------------- specification of one game tick

  /** Every position moved down by `dy`. */
  function Advance(ps: seq<Pos>, dy: real): (r: seq<Pos>)
  {
    seq(|ps|, i requires 0 <= i < |ps| => Pos(ps[i].x, ps[i].y + dy))
  }

  predicate OffScreen(p: Pos)
  {
    p.y > CanvasHeight
  }

  /** The positions still on the screen, in their order. */
  function OnScreen(ps: seq<Pos>): seq<Pos>
  {
    if ps == [] then []
    else OnScreen(ps[..|ps| - 1]) + (if OffScreen(ps[|ps| - 1]) then [] else [ps[|ps| - 1]])
  }

  /** How many positions have left the screen. */
  function OffScreenCount(ps: seq<Pos>): nat
  {
    if ps == [] then 0
    else OffScreenCount(ps[..|ps| - 1]) + (if OffScreen(ps[|ps| - 1]) then 1 else 0)
  }

  /** Whether a car at one of the positions touches the rectangle. */
  predicate AnyHit(player: Rect, ps: seq<Pos>)
  {
    exists i :: 0 <= i < |ps| && Overlap(player, CarRect(ps[i]))
  }

  lemma {:induction false} OnScreenKeepsExactly(ps: seq<Pos>, p: Pos)
    ensures p in OnScreen(ps) <==> p in ps && !OffScreen(p)
  {
    if ps != [] {
      var init := ps[..|ps| - 1];
      OnScreenKeepsExactly(init, p);
      assert ps == init + [ps[|ps| - 1]];
    }
  }

  /** Every position is either kept or counted, never both. */
  lemma {:induction false} OnScreenPartition(ps: seq<Pos>)
    ensures forall q :: q in OnScreen(ps) ==> !OffScreen(q)
    ensures |OnScreen(ps)| + OffScreenCount(ps) == |ps|
  {
    if ps != [] {
      OnScreenPartition(ps[..|ps| - 1]);
    }
  }

  /** When nothing is below the bottom edge, everything stays and nothing
      is counted. */
  lemma {:induction false} NothingLeavesWhenAllVisible(ps: seq<Pos>)
    requires forall i :: 0 <= i < |ps| ==> !OffScreen(ps[i])
    ensures OnScreen(ps) == ps && OffScreenCount(ps) == 0
  {
    if ps != [] {
      var init := ps[..|ps| - 1];
      NothingLeavesWhenAllVisible(init);
      assert ps == init + [ps[|ps| - 1]];
    }
  }

  /** The indices of the positions still on the screen, in order. */
  function KeptIndices(ps: seq<Pos>): seq<int>
  {
    if ps == [] then []
    else KeptIndices(ps[..|ps| - 1]) + (if OffScreen(ps[|ps| - 1]) then [] else [|ps| - 1])
  }

  /** `OnScreen` selects exactly the entries at `KeptIndices`, which
      increase strictly. */
  lemma {:induction false} KeptIndicesSelect(ps: seq<Pos>)
    ensures |KeptIndices(ps)| == |OnScreen(ps)|
    ensures forall k :: 0 <= k < |OnScreen(ps)| ==>
              0 <= KeptIndices(ps)[k] < |ps| && OnScreen(ps)[k] == ps[KeptIndices(ps)[k]]
    ensures forall a, b :: 0 <= a < b < |KeptIndices(ps)| ==> KeptIndices(ps)[a] < KeptIndices(ps)[b]
  {
    if ps != [] {
      var init := ps[..|ps| - 1];
      KeptIndicesSelect(init);
      forall k | 0 <= k < |OnScreen(init)|
        ensures OnScreen(ps)[k] == ps[KeptIndices(ps)[k]] && KeptIndices(ps)[k] < |ps|
      {
        assert ps[KeptIndices(init)[k]] == init[KeptIndices(init)[k]];
      }
    }
  }

  lemma StepAt(ps: seq<Pos>, i: nat, dy: real)
    requires i < |ps|
    ensures Advance(ps[..i + 1], dy) == Advance(ps[..i], dy) + [Pos(ps[i].x, ps[i].y + dy)]
  {
    assert ps[..i + 1][..i] == ps[..i];
  }

  /** The indices, among the first `n`, of the positions still on the
      screen after moving down by `dy`: what the filter loops keep. */
  function MovedSurvivors(ps: seq<Pos>, n: nat, dy: real): (r: seq<int>)
    requires n <= |ps|
    ensures |r| <= n
  {
    if n == 0 then []
    else MovedSurvivors(ps, n - 1, dy) + (if OffScreen(Pos(ps[n - 1].x, ps[n - 1].y + dy)) then [] else [n - 1])
  }

  lemma {:induction false} MovedSurvivorsAreKeptIndices(ps: seq<Pos>, n: nat, dy: real)
    requires n <= |ps|
    ensures MovedSurvivors(ps, n, dy) == KeptIndices(Advance(ps[..n], dy))
  {
    if n > 0 {
      MovedSurvivorsAreKeptIndices(ps, n - 1, dy);
      StepAt(ps, n - 1, dy);
      var a := Advance(ps[..n - 1], dy);
      assert (a + [Pos(ps[n - 1].x, ps[n - 1].y + dy)])[..|a|] == a;
    }
  }

  /** What the filter loops deliver, stated on values: the surviving
      indices pick out the on-screen list, in increasing order. */
  lemma FilterOutcome(ps: seq<Pos>, dy: real, idx: seq<int>)
    requires idx == MovedSurvivors(ps, |ps|, dy)
    ensures |idx| == |OnScreen(Advance(ps, dy))|
    ensures forall k :: 0 <= k < |idx| ==>
              0 <= idx[k] < |ps| && OnScreen(Advance(ps, dy))[k] == Pos(ps[idx[k]].x, ps[idx[k]].y + dy)
    ensures forall a, b :: 0 <= a < b < |idx| ==> idx[a] < idx[b]
  {
    MovedSurvivorsAreKeptIndices(ps, |ps|, dy);
    assert ps[..|ps|] == ps;
    KeptIndicesSelect(Advance(ps, dy));
  }

  /** Whether one of the first `n` positions, moved down by `dy`, touches
      the rectangle: what the traffic loop accumulates. */
  predicate HitAmong(player: Rect, ps: seq<Pos>, n: nat, dy: real)
    requires n <= |ps|
  {
    n > 0 && (HitAmong(player, ps, n - 1, dy) || Overlap(player, CarRect(Pos(ps[n - 1].x, ps[n - 1].y + dy))))
  }

  lemma {:induction false} HitAmongIsAnyHit(player: Rect, ps: seq<Pos>, n: nat, dy: real)
    requires n <= |ps|
    ensures HitAmong(player, ps, n, dy) <==> AnyHit(player, Advance(ps[..n], dy))
  {
    if n > 0 {
      HitAmongIsAnyHit(player, ps, n - 1, dy);
      StepAt(ps, n - 1, dy);
      var a := Advance(ps[..n - 1], dy);
      assert Advance(ps[..n], dy)[n - 1] == Pos(ps[n - 1].x, ps[n - 1].y + dy);
      if AnyHit(player, a) {
        var j :| 0 <= j < |a| && Overlap(player, CarRect(a[j]));
        assert Advance(ps[..n], dy)[j] == a[j];
      }
      if AnyHit(player, Advance(ps[..n], dy)) {
        var j :| 0 <= j < n && Overlap(player, CarRect(Advance(ps[..n], dy)[j]));
        if j < n - 1 {
          assert Advance(ps[..n], dy)[j] == a[j];
        }
      }
    }
  }

  /** What the filter loops deliver, stated on values: picking the
      surviving indices from a list without repeats gives a list without
      repeats, drawn from it, whose entries sit where `OnScreen` puts the
      moved positions. */
  lemma FilterSummary<T>(kept: seq<T>, pre: seq<T>, start: seq<Pos>, dy: real, idx: seq<int>)
    requires Distinct(pre) && |pre| == |start| && idx == MovedSurvivors(start, |start|, dy)
    requires Picks(kept, pre, idx)
    ensures Distinct(kept) && forall x :: x in kept ==> x in pre
    ensures |kept| == |OnScreen(Advance(start, dy))|
    ensures forall k :: 0 <= k < |kept| ==>
              0 <= idx[k] < |pre| && kept[k] == pre[idx[k]] &&
              OnScreen(Advance(start, dy))[k] == Pos(start[idx[k]].x, start[idx[k]].y + dy)
  {
    FilterOutcome(start, dy, idx);
    PickDistinct(kept, pre, idx);
    PicksFrom(kept, pre, idx);
  }

  /** The left edge of a car centred in the left or the right lane. */
  function LaneX(leftLane: bool): (r: real)
    ensures r == 80.0 || r == 280.0
  {
    (if leftLane then CanvasWidth / 4.0 else CanvasWidth * 3.0 / 4.0) - 20.0
  }

  const LineX: real := CanvasWidth / 2.0 - 2.0

  /** The traffic before the filter runs: the old cars and, once the
      spawn interval has passed, a new car at the top of a lane. */
  function CarArrivals(cars: seq<Pos>, last: int, now: int, leftLane: bool): seq<Pos>
  {
    cars + (if now - last > CarSpawnInterval then [Pos(LaneX(leftLane), -100.0)] else [])
  }

  /** The centre-line dashes before the filter runs. */
  function LineArrivals(lines: seq<Pos>, last: int, now: int): seq<Pos>
  {
    lines + (if now - last > LineSpawnInterval then [Pos(LineX, -30.0)] else [])
  }

  // ------------------------------------------------------------------ objects

  class Car {
    var x: real
    var y: real
    var speed: real

    constructor (x0: real, y0: real)
      ensures x == x0 && y == y0 && speed == StartSpeed
    {
      x, y, speed := x0, y0, StartSpeed;
    }

    function Where(): Pos
      reads this
    {
      Pos(x, y)
    }

    function Bounds(): Rect
      reads this
    {
      CarRect(Pos(x, y))
    }

    /** One tick of the player's controls. */
    method Move(keys: Keys, canvasWidth: real)
      modifies this
      ensures speed == Steered(old(speed), keys)
      ensures x == Swerved(old(x), keys, canvasWidth) && y == old(y)
    {
      if keys.w {
        speed := Min(MaxSpeed, speed + Acceleration);
      }
      if keys.s {
        speed := Max(MinSpeed, speed - Acceleration);
      }
      if keys.a {
        x := Max(0.0, x - SteerStep);
      }
      if keys.d {
        x := Min(canvasWidth - CarWidth, x + SteerStep);
      }
    }

    /** Two cars collide exactly when their spans meet both across and
        along the road. */
    predicate CheckCollision(other: Car)
      reads this, other
      ensures CheckCollision(other) <==>
                IntervalsMeet(x, x + CarWidth, other.x, other.x + CarWidth) &&
                IntervalsMeet(y, y + CarHeight, other.y, other.y + CarHeight)
    {
      Overlap(Bounds(), other.Bounds())
    }
  }

  class RoadLine {
    var x: real
    var y: real

    constructor (x0: real, y0: real)
      ensures x == x0 && y == y0
    {
      x, y := x0, y0;
    }

    method Move(playerSpeed: real)
      modifies this
      ensures x == old(x) && y == old(y) + playerSpeed
    {
      y := y + playerSpeed;
    }

    /** On the game's canvas this is the test by which the dash filter
        drops a dash. */
    predicate IsOffScreen(canvasHeight: real)
      reads this
      ensures canvasHeight == CanvasHeight ==> (IsOffScreen(canvasHeight) <==> OffScreen(Pos(x, y)))
    {
      y > canvasHeight
    }
  }

  ghost function CarsAt(cars: seq<Car>): (r: seq<Pos>)
    reads cars
    ensures |r| == |cars| && forall i :: 0 <= i < |cars| ==> r[i] == cars[i].Where()
  {
    if cars == [] then [] else CarsAt(cars[..|cars| - 1]) + [cars[|cars| - 1].Where()]
  }

  ghost function LinesAt(lines: seq<RoadLine>): (r: seq<Pos>)
    reads lines
    ensures |r| == |lines| && forall i :: 0 <= i < |lines| ==> r[i] == Pos(lines[i].x, lines[i].y)
  {
    if lines == [] then [] else LinesAt(lines[..|lines| - 1]) + [Pos(lines[|lines| - 1].x, lines[|lines| - 1].y)]
  }

  /** The cars stand, in order, at the positions `ps`. */
  ghost predicate StandAt(cars: seq<Car>, ps: seq<Pos>)
    reads cars
  {
    |cars| == |ps| && forall k :: 0 <= k < |cars| ==> cars[k].Where() == ps[k]
  }

  lemma StandAtIsCarsAt(cars: seq<Car>, ps: seq<Pos>)
    ensures StandAt(cars, ps) <==> CarsAt(cars) == ps
  {
  }

  /** The dashes stand, in order, at the positions `ps`. */
  ghost predicate LinesStandAt(lines: seq<RoadLine>, ps: seq<Pos>)
    reads lines
  {
    |lines| == |ps| && forall k :: 0 <= k < |lines| ==> Pos(lines[k].x, lines[k].y) == ps[k]
  }

  lemma LinesStandAtIsLinesAt(lines: seq<RoadLine>, ps: seq<Pos>)
    ensures LinesStandAt(lines, ps) <==> LinesAt(lines) == ps
  {
  }

  /** The body of the traffic filter, for one car: it moves down by the
      player's speed, may touch the player, and is kept unless it is now
      below the bottom edge. */
  method StepTrafficCar(car: Car, player: Car) returns (keep: bool, touched: bool)
    requires car != player
    modifies car
    ensures car.Where() == Pos(old(car.x), old(car.y) + player.speed)
    ensures keep <==> !OffScreen(car.Where())
    ensures touched <==> Overlap(player.Bounds(), CarRect(car.Where()))
  {
    car.y := car.y + player.speed;
    touched := player.CheckCollision(car);
    keep := !(car.y > CanvasHeight);
  }

  /** The loop of the traffic filter: moves every car down by the player's
      speed, notes whether any touches the player, counts the ones below
      the bottom edge and keeps the others in order; `start` holds the
      positions beforehand and `idx` the indices of the kept cars. */
  method SweepTraffic(pre: seq<Car>, ghost start: seq<Pos>, player: Car)
    returns (kept: seq<Car>, removed: nat, hit: bool, ghost idx: seq<int>)
    requires Distinct(pre) && player !in pre && |start| == |pre|
    requires forall j :: 0 <= j < |pre| ==> pre[j].Where() == start[j]
    modifies pre
    ensures forall j :: 0 <= j < |pre| ==> pre[j].Where() == Pos(start[j].x, start[j].y + old(player.speed))
    ensures idx == MovedSurvivors(start, |pre|, old(player.speed)) && Picks(kept, pre, idx)
    ensures removed == |pre| - |idx|
    ensures hit == HitAmong(old(player.Bounds()), start, |pre|, old(player.speed))
  {
    ghost var v, box := player.speed, player.Bounds();
    idx := [];
    kept, removed, hit := [], 0, false;
    var i := 0;
    while i < |pre|
      invariant 0 <= i <= |pre| && player.speed == v && player.Bounds() == box
      invariant forall j :: 0 <= j < i ==> pre[j].Where() == Pos(start[j].x, start[j].y + v)
      invariant forall j :: i <= j < |pre| ==> pre[j].Where() == start[j]
      invariant idx == MovedSurvivors(start, i, v) && Picks(kept, pre, idx)
      invariant removed == i - |idx|
      invariant hit == HitAmong(box, start, i, v)
    {
      var car := pre[i];
      DistinctAt(pre, i);
      var keep, touched := StepTrafficCar(car, player);
      hit := hit || touched;
      if !keep {
        removed := removed + 1;
      } else {
        kept, idx := kept + [car], idx + [i];
      }
      i := i + 1;
    }
  }

  /** The traffic filter: the sweep, summed up on the positions the cars
      had beforehand. */
  method FilterTraffic(pre: seq<Car>, ghost start: seq<Pos>, player: Car)
    returns (kept: seq<Car>, removed: nat, hit: bool)
    requires Distinct(pre) && player !in pre && |start| == |pre|
    requires forall j :: 0 <= j < |pre| ==> pre[j].Where() == start[j]
    modifies pre
    ensures Distinct(kept) && forall c :: c in kept ==> c in pre
    ensures StandAt(kept, OnScreen(Advance(start, old(player.speed))))
    ensures removed == OffScreenCount(Advance(start, old(player.speed)))
    ensures hit == AnyHit(old(player.Bounds()), Advance(start, old(player.speed)))
  {
    ghost var v, box := player.speed, player.Bounds();
    ghost var idx;
    kept, removed, hit, idx := SweepTraffic(pre, start, player);
    FilterSummary(kept, pre, start, v, idx);
    OnScreenPartition(Advance(start, v));
    HitAmongIsAnyHit(box, start, |start|, v);
    assert start[..|start|] == start;
  }

  /** The loop of the centre-line filter: moves every dash down by `dy`
      and keeps, in order, the ones not below the bottom edge; `start`
      holds their positions beforehand and `idx` the indices of the kept
      dashes. */
  method SweepLines(pre: seq<RoadLine>, ghost start: seq<Pos>, dy: real)
    returns (kept: seq<RoadLine>, ghost idx: seq<int>)
    requires Distinct(pre) && |start| == |pre|
    requires forall j :: 0 <= j < |pre| ==> Pos(pre[j].x, pre[j].y) == start[j]
    modifies pre
    ensures forall j :: 0 <= j < |pre| ==> Pos(pre[j].x, pre[j].y) == Pos(start[j].x, start[j].y + dy)
    ensures idx == MovedSurvivors(start, |pre|, dy) && Picks(kept, pre, idx)
  {
    idx := [];
    kept := [];
    var i := 0;
    while i < |pre|
      invariant 0 <= i <= |pre|
      invariant forall j :: 0 <= j < i ==> Pos(pre[j].x, pre[j].y) == Pos(start[j].x, start[j].y + dy)
      invariant forall j :: i <= j < |pre| ==> Pos(pre[j].x, pre[j].y) == start[j]
      invariant idx == MovedSurvivors(start, i, dy) && Picks(kept, pre, idx)
    {
      var line := pre[i];
      DistinctAt(pre, i);
      line.Move(dy);
      if !line.IsOffScreen(CanvasHeight) {
        kept, idx := kept + [line], idx + [i];
      }
      i := i + 1;
    }
  }

  /** The centre-line filter: the sweep, summed up on the positions the
      dashes had beforehand. */
  method FilterLines(pre: seq<RoadLine>, ghost start: seq<Pos>, dy: real) returns (kept: seq<RoadLine>)
    requires Distinct(pre) && |start| == |pre|
    requires forall j :: 0 <= j < |pre| ==> Pos(pre[j].x, pre[j].y) == start[j]
    modifies pre
    ensures Distinct(kept) && forall l :: l in kept ==> l in pre
    ensures LinesStandAt(kept, OnScreen(Advance(start, dy)))
  {
    ghost var idx;
    kept, idx := SweepLines(pre, start, dy);
    FilterSummary(kept, pre, start, dy, idx);
  }

  class Game {
    var player: Car
    var trafficCars: seq<Car>
    var roadLines: seq<RoadLine>
    var lastCarSpawnTime: int
    var lastLineSpawnTime: int
    var score: nat
    var gameOver: bool

    /** No object is listed twice, and the player is not traffic. */
    ghost predicate Valid()
      reads this
    {
      player !in trafficCars && Distinct(trafficCars) && Distinct(roadLines)
    }

    constructor ()
      ensures Valid() && fresh(player)
      ensures player.Where() == Pos(CanvasWidth / 2.0 - 20.0, CanvasHeight - 100.0)
      ensures player.speed == StartSpeed
      ensures trafficCars == [] && roadLines == [] && score == 0 && !gameOver
      ensures lastCarSpawnTime == 0 && lastLineSpawnTime == 0
    {
      player := new Car(CanvasWidth / 2.0 - 20.0, CanvasHeight - 100.0);
      trafficCars, roadLines := [], [];
      lastCarSpawnTime, lastLineSpawnTime := 0, 0;
      score, gameOver := 0, false;
    }

    /** A red car enters at the top of a lane once more than the spawn
        interval has passed; `leftLane` is the outcome of the coin flip. */
    method SpawnTrafficCar(currentTime: int, leftLane: bool, ghost cars: seq<Pos>)
      requires Valid() && StandAt(trafficCars, cars)
      modifies this`trafficCars, this`lastCarSpawnTime
      ensures Valid()
      ensures StandAt(trafficCars, CarArrivals(cars, old(lastCarSpawnTime), currentTime, leftLane))
      ensures forall c :: c in trafficCars ==> c in old(trafficCars) || fresh(c)
      ensures lastCarSpawnTime ==
                (if currentTime - old(lastCarSpawnTime) > CarSpawnInterval then currentTime else old(lastCarSpawnTime))
    {
      if currentTime - lastCarSpawnTime > CarSpawnInterval {
        var lane := if leftLane then CanvasWidth / 4.0 else CanvasWidth * 3.0 / 4.0;
        var car := new Car(lane - 20.0, -100.0);
        assert (trafficCars + [car])[..|trafficCars|] == trafficCars;
        trafficCars := trafficCars + [car];
        lastCarSpawnTime := currentTime;
      }
    }

    /** A dash of the centre line enters above the top once more than the
        line interval has passed. */
    method SpawnRoadLine(currentTime: int, ghost lines: seq<Pos>)
      requires Valid() && LinesStandAt(roadLines, lines)
      modifies this`roadLines, this`lastLineSpawnTime
      ensures Valid()
      ensures LinesStandAt(roadLines, LineArrivals(lines, old(lastLineSpawnTime), currentTime))
      ensures forall l :: l in roadLines ==> l in old(roadLines) || fresh(l)
      ensures lastLineSpawnTime ==
                (if currentTime - old(lastLineSpawnTime) > LineSpawnInterval then currentTime else old(lastLineSpawnTime))
    {
      if currentTime - lastLineSpawnTime > LineSpawnInterval {
        var line := new RoadLine(CanvasWidth / 2.0 - 2.0, -30.0);
        assert (roadLines + [line])[..|roadLines|] == roadLines;
        roadLines := roadLines + [line];
        lastLineSpawnTime := currentTime;
      }
    }

    /** The traffic filter of one tick: every car moves down by the
        player's speed, touching the player ends the game, and the cars
        below the bottom edge are dropped and each adds one to the score. */
    method AdvanceTraffic(ghost start: seq<Pos>)
      requires Valid() && StandAt(trafficCars, start)
      modifies this`trafficCars, this`score, this`gameOver, trafficCars
      ensures Valid()
      ensures forall c :: c in trafficCars ==> c in old(trafficCars)
      ensures StandAt(trafficCars, OnScreen(Advance(start, old(player.speed))))
      ensures score == old(score) + OffScreenCount(Advance(start, old(player.speed)))
      ensures gameOver == (old(gameOver) || AnyHit(old(player.Bounds()), Advance(start, old(player.speed))))
    {
      var kept, removed, hit := FilterTraffic(trafficCars, start, player);
      ghost var after := OnScreen(Advance(start, old(player.speed)));
      trafficCars := kept;
      assert StandAt(trafficCars, after);
      score := score + removed;
      assert StandAt(trafficCars, after);
      if hit {
        gameOver := true;
      }
      assert StandAt(trafficCars, after);
    }

    /** The centre-line filter of one tick: every dash moves down by the
        player's speed and the dashes below the bottom edge are dropped. */
    method AdvanceLines(ghost start: seq<Pos>)
      requires Valid() && LinesStandAt(roadLines, start)
      modifies this`roadLines, roadLines
      ensures Valid()
      ensures forall l :: l in roadLines ==> l in old(roadLines)
      ensures LinesStandAt(roadLines, OnScreen(Advance(start, old(player.speed))))
    {
      var kept := FilterLines(roadLines, start, player.speed);
      ghost var after := OnScreen(Advance(start, old(player.speed)));
      roadLines := kept;
      assert LinesStandAt(roadLines, after);
    }

    /** The first half of a tick: the player steers, then a car and a dash
        may enter; `cars` and `lines` are the positions beforehand. */
    method Arrive(keys: Keys, carTime: int, lineTime: int, leftLane: bool, ghost cars: seq<Pos>, ghost lines: seq<Pos>)
      requires Valid() && StandAt(trafficCars, cars) && LinesStandAt(roadLines, lines)
      modifies this`trafficCars, this`roadLines, this`lastCarSpawnTime, this`lastLineSpawnTime, player
      ensures Valid() && score == old(score) && gameOver == old(gameOver)
      ensures player.speed == Steered(old(player.speed), keys)
      ensures player.Where() == Pos(Swerved(old(player.x), keys, CanvasWidth), old(player.y))
      ensures lastCarSpawnTime ==
                (if carTime - old(lastCarSpawnTime) > CarSpawnInterval then carTime else old(lastCarSpawnTime))
      ensures lastLineSpawnTime ==
                (if lineTime - old(lastLineSpawnTime) > LineSpawnInterval then lineTime else old(lastLineSpawnTime))
      ensures StandAt(trafficCars, CarArrivals(cars, old(lastCarSpawnTime), carTime, leftLane))
      ensures LinesStandAt(roadLines, LineArrivals(lines, old(lastLineSpawnTime), lineTime))
      ensures forall c :: c in trafficCars ==> c in old(trafficCars) || fresh(c)
      ensures forall l :: l in roadLines ==> l in old(roadLines) || fresh(l)
    {
      player.Move(keys, CanvasWidth);
      ghost var v, w := player.speed, player.Where();
      assert StandAt(trafficCars, cars) && LinesStandAt(roadLines, lines);
      SpawnTrafficCar(carTime, leftLane, cars);
      assert LinesStandAt(roadLines, lines) && player.speed == v && player.Where() == w;
      ghost var cars1 := CarArrivals(cars, old(lastCarSpawnTime), carTime, leftLane);
      SpawnRoadLine(lineTime, lines);
      assert StandAt(trafficCars, cars1) && player.speed == v && player.Where() == w;
    }

    /** The second half of a tick: both filters run at the player's speed
        on the cars and dashes standing at `cars` and `lines`. */
    method Scroll(ghost cars: seq<Pos>, ghost lines: seq<Pos>)
      requires Valid() && StandAt(trafficCars, cars) && LinesStandAt(roadLines, lines)
      modifies this`trafficCars, this`roadLines, this`score, this`gameOver
      modifies set c | c in trafficCars, set l | l in roadLines
      ensures Valid()
      ensures player.speed == old(player.speed) && player.Where() == old(player.Where())
      ensures lastCarSpawnTime == old(lastCarSpawnTime) && lastLineSpawnTime == old(lastLineSpawnTime)
      ensures StandAt(trafficCars, OnScreen(Advance(cars, old(player.speed))))
      ensures score == old(score) + OffScreenCount(Advance(cars, old(player.speed)))
      ensures gameOver == (old(gameOver) || AnyHit(old(player.Bounds()), Advance(cars, old(player.speed))))
      ensures LinesStandAt(roadLines, OnScreen(Advance(lines, old(player.speed))))
    {
      ghost var v, w := player.speed, player.Where();
      ghost var t1, t2 := lastCarSpawnTime, lastLineSpawnTime;
      AdvanceTraffic(cars);
      ghost var cars2 := OnScreen(Advance(cars, v));
      assert StandAt(trafficCars, cars2) && LinesStandAt(roadLines, lines);
      assert player.speed == v && player.Where() == w;
      assert lastCarSpawnTime == t1 && lastLineSpawnTime == t2;
      ghost var sc, g := score, gameOver;
      AdvanceLines(lines);
      assert StandAt(trafficCars, cars2) && player.speed == v && player.Where() == w;
      assert lastCarSpawnTime == t1 && lastLineSpawnTime == t2 && score == sc && gameOver == g;
    }

    /** One tick of the game loop. Nothing happens once the game is over;
        otherwise the player steers, a car and a dash may enter (`carTime`
        and `lineTime` are the clock readings of the two spawn checks,
        `leftLane` the coin flip) and then both filters run at the new
        speed of the player. */
    method Update(keys: Keys, carTime: int, lineTime: int, leftLane: bool)
      requires Valid()
      modifies this`trafficCars, this`roadLines, this`lastCarSpawnTime, this`lastLineSpawnTime
      modifies this`score, this`gameOver, player, trafficCars, roadLines
      ensures Valid()
      ensures old(gameOver) ==>
                gameOver && score == old(score) &&
                player.Where() == old(player.Where()) && player.speed == old(player.speed) &&
                trafficCars == old(trafficCars) && StandAt(trafficCars, old(CarsAt(trafficCars))) &&
                roadLines == old(roadLines) && LinesStandAt(roadLines, old(LinesAt(roadLines))) &&
                lastCarSpawnTime == old(lastCarSpawnTime) && lastLineSpawnTime == old(lastLineSpawnTime)
      ensures !old(gameOver) ==>
                player.speed == Steered(old(player.speed), keys) &&
                player.Where() == Pos(Swerved(old(player.x), keys, CanvasWidth), old(player.y))
      ensures !old(gameOver) ==>
                lastCarSpawnTime ==
                  (if carTime - old(lastCarSpawnTime) > CarSpawnInterval then carTime else old(lastCarSpawnTime)) &&
                lastLineSpawnTime ==
                  (if lineTime - old(lastLineSpawnTime) > LineSpawnInterval then lineTime else old(lastLineSpawnTime))
      ensures !old(gameOver) ==>
                var cars := Advance(CarArrivals(old(CarsAt(trafficCars)), old(lastCarSpawnTime), carTime, leftLane), player.speed);
                StandAt(trafficCars, OnScreen(cars)) &&
                score == old(score) + OffScreenCount(cars) &&
                gameOver == AnyHit(player.Bounds(), cars)
      ensures !old(gameOver) ==>
                LinesStandAt(roadLines, OnScreen(Advance(LineArrivals(old(LinesAt(roadLines)), old(lastLineSpawnTime), lineTime), player.speed)))
    {
      if gameOver {
        return;
      }
      ghost var cars0, lines0 := CarsAt(trafficCars), LinesAt(roadLines);
      StandAtIsCarsAt(trafficCars, cars0);
      LinesStandAtIsLinesAt(roadLines, lines0);
      Arrive(keys, carTime, lineTime, leftLane, cars0, lines0);
      Scroll(CarArrivals(cars0, old(lastCarSpawnTime), carTime, leftLane),
             LineArrivals(lines0, old(lastLineSpawnTime), lineTime));
    }
  }
}
