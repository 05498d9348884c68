// Artillery duel: the player aims with the arrow keys, charges a power
// meter with the space bar, fires one bullet at a time under gravity and
// wind, and wears the enemy down by twenty health points per hit.

module Gunny {
  import opened Wrappers

  const CanvasWidth: real := 1400.0
  const CanvasHeight: real := 700.0

  const MaxDegree: int := 180
  const DegreeStep: int := 5
  const MaxPower: int := 500
  const PowerStep: int := 10

  const Gravity: real := 0.5
  const WindFactor: real := 0.01

  // The player and the enemy are both 32 by 32 boxes.
  const BoxSize: real := 32.0
  const StartHealth: real := 100.0
  const HitDamage: real := 20.0
  const WalkStep: real := 10.0

  datatype Vec = Vec(x: real, y: real)

  /** The keys the keydown handler reacts to; every other key is `OtherKey`. */
  datatype Key = ArrowUp | ArrowDown | Space | KeyW | KeyA | KeyS | KeyD | OtherKey

  function Min(a: int, b: int): int { if a < b then a else b }
  function Max(a: int, b: int): int { if a < b then b else a }

  // ------------------------------------------------------------------ aiming

  /** The launch angle, a multiple of 5 between 0 and 180. */
  predicate AngleOk(degree: int)
  {
    0 <= degree <= MaxDegree && degree % DegreeStep == 0
  }

  /** The angle after one arrow key: up raises it by 5 unless it is at 180,
      down lowers it by 5 unless it is at 0. */
  function Aimed(degree: int, up: bool): (r: int)
    ensures AngleOk(degree) ==> AngleOk(r)
    ensures r != degree <==> (if up then degree < MaxDegree else degree > 0)
    ensures up ==> degree <= r <= degree + DegreeStep
    ensures !up ==> degree - DegreeStep <= r <= degree
  {
    if up then (if degree < MaxDegree then degree + DegreeStep else degree)
    else (if degree > 0 then degree - DegreeStep else degree)
  }

  /** The angle after `n` presses of the same arrow key. */
  function AimedTimes(degree: int, up: bool, n: nat): int
    decreases n
  {
    if n == 0 then degree else AimedTimes(Aimed(degree, up), up, n - 1)
  }

  /** Holding an arrow key moves the angle 5 degrees per press until it
      stops at the end of the range. */
  lemma {:induction false} AimedTimesClamps(degree: int, up: bool, n: nat)
    requires AngleOk(degree)
    decreases n
    ensures AimedTimes(degree, up, n) ==
              if up then Min(degree + DegreeStep * n, MaxDegree) else Max(degree - DegreeStep * n, 0)
  {
    if n > 0 {
      AimedTimesClamps(Aimed(degree, up), up, n - 1);
    }
  }

  // ------------------------------------------------------------- power meter

  /** The meter reading, a multiple of 10 between 0 and 500, and its
      direction of travel. */
  predicate MeterOk(power: int, direction: int)
  {
    0 <= power <= MaxPower && power % PowerStep == 0 && (direction == 1 || direction == -1)
  }

  /** One press of the space bar: the direction turns down at the top and
      up at the bottom, then the power moves 10 in that direction. */
  function Pressed(power: int, direction: int): (r: (int, int))
    ensures power >= MaxPower ==> r.1 == -1
    ensures 0 >= power ==> r.1 == 1
    ensures 0 < power < MaxPower ==> r.1 == direction
    ensures (r.1 == 1 || r.1 == -1) ==> r.0 == power + PowerStep * r.1
    ensures MeterOk(power, direction) ==> MeterOk(r.0, r.1)
  {
    var d := if power >= MaxPower then -1 else if power <= 0 then 1 else direction;
    (if d == 1 then power + PowerStep else if d == -1 then power - PowerStep else power, d)
  }

  /** The meter after `n` presses of the space bar. */
  function PressedTimes(power: int, direction: int, n: nat): (int, int)
    decreases n
  {
    if n == 0 then (power, direction)
    else var (p, d) := Pressed(power, direction); PressedTimes(p, d, n - 1)
  }

  lemma {:induction false} PressedTimesSplit(power: int, direction: int, a: nat, b: nat)
    decreases a
    ensures PressedTimes(power, direction, a + b) ==
              var (p, d) := PressedTimes(power, direction, a); PressedTimes(p, d, b)
  {
    if a > 0 {
      var (p, d) := Pressed(power, direction);
      PressedTimesSplit(p, d, a - 1, b);
    }
  }

  /** Rising, the meter gains 10 per press. */
  lemma {:induction false} MeterRises(power: int, n: nat)
    requires 0 <= power && power + PowerStep * n <= MaxPower
    decreases n
    ensures PressedTimes(power, 1, n) == (power + PowerStep * n, 1)
  {
    if n > 0 {
      MeterRises(power + PowerStep, n - 1);
    }
  }

  /** Falling, or turning at the top, the meter loses 10 per press. */
  lemma {:induction false} MeterFalls(power: int, direction: int, n: nat)
    requires direction == -1 || power >= MaxPower
    requires PowerStep * n <= power <= MaxPower
    ensures PressedTimes(power, direction, n) == (power - PowerStep * n, if n == 0 then direction else -1)
  {
    if n > 0 {
      MeterFalls(power - PowerStep, -1, n - 1);
    }
  }

  /** From an empty meter, 50 presses fill it and 50 more empty it again,
      now travelling down; the next press turns it back up. */
  lemma MeterBounces()
    ensures PressedTimes(0, 1, 50) == (MaxPower, 1)
    ensures PressedTimes(0, 1, 100) == (0, -1)
    ensures PressedTimes(0, 1, 101) == (PowerStep, 1)
  {
    MeterRises(0, 50);
    PressedTimesSplit(0, 1, 50, 50);
    MeterFalls(MaxPower, 1, 50);
    PressedTimesSplit(0, 1, 100, 1);
  }

  /** However often the space bar is pressed, the meter stays in range. */
  lemma {:induction false} MeterStaysInRange(power: int, direction: int, n: nat)
    requires MeterOk(power, direction)
    decreases n
    ensures MeterOk(PressedTimes(power, direction, n).0, PressedTimes(power, direction, n).1)
  {
    if n > 0 {
      var (p, d) := Pressed(power, direction);
      MeterStaysInRange(p, d, n - 1);
    }
  }

  // ------------------------------------------------------------------ flight

  /** One frame of flight: the wind pushes the horizontal speed, gravity the
      vertical one, then the bullet moves by its new velocity. */
  function Fly(p: Vec, v: Vec, wind: real): (r: (Vec, Vec))
    ensures r.1.x - v.x == wind * WindFactor && r.1.y - v.y == Gravity
    ensures r.0.x - p.x == r.1.x && r.0.y - p.y == r.1.y
  {
    var w := Vec(v.x + wind * WindFactor, v.y + Gravity);
    (Vec(p.x + w.x, p.y + w.y), w)
  }

  /** Position and velocity after `n` frames of flight. */
  function Flight(p: Vec, v: Vec, wind: real, n: nat): (Vec, Vec)
  {
    if n == 0 then (p, v) else var (q, w) := Flight(p, v, wind, n - 1); Fly(q, w, wind)
  }

  /** One coordinate of the flight: position and speed after `n` frames
      when the speed grows by `acc` before every move. */
  function Coordinate(x: real, v: real, acc: real, n: nat): (real, real)
  {
    if n == 0 then (x, v)
    else var (y, w) := Coordinate(x, v, acc, n - 1); (y + (w + acc), w + acc)
  }

  /** The flight splits into its two coordinates, wind driving the
      horizontal one and gravity the vertical one. */
  lemma {:induction false} FlightByCoordinate(p: Vec, v: Vec, wind: real, n: nat)
    ensures Coordinate(p.x, v.x, wind * WindFactor, n).0 == Flight(p, v, wind, n).0.x
    ensures Coordinate(p.x, v.x, wind * WindFactor, n).1 == Flight(p, v, wind, n).1.x
    ensures Coordinate(p.y, v.y, Gravity, n).0 == Flight(p, v, wind, n).0.y
    ensures Coordinate(p.y, v.y, Gravity, n).1 == Flight(p, v, wind, n).1.y
  {
    if n > 0 {
      FlightByCoordinate(p, v, wind, n - 1);
    }
  }

  /** The sum 1 + 2 + ... + n. */
  function Triangle(n: nat): (r: real)
    ensures 2.0 * r == (n as real) * (n as real + 1.0)
  {
    if n == 0 then 0.0 else Triangle(n - 1) + n as real
  }

  /** Constant acceleration in closed form: the speed grows linearly and
      the position quadratically. */
  lemma {:induction false} CoordinateClosedForm(x: real, v: real, acc: real, n: nat)
    ensures Coordinate(x, v, acc, n).1 == v + (n as real) * acc
    ensures Coordinate(x, v, acc, n).0 == x + (n as real) * v + acc * Triangle(n)
  {
    if n > 0 {
      CoordinateClosedForm(x, v, acc, n - 1);
      var s, t := (n - 1) as real, n as real;
      assert acc * Triangle(n) == acc * Triangle(n - 1) + acc * t;
      assert t * v == s * v + v && t * acc == s * acc + acc;
    }
  }

  /** The flight under constant wind and gravity in closed form: after
      `n` frames the bullet has gained `n` times the wind push and the
      gravity in speed, and it has moved by its start speed plus the sum of
      the gains. */
  lemma FlightClosedForm(p: Vec, v: Vec, wind: real, n: nat)
    ensures Flight(p, v, wind, n).1 == Vec(v.x + (n as real) * wind * WindFactor, v.y + (n as real) * Gravity)
    ensures Flight(p, v, wind, n).0 ==
              Vec(p.x + (n as real) * v.x + wind * WindFactor * Triangle(n),
                  p.y + (n as real) * v.y + Gravity * Triangle(n))
  {
    FlightByCoordinate(p, v, wind, n);
    CoordinateClosedForm(p.x, v.x, wind * WindFactor, n);
    CoordinateClosedForm(p.y, v.y, Gravity, n);
  }

  /** Whether a point lies outside the closed canvas rectangle. */
  predicate Outside(p: Vec, width: real, height: real)
  {
    p.x < 0.0 || p.x > width || p.y < 0.0 || p.y > height
  }

  function Abs(a: real): real { if a < 0.0 then -a else a }

  /** Every shot comes down, whatever the wind: after `n` frames with `n`
      at least four times |v.y| + |height − p.y| + 1 the bullet is below
      the canvas, so the out-of-bounds test drops it. */
  lemma ShotComesDown(p: Vec, v: Vec, wind: real, width: real, height: real, n: nat)
    requires (n as real) >= 4.0 * (Abs(v.y) + Abs(height - p.y) + 1.0)
    ensures Flight(p, v, wind, n).0.y > height
    ensures Outside(Flight(p, v, wind, n).0, width, height)
  {
    FlightClosedForm(p, v, wind, n);
    var t := n as real;
    assert 4.0 * (Gravity * Triangle(n)) == t * t + t;
    FallOutgrows(p.y, v.y, height, t, Gravity * Triangle(n));
  }

  /** The arithmetic behind ShotComesDown: a fall of (t² + t)/4 outgrows
      any start speed and any distance to the bottom edge once t is at
      least four times their sum plus one. */
  lemma FallOutgrows(y0: real, vy: real, h: real, t: real, fall: real)
    requires t >= 4.0 * (Abs(vy) + Abs(h - y0) + 1.0)
    requires 4.0 * fall == t * t + t
    ensures y0 + t * vy + fall > h
  {
    var a, b := Abs(h - y0), Abs(vy);
    var c := 4.0 * (a + b + 1.0);
    assert t * t >= t * c by {
      assert t * t - t * c == t * (t - c);
      assert t >= 0.0 && t - c >= 0.0;
    }
    assert t * c == 4.0 * (t * a) + 4.0 * (t * b) + 4.0 * t;
    assert t * vy >= -(t * b) by {
      assert t * vy + t * b == t * (vy + b);
      assert t >= 0.0 && vy + b >= 0.0;
    }
    assert t * a >= 4.0 * a by {
      assert t * a - 4.0 * a == (t - 4.0) * a;
      assert t - 4.0 >= 0.0 && a >= 0.0;
    }
  }

  // ------------------------------------------------------------------ damage

  /** Health after a hit of `damage`: it drops by the damage but not below
      zero. */
  function Damaged(health: real, damage: real): (r: real)
    ensures r >= 0.0 && r >= health - damage
    ensures r == 0.0 || r == health - damage
  {
    if 0.0 < health - damage then health - damage else 0.0
  }

  /** Health after `hits` equal hits. */
  function DamagedTimes(health: real, damage: real, hits: nat): real
  {
    if hits == 0 then health else Damaged(DamagedTimes(health, damage, hits - 1), damage)
  }

  /** Repeated hits subtract their total, down to zero. */
  lemma {:induction false} DamagedTimesClosedForm(health: real, damage: real, hits: nat)
    requires health >= 0.0 && damage >= 0.0
    ensures var left := health - (hits as real) * damage;
            DamagedTimes(health, damage, hits) == if 0.0 < left then left else 0.0
  {
    if hits > 0 {
      DamagedTimesClosedForm(health, damage, hits - 1);
    }
  }

  /** The enemy survives four hits and the fifth one kills it. */
  lemma FifthHitKills()
    ensures DamagedTimes(StartHealth, HitDamage, 4) == 20.0
    ensures DamagedTimes(StartHealth, HitDamage, 5) == 0.0
  {
    DamagedTimesClosedForm(StartHealth, HitDamage, 4);
    DamagedTimesClosedForm(StartHealth, HitDamage, 5);
  }

  /** Whether `p` lies strictly inside the box whose top-left corner is
      `corner`. */
  predicate StrictlyInside(corner: Vec, p: Vec)
  {
    corner.x < p.x < corner.x + BoxSize && corner.y < p.y < corner.y + BoxSize
  }

  /** A bullet on the border of the box does not hit; one at its centre
      does. */
  lemma BorderDoesNotHit(corner: Vec, p: Vec)
    requires corner.x <= p.x <= corner.x + BoxSize && corner.y <= p.y <= corner.y + BoxSize
    ensures StrictlyInside(corner, p) <==>
              p.x != corner.x && p.x != corner.x + BoxSize && p.y != corner.y && p.y != corner.y + BoxSize
  {
  }

  // ------------------------------------------------------------------ moving

  /** Where the w, a, s and d keys take the player: 10 up, left, down or
      right; other keys leave it in place. */
  function Walked(p: Vec, key: Key): (r: Vec)
    ensures r == p <==> key !in {KeyW, KeyA, KeyS, KeyD}
    ensures key in {KeyW, KeyS} ==> r.x == p.x && (if key == KeyW then r.y < p.y else r.y > p.y)
    ensures key in {KeyA, KeyD} ==> r.y == p.y && (if key == KeyA then r.x < p.x else r.x > p.x)
  {
    match key
    case KeyW => Vec(p.x, p.y - WalkStep)
    case KeyA => Vec(p.x - WalkStep, p.y)
    case KeyS => Vec(p.x, p.y + WalkStep)
    case KeyD => Vec(p.x + WalkStep, p.y)
    case _ => p
  }

  /** Opposite keys undo each other. */
  lemma OppositeStepsCancel(p: Vec)
    ensures Walked(Walked(p, KeyW), KeyS) == p && Walked(Walked(p, KeyS), KeyW) == p
    ensures Walked(Walked(p, KeyA), KeyD) == p && Walked(Walked(p, KeyD), KeyA) == p
  {
  }

  // ----------------------------------------------------------------- objects

  class Bullet {
    var position: Vec
    var velocity: Vec
    var wind: real
    var active: bool

    /** A bullet at `start`, not yet flying. `launch` is the velocity that
        the angle and the power give it. */
    constructor (start: Vec, launch: Vec, wind: real)
      ensures position == start && velocity == launch && this.wind == wind && !active
    {
      position, velocity, this.wind, active := start, launch, wind, false;
    }

    /** One frame: a bullet in flight flies, any other stays put. */
    method Update()
      modifies this
      ensures wind == old(wind) && active == old(active)
      ensures old(active) ==> (position, velocity) == Fly(old(position), old(velocity), wind)
      ensures !old(active) ==> position == old(position) && velocity == old(velocity)
    {
      if !active {
        return;
      }
      velocity := Vec(velocity.x + wind * WindFactor, velocity.y);
      velocity := Vec(velocity.x, velocity.y + Gravity);
      position := Vec(position.x + velocity.x, position.y);
      position := Vec(position.x, position.y + velocity.y);
    }

    method Shoot()
      modifies this`active
      ensures active
    {
      active := true;
    }

    predicate IsOutOfBounds(width: real, height: real)
      reads this
      ensures IsOutOfBounds(width, height) <==> !(0.0 <= position.x <= width && 0.0 <= position.y <= height)
    {
      Outside(position, width, height)
    }
  }

  class Enemy {
    var position: Vec
    var health: real

    constructor (pos: Vec)
      ensures position == pos && health == StartHealth
    {
      position, health := pos, StartHealth;
    }

    method TakeDamage(damage: real)
      modifies this`health
      ensures health == Damaged(old(health), damage)
    {
      health := if 0.0 < health - damage then health - damage else 0.0;
    }

    /** A point hits when it lies strictly inside the enemy's box: never on
        its top-left corner, always at its centre. */
    predicate CheckCollision(p: Vec)
      reads this
      ensures p == position ==> !CheckCollision(p)
      ensures p == Vec(position.x + BoxSize / 2.0, position.y + BoxSize / 2.0) ==> CheckCollision(p)
    {
      StrictlyInside(position, p)
    }

    /** Health never drops below zero, so an enemy is dead exactly when its
        health is zero. */
    predicate IsDead()
      reads this
      ensures health >= 0.0 ==> (IsDead() <==> health == 0.0)
    {
      health <= 0.0
    }
  }

  /** Five hits of 20 kill an enemy at full health. */
  method FiveHitsKill(enemy: Enemy)
    requires enemy.health == StartHealth
    modifies enemy`health
    ensures enemy.IsDead()
  {
    for i := 0 to 5
      invariant enemy.health == DamagedTimes(StartHealth, HitDamage, i)
    {
      enemy.TakeDamage(HitDamage);
    }
    FifthHitKills();
  }

  class Player {
    var position: Vec
    var bullet: Bullet?

    /** A bullet, once created, is in flight until it is dropped. */
    ghost predicate Valid()
      reads this, bullet
    {
      bullet != null ==> bullet.active
    }

    constructor (spawn: Vec)
      ensures Valid() && position == spawn && bullet == null
    {
      position, bullet := spawn, null;
    }

    /** Under the invariant, a bullet is active exactly when there is one,
        that is when getBulletPosition has a position to give. */
    predicate IsBulletActive()
      reads this, bullet
      ensures Valid() ==> (IsBulletActive() <==> BulletPosition().Some?)
    {
      bullet != null && bullet.active
    }

    /** Where the bullet is, if there is one. */
    function BulletPosition(): (r: Option<Vec>)
      reads this, bullet
      ensures r.Some? <==> bullet != null
      ensures r.Some? ==> r.value == bullet.position
    {
      if bullet == null then None else Some(bullet.position)
    }

    /** There is a bullet and it has left the closed canvas rectangle. */
    predicate CheckBulletOutOfBounds(width: real, height: real)
      reads this, bullet
      ensures CheckBulletOutOfBounds(width, height) <==>
                BulletPosition().Some? && Outside(BulletPosition().value, width, height)
    {
      bullet != null && bullet.IsOutOfBounds(width, height)
    }

    /** Fires a new bullet from the middle of the player's top edge unless
        one is already in flight; says whether it fired. */
    method Shoot(launch: Vec, wind: real) returns (fired: bool)
      modifies this`bullet
      ensures Valid()
      ensures fired <==> !old(IsBulletActive())
      ensures !fired ==> bullet == old(bullet)
      ensures fired ==> (fresh(bullet) && bullet.active &&
                         bullet.position == Vec(position.x + BoxSize / 2.0, position.y) &&
                         bullet.velocity == launch && bullet.wind == wind)
    {
      if bullet != null && bullet.active {
        return false;
      }
      bullet := new Bullet(Vec(position.x + BoxSize / 2.0, position.y), launch, wind);
      bullet.Shoot();
      return true;
    }

    method Update()
      modifies bullet
      ensures bullet != null ==> bullet.wind == old(bullet.wind) && bullet.active == old(bullet.active)
      ensures bullet != null && old(bullet.active) ==>
                (bullet.position, bullet.velocity) == Fly(old(bullet.position), old(bullet.velocity), bullet.wind)
      ensures bullet != null && !old(bullet.active) ==>
                bullet.position == old(bullet.position) && bullet.velocity == old(bullet.velocity)
    {
      if bullet != null {
        bullet.Update();
      }
    }

    method ResetBullet()
      modifies this`bullet
      ensures !IsBulletActive() && BulletPosition() == None && Valid()
    {
      bullet := null;
    }

    method MoveLeft()
      modifies this`position
      ensures position == Walked(old(position), KeyA)
    {
      position := Vec(position.x - WalkStep, position.y);
    }

    method MoveRight()
      modifies this`position
      ensures position == Walked(old(position), KeyD)
    {
      position := Vec(position.x + WalkStep, position.y);
    }

    method MoveUp()
      modifies this`position
      ensures position == Walked(old(position), KeyW)
    {
      position := Vec(position.x, position.y - WalkStep);
    }

    method MoveDown()
      modifies this`position
      ensures position == Walked(old(position), KeyS)
    {
      position := Vec(position.x, position.y + WalkStep);
    }
  }

  class Game {
    var degree: int
    var power: int
    var powerDirection: int
    var wind: real
    var player: Player
    var enemy: Enemy

    ghost predicate Valid()
      reads this, player, player.bullet, enemy
    {
      AngleOk(degree) && MeterOk(power, powerDirection) && player.Valid() && enemy.health >= 0.0
    }

    constructor ()
      ensures Valid() && fresh(player) && fresh(enemy)
      ensures degree == 0 && power == 0 && powerDirection == 1 && wind == 0.0
      ensures player.position == Vec(100.0, CanvasHeight - 200.0) && player.bullet == null
      ensures enemy.position == Vec(CanvasWidth - 200.0, CanvasHeight - 200.0) && enemy.health == StartHealth
    {
      degree, power, powerDirection, wind := 0, 0, 1, 0.0;
      player := new Player(Vec(100.0, CanvasHeight - 200.0));
      enemy := new Enemy(Vec(CanvasWidth - 200.0, CanvasHeight - 200.0));
    }

    /** The keydown handler: arrows aim, the space bar charges the meter,
        w, a, s and d walk. */
    method KeyDown(key: Key)
      requires Valid()
      modifies this`degree, this`power, this`powerDirection, player`position
      ensures Valid()
      ensures degree == (if key == ArrowUp then Aimed(old(degree), true)
                         else if key == ArrowDown then Aimed(old(degree), false)
                         else old(degree))
      ensures (power, powerDirection) ==
                if key == Space then Pressed(old(power), old(powerDirection)) else (old(power), old(powerDirection))
      ensures player.position == Walked(old(player.position), key)
    {
      if key == ArrowUp {
        if degree < MaxDegree {
          degree := degree + DegreeStep;
        }
      } else if key == ArrowDown {
        if degree > 0 {
          degree := degree - DegreeStep;
        }
      } else if key == Space {
        if power >= MaxPower {
          powerDirection := -1;
        } else if power <= 0 {
          powerDirection := 1;
        }
        if powerDirection == 1 {
          power := power + PowerStep;
        } else if powerDirection == -1 {
          power := power - PowerStep;
        }
      } else if key == KeyW {
        player.MoveUp();
      } else if key == KeyA {
        player.MoveLeft();
      } else if key == KeyS {
        player.MoveDown();
      } else if key == KeyD {
        player.MoveRight();
      }
    }

    /** The shoot button: fires with the current wind and, when a bullet
        left, takes `nextWind` as the wind for the next shot. */
    method Fire(launch: Vec, nextWind: real) returns (fired: bool)
      requires Valid()
      modifies this`wind, player`bullet
      ensures Valid()
      ensures fired <==> !old(player.IsBulletActive())
      ensures wind == if fired then nextWind else old(wind)
      ensures !fired ==> player.bullet == old(player.bullet)
      ensures fired ==> (fresh(player.bullet) && player.bullet.active &&
                         player.bullet.position == Vec(player.position.x + BoxSize / 2.0, player.position.y) &&
                         player.bullet.velocity == launch && player.bullet.wind == old(wind))
    {
      fired := player.Shoot(launch, wind);
      if fired {
        wind := nextWind;
      }
    }

    /** A bullet strictly inside the enemy's box costs it 20 health and is
        dropped. */
    method CheckCollisions()
      requires Valid()
      modifies enemy`health, player`bullet
      ensures Valid()
      ensures var hit := old(player.bullet) != null && StrictlyInside(enemy.position, old(player.bullet.position));
              (hit ==> enemy.health == Damaged(old(enemy.health), HitDamage) && player.bullet == null) &&
              (!hit ==> enemy.health == old(enemy.health) && player.bullet == old(player.bullet))
    {
      var at := player.BulletPosition();
      if at.Some? && enemy.CheckCollision(at.value) {
        enemy.TakeDamage(HitDamage);
        player.ResetBullet();
      }
    }

    /** The update half of one frame: the bullet flies, is dropped once it
        leaves the canvas, and otherwise may hit the enemy. */
    method Tick()
      requires Valid()
      modifies player`bullet, player.bullet, enemy`health
      ensures Valid()
      ensures old(player.bullet) == null ==> player.bullet == null && enemy.health == old(enemy.health)
      ensures old(player.bullet) != null ==>
                var (p, v) := Fly(old(player.bullet.position), old(player.bullet.velocity), old(player.bullet.wind));
                var gone := Outside(p, CanvasWidth, CanvasHeight);
                var hit := !gone && StrictlyInside(enemy.position, p);
                player.bullet == (if gone || hit then null else old(player.bullet)) &&
                enemy.health == (if hit then Damaged(old(enemy.health), HitDamage) else old(enemy.health)) &&
                (player.bullet != null ==> player.bullet.position == p && player.bullet.velocity == v &&
                                           player.bullet.wind == old(player.bullet.wind) && player.bullet.active)
    {
      player.Update();
      if player.CheckBulletOutOfBounds(CanvasWidth, CanvasHeight) {
        player.ResetBullet();
      }
      CheckCollisions();
    }
  }
}
