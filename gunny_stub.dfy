// The first version of the artillery game: a player who can walk sideways
// and shoot once, and a power meter that the space bar fills up to 100.

module GunnyStub {
  import Gunny

  type Vec = Gunny.Vec

  const MaxPower: int := 100
  const PowerStep: int := 2
  const WalkStep: real := 2.0

  /** The horizontal step that a direction asks for: 2 to the left or to
      the right, nothing for any other word. */
  function Offset(direction: string): (r: real)
    ensures r < 0.0 <==> direction == "left"
    ensures r > 0.0 <==> direction == "right"
    ensures r == -WalkStep || r == 0.0 || r == WalkStep
  {
    if direction == "left" then -WalkStep
    else if direction == "right" then WalkStep
    else 0.0
  }

  /** The meter after one press of the space bar: 2 more while it is below
      the maximum. */
  function Charged(power: int): (r: int)
    ensures power < MaxPower ==> r == power + PowerStep
    ensures power >= MaxPower ==> r == power
  {
    if power < MaxPower then power + PowerStep else power
  }

  /** The meter after `n` presses. */
  function ChargedTimes(power: int, n: nat): int
    decreases n
  {
    if n == 0 then power else ChargedTimes(Charged(power), n - 1)
  }

  /** From an even reading within range, `n` presses add 2 each until the
      meter sits exactly at 100, which it never passes. */
  lemma {:induction false} ChargedTimesCaps(power: int, n: nat)
    requires 0 <= power <= MaxPower && power % PowerStep == 0
    decreases n
    ensures ChargedTimes(power, n) == if power + PowerStep * n < MaxPower then power + PowerStep * n else MaxPower
  {
    if n > 0 {
      ChargedTimesCaps(Charged(power), n - 1);
    }
  }

  class Player {
    var position: Vec
    var canShoot: bool

    constructor (spawn: Vec)
      ensures position == spawn && canShoot
    {
      position, canShoot := spawn, true;
    }

    /** Shooting closes the latch; nothing opens it again. */
    method Shoot()
      modifies this`canShoot
      ensures !canShoot
    {
      if canShoot {
        canShoot := false;
      }
    }

    method Move(direction: string)
      modifies this`position
      ensures position == Gunny.Vec(old(position).x + Offset(direction), old(position).y)
    {
      if direction == "left" {
        position := Gunny.Vec(position.x - WalkStep, position.y);
      } else if direction == "right" {
        position := Gunny.Vec(position.x + WalkStep, position.y);
      }
    }
  }

  class Game {
    var power: int
    var player: Player

    constructor ()
      ensures power == 0 && fresh(player)
      ensures player.position == Gunny.Vec(100.0, Gunny.CanvasHeight - 200.0) && player.canShoot
    {
      power := 0;
      player := new Player(Gunny.Vec(100.0, Gunny.CanvasHeight - 200.0));
    }

    /** The keydown handler: only the space bar does anything. */
    method KeyDown(key: string)
      modifies this`power
      ensures power == if key == " " then Charged(old(power)) else old(power)
    {
      if key == " " {
        if power < MaxPower {
          power := power + PowerStep;
        }
      }
    }
  }
}
