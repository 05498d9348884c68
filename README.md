# Browser canvas games — verified Dafny model

This project models the game logic of four small canvas games, one of them in two versions:

- **Tetris.** The engine keeps a 20×10 board of 0/1 cells and a falling piece. The rules are collision, rotation with a wall-kick search, the landing ("ghost") row, locking a piece into the board, clearing full rows with scoring and speed-up, spawning with game-over detection, and dispatching key commands.
- **Drive car.** The player's car accelerates, brakes and steers within fixed ranges. Traffic cars and dashes of the centre line scroll down and leave the screen. Each traffic car that leaves adds a point, and touching one ends the game.
- **Gunny** (artillery game). An aiming angle moves in steps of 5 within [0, 180]. A power meter bounces between 0 and 500. A single bullet flies under wind and gravity. An enemy loses 20 health per strict-interior hit, down to 0. The player walks in steps of 10.
- **Gunny, first version.** A one-shot `canShoot` latch, sideways walking by 2, and a power counter capped at 100.
- **Gravity switch.** A shark swims right and falls up or down as the player flips its gravity. Its animation frame wraps round four images. A trail buffer grows until the shark reaches the middle and then slides left with a fixed length. Spikes scroll left, add one to the score each frame while they are behind the shark, and are dropped once off screen. Touching the ceiling or the floor ends the round.

Each game has a module. Pure rules are datatypes, functions and lemmas. The objects the source updates in place are classes with `modifies` clauses. The loops of the source are methods with loop invariants. Each method is proved against a specification function or predicate.

| file | module | models |
|---|---|---|
| wrappers.dfy | `Wrappers` | `Option` |
| lists.dfy | `Lists` | distinct lists, index selections, order-preserving filter |
| tetris_rules.dfy | `TetrisRules` | shapes, kick tables, collision, rotation, landing row, merge, line clearing, scoring |
| tetris_game.dfy | `TetrisGame` | the `Game` class of tetrisGame/script.ts |
| drive_car.dfy | `DriveCar` | `Car`, `RoadLine` and `Game` of driveCar/script.ts |
| gunny.dfy | `Gunny` | `Bullet`, `Enemy`, `Player` and `Game` of gunnyTypeShit/script.ts |
| gunny_stub.dfy | `GunnyStub` | `Player` and `Game` of gunnyTypeShit/script.js |
| gravity_switch.dfy | `GravitySwitch` | `Player`, `Trail`, `Obstacle` and `Game` of gravitySwitchGame/script.ts |

tetrisGame/script.js, driveCar/script.js and gravitySwitchGame/script.js are the compiled twins of the TypeScript files. They have the same logic, so one model covers both, and the table cites the TypeScript lines.

Time stamps, random draws and the outcome of the floating-point triangle test are parameters of the methods that use them.

## Model

| member | source | states |
|---|---|---|
| TetrisRules.EmptyRow | tetrisGame/script.ts:205-209 | a new row has 10 cells, all empty |
| TetrisRules.EmptyBoard | tetrisGame/script.ts:203-212 | initializeBoard's board is 20 rows of empty rows, none of them full |
| TetrisRules.KickTable | tetrisGame/script.ts:94-155 | each kick table has four rows of five offsets |
| TetrisRules.TriedKicks | tetrisGame/script.ts:295-303 | the offsets tried are row 0 of the I table for I and of the JLSTZ table otherwise: five offsets starting with (0, 0) |
| TetrisRules.BaseShapesArePieceShapes | tetrisGame/script.ts:35-92 | every entry of SHAPES is a square matrix with an occupied cell |
| TetrisRules.RotateCW | tetrisGame/script.ts:283-287 | the clockwise transform yields a grid with rows and columns swapped |
| TetrisRules.RotateCCW | tetrisGame/script.ts:288-292 | the counter-clockwise transform yields a grid with rows and columns swapped |
| TetrisRules.Rotated | tetrisGame/script.ts:283-293 | direction 1 turns clockwise, any other direction counter-clockwise |
| TetrisRules.RotateRoundTrip | tetrisGame/script.ts:283-293 | the two transforms undo each other in both orders |
| TetrisRules.RotateMovesCells | tetrisGame/script.ts:285-291 | cell (r, c) goes to (c, n−1−r) clockwise and to (m−1−c, r) counter-clockwise |
| TetrisRules.RotatedIsPieceShape | tetrisGame/script.ts:283-293 | rotating keeps a square shape with an occupied cell |
| TetrisRules.RotateKeepsO | tetrisGame/script.ts:45-51 | the O piece is its own rotation in both directions |
| TetrisRules.Collides | tetrisGame/script.ts:250-275 | checkCollision as the recursive row-by-row scan; CollidesIff states what it finds |
| TetrisRules.CollidesIff | tetrisGame/script.ts:250-275 | the nested scan finds a hit exactly when some occupied cell is left of, right of or below the board, or on a filled cell |
| TetrisRules.OutOfBoundsCollides | tetrisGame/script.ts:257-269 | an occupied cell at column < 0, column ≥ 10 or row ≥ 20 always collides |
| TetrisRules.AboveTopIsFree | tetrisGame/script.ts:267 | cells above the top row are never blocked by board contents |
| TetrisRules.FloorCollides | tetrisGame/script.ts:265 | a shape with an occupied cell collides at or below row 20 |
| TetrisRules.NoCollisionInsideWalls | tetrisGame/script.ts:257-269 | a piece that does not collide lies inside the walls and above the floor |
| TetrisRules.FirstFit | tetrisGame/script.ts:303-313 | the chosen index is the first offset (x + dx, y − dy) that fits; every earlier offset collides |
| TetrisRules.RotateOutcome | tetrisGame/script.ts:277-317 | rotation either leaves the piece as it was or gives the rotated shape at a place where it fits |
| TetrisRules.RotateOutcomeFirstFit | tetrisGame/script.ts:300-317 | the rotated piece sits at the first fitting kick, applying x + dx and y − dy |
| TetrisRules.RotateRejected | tetrisGame/script.ts:315-317 | when no kick fits, shape, x and y stay exactly as before |
| TetrisRules.IsLanding | tetrisGame/script.ts:322-338 | the row the ghost descent stops at: at or below the start, free all the way down to it, colliding one row lower |
| TetrisRules.LandingUnique | tetrisGame/script.ts:330-338 | the landing row of a descent is unique |
| TetrisRules.LandingAfterStep | tetrisGame/script.ts:396-400 | a piece that steps down a free row keeps its landing row |
| TetrisRules.Merged | tetrisGame/script.ts:408-421 | locking sets exactly the cells under occupied shape cells and changes no other cell |
| TetrisRules.MergeNeverFrees | tetrisGame/script.ts:408-421 | locking never decreases the number of occupied cells |
| TetrisRules.MergeIdempotent | tetrisGame/script.ts:408-421 | locking the same piece twice is locking it once |
| TetrisRules.Kept | tetrisGame/script.ts:426-428 | the rows kept are rows of the board and none of them is full |
| TetrisRules.FullCount | tetrisGame/script.ts:423-439 | full rows plus kept rows are all rows; the count is zero exactly when no row is full |
| TetrisRules.Blank | tetrisGame/script.ts:430-435 | n new rows, all empty |
| TetrisRules.Cleared | tetrisGame/script.ts:423-440 | the cleared board is 20 by 10 and has no full row |
| TetrisRules.KeptWhenNoneFull | tetrisGame/script.ts:426-428 | without full rows every row is kept |
| TetrisRules.ClearedFixpoint | tetrisGame/script.ts:423-440 | clearing twice is clearing once |
| TetrisRules.FullCountWindow | tetrisGame/script.ts:423-439 | full rows confined to k consecutive rows number at most k |
| TetrisRules.MergeFillsAtMostPieceHeight | tetrisGame/script.ts:408-442 | locking onto a board without full rows fills at most as many rows as the piece is high, so the score table index is in range |
| TetrisRules.LineScore | tetrisGame/script.ts:442 | no rows score nothing, and clearing several rows at once beats clearing them one by one |
| TetrisRules.DropInterval | tetrisGame/script.ts:443 | the fall interval is between 100 and 1000 ms, and 1000 ms below 1000 points |
| TetrisRules.DropIntervalMonotone | tetrisGame/script.ts:443 | a higher score never gives a slower fall |
| TetrisRules.LockedBoard | tetrisGame/script.ts:396-445 | after a lock and a clear the board is 20 by 10 with no full row |
| TetrisRules.LockPoints | tetrisGame/script.ts:439-442 | a lock scores at most 800, and scores nothing exactly when no row fills |
| TetrisRules.Spawn | tetrisGame/script.ts:226-233 | a new piece has the kind drawn, row 0 and a proper shape |
| TetrisRules.SpawnFitsEmptyBoard | tetrisGame/script.ts:244-247 | every piece fits an empty board, so a new game never starts over |
| TetrisGame.NewEmptyRow | tetrisGame/script.ts:205-209 | the loop builds the empty row |
| TetrisGame.Game.constructor | tetrisGame/script.ts:157-201 | a new game is a started game |
| TetrisGame.Game.InitializeBoard | tetrisGame/script.ts:203-212 | the board becomes 20 empty rows; nothing else changes |
| TetrisGame.Game.CreateNewPiece | tetrisGame/script.ts:214-248 | the queued kind (or the first draw) spawns at (startX, 0), the second draw is queued, the ghost is set, and the game ends iff the piece collides |
| TetrisGame.Game.CheckCollision | tetrisGame/script.ts:250-275 | the loop answers Collides |
| TetrisGame.Game.CheckCurrentCollision | tetrisGame/script.ts:250-255 | with no falling piece there is no collision; otherwise the falling piece is tested where it is |
| TetrisGame.Game.UpdateGhostPiece | tetrisGame/script.ts:322-339 | the ghost has the piece's x and ends on the landing row: at or below the piece, with the next row colliding |
| TetrisGame.Game.RotatePiece | tetrisGame/script.ts:277-320 | the piece becomes RotateOutcome, the ghost is recomputed, and the board is untouched |
| TetrisGame.Game.KickSearch | tetrisGame/script.ts:300-313 | the kick loop settles on RotateOutcome |
| TetrisGame.Game.MergePiece | tetrisGame/script.ts:408-421 | the board becomes Merged |
| TetrisGame.Game.RemoveFullRows | tetrisGame/script.ts:426-438 | the splice-and-unshift loop with its y++ re-check leaves Cleared and counts each full row once |
| TetrisGame.Game.ClearLines | tetrisGame/script.ts:423-445 | board Cleared; the score gains LineScore of the count; the interval is recomputed when rows were cleared |
| TetrisGame.Game.MoveDown | tetrisGame/script.ts:396-406 | one row down when it is free; otherwise the piece locks where it is, rows clear and the next piece spawns |
| TetrisGame.Game.HardDrop | tetrisGame/script.ts:341-348 | the piece locks at its ghost row, then rows clear and the next piece spawns |
| TetrisGame.Game.LockPiece | tetrisGame/script.ts:402-405 | merge, clear, spawn in that order, keeping the invariant |
| TetrisGame.Game.HandleKeyPress | tetrisGame/script.ts:350-394 | once over, only r/R restarts; a side move that collides is reverted; down, space and the rotation keys act as specified; other keys change nothing |
| TetrisGame.Game.StartGame | tetrisGame/script.ts:635-643 | empty board, score 0, game running, interval 1000, and a fresh piece that fits |
| DriveCar.Steered | driveCar/script.ts:74-79 | speed stays in [3, 8]; w adds at most 0.1 and s removes at most 0.1 |
| DriveCar.Swerved | driveCar/script.ts:81-89 | x stays in [0, width − 40]; a moves left and d right by at most 5 |
| DriveCar.BothPedalsCancel | driveCar/script.ts:74-79 | away from the limits, both pedals together leave the speed unchanged |
| DriveCar.OverlapIffIntervalsMeet | driveCar/script.ts:92-99 | the four-separation test is the same as both coordinate intervals meeting |
| DriveCar.OverlapSymmetric | driveCar/script.ts:92-99 | collision is symmetric |
| DriveCar.Car.CheckCollision | driveCar/script.ts:92-99 | two cars collide exactly when their spans meet across and along the road |
| DriveCar.TouchingCarsCollide | driveCar/script.ts:92-99 | cars whose edges touch collide; any gap between them does not |
| DriveCar.OnScreenKeepsExactly | driveCar/script.ts:240-257 | the filter keeps a position iff it is not below the bottom edge |
| DriveCar.OnScreenPartition | driveCar/script.ts:240-252 | every car is either kept or counted, never both |
| DriveCar.NothingLeavesWhenAllVisible | driveCar/script.ts:240-252 | when nothing is below the edge, all cars stay and the score is unchanged |
| DriveCar.Car.constructor | driveCar/script.ts:18-30 | a car starts where it is placed, at speed 5 |
| DriveCar.Car.Move | driveCar/script.ts:73-90 | speed and x become Steered and Swerved; y never changes |
| DriveCar.RoadLine.constructor | driveCar/script.ts:102-109 | a dash starts where it is placed |
| DriveCar.RoadLine.Move | driveCar/script.ts:121-123 | the dash moves down by the player's speed |
| DriveCar.RoadLine.IsOffScreen | driveCar/script.ts:125-127 | on the game canvas a dash is off screen exactly when the filter specification drops it |
| DriveCar.StepTrafficCar | driveCar/script.ts:240-251 | one car moves down, is tested against the player, and is kept iff it is not below the edge |
| DriveCar.SweepTraffic | driveCar/script.ts:240-252 | the filter loop moves every car and keeps the survivors in order |
| DriveCar.FilterTraffic | driveCar/script.ts:240-252 | the kept cars are exactly the moved on-screen ones, and the count is the number removed |
| DriveCar.SweepLines | driveCar/script.ts:254-257 | the dash loop moves every dash and keeps the survivors in order |
| DriveCar.FilterLines | driveCar/script.ts:254-257 | the kept dashes are exactly the moved on-screen ones |
| DriveCar.LaneX | driveCar/script.ts:179-186 | a new car enters at x = 80 or x = 280 |
| DriveCar.Game.constructor | driveCar/script.ts:134-157 | the player is at the bottom centre at speed 5; no traffic, score 0 |
| DriveCar.Game.SpawnTrafficCar | driveCar/script.ts:175-192 | a car enters at (80 or 280, −100) only when more than 2000 ms have passed, and the spawn time is then reset |
| DriveCar.Game.SpawnRoadLine | driveCar/script.ts:194-205 | a dash enters at (198, −30) only when more than 100 ms have passed |
| DriveCar.Game.AdvanceTraffic | driveCar/script.ts:240-252 | traffic becomes the moved on-screen cars; the score gains the number removed; a touch ends the game |
| DriveCar.Game.AdvanceLines | driveCar/script.ts:254-257 | the dashes become the moved on-screen dashes |
| DriveCar.Game.Arrive | driveCar/script.ts:234-238 | the player steers, then a car and a dash may enter |
| DriveCar.Game.Scroll | driveCar/script.ts:240-257 | the traffic and line filters, run one after the other |
| DriveCar.Game.Update | driveCar/script.ts:230-258 | nothing changes once the game is over; otherwise steer, spawn, filter, score and detect collisions as above |
| Gunny.Aimed | gunnyTypeShit/script.ts:231-238 | the angle changes iff it is below 180 (up) or above 0 (down), by at most 5, and stays a multiple of 5 in [0, 180] |
| Gunny.AimedTimesClamps | gunnyTypeShit/script.ts:231-238 | n presses give min(180, d + 5n) up and max(0, d − 5n) down |
| Gunny.Pressed | gunnyTypeShit/script.ts:239-248 | the direction turns to −1 at ≥ 500 and to 1 at ≤ 0, power moves by 10 in that direction, and the meter stays in [0, 500] |
| Gunny.PressedTimesSplit | gunnyTypeShit/script.ts:239-248 | a + b presses are a presses followed by b presses |
| Gunny.MeterRises | gunnyTypeShit/script.ts:247 | rising, each press adds 10 |
| Gunny.MeterFalls | gunnyTypeShit/script.ts:241-248 | falling, or turning at the top, each press removes 10 |
| Gunny.MeterBounces | gunnyTypeShit/script.ts:224-248 | from 0, 50 presses reach 500, 100 return to 0, and the 101st rises again |
| Gunny.MeterStaysInRange | gunnyTypeShit/script.ts:224-248 | any number of presses keeps the meter in [0, 500] |
| Gunny.FlightByCoordinate | gunnyTypeShit/script.ts:28-40 | a flight splits into the horizontal (wind) and vertical (gravity) coordinates |
| Gunny.Triangle | gunnyTypeShit/script.ts:35-39 | 1 + … + n is n(n + 1)/2 |
| Gunny.CoordinateClosedForm | gunnyTypeShit/script.ts:32-39 | after n frames: speed v + n·a, position x + n·v + a·n(n + 1)/2 |
| Gunny.FlightClosedForm | gunnyTypeShit/script.ts:28-40 | the bullet's position and velocity after n frames in closed form |
| Gunny.Fly | gunnyTypeShit/script.ts:28-40 | one frame adds wind·0.01 and gravity 0.5 to the velocity, then moves the bullet by the new velocity |
| Gunny.ShotComesDown | gunnyTypeShit/script.ts:55-62 | every shot falls below the canvas after enough frames, whatever the wind, so the out-of-bounds test ends every flight |
| Gunny.Damaged | gunnyTypeShit/script.ts:100-102 | health drops by the damage but never below 0 |
| Gunny.DamagedTimesClosedForm | gunnyTypeShit/script.ts:100-102 | repeated hits subtract their total, down to 0 |
| Gunny.FifthHitKills | gunnyTypeShit/script.ts:111-115 | four hits of 20 leave 20 health; the fifth leaves 0 |
| Gunny.FiveHitsKill | gunnyTypeShit/script.ts:352-356 | five hits of 20 on a full-health enemy make isDead true |
| Gunny.BorderDoesNotHit | gunnyTypeShit/script.ts:104-111 | a point on the enemy's border is no hit |
| Gunny.Walked | gunnyTypeShit/script.ts:184-198 | w, a, s, d move up, left, down, right; any other key leaves the position |
| Gunny.OppositeStepsCancel | gunnyTypeShit/script.ts:184-198 | opposite moves undo each other |
| Gunny.Bullet.constructor | gunnyTypeShit/script.ts:18-26 | a new bullet is at the start point and not flying |
| Gunny.Bullet.Update | gunnyTypeShit/script.ts:28-40 | a flying bullet takes one Fly step; any other bullet stays put |
| Gunny.Bullet.IsOutOfBounds | gunnyTypeShit/script.ts:55-62 | the bullet is out exactly when it is not in the closed canvas rectangle |
| Gunny.Bullet.Shoot | gunnyTypeShit/script.ts:51-53 | the bullet is flying afterwards |
| Gunny.Enemy.constructor | gunnyTypeShit/script.ts:73-81 | an enemy starts with 100 health |
| Gunny.Enemy.TakeDamage | gunnyTypeShit/script.ts:100-102 | health becomes Damaged |
| Gunny.Enemy.CheckCollision | gunnyTypeShit/script.ts:104-111 | the box is open: its top-left corner does not hit, its centre does |
| Gunny.Enemy.IsDead | gunnyTypeShit/script.ts:113-115 | with health never below zero, dead means health exactly zero |
| Gunny.Player.constructor | gunnyTypeShit/script.ts:124-128 | a player starts without a bullet |
| Gunny.Player.BulletPosition | gunnyTypeShit/script.ts:156-158 | there is a position exactly when there is a bullet, and it is the bullet's |
| Gunny.Player.IsBulletActive | gunnyTypeShit/script.ts:160-162 | under the invariant, a bullet is active exactly when getBulletPosition has a position |
| Gunny.Player.CheckBulletOutOfBounds | gunnyTypeShit/script.ts:164-166 | true exactly when there is a bullet position and it lies outside the canvas |
| Gunny.Player.Shoot | gunnyTypeShit/script.ts:130-141 | returns false and changes nothing while a bullet flies; otherwise a new flying bullet leaves from the middle of the top edge and it returns true |
| Gunny.Player.Update | gunnyTypeShit/script.ts:143-145 | the player's bullet, if any, takes one Update step |
| Gunny.Player.ResetBullet | gunnyTypeShit/script.ts:168-170 | afterwards no bullet is active and the bullet position is none |
| Gunny.Player.MoveLeft | gunnyTypeShit/script.ts:184-186 | x decreases by 10 |
| Gunny.Player.MoveRight | gunnyTypeShit/script.ts:188-190 | x increases by 10 |
| Gunny.Player.MoveUp | gunnyTypeShit/script.ts:192-194 | y decreases by 10 |
| Gunny.Player.MoveDown | gunnyTypeShit/script.ts:196-198 | y increases by 10 |
| Gunny.Game.constructor | gunnyTypeShit/script.ts:216-275 | angle 0, power 0 rising, no wind; the player at (100, 500) and the enemy at (1200, 500) with 100 health |
| Gunny.Game.KeyDown | gunnyTypeShit/script.ts:230-258 | arrows aim, space presses the meter, w/a/s/d walk; each key changes only its own part |
| Gunny.Game.Fire | gunnyTypeShit/script.ts:260-266 | the player shoots with the given launch velocity and the current wind; the wind is redrawn only after a successful shot |
| Gunny.Game.CheckCollisions | gunnyTypeShit/script.ts:348-361 | a bullet strictly inside the enemy costs it 20 health and is dropped; otherwise nothing changes |
| Gunny.Game.Tick | gunnyTypeShit/script.ts:367-379 | the bullet flies, is dropped once outside the canvas, then the hit test runs; a bullet still in flight keeps its wind and stays active, so successive ticks follow Flight |
| GunnyStub.Offset | gunnyTypeShit/script.js:26-33 | "left" moves by −2, "right" by +2, any other word by nothing |
| GunnyStub.Charged | gunnyTypeShit/script.js:59-62 | a press adds 2 while the power is below 100 |
| GunnyStub.ChargedTimesCaps | gunnyTypeShit/script.js:55-62 | n presses from 0 give min(2n, 100); the power never passes 100 |
| GunnyStub.Player.constructor | gunnyTypeShit/script.js:14-19 | a new player may shoot |
| GunnyStub.Player.Shoot | gunnyTypeShit/script.js:20-25 | afterwards the player cannot shoot; nothing sets the latch back |
| GunnyStub.Player.Move | gunnyTypeShit/script.js:26-33 | x changes by Offset(direction); y never changes |
| GunnyStub.Game.constructor | gunnyTypeShit/script.js:46-68 | power 0 and the player at (100, 500), able to shoot |
| GunnyStub.Game.KeyDown | gunnyTypeShit/script.js:58-63 | space charges the meter; other keys change nothing |
| GravitySwitch.Toggled | gravitySwitchGame/script.ts:177-179 | toggling always changes the gravity |
| GravitySwitch.ToggleInvolution | gravitySwitchGame/script.ts:177-179 | two toggles are the identity |
| GravitySwitch.Animated | gravitySwitchGame/script.ts:157-162 | below the interval the timer accumulates; at the interval it restarts and the frame advances modulo 4; the frame stays in [0, 4) |
| GravitySwitch.FramesCycle | gravitySwitchGame/script.ts:157-162 | n long frames advance the frame index by n modulo 4 |
| GravitySwitch.Drifted | gravitySwitchGame/script.ts:166-173 | x never decreases; slow swimming adds 1; fast swimming adds 2 iff x ≤ 700; y moves 2 (slow) or 4 (fast), upward for "up" |
| GravitySwitch.DriftMirrors | gravitySwitchGame/script.ts:167-173 | the two gravities move y by mirror-image amounts and x alike |
| GravitySwitch.FastSwimStopsAtMiddle | gravitySwitchGame/script.ts:171 | after the slow start, x never gets more than 2 past the middle |
| GravitySwitch.Hitbox | gravitySwitchGame/script.ts:194-201 | the 30×45 hit box lies inside the 80×80 sprite |
| GravitySwitch.OutOfField | gravitySwitchGame/script.ts:535-539 | the shark's top at or above the ceiling, or its body within 60 of the floor; SafeBand states the band where it is false |
| GravitySwitch.SafeBand | gravitySwitchGame/script.ts:535-539 | the boundary test passes exactly while 0 < y < 640 |
| GravitySwitch.Player.constructor | gravitySwitchGame/script.ts:130-143 | state "down", frame 0, all timers 0, at the spawn point |
| GravitySwitch.Player.Update | gravitySwitchGame/script.ts:156-175 | the clock becomes Animated, the timers add deltaTime, and once the move timer reaches 1/60 the position becomes Drifted |
| GravitySwitch.Player.ToggleState | gravitySwitchGame/script.ts:177-179 | the state becomes Toggled |
| GravitySwitch.Player.GetBounds | gravitySwitchGame/script.ts:194-201 | the bounds are the position's Hitbox |
| GravitySwitch.Added | gravitySwitchGame/script.ts:215-226 | before the middle, the point is appended; after it, the length stays and every point, the new one included, is 2 further left |
| GravitySwitch.LengthFreezesAtMiddle | gravitySwitchGame/script.ts:216-225 | once the middle is reached it stays reached and the trail length is constant |
| GravitySwitch.TrailGrowsBeforeMiddle | gravitySwitchGame/script.ts:215-216 | before the middle the trail is every point added |
| GravitySwitch.MiddleIsReached | gravitySwitchGame/script.ts:223-225 | adding a point with x ≥ 700 marks the middle as reached |
| GravitySwitch.Trail.constructor | gravitySwitchGame/script.ts:209-213 | an empty trail that has not reached the middle |
| GravitySwitch.Trail.AddPoint | gravitySwitchGame/script.ts:215-226 | the push, shift-left loop and drop leave the trail as AddedState |
| GravitySwitch.Scrolled | gravitySwitchGame/script.ts:384-386 | a spike moves left and keeps its height, size and side |
| GravitySwitch.OffScreenStaysOff | gravitySwitchGame/script.ts:384-406 | a spike once off screen stays off |
| GravitySwitch.ScrolledTimesLeaves | gravitySwitchGame/script.ts:384-406 | after n frames x is 4n less, and the spike is off screen iff x + size < 4n |
| GravitySwitch.SpikeBox | gravitySwitchGame/script.ts:408-415 | width and height are the size; the box starts at y for a ceiling spike and ends there for a floor spike |
| GravitySwitch.SpikeBoxHoldsTriangle | gravitySwitchGame/script.ts:387-415 | the box holds the base corners and the tip of the drawn triangle |
| GravitySwitch.ScrolledAll | gravitySwitchGame/script.ts:508-509 | every spike scrolls once |
| GravitySwitch.PassedCount | gravitySwitchGame/script.ts:514-519 | at most one point per spike in each frame; a spike scores again on every frame it stays behind the shark |
| GravitySwitch.PassedCountIsFilter | gravitySwitchGame/script.ts:514-519 | the points scored are the number of spikes whose box lies left of the shark |
| GravitySwitch.AllPassed | gravitySwitchGame/script.ts:514-519 | with every spike behind the shark, each one scores |
| GravitySwitch.Obstacle.constructor | gravitySwitchGame/script.ts:250-255 | a spike with the given position, size and side |
| GravitySwitch.Obstacle.Update | gravitySwitchGame/script.ts:384-386 | the shape becomes Scrolled |
| GravitySwitch.Obstacle.IsOffScreen | gravitySwitchGame/script.ts:404-406 | the obstacle is off screen exactly when its shape is OffScreen, the test the filter specification uses |
| GravitySwitch.Obstacle.GetBounds | gravitySwitchGame/script.ts:408-415 | the bounds are SpikeBox |
| GravitySwitch.StepObstacle | gravitySwitchGame/script.ts:508-521 | one spike scrolls, scores when its box is left of the shark, and is kept iff still on screen |
| GravitySwitch.SweepStep | gravitySwitchGame/script.ts:508-521 | one round of the filter keeps the progress relation: the spike scrolls, the count grows by one iff it is behind the shark, and it joins the survivors iff it is still on screen |
| GravitySwitch.SweepObstacles | gravitySwitchGame/script.ts:508-522 | the filter loop scrolls every spike, counts the ones behind the shark and keeps the visible ones in order |
| GravitySwitch.FilterObstacles | gravitySwitchGame/script.ts:508-522 | the kept obstacles are exactly the scrolled visible spikes, in order, with no repeats |
| GravitySwitch.Game.SpawnObstacle | gravitySwitchGame/script.ts:455-466 | a spike of the drawn size enters at x = 1400, hanging from y = 0 or standing on y = 700 |
| GravitySwitch.Game.constructor | gravitySwitchGame/script.ts:428-453 | the shark at (0, 350) falling down, on frame 0 with every timer at 0 so the round opens with the slow swim; an empty trail, one spike, score 0 |
| GravitySwitch.Game.MouseDown | gravitySwitchGame/script.ts:440-442 | a click toggles the gravity |
| GravitySwitch.Game.KeyDown | gravitySwitchGame/script.ts:444-448 | space restarts only a finished round, with a fresh shark on frame 0 and every timer at 0, an empty trail, one spike, score 0 and the clock at `now`; every other case changes nothing |
| GravitySwitch.Game.AdvanceObstacles | gravitySwitchGame/script.ts:508-522 | the obstacles become the scrolled visible spikes, and the score gains the number behind the shark |
| GravitySwitch.Game.Tick | gravitySwitchGame/script.ts:475-544 | a finished round only clears the score and leaves the shark, the trail and every spike untouched; a running one is Played |
| GravitySwitch.Game.Play | gravitySwitchGame/script.ts:484-541 | the trail records the shark, the spikes scroll and are filtered, the score gains the passed count, the round ends on a collision or out of the field, both move timers grow by the frame length and the shark moves by Drifted once the move timer is due |
| GravitySwitch.Game.Scroll | gravitySwitchGame/script.ts:488-522 | the trail records the shark, then the obstacle filter runs |
| GravitySwitch.Game.Judge | gravitySwitchGame/script.ts:524-541 | the round ends on a collision or out of the field, then the animation clock runs, both move timers grow by the frame length and the shark moves by Drifted once the move timer is due |

## Left out

- Drawing, images, fonts and colours are not modelled. This covers every `draw*` method, the `Canvas` classes, the next-piece preview and `loadAssets`.
- Event listeners, `requestAnimationFrame`, `setTimeout`, `clearTimeout` and `alert` are not modelled. Key presses, clicks and frames are method calls.
- `Math.random`, `Date.now` and `performance.now` are method parameters: the piece kinds, the lane, the spike size and side, the wind and the clock readings. Their distributions are not modelled.
- Numbers are exact integers or reals. IEEE rounding is not modelled.
- The shooter, blackboard and drag-and-drop programs are not part of this model. They are vector physics with square roots, or pure canvas and DOM work.
- Tetris `update(currentTime)`, the timer that calls `moveDown` once the fall interval has passed, is not modelled. Its effect is `MoveDown`.
- Gunny.Bullet.constructor: the launch velocity is a parameter. The cosine and sine of the angle are not modelled.
- Gunny.Game.Fire: the launch velocity and the new wind are parameters. The model does not tie the launch to `degree` and `power` (the cosine and sine of the angle, scaled by the power), and `Math.random` is not modelled.
- Gunny.Game.CheckCollisions: the early return when the canvas has no 2D context is not modelled. `alert("You won!")` on the enemy's death is not modelled either.
- GunnyStub.Game.constructor: the unused `degree` and `maxDegree` fields are not modelled.
- GravitySwitch.Game.Tick: whether a remaining spike touches the shark is the parameter `collided`. The triangle test (`pointInTriangle`, `lineIntersects`, `checkCollision`) is floating-point geometry with a 0.01 tolerance.
- GravitySwitch.Game.Tick: on a finished round, `showGameOver` and `clearTimeout` are not modelled.
- GravitySwitch.Game.SpawnObstacle: it does not reschedule itself. The 400–800 ms delay is not modelled, and each spawn is a call.
- GravitySwitch.Game.KeyDown: `performance.now()` is the parameter `now`.
- Positions (`Vector2D`) are values. In the source, every stored position is a fresh object that only its owner updates, so no aliasing is lost.
