# Space game: a Dafny model of the game state machine

The original program is a single Swing panel, `SpaceGame`, running a small
arcade shooter. The player moves a cannon along the bottom of an 800×600
field and fires projectiles upward. A 4×8 grid of enemy ships sweeps from
side to side and drops 20 pixels at each edge. Each destroyed ship is worth
100 points. The game ends when the fleet is cleared or when a ship passes
the fail line at y = 500.

This project models the part of the panel that carries logic: the game
state and its transitions. The state is one immutable record `Game.State`
holding the cannon position, score, game-over flag, the two held-key flags,
and sequences of projectiles and ships. The timer callback, the key-down
callback and the key-up callback become the pure functions `TickState`,
`Press` and `Release`. The fire command is `Fire`. `Run` folds a sequence
of callbacks over a state.

Files, one module each:

- `playfield.dfy` (`Playfield`): the constants of the panel, with the
  derived ones computed as the Java code computes them.
- `geometry.dfy` (`Geometry`): rectangles and the overlap test that stands
  in for `java.awt.Rectangle.intersects`.
- `entities.dfy` (`Entities`): projectiles and ships, their per-tick moves
  and their bounding boxes.
- `collision.dfy` (`Collision`): the projectile phase of a tick. Projectiles
  move and hit ships, in list order.
- `game.dfy` (`Game`): the state record, the initial grid, the tick, fire,
  key handling and runs of callbacks.
- `invariants.dfy` (`Invariants`): the reachable-state invariant and the
  facts about whole runs.
- `scenarios.dfy` (`Scenarios`): one-tick situations, concrete and general,
  that fix the order of the tick's phases.
- `options.dfy` (`Options`): an optional-value type.

Modelling decisions:

- Integers are unbounded. Java's `int` cannot overflow in any reachable
  state. `Invariants.Valid` bounds the cannon, the projectiles, the ship
  columns and the score. Ship rows only grow by 20 per bounce, and the game
  stops once a ship passes row 500.
- Projectiles and ships are values. The Java code removes objects by
  identity, because neither class overrides `equals`. The model removes the
  element at the index where the hit was found, which is the same object.
- The collision loop walks a fresh copy of the ship list for each
  projectile. It stops at the first hit, so the copy always equals the live
  list. `Collision.Volley` therefore checks each projectile against the fleet
  as it stands after the earlier projectiles' hits.
- `Geometry.Intersects` follows `java.awt.Rectangle.intersects`: a rectangle
  with zero or negative width or height intersects nothing, and otherwise the
  two boxes must overlap strictly. Boxes that only touch along an edge do not
  intersect. The Java method also guards against `int` overflow, which is not
  modelled.
- Key events are the abstract keys `Left`, `Right`, `Space` and `Other`.
  Space fires on key-down only. Releasing it, or pressing or releasing any
  other key, changes nothing.

A tick that starts with no ships still moves the cannon and the projectiles
before it declares the win, because SpaceGame.java lines 152-158 run before
the check at lines 178-180. `Scenarios.EmptyFleetStillMoves` shows this.

## Model

| member | source | states |
|---|---|---|
| `Entities.Projectile.Move` | src/main/java/src/main/java/SpaceGame.java:36-38 | A projectile's step keeps its column and raises it by exactly 5 pixels. |
| `Geometry.SharedPixel` | src/main/java/src/main/java/SpaceGame.java:160 | The overlap test holds if and only if some pixel lies inside both boxes. So boxes that only share an edge, and empty boxes, never intersect. |
| `Entities.Ship.Move` | src/main/java/src/main/java/SpaceGame.java:55-61 | A ship moves 2 pixels in its direction. It drops exactly 20 and reverses exactly when the new x is at or past either edge (0 or 750). Otherwise y and direction are unchanged. A direction in {-1, 1} stays in {-1, 1}. |
| `Entities.ShipMoveStaysOnScreen` | src/main/java/src/main/java/SpaceGame.java:55-61 | A ship that is on screen, on an even column and heading inward at an edge is still so after its step, and its y never decreases. |
| `Collision.FirstHit` | src/main/java/src/main/java/SpaceGame.java:159-165 | Finds the first ship in list order whose 50×30 box overlaps the projectile's 4×10 box. No earlier ship overlaps it. None is returned exactly when no ship overlaps. |
| `Collision.RemoveAt` | src/main/java/src/main/java/SpaceGame.java:161-162 | Removing the hit element drops exactly that one element. The others keep their order, and the multiset loses only that element. |
| `Collision.Volley` | src/main/java/src/main/java/SpaceGame.java:157-167 | Each destroyed ship costs exactly one projectile, so each projectile removes at most one ship. Survivors are moved originals and remaining ships are untouched originals, counted as multisets. |
| `Collision.HeadShotHits` | src/main/java/src/main/java/SpaceGame.java:157-165 | For any volley, the first projectile whose step brings it onto ship i, and onto no earlier ship, is spent on ship i. The rest of the volley then runs against the fleet without ship i, and the kills rise by one. |
| `Collision.HeadShotMisses` | src/main/java/src/main/java/SpaceGame.java:157-167 | For any volley, a first projectile whose step reaches no ship survives at the front of the survivors. The rest of the volley runs against the whole fleet. |
| `Collision.VolleyKeepsOrder` | src/main/java/src/main/java/SpaceGame.java:157-167 | The surviving projectiles are the moved projectiles with some deleted, in their original order. The remaining ships are the fleet with some deleted, in their original order. |
| `Collision.VolleyAllMiss` | src/main/java/src/main/java/SpaceGame.java:157-167 | When no moved projectile overlaps any ship, every projectile survives in order one step higher, the fleet is exactly as it was, and nothing is killed. |
| `Collision.RemoveAtSubsequence` | src/main/java/src/main/java/SpaceGame.java:161-162 | Removing the hit ship leaves the other ships in their order. |
| `Collision.DestroyedShipsWereHit` | src/main/java/src/main/java/SpaceGame.java:157-167 | Every ship the phase removes, counted with multiplicity, is overlapped by some projectile of the volley after that projectile's step. |
| `Collision.DestroyedShotsHitAShip` | src/main/java/src/main/java/SpaceGame.java:157-167 | Every moved projectile the phase removes, counted with multiplicity, overlaps some ship of the fleet the phase started with. |
| `Collision.MissingShotsSurvive` | src/main/java/src/main/java/SpaceGame.java:157-167 | A moved projectile that overlaps no ship of the starting fleet is never removed: it keeps every one of its copies among the survivors. |
| `Collision.LoneShotHits` | src/main/java/src/main/java/SpaceGame.java:157-165 | A single projectile whose step brings it onto ship i, and onto no earlier ship, is used up on exactly ship i, with one kill. |
| `Collision.SurvivorsMissRemainingShips` | src/main/java/src/main/java/SpaceGame.java:157-167 | After the projectile phase, no surviving projectile overlaps a surviving ship. A survivor found no target when it was checked, and later projectiles only remove ships. |
| `Collision.NoKillsIffAllMiss` | src/main/java/src/main/java/SpaceGame.java:157-167 | The phase destroys nothing if and only if no moved projectile overlaps any ship of the fleet at the start of the phase. |
| `Game.InitialFleet` | src/main/java/src/main/java/SpaceGame.java:75-79 | The constructor creates 32 ships, all with direction 1. |
| `Game.InitialFleetLayout` | src/main/java/src/main/java/SpaceGame.java:75-79 | The constructor builds 32 ships, added row by row. Ship (row, col) sits at index 8·row + col, at (50 + 80·col, 50 + 60·row), with direction 1. |
| `Game.Init` | src/main/java/src/main/java/SpaceGame.java:17-24 | A new game has the cannon at 400, score 0, no game over, no key held, no projectiles and the initial grid of ships. |
| `Game.MoveCannon` | src/main/java/src/main/java/SpaceGame.java:152-153 | With no key held the cannon stays. Left alone moves it 5 left when x > 0. Right alone moves it 5 right when x < 750. With both held the left step applies first and the right test sees its result: the cannon stays when 0 < x < 755, gains 5 when x <= 0, and loses 5 when x >= 755. A multiple of 5 in [0, 750] stays one. |
| `Game.Airborne` | src/main/java/src/main/java/SpaceGame.java:156 | A projectile survives the filter if and only if it was present with y >= 0. Each projectile with y >= 0 keeps exactly its number of copies, and each one with y < 0 has none. |
| `Game.AirborneKeepsOrder` | src/main/java/src/main/java/SpaceGame.java:156 | The filter keeps the list order: filtering two lists joined together gives the two filtered lists joined together. |
| `Game.AirborneCons` | src/main/java/src/main/java/SpaceGame.java:156 | The filter decides each element on its own: a head with y < 0 is dropped and any other head is kept in front of the filtered rest. |
| `Game.MoveFleet` | src/main/java/src/main/java/SpaceGame.java:170-171 | Every ship takes its zig-zag step in place: the result has the same length, and element i is ship i after its step. |
| `Game.TickState` | src/main/java/src/main/java/SpaceGame.java:149-183 | A finished game is left unchanged. Game over never turns off. After a live tick it is set exactly when the fleet is empty or some moved ship is below y = 500. Score plus 100 per remaining ship is conserved, so score never decreases. Each destroyed ship used up a projectile. The cannon stays in range. After a live tick the cannon is where `MoveCannon` puts it. Every remaining projectile has y >= -5. After a live tick every remaining ship is some ship of the starting fleet after its step. Key flags are untouched. |
| `Game.TickProjectilesClimb` | src/main/java/src/main/java/SpaceGame.java:36-38 | Every projectile left after a live tick was in the field (y >= 0) when the tick began. It has moved up by exactly 5 pixels, with its column unchanged. |
| `Game.TickSingleHit` | src/main/java/src/main/java/SpaceGame.java:156-175 | A lone projectile whose step brings it onto ship i, and onto no earlier ship, is destroyed together with exactly ship i. The score rises by exactly 100. Every other ship keeps its place in the list and takes its step. |
| `Game.TickSingleMiss` | src/main/java/src/main/java/SpaceGame.java:156-167 | A lone projectile that reaches no ship survives one step higher. The score and the number of ships are unchanged. |
| `Game.TickAllMiss` | src/main/java/src/main/java/SpaceGame.java:156-175 | In a live tick where no projectile in the field reaches any ship after its step, the score is unchanged. Every such projectile climbs one step, in order. Every ship keeps its place and takes its zig-zag step. |
| `Game.AirborneIdempotent` | src/main/java/src/main/java/SpaceGame.java:156 | Filtering out the projectiles above the field a second time removes nothing more. |
| `Game.TickIgnoresOffscreen` | src/main/java/src/main/java/SpaceGame.java:156-167 | Projectiles above the field take no part in a live tick: removing them beforehand gives the same resulting state. The filter at line 156 runs before the collision loop. |
| `Game.TickSurvivorsStep` | src/main/java/src/main/java/SpaceGame.java:156-175 | After a live tick the ships are the ships the tick did not destroy, in their original order, each after its step. Every destroyed ship, counted with multiplicity, was overlapped after the step of some projectile that had y >= 0 at the start of the tick. |
| `Game.Fire` | src/main/java/src/main/java/SpaceGame.java:194-200 | While the game is on, fire appends exactly one projectile at (cannonX + 23, 530) after the existing ones. Nothing else changes, and after game over fire changes nothing. |
| `Game.Press` | src/main/java/src/main/java/SpaceGame.java:186-203 | An arrow key-down sets only its own flag and leaves the play state untouched. Space fires. Any other key does nothing. |
| `Game.Release` | src/main/java/src/main/java/SpaceGame.java:206-215 | An arrow key-up clears only its own flag. No key-up changes the play state. Releasing space or another key does nothing. |
| `Game.PressReleaseRoundTrip` | src/main/java/src/main/java/SpaceGame.java:186-215 | Pressing and then releasing an arrow key that was up returns the state unchanged. |
| `Invariants.InitValid` | src/main/java/src/main/java/SpaceGame.java:17-24 | The constructed state satisfies the invariant. It has the cannon at 400, score 0 with 32 ships, and no projectiles. |
| `Invariants.InitialFleetOnScreen` | src/main/java/src/main/java/SpaceGame.java:75-79 | Every ship of the initial grid is on screen and on an even column, and every one has direction 1. |
| `Invariants.TickKeepsShipsOnScreen` | src/main/java/src/main/java/SpaceGame.java:170-175 | After a tick every ship is still on screen. Ships stay on even columns in [0, 750], and a ship sitting on an edge is heading inward. |
| `Invariants.TickKeepsShotsInField` | src/main/java/src/main/java/SpaceGame.java:156-158 | After a tick every projectile still lies between its muzzle row 530 and one step above the field (y >= -5). Its column stays in the muzzle range [23, 773]. |
| `Invariants.StepPreservesValid` | src/main/java/src/main/java/SpaceGame.java:149-215 | Every callback keeps the invariant. The invariant holds these facts: the cannon is a multiple of 5 in [0, 750], score + 100·ships == 3200 with score >= 0, ships are on screen, projectiles are in the field, and an empty fleet means game over. |
| `Invariants.RunPreservesValid` | src/main/java/src/main/java/SpaceGame.java:149-215 | Any sequence of callbacks from a valid state ends in a valid state. |
| `Invariants.ReachableValid` | src/main/java/src/main/java/SpaceGame.java:17-18 | Every state reachable from construction has the cannon in range. Its score is exactly 100 times the number of destroyed ships. |
| `Invariants.RunScoreMonotone` | src/main/java/src/main/java/SpaceGame.java:163 | No sequence of callbacks lowers the score. |
| `Invariants.RunFrozenAfterGameOver` | src/main/java/src/main/java/SpaceGame.java:150 | Once the game is over, no sequence of callbacks changes the cannon, score, flag, projectiles or ships. Only the key flags can still change. |
| `Scenarios.LastShipShotDown` | src/main/java/src/main/java/SpaceGame.java:157-180 | A projectile that climbs into the last ship removes both, scores 100 and ends the game as a win. |
| `Scenarios.EmptyFleetStillMoves` | src/main/java/src/main/java/SpaceGame.java:152-180 | With no ships left, the tick still moves the cannon and projectiles before setting game over. |
| `Scenarios.FirstShipInOrderIsHit` | src/main/java/src/main/java/SpaceGame.java:159-165 | When one projectile overlaps two ships, only the first ship in list order is destroyed. |
| `Scenarios.FirstOfTwoShipsTaken` | src/main/java/src/main/java/SpaceGame.java:156-180 | For any live state with one projectile in the field and two ships, where the projectile reaches the first ship, the tick removes the projectile and the first ship and adds 100. The second ship takes its step, and the game ends only if that ship breaches. |
| `Scenarios.DestroyedShipIsNotHitTwice` | src/main/java/src/main/java/SpaceGame.java:157-165 | A second projectile on an already destroyed ship flies on. |
| `Scenarios.OnlyShipTakenByFirstShot` | src/main/java/src/main/java/SpaceGame.java:156-180 | For any live state with two projectiles in the field and one ship that the first reaches, the first projectile takes the ship and adds 100. The second flies on one step higher, and the cleared fleet ends the game. |
| `Scenarios.OffscreenShotIsDropped` | src/main/java/src/main/java/SpaceGame.java:156 | A projectile above the field is dropped before it could hit a ship it would otherwise reach. |
| `Scenarios.CannonRangeNeedsStepAlignment` | src/main/java/src/main/java/SpaceGame.java:153 | The right guard alone would carry a cannon at 748 to 753, so the range bound rests on the multiple-of-5 alignment. With both keys held at 0 the cannon ends at 5. |

## Left out

- Rendering (`paintComponent`, `drawSpaceCannon`, colours, fonts) has no
  effect on the state.
- The Swing plumbing (`Timer`, `JFrame`, `main`, `repaint`, panel setup) is
  left out. The host's callbacks are the `Event` values given to `Run`. The
  16 ms cadence is not modelled.
- `keyTyped` does nothing. The `java.util.Random` import is unused.
- The internals of `java.awt.Rectangle` are replaced by `Geometry.Intersects`.
  Its overflow guard is left out, because the boxes here are small and fixed.
- `CANNON_HEIGHT` plays no part in the game logic.
- 32-bit wrap-around of Java `int` is not modelled. No reachable state comes
  near it.
