/**
 * The fixed dimensions and speeds of the game. All of them are
 * compile-time constants of SpaceGame.java; the derived ones are written
 * the way the Java code computes them.
 */
module Playfield {

  const GameWidth: int := 800
  const GameHeight: int := 600
  const CannonWidth: int := 50
  const ShipWidth: int := 50
  const ShipHeight: int := 30
  const ProjectileWidth: int := 4
  const ProjectileHeight: int := 10

  /** Pixels the cannon moves per tick while a direction key is held. */
  const CannonStep: int := 5
  /** Pixels a projectile climbs per tick. */
  const ShotSpeed: int := 5
  /** Horizontal pixels a ship moves per tick (times its direction). */
  const ShipSpeed: int := 2
  /** Pixels a ship drops each time it bounces off an edge. */
  const ShipDrop: int := 20
  /** Score awarded for each destroyed ship. */
  const KillBonus: int := 100

  /** Right-most cannon position: the cannon may not leave the field. */
  const CannonMax: int := GameWidth - CannonWidth
  /** A ship bounces when its x reaches 0 or this value. */
  const ShipEdge: int := GameWidth - ShipWidth
  /** A ship whose y exceeds this line ends the game. */
  const FailLine: int := GameHeight - 100

  const CannonStart: int := GameWidth / 2
  /** Where a new projectile appears, relative to the cannon. */
  const MuzzleOffset: int := CannonWidth / 2 - ProjectileWidth / 2
  const MuzzleY: int := GameHeight - 70

  /** The initial fleet is a Rows x Cols grid. */
  const Rows: int := 4
  const Cols: int := 8
  const FleetSize: int := Rows * Cols
}
