/** The two kinds of moving objects: projectiles and enemy ships. */
module Entities {

  import opened Playfield
  import opened Geometry

  /** A projectile fired by the cannon; (x, y) is its top-left corner. */
  datatype Projectile = Projectile(x: int, y: int)
  {
    /** One tick of flight: straight up by ShotSpeed pixels. */
    function Move(): (r: Projectile)
      ensures r.x == x && r.y == y - ShotSpeed
    {
      Projectile(x, y - ShotSpeed)
    }

    function Bounds(): (b: Rect)
    {
      Rect(x, y, ProjectileWidth, ProjectileHeight)
    }
  }

  /**
   * An enemy ship; dir is its horizontal direction, +1 (right) or -1 (left)
   * in every reachable state.
   */
  datatype Ship = Ship(x: int, y: int, dir: int)
  {
    /**
     * One tick of the zig-zag sweep: ShipSpeed pixels sideways; on reaching
     * either edge the ship turns round and drops by ShipDrop.
     */
    function Move(): (r: Ship)
      ensures r.x == x + ShipSpeed * dir
      ensures (dir == 1 || dir == -1) ==> (r.dir == 1 || r.dir == -1)
      ensures r.y == y || r.y == y + ShipDrop
      ensures r.y == y + ShipDrop <==> r.x <= 0 || r.x >= ShipEdge
      ensures dir != 0 ==> (r.dir == -dir <==> r.y == y + ShipDrop)
      ensures r.y == y ==> r.dir == dir
    {
      var nx := x + dir * ShipSpeed;
      if nx <= 0 || nx >= ShipEdge then Ship(nx, y + ShipDrop, dir * -1)
      else Ship(nx, y, dir)
    }

    function Bounds(): (b: Rect)
    {
      Rect(x, y, ShipWidth, ShipHeight)
    }

    /**
     * The horizontal part of the reachable-state invariant: the ship is on
     * screen, on an even column (so that two-pixel steps land exactly on
     * both edges) and, when it sits on an edge, it is heading back inward.
     */
    predicate OnScreen()
    {
      (dir == 1 || dir == -1) &&
      0 <= x <= ShipEdge && x % 2 == 0 &&
      (x == 0 ==> dir == 1) && (x == ShipEdge ==> dir == -1)
    }
  }

  /** A ship step keeps the ship on screen. */
  lemma ShipMoveStaysOnScreen(s: Ship)
    requires s.OnScreen()
    ensures s.Move().OnScreen()
    ensures s.Move().y >= s.y
  {
  }
}
