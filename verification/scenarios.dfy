/** Single-tick situations, concrete and general, that pin down the order of the tick's phases. */
module Scenarios {

  import opened Options
  import opened Playfield
  import opened Entities
  import opened Collision
  import opened Game

  /** A live game with the given cannon position, projectiles and ships, no key held. */
  function Playing(x: int, ps: seq<Projectile>, ships: seq<Ship>): (s: State)
  {
    State(x, 0, false, false, false, ps, ships)
  }

  /** A projectile just below the last ship climbs into it: both go, score 100, and the cleared fleet wins. */
  lemma LastShipShotDown()
    ensures TickState(Playing(50, [Projectile(73, 80)], [Ship(50, 50, 1)]))
         == State(50, 100, true, false, false, [], [])
  {
  }

  /**
   * With the fleet already empty the tick still moves the cannon and the
   * projectiles before declaring the game over.
   */
  lemma EmptyFleetStillMoves()
    ensures TickState(State(400, 3200, false, true, false, [Projectile(423, 300)], []))
         == State(395, 3200, true, true, false, [Projectile(423, 295)], [])
  {
  }

  /** One projectile overlapping two ships destroys only the first in fleet order. */
  lemma FirstShipInOrderIsHit()
    ensures TickState(Playing(50, [Projectile(70, 80)], [Ship(50, 50, 1), Ship(60, 50, 1)]))
         == State(50, 100, false, false, false, [], [Ship(62, 50, 1)])
  {
    FirstOfTwoShipsTaken(Playing(50, [Projectile(70, 80)], [Ship(50, 50, 1), Ship(60, 50, 1)]));
  }

  /**
   * A lone projectile inside the field that reaches the first of two ships
   * takes that ship only; the second ship takes its step.
   */
  lemma FirstOfTwoShipsTaken(s: State)
    requires !s.gameOver && |s.projectiles| == 1 && |s.ships| == 2
    requires s.projectiles[0].y >= 0 && Hits(s.projectiles[0].Move(), s.ships[0])
    ensures TickState(s) == s.(cannonX := MoveCannon(s.cannonX, s.left, s.right),
                              score := s.score + KillBonus,
                              gameOver := Breached([s.ships[1].Move()]),
                              projectiles := [], ships := [s.ships[1].Move()])
  {
    assert s.projectiles == [s.projectiles[0]];
    AirborneLone(s.projectiles[0]);
    ShotTakesFirstOfTwo(s.projectiles, s.ships);
    assert MoveFleet([s.ships[1]]) == [s.ships[1].Move()];
  }

  /** The volley of one projectile at two ships when it reaches the first. */
  lemma ShotTakesFirstOfTwo(ps: seq<Projectile>, fleet: seq<Ship>)
    requires |ps| == 1 && |fleet| == 2 && Hits(ps[0].Move(), fleet[0])
    ensures Volley(ps, fleet) == Salvo([], [fleet[1]], 1)
  {
    HeadShotHits(ps, fleet, 0);
    assert RemoveAt(fleet, 0) == [fleet[1]];
    assert ps[1..] == [];
  }

  /**
   * Two projectiles on the same ship: the second one checks the fleet after
   * the first has destroyed it, so it flies on.
   */
  lemma DestroyedShipIsNotHitTwice()
    ensures TickState(Playing(50, [Projectile(73, 80), Projectile(75, 80)], [Ship(50, 50, 1)]))
         == State(50, 100, true, false, false, [Projectile(75, 75)], [])
  {
    OnlyShipTakenByFirstShot(Playing(50, [Projectile(73, 80), Projectile(75, 80)], [Ship(50, 50, 1)]));
  }

  /**
   * Two projectiles inside the field and a single ship that the first one
   * reaches: the first takes the ship, the second then meets an empty fleet
   * and flies on, and the cleared fleet ends the game.
   */
  lemma OnlyShipTakenByFirstShot(s: State)
    requires !s.gameOver && |s.projectiles| == 2 && |s.ships| == 1
    requires s.projectiles[0].y >= 0 && s.projectiles[1].y >= 0
    requires Hits(s.projectiles[0].Move(), s.ships[0])
    ensures TickState(s) == s.(cannonX := MoveCannon(s.cannonX, s.left, s.right),
                              score := s.score + KillBonus, gameOver := true,
                              projectiles := [s.projectiles[1].Move()], ships := [])
  {
    assert s.projectiles == [s.projectiles[0], s.projectiles[1]];
    AirbornePair(s.projectiles[0], s.projectiles[1]);
    FirstOfTwoTakesOnlyShip(s.projectiles, s.ships);
    assert MoveFleet([]) == [];
  }

  /** Two projectiles inside the field are both kept. */
  lemma AirbornePair(p: Projectile, q: Projectile)
    requires p.y >= 0 && q.y >= 0
    ensures Airborne([p, q]) == [p, q]
  {
    AirborneCons(q, []);
    AirborneCons(p, [q]);
    assert [p, q] == [p] + [q];
  }

  /** The volley of two projectiles at a single ship that the first one reaches. */
  lemma FirstOfTwoTakesOnlyShip(ps: seq<Projectile>, fleet: seq<Ship>)
    requires |ps| == 2 && |fleet| == 1 && Hits(ps[0].Move(), fleet[0])
    ensures Volley(ps, fleet) == Salvo([ps[1].Move()], [], 1)
  {
    HeadShotHits(ps, fleet, 0);
    assert RemoveAt(fleet, 0) == [];
    HeadShotMisses(ps[1..], []);
    assert ps[1..][0] == ps[1] && ps[1..][1..] == [];
  }

  /** A projectile already above the field is dropped before it could hit anything. */
  lemma OffscreenShotIsDropped()
    ensures TickState(Playing(50, [Projectile(60, -1)], [Ship(50, -20, 1)]))
         == State(50, 0, false, false, false, [], [Ship(52, -20, 1)])
  {
  }

  /**
   * The cannon's range depends on its position being a multiple of 5: from
   * 748 the right key would carry it to 753, past the right edge at 750.
   */
  lemma CannonRangeNeedsStepAlignment()
    ensures MoveCannon(748, false, true) == 753
    ensures MoveCannon(0, true, true) == 5
  {
  }
}
