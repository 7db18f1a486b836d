/**
 * The invariant every reachable state satisfies, and the facts about whole
 * runs of callbacks that follow from the single-step contracts.
 */
module Invariants {

  import opened Playfield
  import opened Entities
  import opened Collision
  import opened Game

  /** A projectile somewhere between its muzzle and one step above the field. */
  predicate ShotInField(p: Projectile)
  {
    MuzzleOffset <= p.x <= CannonMax + MuzzleOffset && -ShotSpeed <= p.y <= MuzzleY
  }

  /** The reachable-state invariant. */
  predicate Valid(s: State)
  {
    CannonInRange(s.cannonX) &&
    // every destroyed ship of the initial fleet is worth exactly one bonus
    0 <= s.score && s.score + KillBonus * |s.ships| == KillBonus * FleetSize &&
    (forall i :: 0 <= i < |s.ships| ==> s.ships[i].OnScreen()) &&
    (forall k :: 0 <= k < |s.projectiles| ==> ShotInField(s.projectiles[k])) &&
    // a cleared fleet always means the game is over
    (|s.ships| == 0 ==> s.gameOver)
  }

  /** Every grid position lies on screen, on an even column, heading right. */
  lemma GridShipOnScreen(row: int, col: int)
    requires 0 <= col < Cols
    ensures GridShip(row, col).OnScreen()
  {
  }

  /** Every ship of the initial grid starts on screen. */
  lemma InitialFleetOnScreen()
    ensures forall i :: 0 <= i < |InitialFleet()| ==> InitialFleet()[i].OnScreen()
    ensures forall i :: 0 <= i < |InitialFleet()| ==> InitialFleet()[i].dir == 1
  {
    forall i | 0 <= i < |InitialFleet()|
      ensures InitialFleet()[i].OnScreen()
    {
      GridShipOnScreen(i / Cols, i % Cols);
    }
  }

  /** The constructed game satisfies the invariant. */
  lemma InitValid()
    ensures Valid(Init())
    ensures Init().cannonX == 400 && Init().score == 0 && |Init().ships| == 32
    ensures Init().projectiles == []
  {
    InitialFleetOnScreen();
  }

  /** Ships surviving a live tick are moved copies of on-screen ships, hence on screen. */
  lemma TickKeepsShipsOnScreen(s: State)
    requires forall i :: 0 <= i < |s.ships| ==> s.ships[i].OnScreen()
    ensures forall i :: 0 <= i < |TickState(s).ships| ==> TickState(s).ships[i].OnScreen()
  {
    if !s.gameOver {
      var v := Volley(Airborne(s.projectiles), s.ships);
      forall i | 0 <= i < |v.fleet|
        ensures v.fleet[i].Move().OnScreen()
      {
        assert v.fleet[i] in s.ships;
        ShipMoveStaysOnScreen(v.fleet[i]);
      }
    }
  }

  /** Projectiles surviving a live tick are in-field projectiles that climbed one step. */
  lemma TickKeepsShotsInField(s: State)
    requires forall k :: 0 <= k < |s.projectiles| ==> ShotInField(s.projectiles[k])
    ensures forall k :: 0 <= k < |TickState(s).projectiles| ==> ShotInField(TickState(s).projectiles[k])
  {
    if !s.gameOver {
      var live := Airborne(s.projectiles);
      var v := Volley(live, s.ships);
      forall k | 0 <= k < |v.shots|
        ensures ShotInField(v.shots[k])
      {
        var j :| 0 <= j < |live| && MoveAll(live)[j] == v.shots[k];
        assert live[j] in live;
        assert live[j] in s.projectiles;
      }
    }
  }

  /** Every callback keeps the invariant. */
  lemma StepPreservesValid(s: State, e: Event)
    requires Valid(s)
    ensures Valid(Step(s, e))
  {
    match e
    case Tick =>
      TickKeepsShipsOnScreen(s);
      TickKeepsShotsInField(s);
    case KeyDown(k) =>
    case KeyUp(k) =>
  }

  /** Any run of callbacks from a valid state ends in a valid state. */
  lemma {:induction false} RunPreservesValid(s: State, es: seq<Event>)
    requires Valid(s)
    ensures Valid(Run(s, es))
    decreases |es|
  {
    if |es| > 0 {
      StepPreservesValid(s, es[0]);
      RunPreservesValid(Step(s, es[0]), es[1..]);
    }
  }

  /**
   * Every state the game can reach from construction satisfies the
   * invariant: the cannon stays on a multiple of 5 in [0, 750], and the
   * score is exactly 100 per destroyed ship of the 32.
   */
  lemma ReachableValid(es: seq<Event>)
    ensures Valid(Run(Init(), es))
    ensures CannonInRange(Run(Init(), es).cannonX)
    ensures Run(Init(), es).score == KillBonus * (FleetSize - |Run(Init(), es).ships|)
  {
    InitValid();
    RunPreservesValid(Init(), es);
  }

  /** The score never goes down, whatever the callbacks. */
  lemma {:induction false} RunScoreMonotone(s: State, es: seq<Event>)
    ensures Run(s, es).score >= s.score
    decreases |es|
  {
    if |es| > 0 {
      RunScoreMonotone(Step(s, es[0]), es[1..]);
    }
  }

  /**
   * Once the game is over it stays over, and no callback changes the
   * cannon, the score, the projectiles or the ships; only the key flags move.
   */
  lemma {:induction false} RunFrozenAfterGameOver(s: State, es: seq<Event>)
    requires s.gameOver
    ensures SamePlay(Run(s, es), s)
    decreases |es|
  {
    if |es| > 0 {
      RunFrozenAfterGameOver(Step(s, es[0]), es[1..]);
    }
  }
}
