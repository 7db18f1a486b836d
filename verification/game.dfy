/**
 * The game state and its transitions: the timer tick, the fire command and
 * the held-key flags. The whole state is one immutable record; every
 * callback of the original panel becomes a pure function on it.
 */
module Game {

  import opened Options
  import opened Playfield
  import opened Entities
  import opened Collision

  /** Everything the game remembers between callbacks. */
  datatype State = State(
    cannonX: int,
    score: int,
    gameOver: bool,
    left: bool,
    right: bool,
    projectiles: seq<Projectile>,
    ships: seq<Ship>)

  /** The keys the game reacts to; every other key is Other. */
  datatype Key = Left | Right | Space | Other

  /** One callback from the host: a timer tick, a key going down or up. */
  datatype Event = Tick | KeyDown(key: Key) | KeyUp(key: Key)

  // ---------------------------------------------------------------- setup

  /** The ship the grid places at column col of row row; ships start heading right. */
  function GridShip(row: int, col: int): (s: Ship)
  {
    Ship(50 + col * 80, 50 + row * 60, 1)
  }

  /**
   * The fleet the constructor builds: its nested loops add the ships row by
   * row, each row left to right, so ship i is in row i / Cols, column i % Cols.
   */
  function InitialFleet(): (f: seq<Ship>)
    ensures |f| == 32
    ensures forall i :: 0 <= i < |f| ==> f[i].dir == 1
  {
    seq(FleetSize, i requires 0 <= i < FleetSize => GridShip(i / Cols, i % Cols))
  }

  /**
   * The grid as the constructor lays it out: FleetSize ships, ship (row, col)
   * at index 8 row + col, at (50 + 80 col, 50 + 60 row), heading right.
   */
  lemma InitialFleetLayout()
    ensures |InitialFleet()| == FleetSize == 32
    ensures forall row, col :: 0 <= row < Rows && 0 <= col < Cols ==>
              InitialFleet()[row * 8 + col] == Ship(50 + col * 80, 50 + row * 60, 1)
  {
    forall row, col | 0 <= row < Rows && 0 <= col < Cols
      ensures InitialFleet()[row * 8 + col] == Ship(50 + col * 80, 50 + row * 60, 1)
    {
      var i := row * 8 + col;
      assert i / 8 == row && i % 8 == col;
    }
  }

  /** The state right after construction. */
  function Init(): (s: State)
    ensures s.cannonX == 400 && s.score == 0 && !s.gameOver && !s.left && !s.right
    ensures s.projectiles == [] && s.ships == InitialFleet()
  {
    State(CannonStart, 0, false, false, false, [], InitialFleet())
  }

  // ---------------------------------------------------------------- tick

  /** The cannon positions the game can reach: a multiple of the step inside the field. */
  predicate CannonInRange(x: int)
  {
    0 <= x <= CannonMax && x % CannonStep == 0
  }

  /**
   * Cannon movement for one tick: left first, then right, each guarded by
   * the field edge (the right guard sees the position after the left step).
   */
  function MoveCannon(x: int, left: bool, right: bool): (r: int)
    ensures CannonInRange(x) ==> CannonInRange(r)
    ensures r == x - CannonStep || r == x || r == x + CannonStep
    ensures !left && !right ==> r == x
    ensures left && !right ==> r == (if x > 0 then x - 5 else x)
    ensures right && !left ==> r == (if x < 750 then x + 5 else x)
    ensures left && right && 0 < x < 755 ==> r == x
    ensures left && right && x <= 0 ==> r == x + 5
    ensures left && right && x >= 755 ==> r == x - 5
  {
    var afterLeft := if left && x > 0 then x - CannonStep else x;
    if right && afterLeft < CannonMax then afterLeft + CannonStep else afterLeft
  }

  /** Drops the projectiles that are already above the top of the field. */
  function Airborne(ps: seq<Projectile>): (r: seq<Projectile>)
    ensures forall p {:trigger p in r} :: p in r <==> p in ps && p.y >= 0
    ensures forall p {:trigger multiset(r)[p]} :: multiset(r)[p] == if p.y >= 0 then multiset(ps)[p] else 0
    ensures multiset(r) <= multiset(ps)
    ensures |r| <= |ps|
  {
    if |ps| == 0 then []
    else
      assert ps == [ps[0]] + ps[1..];
      if ps[0].y < 0 then Airborne(ps[1..]) else [ps[0]] + Airborne(ps[1..])
  }

  /**
   * The filter keeps the order of the projectiles it keeps: filtering a
   * concatenation is concatenating the filtered parts.
   */
  lemma {:induction false} AirborneKeepsOrder(a: seq<Projectile>, b: seq<Projectile>)
    ensures Airborne(a + b) == Airborne(a) + Airborne(b)
    decreases |a|
  {
    if |a| > 0 {
      var x, xs := a[0], a[1..];
      AirborneKeepsOrder(xs, b);
      assert a == [x] + xs;
      assert a + b == [x] + (xs + b);
      if x.y >= 0 {
        KeptHeadStep(x, xs, b);
      } else {
        DroppedHeadStep(x, xs, b);
      }
    } else {
      assert a + b == b;
    }
  }

  /** The induction step of AirborneKeepsOrder when the new head is dropped. */
  lemma DroppedHeadStep(x: Projectile, xs: seq<Projectile>, b: seq<Projectile>)
    requires x.y < 0
    requires Airborne(xs + b) == Airborne(xs) + Airborne(b)
    ensures Airborne([x] + (xs + b)) == Airborne([x] + xs) + Airborne(b)
  {
    AirborneCons(x, xs);
    AirborneCons(x, xs + b);
  }

  /** The induction step of AirborneKeepsOrder when the new head is kept. */
  lemma KeptHeadStep(x: Projectile, xs: seq<Projectile>, b: seq<Projectile>)
    requires x.y >= 0
    requires Airborne(xs + b) == Airborne(xs) + Airborne(b)
    ensures Airborne([x] + (xs + b)) == Airborne([x] + xs) + Airborne(b)
  {
    AirborneCons(x, xs);
    AirborneCons(x, xs + b);
    PrependAssoc(x, Airborne(xs), Airborne(b));
  }

  /** Prepending one element commutes with concatenation. */
  lemma PrependAssoc(x: Projectile, a: seq<Projectile>, b: seq<Projectile>)
    ensures [x] + (a + b) == ([x] + a) + b
  {
    assert |[x] + (a + b)| == |([x] + a) + b|;
    forall k | 0 <= k < |[x] + (a + b)|
      ensures ([x] + (a + b))[k] == (([x] + a) + b)[k]
    {
    }
  }

  /** The filter looks at the head of a sequence once and moves on. */
  lemma AirborneCons(p: Projectile, ps: seq<Projectile>)
    ensures Airborne([p] + ps) == if p.y < 0 then Airborne(ps) else [p] + Airborne(ps)
  {
    assert ([p] + ps)[0] == p;
    assert ([p] + ps)[1..] == ps;
  }

  /** Every ship takes its zig-zag step. */
  function MoveFleet(fleet: seq<Ship>): (r: seq<Ship>)
    ensures |r| == |fleet|
    ensures forall i :: 0 <= i < |fleet| ==> r[i] == fleet[i].Move()
  {
    seq(|fleet|, i requires 0 <= i < |fleet| => fleet[i].Move())
  }

  /** Moving ships drawn from fleet gives ships of fleet after their step. */
  lemma SteppedMembers(kept: seq<Ship>, fleet: seq<Ship>)
    requires forall k :: 0 <= k < |kept| ==> kept[k] in fleet
    ensures forall k :: 0 <= k < |MoveFleet(kept)| ==> MoveFleet(kept)[k] in MoveFleet(fleet)
  {
    var moved := MoveFleet(kept);
    forall k | 0 <= k < |moved|
      ensures moved[k] in MoveFleet(fleet)
    {
      var j :| 0 <= j < |fleet| && fleet[j] == kept[k];
      assert moved[k] == MoveFleet(fleet)[j];
    }
  }

  /** Projectiles drawn from the moved field projectiles are at most one step above the field. */
  lemma ClimbedShotsInField(ps: seq<Projectile>, shots: seq<Projectile>)
    requires forall k :: 0 <= k < |shots| ==> shots[k] in MoveAll(Airborne(ps))
    ensures forall k :: 0 <= k < |shots| ==> shots[k].y >= -ShotSpeed
  {
    var live := Airborne(ps);
    forall k | 0 <= k < |shots|
      ensures shots[k].y >= -ShotSpeed
    {
      var j :| 0 <= j < |live| && MoveAll(live)[j] == shots[k];
      assert live[j] in live;
    }
  }

  /** Some ship is past the fail line. */
  predicate Breached(fleet: seq<Ship>)
  {
    exists i :: 0 <= i < |fleet| && fleet[i].y > FailLine
  }

  /**
   * One timer tick. Once the game is over it changes nothing. Otherwise:
   * move the cannon, drop projectiles above the field, fly and collide the
   * rest, move the ships, then end the game on a breach or an empty fleet.
   */
  function TickState(s: State): (r: State)
    // a finished game is frozen
    ensures s.gameOver ==> r == s
    // game over is one-way, and set exactly on a breach or a cleared fleet
    ensures s.gameOver ==> r.gameOver
    ensures !s.gameOver ==> (r.gameOver <==> |r.ships| == 0 || Breached(r.ships))
    // score is tied to kills
    ensures r.score + KillBonus * |r.ships| == s.score + KillBonus * |s.ships|
    ensures r.score >= s.score
    ensures |r.ships| <= |s.ships|
    // each destroyed ship used up a projectile
    ensures |s.ships| - |r.ships| <= |s.projectiles| - |r.projectiles|
    ensures CannonInRange(s.cannonX) ==> CannonInRange(r.cannonX)
    ensures !s.gameOver ==> r.cannonX == MoveCannon(s.cannonX, s.left, s.right)
    // every projectile left after a live tick moved up from y >= 0
    ensures !s.gameOver ==> forall k :: 0 <= k < |r.projectiles| ==> r.projectiles[k].y >= -ShotSpeed
    // every ship left after a live tick is a ship of the fleet after its step
    ensures !s.gameOver ==> forall k :: 0 <= k < |r.ships| ==> r.ships[k] in MoveFleet(s.ships)
    ensures r.left == s.left && r.right == s.right
  {
    if s.gameOver then s
    else
      var x := MoveCannon(s.cannonX, s.left, s.right);
      var v := Volley(Airborne(s.projectiles), s.ships);
      var fleet := MoveFleet(v.fleet);
      SteppedMembers(v.fleet, s.ships);
      ClimbedShotsInField(s.projectiles, v.shots);
      State(x, s.score + KillBonus * v.kills, Breached(fleet) || |fleet| == 0,
            s.left, s.right, v.shots, fleet)
  }

  /** q is some projectile of ps that was inside the field (y >= 0), one step higher. */
  ghost predicate ClimbedFrom(q: Projectile, ps: seq<Projectile>)
  {
    exists j :: 0 <= j < |ps| && ps[j].y >= 0 && q == Projectile(ps[j].x, ps[j].y - ShotSpeed)
  }

  /**
   * Every projectile left after a live tick is a projectile that was inside
   * the field (y >= 0) at the start of the tick, moved up by exactly one step.
   */
  lemma TickProjectilesClimb(s: State)
    requires !s.gameOver
    ensures forall k :: 0 <= k < |TickState(s).projectiles| ==> ClimbedFrom(TickState(s).projectiles[k], s.projectiles)
  {
    var live := Airborne(s.projectiles);
    var shots := TickState(s).projectiles;
    assert shots == Volley(live, s.ships).shots;
    forall k | 0 <= k < |shots|
      ensures ClimbedFrom(shots[k], s.projectiles)
    {
      var m :| 0 <= m < |live| && MoveAll(live)[m] == shots[k];
      assert live[m] in live && live[m] in s.projectiles;
      var j :| 0 <= j < |s.projectiles| && s.projectiles[j] == live[m];
      assert s.projectiles[j].y >= 0;
      assert shots[k] == live[m].Move();
    }
  }

  /**
   * A lone projectile in the field that, after its step, overlaps ship i and
   * no ship before it: that projectile and exactly ship i are destroyed, the
   * score rises by exactly one bonus, and the other ships each take their step.
   */
  lemma TickSingleHit(s: State, i: nat)
    requires !s.gameOver && |s.projectiles| == 1 && s.projectiles[0].y >= 0
    requires i < |s.ships| && Hits(s.projectiles[0].Move(), s.ships[i])
    requires forall j :: 0 <= j < i ==> !Hits(s.projectiles[0].Move(), s.ships[j])
    ensures TickState(s).score == s.score + KillBonus
    ensures TickState(s).projectiles == []
    ensures |TickState(s).ships| == |s.ships| - 1
    ensures forall j :: 0 <= j < i ==> TickState(s).ships[j] == s.ships[j].Move()
    ensures forall j :: i <= j < |s.ships| - 1 ==> TickState(s).ships[j] == s.ships[j + 1].Move()
  {
    var p := s.projectiles[0];
    assert Airborne(s.projectiles) == [p];
    LoneShotHits(p, s.ships, i);
    var r := TickState(s);
    assert r.ships == MoveFleet(RemoveAt(s.ships, i));
    assert r.score == s.score + KillBonus;
  }

  /**
   * A lone projectile in the field that overlaps no ship after its step
   * survives, one step higher, and nothing is destroyed.
   */
  lemma TickSingleMiss(s: State)
    requires !s.gameOver && |s.projectiles| == 1 && s.projectiles[0].y >= 0
    requires forall j :: 0 <= j < |s.ships| ==> !Hits(s.projectiles[0].Move(), s.ships[j])
    ensures TickState(s).score == s.score
    ensures TickState(s).projectiles == [Projectile(s.projectiles[0].x, s.projectiles[0].y - ShotSpeed)]
    ensures |TickState(s).ships| == |s.ships|
  {
    var p := s.projectiles[0];
    assert Airborne(s.projectiles) == [p] by {
      assert s.projectiles == [p];
      AirborneLone(p);
    }
    assert AllMiss(Airborne(s.projectiles), s.ships) by {
      LoneShotAllMiss(p, s.ships);
    }
    TickAllMiss(s);
    LoneMove(p);
    assert TickState(s).projectiles == MoveAll([p]);
  }

  /** A lone projectile inside the field is kept. */
  lemma AirborneLone(p: Projectile)
    requires p.y >= 0
    ensures Airborne([p]) == [p]
  {
    assert [p][1..] == [];
  }

  /** Moving a lone projectile moves just that one. */
  lemma LoneMove(p: Projectile)
    ensures MoveAll([p]) == [Projectile(p.x, p.y - ShotSpeed)]
  {
  }

  /** A lone projectile that reaches no ship is a volley in which all miss. */
  lemma LoneShotAllMiss(p: Projectile, fleet: seq<Ship>)
    requires forall j :: 0 <= j < |fleet| ==> !Hits(p.Move(), fleet[j])
    ensures AllMiss([p], fleet)
  {
    forall a, b | 0 <= a < 1 && 0 <= b < |fleet|
      ensures !Hits([p][a].Move(), fleet[b])
    {
      assert [p][a] == p;
    }
  }

  /**
   * A live tick in which no projectile inside the field reaches any ship:
   * nothing is destroyed, every such projectile climbs one step in order, and
   * every ship, in its place, takes its zig-zag step.
   */
  lemma TickAllMiss(s: State)
    requires !s.gameOver && AllMiss(Airborne(s.projectiles), s.ships)
    ensures TickState(s).score == s.score
    ensures TickState(s).projectiles == MoveAll(Airborne(s.projectiles))
    ensures |TickState(s).ships| == |s.ships|
    ensures forall j :: 0 <= j < |s.ships| ==> TickState(s).ships[j] == s.ships[j].Move()
  {
    VolleyAllMiss(Airborne(s.projectiles), s.ships);
    assert TickState(s).ships == MoveFleet(s.ships);
  }

  /** Dropping the projectiles above the field a second time drops nothing more. */
  lemma {:induction false} AirborneIdempotent(ps: seq<Projectile>)
    ensures Airborne(Airborne(ps)) == Airborne(ps)
    decreases |ps|
  {
    if |ps| > 0 {
      AirborneCons(ps[0], ps[1..]);
      assert ps == [ps[0]] + ps[1..];
      AirborneIdempotent(ps[1..]);
      if ps[0].y >= 0 {
        AirborneCons(ps[0], Airborne(ps[1..]));
      }
    }
  }

  /**
   * Projectiles above the field take no part in a live tick: the tick gives
   * the same state when they are removed beforehand.
   */
  lemma TickIgnoresOffscreen(s: State)
    ensures !s.gameOver ==> TickState(s) == TickState(s.(projectiles := Airborne(s.projectiles)))
  {
    AirborneIdempotent(s.projectiles);
  }

  /**
   * Every ship of fleet that kept has fewer copies of was overlapped, after
   * its step, by some projectile of ps that was inside the field (y >= 0).
   */
  ghost predicate DownedInField(kept: seq<Ship>, fleet: seq<Ship>, ps: seq<Projectile>)
  {
    forall sh :: multiset(kept)[sh] < multiset(fleet)[sh] ==>
      exists p :: p in ps && p.y >= 0 && Hits(p.Move(), sh)
  }

  /**
   * The ships after a live tick are the ships the tick did not destroy, each
   * after its step and in their original order; every destroyed ship was
   * reached by a projectile that was inside the field.
   */
  lemma TickSurvivorsStep(s: State)
    requires !s.gameOver
    ensures exists kept :: Subsequence(kept, s.ships) && TickState(s).ships == MoveFleet(kept) &&
              DownedInField(kept, s.ships, s.projectiles)
  {
    var live := Airborne(s.projectiles);
    var kept := Volley(live, s.ships).fleet;
    VolleyKeepsOrder(live, s.ships);
    DestroyedShipsWereHit(live, s.ships);
    forall sh | multiset(kept)[sh] < multiset(s.ships)[sh]
      ensures exists p :: p in s.projectiles && p.y >= 0 && Hits(p.Move(), sh)
    {
      var a :| 0 <= a < |live| && Hits(live[a].Move(), sh);
      assert live[a] in live;
    }
    assert TickState(s).ships == MoveFleet(kept);
  }

  // ---------------------------------------------------------------- keys

  /** The new projectile a shot from cannon position x creates. */
  function Shot(x: int): (p: Projectile)
  {
    Projectile(x + MuzzleOffset, MuzzleY)
  }

  /**
   * The fire command: while the game is on, one projectile is appended under
   * the cannon's muzzle; nothing else changes.
   */
  function Fire(s: State): (r: State)
    ensures s.gameOver ==> r == s
    ensures !s.gameOver ==> |r.projectiles| == |s.projectiles| + 1
    ensures !s.gameOver ==> r.projectiles[..|s.projectiles|] == s.projectiles
    ensures !s.gameOver ==> r.projectiles[|s.projectiles|] == Projectile(s.cannonX + 23, 530)
    ensures r.(projectiles := s.projectiles) == s
  {
    if s.gameOver then s
    else s.(projectiles := s.projectiles + [Shot(s.cannonX)])
  }

  /** The part of the state that only the tick and fire change. */
  predicate SamePlay(s: State, t: State)
  {
    s.cannonX == t.cannonX && s.score == t.score && s.gameOver == t.gameOver &&
    s.projectiles == t.projectiles && s.ships == t.ships
  }

  /** A key going down: arrows set their held flag, space fires. */
  function Press(s: State, k: Key): (r: State)
    ensures k != Space ==> SamePlay(s, r)
    ensures k == Left ==> r.left && r.right == s.right
    ensures k == Right ==> r.right && r.left == s.left
    ensures k == Space ==> r == Fire(s)
    ensures k == Other ==> r == s
  {
    match k
    case Left => s.(left := true)
    case Right => s.(right := true)
    case Space => Fire(s)
    case Other => s
  }

  /** A key going up: arrows clear their held flag; other keys do nothing. */
  function Release(s: State, k: Key): (r: State)
    ensures SamePlay(s, r)
    ensures k == Left ==> !r.left && r.right == s.right
    ensures k == Right ==> !r.right && r.left == s.left
    ensures k == Space || k == Other ==> r == s
  {
    match k
    case Left => s.(left := false)
    case Right => s.(right := false)
    case _ => s
  }

  /** Pressing and releasing an arrow key that was up leaves no trace. */
  lemma PressReleaseRoundTrip(s: State, k: Key)
    requires k == Left || k == Right
    requires k == Left ==> !s.left
    requires k == Right ==> !s.right
    ensures Release(Press(s, k), k) == s
  {
  }

  // ---------------------------------------------------------------- runs

  /** Dispatches one host callback. */
  function Step(s: State, e: Event): (r: State)
  {
    match e
    case Tick => TickState(s)
    case KeyDown(k) => Press(s, k)
    case KeyUp(k) => Release(s, k)
  }

  /** The state after a sequence of callbacks, in order. */
  function Run(s: State, es: seq<Event>): (r: State)
    decreases |es|
  {
    if |es| == 0 then s else Run(Step(s, es[0]), es[1..])
  }
}
