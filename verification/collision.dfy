/**
 * The projectile phase of a tick: every live projectile climbs one step and
 * is then checked against the current fleet; on the first overlap, in fleet
 * order, both the projectile and that ship are destroyed.
 */
module Collision {

  import opened Options
  import opened Playfield
  import opened Geometry
  import opened Entities

  /** A projectile's box overlaps a ship's box. */
  predicate Hits(p: Projectile, s: Ship)
  {
    Intersects(p.Bounds(), s.Bounds())
  }

  /** Index of the first ship in fleet order that p hits, if any. */
  function FirstHit(p: Projectile, fleet: seq<Ship>): (r: Option<nat>)
    ensures r.Some? ==> r.value < |fleet| && Hits(p, fleet[r.value])
    ensures r.Some? ==> forall j :: 0 <= j < r.value ==> !Hits(p, fleet[j])
    ensures r.None? <==> forall j :: 0 <= j < |fleet| ==> !Hits(p, fleet[j])
  {
    if |fleet| == 0 then None
    else if Hits(p, fleet[0]) then Some(0)
    else
      match FirstHit(p, fleet[1..])
      case None => None
      case Some(i) => Some(i + 1)
  }

  /** The sequence without its i-th element; the others keep their order. */
  function RemoveAt<T>(s: seq<T>, i: nat): (r: seq<T>)
    requires i < |s|
    ensures |r| == |s| - 1
    ensures forall j :: 0 <= j < i ==> r[j] == s[j]
    ensures forall j :: i <= j < |r| ==> r[j] == s[j + 1]
    ensures multiset(r) + multiset{s[i]} == multiset(s)
  {
    assert s == s[..i] + [s[i]] + s[i + 1..];
    s[..i] + s[i + 1..]
  }

  /**
   * a is obtained from b by deleting some elements: the elements a keeps
   * appear in b in the same order.
   */
  ghost predicate Subsequence<T>(a: seq<T>, b: seq<T>)
    decreases |b|
  {
    if |b| == 0 then |a| == 0
    else (|a| > 0 && a[0] == b[0] && Subsequence(a[1..], b[1..])) || Subsequence(a, b[1..])
  }

  /** Every sequence is a subsequence of itself. */
  lemma {:induction false} SubsequenceRefl<T>(a: seq<T>)
    ensures Subsequence(a, a)
    decreases |a|
  {
    if |a| > 0 {
      SubsequenceRefl(a[1..]);
    }
  }

  /** Deleting elements twice is deleting elements once. */
  lemma {:induction false} SubsequenceTrans<T>(a: seq<T>, b: seq<T>, c: seq<T>)
    requires Subsequence(a, b) && Subsequence(b, c)
    ensures Subsequence(a, c)
    decreases |c|
  {
    if |c| > 0 {
      if Subsequence(b, c[1..]) {
        SubsequenceTrans(a, b, c[1..]);
      } else {
        assert |b| > 0 && b[0] == c[0] && Subsequence(b[1..], c[1..]);
        if |a| > 0 && a[0] == b[0] && Subsequence(a[1..], b[1..]) {
          SubsequenceTrans(a[1..], b[1..], c[1..]);
        } else {
          SubsequenceTrans(a, b[1..], c[1..]);
        }
      }
    }
  }

  /** Removing one element leaves a subsequence. */
  lemma {:induction false} RemoveAtSubsequence<T>(s: seq<T>, i: nat)
    requires i < |s|
    ensures Subsequence(RemoveAt(s, i), s)
    decreases i
  {
    if i == 0 {
      assert RemoveAt(s, 0) == s[1..];
      SubsequenceRefl(s[1..]);
    } else {
      assert RemoveAt(s, i)[1..] == RemoveAt(s[1..], i - 1);
      RemoveAtSubsequence(s[1..], i - 1);
    }
  }

  /** Every projectile moved one step, in order. */
  function MoveAll(ps: seq<Projectile>): (r: seq<Projectile>)
    ensures |r| == |ps|
  {
    seq(|ps|, i requires 0 <= i < |ps| => ps[i].Move())
  }

  /** What is left after the projectile phase, and how many ships it destroyed. */
  datatype Salvo = Salvo(shots: seq<Projectile>, fleet: seq<Ship>, kills: nat)

  /**
   * The projectile phase: shots are handled in list order; each one moves,
   * then either survives (no ship hit) or is removed together with the first
   * ship it hits. Later shots see the fleet without the ships already destroyed.
   */
  function Volley(shots: seq<Projectile>, fleet: seq<Ship>): (v: Salvo)
    decreases |shots|
    // each destroyed ship costs exactly one projectile
    ensures |v.shots| + v.kills == |shots|
    ensures |v.fleet| + v.kills == |fleet|
    // survivors are moved originals, remaining ships are untouched originals
    ensures multiset(v.shots) <= multiset(MoveAll(shots))
    ensures multiset(v.fleet) <= multiset(fleet)
    ensures forall k :: 0 <= k < |v.shots| ==> v.shots[k] in MoveAll(shots)
    ensures forall k :: 0 <= k < |v.fleet| ==> v.fleet[k] in fleet
  {
    if |shots| == 0 then Salvo([], fleet, 0)
    else
      var p := shots[0].Move();
      assert MoveAll(shots) == [p] + MoveAll(shots[1..]);
      match FirstHit(p, fleet)
      case None =>
        var rest := Volley(shots[1..], fleet);
        KeptShotInMoved(p, rest.shots, MoveAll(shots[1..]));
        Salvo([p] + rest.shots, rest.fleet, rest.kills)
      case Some(i) =>
        var rest := Volley(shots[1..], RemoveAt(fleet, i));
        SpentShotInMoved(p, rest.shots, MoveAll(shots[1..]));
        SubMultisetMembers(rest.fleet, RemoveAt(fleet, i), fleet);
        Salvo(rest.shots, rest.fleet, rest.kills + 1)
  }

  /** Dropping one element from the larger side keeps a sub-multiset one. */
  lemma SpentShotInMoved(p: Projectile, kept: seq<Projectile>, moved: seq<Projectile>)
    requires multiset(kept) <= multiset(moved)
    ensures multiset(kept) <= multiset([p] + moved)
    ensures forall k :: 0 <= k < |kept| ==> kept[k] in [p] + moved
  {
    assert multiset([p] + moved) == multiset{p} + multiset(moved);
    forall k | 0 <= k < |kept|
      ensures kept[k] in [p] + moved
    {
      assert kept[k] in multiset(kept);
    }
  }

  /** Elements of a sub-multiset of a sub-multiset of c are elements of c. */
  lemma SubMultisetMembers<T>(a: seq<T>, b: seq<T>, c: seq<T>)
    requires multiset(a) <= multiset(b) && multiset(b) <= multiset(c)
    ensures multiset(a) <= multiset(c)
    ensures forall k :: 0 <= k < |a| ==> a[k] in c
  {
    forall k | 0 <= k < |a|
      ensures a[k] in c
    {
      assert a[k] in multiset(a);
    }
  }

  /** Prepending the same element keeps a sub-multiset one, element by element. */
  lemma KeptShotInMoved(p: Projectile, kept: seq<Projectile>, moved: seq<Projectile>)
    requires multiset(kept) <= multiset(moved)
    ensures multiset([p] + kept) <= multiset([p] + moved)
    ensures forall k :: 0 <= k < |[p] + kept| ==> ([p] + kept)[k] in [p] + moved
  {
    forall k | 0 <= k < |[p] + kept|
      ensures ([p] + kept)[k] in [p] + moved
    {
      if k > 0 {
        var x := kept[k - 1];
        assert x in multiset(kept);
      }
    }
  }

  /**
   * Every ship the phase destroys (counted with multiplicity) is overlapped by
   * some projectile of the volley after its step.
   */
  lemma {:induction false} DestroyedShipsWereHit(shots: seq<Projectile>, fleet: seq<Ship>)
    ensures forall sh :: multiset(Volley(shots, fleet).fleet)[sh] < multiset(fleet)[sh] ==>
              exists a :: 0 <= a < |shots| && Hits(shots[a].Move(), sh)
    decreases |shots|
  {
    if |shots| > 0 {
      var p := shots[0].Move();
      var v := Volley(shots, fleet);
      match FirstHit(p, fleet)
      case None =>
        DestroyedShipsWereHit(shots[1..], fleet);
        assert v.fleet == Volley(shots[1..], fleet).fleet;
        forall sh | multiset(v.fleet)[sh] < multiset(fleet)[sh]
          ensures exists a :: 0 <= a < |shots| && Hits(shots[a].Move(), sh)
        {
          LaterShotHits(shots, sh);
        }
      case Some(i) =>
        var rest := RemoveAt(fleet, i);
        DestroyedShipsWereHit(shots[1..], rest);
        assert v.fleet == Volley(shots[1..], rest).fleet;
        forall sh | multiset(v.fleet)[sh] < multiset(fleet)[sh]
          ensures exists a :: 0 <= a < |shots| && Hits(shots[a].Move(), sh)
        {
          if sh == fleet[i] {
            assert Hits(shots[0].Move(), sh);
          } else {
            assert multiset(rest)[sh] == multiset(fleet)[sh];
            LaterShotHits(shots, sh);
          }
        }
    }
  }

  /** A hit by a projectile of shots[1..] is a hit by a projectile of shots. */
  lemma LaterShotHits(shots: seq<Projectile>, sh: Ship)
    requires |shots| > 0
    requires exists a :: 0 <= a < |shots[1..]| && Hits(shots[1..][a].Move(), sh)
    ensures exists a :: 0 <= a < |shots| && Hits(shots[a].Move(), sh)
  {
    var a :| 0 <= a < |shots[1..]| && Hits(shots[1..][a].Move(), sh);
    assert shots[1..][a] == shots[a + 1];
  }

  /**
   * Every projectile that kept has fewer copies of than moved overlaps some
   * ship of fleet: the projectiles missing from kept are accounted for by hits.
   */
  ghost predicate Accounted(kept: seq<Projectile>, moved: seq<Projectile>, fleet: seq<Ship>)
  {
    forall q :: multiset(kept)[q] < multiset(moved)[q] ==>
      exists b :: 0 <= b < |fleet| && Hits(q, fleet[b])
  }

  /**
   * Every projectile the phase destroys (counted with multiplicity among the
   * moved projectiles) overlaps some ship of the fleet the phase started with.
   */
  lemma {:induction false} DestroyedShotsHitAShip(shots: seq<Projectile>, fleet: seq<Ship>)
    ensures Accounted(Volley(shots, fleet).shots, MoveAll(shots), fleet)
    decreases |shots|
  {
    if |shots| > 0 {
      var p := shots[0].Move();
      var moved := MoveAll(shots[1..]);
      MoveAllCons(shots);
      match FirstHit(p, fleet)
      case None =>
        var rest := Volley(shots[1..], fleet);
        DestroyedShotsHitAShip(shots[1..], fleet);
        KeptShotStep(p, rest.shots, moved, fleet);
        assert Volley(shots, fleet).shots == [p] + rest.shots;
      case Some(i) =>
        var rest := Volley(shots[1..], RemoveAt(fleet, i));
        DestroyedShotsHitAShip(shots[1..], RemoveAt(fleet, i));
        SpentShotStep(p, rest.shots, moved, fleet, i);
        assert Volley(shots, fleet).shots == rest.shots;
    }
  }

  /** The induction step of DestroyedShotsHitAShip for a projectile that survives. */
  lemma KeptShotStep(p: Projectile, kept: seq<Projectile>, moved: seq<Projectile>, fleet: seq<Ship>)
    requires Accounted(kept, moved, fleet)
    ensures Accounted([p] + kept, [p] + moved, fleet)
  {
    forall q | multiset([p] + kept)[q] < multiset([p] + moved)[q]
      ensures exists b :: 0 <= b < |fleet| && Hits(q, fleet[b])
    {
      assert multiset([p] + kept)[q] == multiset([p])[q] + multiset(kept)[q];
      assert multiset([p] + moved)[q] == multiset([p])[q] + multiset(moved)[q];
    }
  }

  /** The induction step of DestroyedShotsHitAShip for a projectile that hits ship i. */
  lemma SpentShotStep(p: Projectile, kept: seq<Projectile>, moved: seq<Projectile>, fleet: seq<Ship>, i: nat)
    requires i < |fleet| && Hits(p, fleet[i])
    requires Accounted(kept, moved, RemoveAt(fleet, i))
    ensures Accounted(kept, [p] + moved, fleet)
  {
    forall q | multiset(kept)[q] < multiset([p] + moved)[q]
      ensures exists b :: 0 <= b < |fleet| && Hits(q, fleet[b])
    {
      if q == p {
        assert Hits(q, fleet[i]);
      } else {
        assert multiset([p] + moved)[q] == multiset([p])[q] + multiset(moved)[q];
        RemainingShipHit(fleet, i, q);
      }
    }
  }

  /** A hit on a ship of RemoveAt(fleet, i) is a hit on a ship of fleet. */
  lemma RemainingShipHit(fleet: seq<Ship>, i: nat, q: Projectile)
    requires i < |fleet|
    requires exists b :: 0 <= b < |RemoveAt(fleet, i)| && Hits(q, RemoveAt(fleet, i)[b])
    ensures exists b :: 0 <= b < |fleet| && Hits(q, fleet[b])
  {
    var rest := RemoveAt(fleet, i);
    var b :| 0 <= b < |rest| && Hits(q, rest[b]);
    if b < i {
      assert Hits(q, fleet[b]);
    } else {
      assert Hits(q, fleet[b + 1]);
    }
  }

  /**
   * A moved projectile that overlaps no ship of the fleet survives the phase:
   * it keeps its full count among the survivors.
   */
  lemma MissingShotsSurvive(shots: seq<Projectile>, fleet: seq<Ship>, q: Projectile)
    requires forall b :: 0 <= b < |fleet| ==> !Hits(q, fleet[b])
    ensures multiset(Volley(shots, fleet).shots)[q] == multiset(MoveAll(shots))[q]
  {
    DestroyedShotsHitAShip(shots, fleet);
    assert multiset(Volley(shots, fleet).shots)[q] <= multiset(MoveAll(shots))[q];
  }

  /**
   * A lone projectile whose step brings it onto ship i, and onto no ship
   * before it, is spent on exactly that ship.
   */
  lemma LoneShotHits(p: Projectile, fleet: seq<Ship>, i: nat)
    requires i < |fleet| && Hits(p.Move(), fleet[i])
    requires forall j :: 0 <= j < i ==> !Hits(p.Move(), fleet[j])
    ensures Volley([p], fleet) == Salvo([], RemoveAt(fleet, i), 1)
  {
    assert FirstHit(p.Move(), fleet) == Some(i);
    assert [p][1..] == [];
  }

  /**
   * The first projectile of any volley, if its step brings it onto ship i and
   * onto no ship before it, is spent on ship i; the rest of the volley then
   * runs against the fleet without that ship.
   */
  lemma HeadShotHits(shots: seq<Projectile>, fleet: seq<Ship>, i: nat)
    requires |shots| > 0 && i < |fleet| && Hits(shots[0].Move(), fleet[i])
    requires forall j :: 0 <= j < i ==> !Hits(shots[0].Move(), fleet[j])
    ensures Volley(shots, fleet) ==
              var rest := Volley(shots[1..], RemoveAt(fleet, i));
              Salvo(rest.shots, rest.fleet, rest.kills + 1)
  {
    assert FirstHit(shots[0].Move(), fleet) == Some(i);
  }

  /**
   * The first projectile of any volley, if its step brings it onto no ship,
   * survives at the front of the survivors; the rest of the volley runs
   * against the whole fleet.
   */
  lemma HeadShotMisses(shots: seq<Projectile>, fleet: seq<Ship>)
    requires |shots| > 0
    requires forall j :: 0 <= j < |fleet| ==> !Hits(shots[0].Move(), fleet[j])
    ensures Volley(shots, fleet) ==
              var rest := Volley(shots[1..], fleet);
              Salvo([shots[0].Move()] + rest.shots, rest.fleet, rest.kills)
  {
    assert FirstHit(shots[0].Move(), fleet).None?;
  }

  /**
   * The phase keeps order: the surviving projectiles are the moved
   * projectiles with some deleted, and the remaining ships are the fleet
   * with some deleted, each in its original order.
   */
  lemma {:induction false} VolleyKeepsOrder(shots: seq<Projectile>, fleet: seq<Ship>)
    ensures Subsequence(Volley(shots, fleet).shots, MoveAll(shots))
    ensures Subsequence(Volley(shots, fleet).fleet, fleet)
    decreases |shots|
  {
    if |shots| == 0 {
      SubsequenceRefl(fleet);
    } else {
      var p := shots[0].Move();
      var moved := MoveAll(shots);
      assert moved == [p] + MoveAll(shots[1..]);
      assert moved[1..] == MoveAll(shots[1..]);
      match FirstHit(p, fleet)
      case None =>
        VolleyKeepsOrder(shots[1..], fleet);
        var rest := Volley(shots[1..], fleet);
        assert Volley(shots, fleet).shots == [p] + rest.shots;
        assert ([p] + rest.shots)[1..] == rest.shots;
      case Some(i) =>
        VolleyKeepsOrder(shots[1..], RemoveAt(fleet, i));
        RemoveAtSubsequence(fleet, i);
        SubsequenceTrans(Volley(shots, fleet).fleet, RemoveAt(fleet, i), fleet);
    }
  }

  /**
   * When no moved projectile overlaps any ship, every projectile survives in
   * order, one step higher, and the fleet is left exactly as it was.
   */
  lemma {:induction false} VolleyAllMiss(shots: seq<Projectile>, fleet: seq<Ship>)
    requires AllMiss(shots, fleet)
    ensures Volley(shots, fleet) == Salvo(MoveAll(shots), fleet, 0)
    decreases |shots|
  {
    if |shots| > 0 {
      var p := shots[0].Move();
      assert forall j :: 0 <= j < |fleet| ==> !Hits(shots[0].Move(), fleet[j]);
      assert AllMiss(shots[1..], fleet) by {
        forall a, b | 0 <= a < |shots[1..]| && 0 <= b < |fleet|
          ensures !Hits(shots[1..][a].Move(), fleet[b])
        {
          assert shots[1..][a] == shots[a + 1];
        }
      }
      VolleyAllMiss(shots[1..], fleet);
      HeadShotMisses(shots, fleet);
      MoveAllCons(shots);
      assert Volley(shots, fleet) == Salvo([p] + MoveAll(shots[1..]), fleet, 0);
    }
  }

  /** Moving a non-empty list is moving its head, then the rest. */
  lemma MoveAllCons(shots: seq<Projectile>)
    requires |shots| > 0
    ensures MoveAll(shots) == [shots[0].Move()] + MoveAll(shots[1..])
  {
  }

  /** No projectile left in v overlaps a ship left in v. */
  predicate Settled(v: Salvo)
  {
    forall a, b :: 0 <= a < |v.shots| && 0 <= b < |v.fleet| ==> !Hits(v.shots[a], v.fleet[b])
  }

  /** No projectile that survives the phase overlaps a ship that survives it. */
  lemma {:induction false} SurvivorsMissRemainingShips(shots: seq<Projectile>, fleet: seq<Ship>)
    ensures Settled(Volley(shots, fleet))
    decreases |shots|
  {
    if |shots| > 0 {
      var p := shots[0].Move();
      match FirstHit(p, fleet)
      case None =>
        SurvivorsMissRemainingShips(shots[1..], fleet);
        var rest := Volley(shots[1..], fleet);
        var v := Volley(shots, fleet);
        assert v == Salvo([p] + rest.shots, rest.fleet, rest.kills);
        forall a, b | 0 <= a < |v.shots| && 0 <= b < |v.fleet|
          ensures !Hits(v.shots[a], v.fleet[b])
        {
          if a == 0 {
            var j :| 0 <= j < |fleet| && fleet[j] == rest.fleet[b];
            assert !Hits(p, fleet[j]);
            assert v.shots[0] == p;
          } else {
            assert v.shots[a] == rest.shots[a - 1];
            assert !Hits(rest.shots[a - 1], rest.fleet[b]);
          }
        }
      case Some(i) =>
        SurvivorsMissRemainingShips(shots[1..], RemoveAt(fleet, i));
    }
  }

  /** No projectile of shots, once moved, overlaps any ship of fleet. */
  predicate AllMiss(shots: seq<Projectile>, fleet: seq<Ship>)
  {
    forall a, b :: 0 <= a < |shots| && 0 <= b < |fleet| ==> !Hits(shots[a].Move(), fleet[b])
  }

  /**
   * Nothing is destroyed exactly when no moved projectile overlaps any ship
   * of the fleet as it stood at the start of the phase.
   */
  lemma {:induction false} NoKillsIffAllMiss(shots: seq<Projectile>, fleet: seq<Ship>)
    ensures Volley(shots, fleet).kills == 0 <==> AllMiss(shots, fleet)
    decreases |shots|
  {
    if |shots| > 0 {
      var p := shots[0].Move();
      NoKillsIffAllMiss(shots[1..], fleet);
      match FirstHit(p, fleet)
      case None =>
        if AllMiss(shots[1..], fleet) {
          forall a, b | 0 <= a < |shots| && 0 <= b < |fleet|
            ensures !Hits(shots[a].Move(), fleet[b])
          {
            if a > 0 {
              assert shots[a] == shots[1..][a - 1];
            }
          }
        }
        if AllMiss(shots, fleet) {
          forall a, b | 0 <= a < |shots[1..]| && 0 <= b < |fleet|
            ensures !Hits(shots[1..][a].Move(), fleet[b])
          {
            assert shots[1..][a] == shots[a + 1];
          }
        }
      case Some(i) =>
        assert Hits(shots[0].Move(), fleet[i]);
    }
  }
}
