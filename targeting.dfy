/** The nearest-entity scans of the behaviour pass: a civilian looks for the
    nearest zombie to flee, a zombie for the nearest human or cop to chase, an
    idle cop with ammunition for the nearest zombie to aim at. Each scan walks
    the entity list in index order and replaces its candidate only on a
    strictly smaller squared distance, so the lowest index wins ties. */
module Targeting {
  import opened Optional
  import opened Geometry
  import opened Entities

  /** Which behaviours a scan is looking for. */
  datatype Prey = Zombies | People

  predicate IsPrey(prey: Prey, b: Behaviour) {
    match prey
    case Zombies => b == Zombie
    case People => b == Human || b.Cop?
  }

  function DistanceSquared(es: seq<Entity>, from: Vector2, k: nat): real
    requires k < |es|
  {
    LengthSquared(Sub(es[k].position, from))
  }

  /** The candidate the scan holds after looking at the first `n` entities. */
  function NearestUpTo(es: seq<Entity>, from: Vector2, prey: Prey, n: nat): (r: Option<nat>)
    requires n <= |es|
    ensures r.Some? ==> r.value < n && IsPrey(prey, es[r.value].behaviour)
    decreases n
  {
    if n == 0 then None
    else
      var r := NearestUpTo(es, from, prey, n - 1);
      if !IsPrey(prey, es[n - 1].behaviour) then r
      else if r.None? then Some(n - 1)
      else if DistanceSquared(es, from, n - 1) < DistanceSquared(es, from, r.value) then Some(n - 1)
      else r
  }

  function Nearest(es: seq<Entity>, from: Vector2, prey: Prey): Option<nat> {
    NearestUpTo(es, from, prey, |es|)
  }

  /** `m` is a nearest prey among the first `n` entities, and no prey before it
      is as near. */
  ghost predicate IsNearest(es: seq<Entity>, from: Vector2, prey: Prey, n: nat, m: nat)
    requires n <= |es|
  {
    && m < n
    && IsPrey(prey, es[m].behaviour)
    && (forall k :: 0 <= k < n && IsPrey(prey, es[k].behaviour) ==>
          DistanceSquared(es, from, m) <= DistanceSquared(es, from, k))
    && (forall k :: 0 <= k < m && IsPrey(prey, es[k].behaviour) ==>
          DistanceSquared(es, from, m) < DistanceSquared(es, from, k))
  }

  /** The scan finds nothing exactly when there is no prey, and otherwise
      finds the nearest prey, the lowest index among equally near ones. */
  lemma {:induction false} NearestIsArgmin(es: seq<Entity>, from: Vector2, prey: Prey, n: nat)
    requires n <= |es|
    ensures NearestUpTo(es, from, prey, n).None? <==>
              forall k :: 0 <= k < n ==> !IsPrey(prey, es[k].behaviour)
    ensures NearestUpTo(es, from, prey, n).Some? ==>
              IsNearest(es, from, prey, n, NearestUpTo(es, from, prey, n).value)
  {
    if n > 0 {
      NearestIsArgmin(es, from, prey, n - 1);
    }
  }

  /** At most one index is a nearest prey in that sense. */
  lemma NearestUnique(es: seq<Entity>, from: Vector2, prey: Prey, n: nat, m1: nat, m2: nat)
    requires n <= |es|
    requires IsNearest(es, from, prey, n, m1) && IsNearest(es, from, prey, n, m2)
    ensures m1 == m2
  {
  }

  /** The scan's result is characterised by `IsNearest` in both directions. */
  lemma NearestCharacterized(es: seq<Entity>, from: Vector2, prey: Prey, m: nat)
    ensures Nearest(es, from, prey) == Some(m) <==> IsNearest(es, from, prey, |es|, m)
  {
    NearestIsArgmin(es, from, prey, |es|);
    var r := Nearest(es, from, prey);
    if IsNearest(es, from, prey, |es|, m) {
      assert r.Some?;
      NearestUnique(es, from, prey, |es|, m, r.value);
    }
  }

  /** The scan loop: the candidate index and its squared distance, with no
      distance at all standing for the source's infinite initial value. */
  method FindNearest(es: seq<Entity>, from: Vector2, prey: Prey) returns (nearest: Option<nat>)
    ensures nearest == Nearest(es, from, prey)
    ensures nearest.None? <==> forall k :: 0 <= k < |es| ==> !IsPrey(prey, es[k].behaviour)
    ensures nearest.Some? ==> IsNearest(es, from, prey, |es|, nearest.value)
  {
    var minIndex: nat := 0;
    var minDistanceSqr: Option<real> := None;
    for i := 0 to |es|
      invariant minDistanceSqr.None? <==> NearestUpTo(es, from, prey, i).None?
      invariant minDistanceSqr.Some? ==>
                  && NearestUpTo(es, from, prey, i) == Some(minIndex)
                  && minIndex < |es|
                  && minDistanceSqr.value == DistanceSquared(es, from, minIndex)
    {
      if IsPrey(prey, es[i].behaviour) {
        var distanceSqr := LengthSquared(Sub(es[i].position, from));
        if minDistanceSqr.None? || distanceSqr < minDistanceSqr.value {
          minIndex := i;
          minDistanceSqr := Some(distanceSqr);
        }
      }
    }
    nearest := if minDistanceSqr.Some? then Some(minIndex) else None;
    NearestIsArgmin(es, from, prey, |es|);
  }
}
