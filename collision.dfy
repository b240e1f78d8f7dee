/** The second pass of the tick: every unordered pair of entities `i < j`,
    taken in lexicographic order, is checked once for overlap; an overlapping
    pair spreads the infection and is pushed apart. */
module Collision {
  import opened Geometry
  import opened Entities

  /** `victim` catches the infection from `other`: a civilian or a cop that
      touches a zombie. */
  predicate Infects(victim: Behaviour, other: Behaviour) {
    (victim == Human || victim.Cop?) && other == Zombie
  }

  /** No cop's payload changes, though a cop may stop being a cop. */
  predicate CopsKeepPayload(es: seq<Entity>, es': seq<Entity>) {
    |es'| == |es| && forall k :: 0 <= k < |es'| && es'[k].behaviour.Cop? ==> es'[k].behaviour == es[k].behaviour
  }

  /** The collision response for the pair `i`, `j` whose positions differ by
      `delta`, with squared length `dsq`. */
  function CollisionResponse(w: World, i: nat, j: nat, delta: Vector2, dsq: real, dt: real): (r: World)
    requires i < j < |w.entities|
    requires dsq > 0.0
    ensures |r.entities| == |w.entities|
    ensures forall k :: 0 <= k < |w.entities| && k != i && k != j ==> r.entities[k] == w.entities[k]
    ensures SamePositions(w.entities, r.entities)
    ensures var bi, bj := w.entities[i].behaviour, w.entities[j].behaviour;
            && (Infects(bi, bj) ==> r.entities[i].behaviour == Zombie && r.entities[j].behaviour == bj)
            && (Infects(bj, bi) ==> r.entities[j].behaviour == Zombie && r.entities[i].behaviour == bi)
            && (!Infects(bi, bj) && !Infects(bj, bi) ==>
                  r.entities[i].behaviour == bi && r.entities[j].behaviour == bj)
            && r.sounds == w.sounds + (if Infects(bi, bj) || Infects(bj, bi) then [PersonInfected] else [])
    ensures r.entities[i].velocity == Sub(w.entities[i].velocity, Scale(dt / dsq, delta))
    ensures r.entities[j].velocity == Add(w.entities[j].velocity, Scale(dt / dsq, delta))
    ensures Add(r.entities[i].velocity, r.entities[j].velocity) == Add(w.entities[i].velocity, w.entities[j].velocity)
    ensures r.entities[i].facing == w.entities[i].facing && r.entities[j].facing == w.entities[j].facing
    ensures r.projectiles == w.projectiles && r.rng == w.rng
    ensures AllEvolve(w.entities, r.entities) && CopsKeepPayload(w.entities, r.entities)
  {
    var ei, ej := w.entities[i], w.entities[j];
    var infected :=
      if Infects(ei.behaviour, ej.behaviour) then
        World(w.entities[i := ei.(behaviour := Zombie)], w.projectiles, w.rng, w.sounds + [PersonInfected])
      else if Infects(ej.behaviour, ei.behaviour) then
        World(w.entities[j := ej.(behaviour := Zombie)], w.projectiles, w.rng, w.sounds + [PersonInfected])
      else w;
    var velocityChange := Scale(dt / dsq, delta);
    var ei', ej' := infected.entities[i], infected.entities[j];
    var es := infected.entities[i := ei'.(velocity := Sub(ei'.velocity, velocityChange))];
    var es' := es[j := ej'.(velocity := Add(ej'.velocity, velocityChange))];
    infected.(entities := es')
  }

  /** Whether the pair is close enough to collide: closer than two radii. */
  predicate Overlapping(es: seq<Entity>, i: nat, j: nat, cfg: Config)
    requires i < |es| && j < |es|
  {
    LengthSquared(Sub(es[j].position, es[i].position)) < 4.0 * cfg.entityRadius * cfg.entityRadius
  }

  /** The pass's treatment of one pair: the collision response exactly when the
      pair overlaps. */
  function CollidePair(w: World, i: nat, j: nat, dt: real, cfg: Config): (r: World)
    requires i < j < |w.entities|
    requires Separated(w.entities)
    ensures Apart(w.entities, i, j)
    ensures Overlapping(w.entities, i, j, cfg) ==>
              r == CollisionResponse(w, i, j, Sub(w.entities[j].position, w.entities[i].position),
                                   LengthSquared(Sub(w.entities[j].position, w.entities[i].position)), dt)
    ensures !Overlapping(w.entities, i, j, cfg) ==> r == w
  {
    var delta := Sub(w.entities[j].position, w.entities[i].position);
    var deltaLengthSquared := LengthSquared(delta);
    assert Apart(w.entities, i, j);
    if deltaLengthSquared < 4.0 * cfg.entityRadius * cfg.entityRadius then
      CollisionResponse(w, i, j, delta, deltaLengthSquared, dt)
    else w
  }

  /** The pairs `(i, lo)`, ..., `(i, hi - 1)`: the inner loop for row `i`. */
  function Row(i: nat, lo: nat, hi: nat): seq<(nat, nat)>
    decreases hi
  {
    if hi <= lo then [] else Row(i, lo, hi - 1) + [(i, hi - 1)]
  }

  /** The pairs the nested loops visit for the first `i` rows, in order. */
  function PairsBelow(n: nat, i: nat): seq<(nat, nat)>
    decreases i
  {
    if i == 0 then [] else PairsBelow(n, i - 1) + Row(i - 1, i, n)
  }

  function AllPairs(n: nat): seq<(nat, nat)> {
    PairsBelow(n, n)
  }

  predicate Before(p: (nat, nat), q: (nat, nat)) {
    p.0 < q.0 || (p.0 == q.0 && p.1 < q.1)
  }

  lemma {:induction false} RowIsRange(i: nat, lo: nat, hi: nat)
    requires lo <= hi
    ensures |Row(i, lo, hi)| == hi - lo
    ensures forall x :: 0 <= x < hi - lo ==> Row(i, lo, hi)[x] == (i, lo + x)
    decreases hi
  {
    if hi > lo {
      RowIsRange(i, lo, hi - 1);
    }
  }

  /** The pairs visited for the first `i` rows are exactly those `(a, b)` with
      `a < i` and `a < b < n`. */
  lemma {:induction false} PairsBelowMembers(n: nat, i: nat)
    requires i <= n
    ensures forall a: nat, b: nat :: (a, b) in PairsBelow(n, i) <==> a < i && a < b < n
    decreases i
  {
    if i > 0 {
      var k: nat := i - 1;
      PairsBelowMembers(n, k);
      RowIsRange(k, i, n);
      var prev, row := PairsBelow(n, k), Row(k, i, n);
      assert PairsBelow(n, i) == prev + row;
      forall a: nat, b: nat
        ensures (a, b) in prev + row <==> a < i && a < b < n
      {
        if (a, b) in row {
          var x :| 0 <= x < |row| && row[x] == (a, b);
        }
        if a == k && a < b < n {
          assert row[b - i] == (a, b);
        }
      }
    }
  }

  /** The pairs visited for the first `i` rows come in strictly increasing
      lexicographic order. */
  lemma {:induction false} PairsBelowOrdered(n: nat, i: nat)
    requires i <= n
    ensures forall x, y :: 0 <= x < y < |PairsBelow(n, i)| ==> Before(PairsBelow(n, i)[x], PairsBelow(n, i)[y])
    decreases i
  {
    if i > 0 {
      var k: nat := i - 1;
      PairsBelowOrdered(n, k);
      PairsBelowMembers(n, k);
      RowIsRange(k, i, n);
      var prev, row := PairsBelow(n, k), Row(k, i, n);
      var ps := prev + row;
      assert PairsBelow(n, i) == ps;
      forall x, y | 0 <= x < y < |ps|
        ensures Before(ps[x], ps[y])
      {
        if y >= |prev| && x < |prev| {
          assert prev[x] in prev;
        }
      }
    }
  }

  /** The pairs visited for the first `i` rows are exactly those `(a, b)` with
      `a < i` and `a < b < n`, in strictly increasing lexicographic order. */
  lemma PairsBelowExact(n: nat, i: nat)
    requires i <= n
    ensures forall a: nat, b: nat :: (a, b) in PairsBelow(n, i) <==> a < i && a < b < n
    ensures forall x, y :: 0 <= x < y < |PairsBelow(n, i)| ==> Before(PairsBelow(n, i)[x], PairsBelow(n, i)[y])
  {
    PairsBelowMembers(n, i);
    PairsBelowOrdered(n, i);
  }

  /** The collision pass visits every unordered pair of the `n` entities once:
      the pairs it visits are exactly the `(i, j)` with `i < j < n`, and none
      is visited twice. */
  lemma AllPairsOnce(n: nat)
    ensures forall i: nat, j: nat :: (i, j) in AllPairs(n) <==> i < j < n
    ensures forall x, y :: 0 <= x < y < |AllPairs(n)| ==> AllPairs(n)[x] != AllPairs(n)[y]
  {
    PairsBelowExact(n, n);
  }

  lemma SeparatedKept(es: seq<Entity>, es': seq<Entity>)
    requires Separated(es) && SamePositions(es, es')
    ensures Separated(es')
  {
    forall a, b | 0 <= a < b < |es'|
      ensures Apart(es', a, b)
    {
      assert Apart(es, a, b);
      assert es'[a].position == es[a].position && es'[b].position == es[b].position;
    }
  }

  /** Row `i` of the pass: the pairs of `Row(i, i + 1, j)`, that is `(i, i + 1)`,
      ..., `(i, j - 1)`, in order, starting from `w`. */
  function RowAlong(w: World, i: nat, j: nat, dt: real, cfg: Config): (r: World)
    requires i < |w.entities| && j <= |w.entities|
    requires Separated(w.entities)
    ensures SamePositions(w.entities, r.entities)
    ensures AllEvolve(w.entities, r.entities) && CopsKeepPayload(w.entities, r.entities)
    ensures r.projectiles == w.projectiles && r.rng == w.rng
    decreases j
  {
    if j <= i + 1 then w
    else
      var prev := RowAlong(w, i, j - 1, dt, cfg);
      SeparatedKept(w.entities, prev.entities);
      var r := CollidePair(prev, i, j - 1, dt, cfg);
      AllEvolveTransitive(w.entities, prev.entities, r.entities);
      r
  }

  /** The first `i` rows of the pass: the pairs of `PairsBelow(n, i)`, in
      order. */
  function RowsUpTo(w: World, i: nat, dt: real, cfg: Config): (r: World)
    requires i <= |w.entities|
    requires Separated(w.entities)
    ensures SamePositions(w.entities, r.entities)
    ensures AllEvolve(w.entities, r.entities) && CopsKeepPayload(w.entities, r.entities)
    ensures r.projectiles == w.projectiles && r.rng == w.rng
    decreases i
  {
    if i == 0 then w
    else
      var prev := RowsUpTo(w, i - 1, dt, cfg);
      SeparatedKept(w.entities, prev.entities);
      var r := RowAlong(prev, i - 1, |w.entities|, dt, cfg);
      AllEvolveTransitive(w.entities, prev.entities, r.entities);
      r
  }

  /** One more row of the pass: row `i` applied after the first `i`. */
  lemma RowsUpToNext(w: World, i: nat, dt: real, cfg: Config)
    requires i < |w.entities|
    requires Separated(w.entities)
    ensures var prev := RowsUpTo(w, i, dt, cfg);
            && Separated(prev.entities) && |prev.entities| == |w.entities|
            && RowsUpTo(w, i + 1, dt, cfg) == RowAlong(prev, i, |w.entities|, dt, cfg)
  {
    SeparatedKept(w.entities, RowsUpTo(w, i, dt, cfg).entities);
  }

  /** The whole second pass. */
  function CollisionPass(w: World, dt: real, cfg: Config): (r: World)
    requires Separated(w.entities)
    ensures SamePositions(w.entities, r.entities)
    ensures AllEvolve(w.entities, r.entities) && CopsKeepPayload(w.entities, r.entities)
    ensures r.projectiles == w.projectiles && r.rng == w.rng
  {
    RowsUpTo(w, |w.entities|, dt, cfg)
  }

  /** The collision pass keeps the cop invariant: no cop's payload changes,
      and a target that was a zombie or a corpse is still one. */
  lemma CollisionPassKeepsValid(w: World, dt: real, cfg: Config)
    requires Separated(w.entities) && WorldValid(w, cfg)
    ensures WorldValid(CollisionPass(w, dt, cfg), cfg)
  {
    ValidAfterEvolve(w, CollisionPass(w, dt, cfg), cfg);
  }

  /** The pass's treatment of the pairs `ps`, one after the other, in order.
      A pair that does not name two entities `i < j` of the list is passed
      over; the lists the loops visit have none. */
  function ApplyPairs(w: World, ps: seq<(nat, nat)>, dt: real, cfg: Config): (r: World)
    requires Separated(w.entities)
    ensures SamePositions(w.entities, r.entities)
    decreases |ps|
  {
    if ps == [] then w
    else
      var prev := ApplyPairs(w, ps[..|ps| - 1], dt, cfg);
      var (i, j) := ps[|ps| - 1];
      if i < j < |prev.entities| then
        SeparatedKept(w.entities, prev.entities);
        CollidePair(prev, i, j, dt, cfg)
      else prev
  }

  /** Applying `ps + qs` is applying `ps`, then `qs`. */
  lemma {:induction false} ApplyPairsAppend(w: World, ps: seq<(nat, nat)>, qs: seq<(nat, nat)>, dt: real, cfg: Config)
    requires Separated(w.entities)
    ensures var mid := ApplyPairs(w, ps, dt, cfg);
            Separated(mid.entities) && ApplyPairs(w, ps + qs, dt, cfg) == ApplyPairs(mid, qs, dt, cfg)
    decreases |qs|
  {
    var mid := ApplyPairs(w, ps, dt, cfg);
    SeparatedKept(w.entities, mid.entities);
    if qs != [] {
      var qs' := qs[..|qs| - 1];
      assert (ps + qs)[..|ps + qs| - 1] == ps + qs';
      ApplyPairsAppend(w, ps, qs', dt, cfg);
    } else {
      assert ps + qs == ps;
    }
  }

  /** Row `i` of the pass applies exactly the pairs of `Row(i, i + 1, j)`. */
  lemma {:induction false} RowAlongAppliesRow(w: World, i: nat, j: nat, dt: real, cfg: Config)
    requires i < j <= |w.entities|
    requires Separated(w.entities)
    ensures RowAlong(w, i, j, dt, cfg) == ApplyPairs(w, Row(i, i + 1, j), dt, cfg)
    decreases j
  {
    if j > i + 1 {
      var k: nat := j - 1;
      var ps, init := Row(i, i + 1, j), Row(i, i + 1, k);
      assert ps[..|ps| - 1] == init by {
        assert ps == init + [(i, k)];
      }
      RowAlongAppliesRow(w, i, k, dt, cfg);
      var prev := RowAlong(w, i, k, dt, cfg);
      SeparatedKept(w.entities, prev.entities);
      assert RowAlong(w, i, j, dt, cfg) == CollidePair(prev, i, k, dt, cfg);
      assert ApplyPairs(w, ps, dt, cfg) == CollidePair(prev, i, k, dt, cfg);
    }
  }

  /** The first `i` rows of the pass apply exactly the pairs of
      `PairsBelow(n, i)`, in that order. */
  lemma {:induction false} RowsUpToAppliesPairsBelow(w: World, i: nat, dt: real, cfg: Config)
    requires i <= |w.entities|
    requires Separated(w.entities)
    ensures RowsUpTo(w, i, dt, cfg) == ApplyPairs(w, PairsBelow(|w.entities|, i), dt, cfg)
    decreases i
  {
    if i > 0 {
      var n := |w.entities|;
      var k: nat := i - 1;
      RowsUpToAppliesPairsBelow(w, k, dt, cfg);
      var prev := RowsUpTo(w, k, dt, cfg);
      SeparatedKept(w.entities, prev.entities);
      RowAlongAppliesRow(prev, k, n, dt, cfg);
      ApplyPairsAppend(w, PairsBelow(n, k), Row(k, i, n), dt, cfg);
    }
  }

  /** The collision pass applies `CollidePair` to every unordered pair
      `i < j < n` once, in lexicographic order, and to nothing else. */
  lemma CollisionPassVisitsEachPairOnce(w: World, dt: real, cfg: Config)
    requires Separated(w.entities)
    ensures var ps := AllPairs(|w.entities|);
            && (forall i: nat, j: nat :: (i, j) in ps <==> i < j < |w.entities|)
            && (forall x, y :: 0 <= x < y < |ps| ==> Before(ps[x], ps[y]))
            && CollisionPass(w, dt, cfg) == ApplyPairs(w, ps, dt, cfg)
  {
    PairsBelowExact(|w.entities|, |w.entities|);
    RowsUpToAppliesPairsBelow(w, |w.entities|, dt, cfg);
  }
}
