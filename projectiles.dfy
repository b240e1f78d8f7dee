/** The fourth pass of the tick: spent projectiles are dropped, then each
    remaining projectile sweeps the segment it travels this tick, kills the
    first living entity along that segment, and moves to the segment's end. */
module Projectiles {
  import opened Optional
  import opened Geometry
  import opened Entities

  /** A projectile is still live while its squared speed exceeds the minimum. */
  predicate Live(p: Projectile, minSpeed: real) {
    LengthSquared(p.velocity) > minSpeed
  }

  /** The projectiles kept by the retain step, in their original order. */
  function Retain(ps: seq<Projectile>, minSpeed: real): (r: seq<Projectile>)
    ensures |r| <= |ps|
    ensures forall k :: 0 <= k < |r| ==> Live(r[k], minSpeed)
    decreases |ps|
  {
    if ps == [] then []
    else
      var rest := Retain(ps[..|ps| - 1], minSpeed);
      if Live(ps[|ps| - 1], minSpeed) then rest + [ps[|ps| - 1]] else rest
  }

  /** A projectile survives the retain step exactly when it is live. */
  lemma {:induction false} RetainKeepsExactlyLive(ps: seq<Projectile>, minSpeed: real, p: Projectile)
    ensures p in Retain(ps, minSpeed) <==> p in ps && Live(p, minSpeed)
    decreases |ps|
  {
    if ps != [] {
      var init := ps[..|ps| - 1];
      RetainKeepsExactlyLive(init, minSpeed, p);
      assert ps == init + [ps[|ps| - 1]];
    }
  }

  /** The retain step keeps the survivors' relative order: it distributes over
      concatenation. */
  lemma {:induction false} RetainKeepsOrder(a: seq<Projectile>, b: seq<Projectile>, minSpeed: real)
    ensures Retain(a + b, minSpeed) == Retain(a, minSpeed) + Retain(b, minSpeed)
    decreases |b|
  {
    if b != [] {
      var init := b[..|b| - 1];
      assert (a + b)[..|a + b| - 1] == a + init;
      RetainKeepsOrder(a, init, minSpeed);
    } else {
      assert a + b == a;
    }
  }

  /** Retaining twice is retaining once. */
  lemma {:induction false} RetainIdempotent(ps: seq<Projectile>, minSpeed: real)
    ensures Retain(Retain(ps, minSpeed), minSpeed) == Retain(ps, minSpeed)
    decreases |ps|
  {
    if ps != [] {
      var init := ps[..|ps| - 1];
      RetainIdempotent(init, minSpeed);
      var rest := Retain(init, minSpeed);
      if Live(ps[|ps| - 1], minSpeed) {
        assert (rest + [ps[|ps| - 1]])[..|rest|] == rest;
      }
    }
  }

  /** A projectile stopped by a hit has zero velocity, so with a non-negative
      minimum it is dropped on the next tick. */
  lemma StoppedIsSpent(p: Projectile, minSpeed: real)
    requires minSpeed >= 0.0 && p.velocity == Zero()
    ensures !Live(p, minSpeed)
  {
  }

  datatype Hit = Hit(time: real, index: nat)

  /** The time along `seg` at which the bounding circle of entity `k` is first
      entered, if it is. */
  function IntersectTime(es: seq<Entity>, seg: Segment2, k: nat, cfg: Config, kernel: Kernel): Option<real>
    requires k < |es|
  {
    kernel.minPositiveIntersectTime(seg, Circle(es[k].position, cfg.entityRadius))
  }

  /** The scan's candidate after the first `n` entities: the dead are skipped,
      and a later entity replaces the candidate only with a strictly earlier
      intersection time. */
  function FirstHitUpTo(es: seq<Entity>, seg: Segment2, cfg: Config, kernel: Kernel, n: nat): (r: Option<Hit>)
    requires n <= |es|
    ensures r.Some? ==>
              && r.value.index < n
              && es[r.value.index].behaviour != Dead
              && IntersectTime(es, seg, r.value.index, cfg, kernel) == Some(r.value.time)
    decreases n
  {
    if n == 0 then None
    else
      var r := FirstHitUpTo(es, seg, cfg, kernel, n - 1);
      if es[n - 1].behaviour == Dead then r
      else match (r, IntersectTime(es, seg, n - 1, cfg, kernel))
        case (None, Some(t)) => Some(Hit(t, n - 1))
        case (Some(h), Some(t)) => if t < h.time then Some(Hit(t, n - 1)) else r
        case _ => r
  }

  function FirstHit(es: seq<Entity>, seg: Segment2, cfg: Config, kernel: Kernel): Option<Hit> {
    FirstHitUpTo(es, seg, cfg, kernel, |es|)
  }

  /** Entity `m` is hit at time `t` among the first `n`, and no living entity
      among them is hit earlier, nor at the same time with a lower index. */
  ghost predicate IsFirstHit(es: seq<Entity>, seg: Segment2, cfg: Config, kernel: Kernel, n: nat, m: nat, t: real)
    requires n <= |es|
  {
    && m < n
    && es[m].behaviour != Dead
    && IntersectTime(es, seg, m, cfg, kernel) == Some(t)
    && (forall k :: 0 <= k < n && es[k].behaviour != Dead && IntersectTime(es, seg, k, cfg, kernel).Some? ==>
          t <= IntersectTime(es, seg, k, cfg, kernel).value)
    && (forall k :: 0 <= k < m && es[k].behaviour != Dead && IntersectTime(es, seg, k, cfg, kernel).Some? ==>
          t < IntersectTime(es, seg, k, cfg, kernel).value)
  }

  /** The scan finds no hit exactly when no living entity is crossed, and
      otherwise finds the living entity crossed earliest, the lowest index
      among those crossed at the same time. */
  lemma {:induction false} FirstHitIsEarliest(es: seq<Entity>, seg: Segment2, cfg: Config, kernel: Kernel, n: nat)
    requires n <= |es|
    ensures FirstHitUpTo(es, seg, cfg, kernel, n).None? <==>
              forall k :: 0 <= k < n && es[k].behaviour != Dead ==> IntersectTime(es, seg, k, cfg, kernel).None?
    ensures var r := FirstHitUpTo(es, seg, cfg, kernel, n);
            r.Some? ==> IsFirstHit(es, seg, cfg, kernel, n, r.value.index, r.value.time)
    decreases n
  {
    if n > 0 {
      FirstHitIsEarliest(es, seg, cfg, kernel, n - 1);
    }
  }

  /** The hit-selection loop. */
  method FindFirstHit(es: seq<Entity>, seg: Segment2, cfg: Config, kernel: Kernel) returns (hit: Option<Hit>)
    ensures hit == FirstHit(es, seg, cfg, kernel)
    ensures hit.None? <==>
              forall k :: 0 <= k < |es| && es[k].behaviour != Dead ==> IntersectTime(es, seg, k, cfg, kernel).None?
    ensures hit.Some? ==> IsFirstHit(es, seg, cfg, kernel, |es|, hit.value.index, hit.value.time)
  {
    var firstIntersectTimeAndIndex: Option<Hit> := None;
    for i := 0 to |es|
      invariant firstIntersectTimeAndIndex == FirstHitUpTo(es, seg, cfg, kernel, i)
    {
      if es[i].behaviour == Dead {
        continue;
      }
      var circle := Circle(es[i].position, cfg.entityRadius);
      var thisMinIntersection := kernel.minPositiveIntersectTime(seg, circle);
      match (firstIntersectTimeAndIndex, thisMinIntersection)
      case (None, Some(t)) =>
        firstIntersectTimeAndIndex := Some(Hit(t, i));
      case (Some(h), Some(t)) =>
        if t < h.time {
          firstIntersectTimeAndIndex := Some(Hit(t, i));
        }
      case _ =>
    }
    hit := firstIntersectTimeAndIndex;
    FirstHitIsEarliest(es, seg, cfg, kernel, |es|);
  }

  /** The segment a projectile sweeps in a tick of length `dt`. */
  function Sweep(p: Projectile, dt: real): Segment2 {
    Segment2(p.position, Add(p.position, Scale(dt, p.velocity)))
  }

  /** The treatment of projectile `q`: the first living entity along its sweep
      dies and the projectile stops; either way the projectile moves to the end
      of its sweep. */
  function ProjectileStep(w: World, q: nat, dt: real, cfg: Config, kernel: Kernel): (r: World)
    requires q < |w.projectiles|
    ensures |r.projectiles| == |w.projectiles| && r.rng == w.rng
    ensures forall k :: 0 <= k < |w.projectiles| && k != q ==> r.projectiles[k] == w.projectiles[k]
    ensures r.projectiles[q].position == Add(w.projectiles[q].position, Scale(dt, w.projectiles[q].velocity))
    ensures SamePositions(w.entities, r.entities)
    ensures AllEvolve(w.entities, r.entities)
    ensures forall k :: 0 <= k < |w.entities| && r.entities[k].behaviour.Cop? ==> r.entities[k] == w.entities[k]
    ensures match FirstHit(w.entities, Sweep(w.projectiles[q], dt), cfg, kernel)
            case None =>
              && r.entities == w.entities
              && r.projectiles[q].velocity == w.projectiles[q].velocity
              && r.sounds == w.sounds
            case Some(h) =>
              && r.entities == w.entities[h.index := w.entities[h.index].(behaviour := Dead)]
              && r.projectiles[q].velocity == Zero()
              && r.sounds == w.sounds + [ZombieDead]
  {
    var p := w.projectiles[q];
    var segment := Sweep(p, dt);
    match FirstHit(w.entities, segment, cfg, kernel)
    case None =>
      w.(projectiles := w.projectiles[q := p.(position := segment.p2)])
    case Some(h) =>
      World(w.entities[h.index := w.entities[h.index].(behaviour := Dead)],
            w.projectiles[q := Projectile(segment.p2, Zero())],
            w.rng,
            w.sounds + [ZombieDead])
  }

  /** A projectile that kills kills the living entity its sweep crosses first. */
  lemma ProjectileKillsFirstCrossed(w: World, q: nat, dt: real, cfg: Config, kernel: Kernel, m: nat)
    requires q < |w.projectiles| && m < |w.entities|
    requires w.entities[m].behaviour != Dead
    requires ProjectileStep(w, q, dt, cfg, kernel).entities[m].behaviour == Dead
    ensures exists t :: IsFirstHit(w.entities, Sweep(w.projectiles[q], dt), cfg, kernel, |w.entities|, m, t)
  {
    var seg := Sweep(w.projectiles[q], dt);
    FirstHitIsEarliest(w.entities, seg, cfg, kernel, |w.entities|);
    var h := FirstHit(w.entities, seg, cfg, kernel);
    assert h.Some? && h.value.index == m;
    assert IsFirstHit(w.entities, seg, cfg, kernel, |w.entities|, m, h.value.time);
  }

  /** The projectile loop over the first `n` projectiles. */
  function ProjectilesUpTo(w: World, n: nat, dt: real, cfg: Config, kernel: Kernel): (r: World)
    requires n <= |w.projectiles|
    ensures |r.projectiles| == |w.projectiles| && r.rng == w.rng
    ensures SamePositions(w.entities, r.entities)
    ensures AllEvolve(w.entities, r.entities)
    ensures forall k :: 0 <= k < |w.entities| && r.entities[k].behaviour.Cop? ==> r.entities[k] == w.entities[k]
    decreases n
  {
    if n == 0 then w
    else
      var prev := ProjectilesUpTo(w, n - 1, dt, cfg, kernel);
      var r := ProjectileStep(prev, n - 1, dt, cfg, kernel);
      AllEvolveTransitive(w.entities, prev.entities, r.entities);
      r
  }

  /** The whole fourth pass: retain, then the projectile loop. */
  function ProjectilePass(w: World, dt: real, cfg: Config, kernel: Kernel): (r: World)
    ensures |r.projectiles| == |Retain(w.projectiles, cfg.minProjectileSpeed)| && r.rng == w.rng
    ensures SamePositions(w.entities, r.entities)
    ensures AllEvolve(w.entities, r.entities)
    ensures WorldValid(w, cfg) ==> WorldValid(r, cfg)
  {
    var retained := w.(projectiles := Retain(w.projectiles, cfg.minProjectileSpeed));
    var r := ProjectilesUpTo(retained, |retained.projectiles|, dt, cfg, kernel);
    if WorldValid(w, cfg) then ValidAfterEvolve(w, r, cfg); r else r
  }
}
