/** The whole tick as a function of the world: behaviours, collisions,
    integration, projectiles, strictly in that order, each pass finishing
    before the next begins. */
module Tick {
  import opened Geometry
  import opened Entities
  import opened Behaviours
  import opened Collision
  import opened Projectiles

  /** Integration of one entity: it moves by its velocity times `dt`, and then
      loses half of that displacement from its velocity. */
  function Integrated(e: Entity, dt: real): Entity {
    var displacement := Scale(dt, e.velocity);
    e.(position := Add(e.position, displacement), velocity := Sub(e.velocity, Scale(0.5, displacement)))
  }

  /** The integration pass over every entity, the dead included. The position
      moves by the velocity from before the damping, and the velocity is scaled
      by `1 - dt/2`; nothing else about an entity changes. */
  function Integrate(es: seq<Entity>, dt: real): (r: seq<Entity>)
    ensures |r| == |es|
    ensures forall k :: 0 <= k < |es| ==>
              && r[k].position == Add(es[k].position, Scale(dt, es[k].velocity))
              && r[k].velocity == Scale(1.0 - 0.5 * dt, es[k].velocity)
              && r[k].facing == es[k].facing
              && r[k].behaviour == es[k].behaviour
  {
    seq(|es|, k requires 0 <= k < |es| => Integrated(es[k], dt))
  }

  /** The integration pass as a step of the world. */
  function IntegrationPass(w: World, dt: real): World {
    w.(entities := Integrate(w.entities, dt))
  }

  /** One tick. The source divides by the squared distance of every
      overlapping pair, so no two entities may share a position. */
  function Tick(w: World, dt: real, cfg: Config, kernel: Kernel, rnd: Random): (r: World)
    requires WorldValid(w, cfg)
    requires Separated(w.entities)
    ensures |r.entities| == |w.entities|
    ensures AllEvolve(w.entities, r.entities)
    ensures WorldValid(r, cfg)
  {
    var w1 := BehaviourPass(w, dt, cfg, kernel, rnd);
    SeparatedKept(w.entities, w1.entities);
    var w2 := CollisionPass(w1, dt, cfg);
    CollisionPassKeepsValid(w1, dt, cfg);
    var w3 := IntegrationPass(w2, dt);
    ValidAfterEvolve(w2, w3, cfg);
    var r := ProjectilePass(w3, dt, cfg, kernel);
    AllEvolveTransitive(w.entities, w1.entities, w2.entities);
    AllEvolveTransitive(w.entities, w2.entities, w3.entities);
    AllEvolveTransitive(w.entities, w3.entities, r.entities);
    r
  }

  /** After a tick the entity list has the same length, the dead are still
      dead, a zombie is still a zombie or is dead, and no civilian has become
      a cop nor a cop a civilian. */
  lemma TickKeepsStatusLattice(w: World, dt: real, cfg: Config, kernel: Kernel, rnd: Random)
    requires WorldValid(w, cfg) && Separated(w.entities)
    ensures var r := Tick(w, dt, cfg, kernel, rnd);
            && |r.entities| == |w.entities|
            && (forall k :: 0 <= k < |w.entities| && w.entities[k].behaviour == Dead ==>
                  r.entities[k].behaviour == Dead)
            && (forall k :: 0 <= k < |w.entities| && w.entities[k].behaviour == Zombie ==>
                  r.entities[k].behaviour in {Zombie, Dead})
            && (forall k :: 0 <= k < |w.entities| && w.entities[k].behaviour == Human ==>
                  !r.entities[k].behaviour.Cop?)
            && (forall k :: 0 <= k < |w.entities| && w.entities[k].behaviour.Cop? ==>
                  r.entities[k].behaviour != Human)
  {
    AllEvolveKeepsLattice(w.entities, Tick(w, dt, cfg, kernel, rnd).entities);
  }

  /** After a tick every cop still has between zero and a full magazine of
      rounds, and every aiming cop has a round to fire and aims at an index
      inside the entity list that holds a zombie or a corpse. */
  lemma TickKeepsCopsInBounds(w: World, dt: real, cfg: Config, kernel: Kernel, rnd: Random)
    requires WorldValid(w, cfg) && Separated(w.entities)
    ensures var r := Tick(w, dt, cfg, kernel, rnd);
            forall k :: 0 <= k < |r.entities| && r.entities[k].behaviour.Cop? ==>
              var b := r.entities[k].behaviour;
              && 0 <= b.roundsInMagazine <= cfg.copMagazineCapacity
              && (b.state.Aiming? ==>
                    && b.roundsInMagazine > 0
                    && b.state.targetIndex < |r.entities|
                    && KindOf(r.entities[b.state.targetIndex].behaviour) in {ZombieKind, DeadKind})
  {
    var r := Tick(w, dt, cfg, kernel, rnd);
    forall k | 0 <= k < |r.entities| && r.entities[k].behaviour.Cop?
      ensures CopOk(r.entities, r.entities[k].behaviour, cfg.copMagazineCapacity)
    {
      assert CopOk(r.entities, r.entities[k].behaviour, cfg.copMagazineCapacity);
    }
  }

  /** The number of entities whose kind is at least `level` high in the
      status lattice. */
  function CountAtLeast(es: seq<Entity>, level: nat): nat
    decreases |es|
  {
    if es == [] then 0
    else CountAtLeast(es[..|es| - 1], level) + (if Rank(KindOf(es[|es| - 1].behaviour)) >= level then 1 else 0)
  }

  /** No step that only evolves behaviours lowers the number of entities at or
      above any level: the infected-or-dead never become fewer, nor do the
      dead. */
  lemma {:induction false} EvolveNeverLowersCounts(es: seq<Entity>, es': seq<Entity>, level: nat)
    requires AllEvolve(es, es')
    ensures CountAtLeast(es', level) >= CountAtLeast(es, level)
    decreases |es|
  {
    if es != [] {
      var n := |es| - 1;
      assert AllEvolve(es[..n], es'[..n]) by {
        forall k | 0 <= k < n
          ensures Evolves(es[..n][k].behaviour, es'[..n][k].behaviour)
        {
          assert Evolves(es[k].behaviour, es'[k].behaviour);
        }
      }
      EvolveNeverLowersCounts(es[..n], es'[..n], level);
      assert Evolves(es[n].behaviour, es'[n].behaviour);
    }
  }

  /** Over one tick the number of zombies and corpses together never goes
      down, and neither does the number of corpses. */
  lemma TickNeverCures(w: World, dt: real, cfg: Config, kernel: Kernel, rnd: Random)
    requires WorldValid(w, cfg) && Separated(w.entities)
    ensures var r := Tick(w, dt, cfg, kernel, rnd);
            && CountAtLeast(r.entities, Rank(ZombieKind)) >= CountAtLeast(w.entities, Rank(ZombieKind))
            && CountAtLeast(r.entities, Rank(DeadKind)) >= CountAtLeast(w.entities, Rank(DeadKind))
  {
    var r := Tick(w, dt, cfg, kernel, rnd);
    EvolveNeverLowersCounts(w.entities, r.entities, Rank(ZombieKind));
    EvolveNeverLowersCounts(w.entities, r.entities, Rank(DeadKind));
  }
}
