/** The first pass of the tick: every entity acts in index order according to
    its behaviour. Civilians steer away from the nearest zombie, zombies steer
    towards the nearest human or cop, cops take their state machine's turn and
    the dead do nothing. Positions do not change in this pass. */
module Behaviours {
  import opened Optional
  import opened Geometry
  import opened Entities
  import opened Targeting
  import opened CopMachine

  /** A civilian's turn: accelerate directly away from the nearest zombie. */
  function HumanStep(es: seq<Entity>, index: nat, dt: real, kernel: Kernel): (r: seq<Entity>)
    requires index < |es|
    ensures |r| == |es|
    ensures forall k :: 0 <= k < |es| && k != index ==> r[k] == es[k]
    ensures r[index].position == es[index].position && r[index].behaviour == es[index].behaviour
  {
    var me := es[index];
    match Nearest(es, me.position, Zombies)
    case None => es
    case Some(m) => es[index := WithMotion(me, kernel.accelerateAlong(me, Neg(Sub(es[m].position, me.position)), dt))]
  }

  /** A zombie's turn: accelerate directly towards the nearest human or cop. */
  function ZombieStep(es: seq<Entity>, index: nat, dt: real, kernel: Kernel): (r: seq<Entity>)
    requires index < |es|
    ensures |r| == |es|
    ensures forall k :: 0 <= k < |es| && k != index ==> r[k] == es[k]
    ensures r[index].position == es[index].position && r[index].behaviour == es[index].behaviour
  {
    var me := es[index];
    match Nearest(es, me.position, People)
    case None => es
    case Some(m) => es[index := WithMotion(me, kernel.accelerateAlong(me, Sub(es[m].position, me.position), dt))]
  }

  /** A civilian flees exactly the nearest zombie (the lowest index among
      equally near ones), and does nothing when there is no zombie. */
  lemma CivilianFleesNearestZombie(es: seq<Entity>, index: nat, dt: real, kernel: Kernel)
    requires index < |es|
    ensures (forall k :: 0 <= k < |es| ==> es[k].behaviour != Zombie) ==> HumanStep(es, index, dt, kernel) == es
    ensures forall m: nat :: IsNearest(es, es[index].position, Zombies, |es|, m) ==>
              HumanStep(es, index, dt, kernel)[index] ==
                WithMotion(es[index], kernel.accelerateAlong(es[index], Neg(Sub(es[m].position, es[index].position)), dt))
  {
    NearestIsArgmin(es, es[index].position, Zombies, |es|);
    forall m: nat | IsNearest(es, es[index].position, Zombies, |es|, m)
      ensures Nearest(es, es[index].position, Zombies) == Some(m)
    {
      NearestCharacterized(es, es[index].position, Zombies, m);
    }
  }

  /** A zombie chases exactly the nearest human or cop, never a zombie or a
      corpse, and does nothing when no one is left alive. */
  lemma ZombieChasesNearestPerson(es: seq<Entity>, index: nat, dt: real, kernel: Kernel)
    requires index < |es|
    ensures (forall k :: 0 <= k < |es| ==> es[k].behaviour in {Zombie, Dead}) ==> ZombieStep(es, index, dt, kernel) == es
    ensures forall m: nat :: IsNearest(es, es[index].position, People, |es|, m) ==>
              ZombieStep(es, index, dt, kernel)[index] ==
                WithMotion(es[index], kernel.accelerateAlong(es[index], Sub(es[m].position, es[index].position), dt))
  {
    NearestIsArgmin(es, es[index].position, People, |es|);
    forall m: nat | IsNearest(es, es[index].position, People, |es|, m)
      ensures Nearest(es, es[index].position, People) == Some(m)
    {
      NearestCharacterized(es, es[index].position, People, m);
    }
  }

  /** The turn of the cop at `index`, with its new behaviour written back. */
  function CopStep(w: World, index: nat, rounds: int, cs: CopState, dt: real, cfg: Config, kernel: Kernel, rnd: Random): (r: World)
    requires index < |w.entities|
    requires w.entities[index].behaviour == Cop(rounds, cs)
    requires WorldValid(w, cfg)
    ensures SamePositions(w.entities, r.entities)
    ensures AllEvolve(w.entities, r.entities)
    ensures WorldValid(r, cfg)
  {
    var es := w.entities;
    assert CopOk(es, es[index].behaviour, cfg.copMagazineCapacity);
    var out := CopUpdate(w, index, rounds, cs, dt, cfg, kernel, rnd);
    var es' := out.world.entities[index := out.world.entities[index].(behaviour := out.behaviour)];
    var r := out.world.(entities := es');
    assert forall k :: 0 <= k < |es| && k != index ==> es'[k] == es[k];
    assert cs.Aiming? ==> cs.targetIndex != index;
    assert WorldValid(r, cfg) by {
      forall k | 0 <= k < |es'|
        ensures CopOk(es', es'[k].behaviour, cfg.copMagazineCapacity)
      {
        if k != index {
          assert CopOk(es, es[k].behaviour, cfg.copMagazineCapacity);
          var b := es[k].behaviour;
          if b.Cop? && b.state.Aiming? {
            assert b.state.targetIndex != index;
          }
        } else {
          var pc := CopPercept(w, index, rounds, cs, cfg);
          var d := CopNext(rounds, cs, pc, rnd.aimTime(w.rng), dt, cfg);
          assert out.behaviour == Cop(d.rounds, d.state);
          if d.state.Aiming? && cs == Idle {
            var m := d.state.targetIndex;
            assert Nearest(es, es[index].position, Zombies) == Some(m);
            assert es[m].behaviour == Zombie;
            assert m != index;
          }
        }
      }
    }
    r
  }

  /** One entity's turn, dispatched on its behaviour. */
  function BehaviourStep(w: World, index: nat, dt: real, cfg: Config, kernel: Kernel, rnd: Random): (r: World)
    requires index < |w.entities|
    requires WorldValid(w, cfg)
    ensures SamePositions(w.entities, r.entities)
    ensures AllEvolve(w.entities, r.entities)
    ensures WorldValid(r, cfg)
  {
    match w.entities[index].behaviour
    case Cop(rounds, cs) => CopStep(w, index, rounds, cs, dt, cfg, kernel, rnd)
    case Dead => w
    case Human =>
      var r := w.(entities := HumanStep(w.entities, index, dt, kernel));
      ValidAfterEvolve(w, r, cfg);
      r
    case Zombie =>
      var r := w.(entities := ZombieStep(w.entities, index, dt, kernel));
      ValidAfterEvolve(w, r, cfg);
      r
  }

  /** The behaviour pass over the first `n` entities. */
  function BehavioursUpTo(w: World, n: nat, dt: real, cfg: Config, kernel: Kernel, rnd: Random): (r: World)
    requires n <= |w.entities|
    requires WorldValid(w, cfg)
    ensures SamePositions(w.entities, r.entities)
    ensures AllEvolve(w.entities, r.entities)
    ensures WorldValid(r, cfg)
    decreases n
  {
    if n == 0 then w
    else
      var prev := BehavioursUpTo(w, n - 1, dt, cfg, kernel, rnd);
      var r := BehaviourStep(prev, n - 1, dt, cfg, kernel, rnd);
      AllEvolveTransitive(w.entities, prev.entities, r.entities);
      r
  }

  function BehaviourPass(w: World, dt: real, cfg: Config, kernel: Kernel, rnd: Random): World
    requires WorldValid(w, cfg)
  {
    BehavioursUpTo(w, |w.entities|, dt, cfg, kernel, rnd)
  }
}
