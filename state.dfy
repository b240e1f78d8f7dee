/** The simulation state and the `update` entry point. `State` holds the
    entity list, the projectile list, the position in the random stream and
    the log of sounds played; each of its methods performs one loop of the
    tick in place and is proved to leave exactly the world that the matching
    function of the `Tick`, `Behaviours`, `Collision` or `Projectiles` module
    computes. */
module Simulation {
  import opened Optional
  import opened Geometry
  import opened Entities
  import opened Targeting
  import opened CopMachine
  import opened Behaviours
  import opened Collision
  import opened Projectiles
  import opened Tick

  /** The arguments of one update: the length of the tick. */
  datatype UpdateArgs = UpdateArgs(dt: real)

  class State {
    var entities: seq<Entity>
    var projectiles: seq<Projectile>
    var rng: nat
    var sounds: seq<Sound>

    /** The state as a world value. */
    function Snapshot(): World
      reads this
    {
      World(entities, projectiles, rng, sounds)
    }

    /** A state holding `entities`, no projectiles, and a random stream at
        position `rng`. */
    constructor (entities: seq<Entity>, rng: nat)
      ensures Snapshot() == World(entities, [], rng, [])
    {
      this.entities := entities;
      this.projectiles := [];
      this.rng := rng;
      this.sounds := [];
    }

    /** One tick: behaviours, collisions, integration, projectiles. The new
        state is the tick of the old one, so every property proved of `Tick`
        holds of it, and the cop invariant is kept. */
    method Update(args: UpdateArgs, cfg: Config, kernel: Kernel, rnd: Random)
      requires WorldValid(Snapshot(), cfg)
      requires Separated(entities)
      modifies this
      ensures Snapshot() == Tick.Tick(old(Snapshot()), args.dt, cfg, kernel, rnd)
      ensures WorldValid(Snapshot(), cfg)
    {
      ghost var w0 := Snapshot();
      ApplyBehaviours(args, cfg, kernel, rnd);
      SeparatedKept(w0.entities, entities);
      ResolveCollisions(args, cfg);
      ApplyAcceleration(args);
      SimulateProjectiles(args, cfg, kernel);
    }

    /** The behaviour loop: every entity, in index order, acts on its
        behaviour as it is when its turn comes. */
    method ApplyBehaviours(args: UpdateArgs, cfg: Config, kernel: Kernel, rnd: Random)
      requires WorldValid(Snapshot(), cfg)
      modifies this
      ensures Snapshot() == BehaviourPass(old(Snapshot()), args.dt, cfg, kernel, rnd)
    {
      ghost var w0 := Snapshot();
      for i := 0 to |entities|
        invariant Snapshot() == BehavioursUpTo(w0, i, args.dt, cfg, kernel, rnd)
      {
        Act(args, i, cfg, kernel, rnd);
      }
    }

    /** The body of the behaviour loop: entity `index` acts on its current
        behaviour. A cop's new behaviour is written back after its turn. */
    method Act(args: UpdateArgs, index: nat, cfg: Config, kernel: Kernel, rnd: Random)
      requires index < |entities|
      requires WorldValid(Snapshot(), cfg)
      modifies this
      ensures Snapshot() == BehaviourStep(old(Snapshot()), index, args.dt, cfg, kernel, rnd)
    {
      match entities[index].behaviour
      case Cop(rounds, cs) =>
        assert CopOk(entities, entities[index].behaviour, cfg.copMagazineCapacity);
        var behaviour := UpdateCop(args, index, rounds, cs, cfg, kernel, rnd);
        entities := entities[index := entities[index].(behaviour := behaviour)];
      case Dead =>
      case Human =>
        SimulateHuman(args, index, kernel);
      case Zombie =>
        SimulateZombie(args, index, kernel);
    }

    /** One cop's turn. The returned behaviour is the cop's new behaviour,
        which the caller writes back; the cop's motion, the projectile list,
        the random stream and the sound log are updated here. */
    method UpdateCop(args: UpdateArgs, index: nat, rounds: int, cs: CopState, cfg: Config, kernel: Kernel, rnd: Random)
      returns (behaviour: Behaviour)
      requires index < |entities|
      requires cs.Aiming? ==> cs.targetIndex < |entities|
      modifies this
      ensures var out := CopUpdate(old(Snapshot()), index, rounds, cs, args.dt, cfg, kernel, rnd);
              Snapshot() == out.world && behaviour == out.behaviour
    {
      var me := entities[index];
      match cs
      case Aiming(aimTimeRemaining, targetIndex) =>
        if entities[targetIndex].behaviour == Dead {
          return Cop(rounds, Idle);
        }
        var delta := Sub(entities[targetIndex].position, me.position);
        entities := entities[index := WithMotion(me, kernel.lookAlong(me, delta, args.dt))];
        var t := aimTimeRemaining - args.dt;
        if t > 0.0 {
          behaviour := Cop(rounds, Aiming(t, targetIndex));
        } else {
          var angularDeviation := rnd.angularDeviation(rng);
          rng := rng + 1;
          var deltaNormal := kernel.rotateBy(delta, angularDeviation);
          projectiles := projectiles + [Projectile(Add(entities[index].position, Scale(1.125 * cfg.entityRadius, deltaNormal)),
                                                   Scale(cfg.bulletSpeed, deltaNormal))];
          sounds := sounds + [Shotgun];
          behaviour := Cop(rounds - 1, Idle);
        }
      case Moving(waypoint) =>
        var delta := Sub(waypoint, me.position);
        if LengthSquared(delta) < cfg.copMinDistanceFromWaypointSquared {
          behaviour := Cop(rounds, Idle);
        } else {
          entities := entities[index := WithMotion(me, kernel.accelerateAlong(me, delta, args.dt))];
          behaviour := Cop(rounds, Moving(waypoint));
        }
      case Reloading(reloadTimeRemaining) =>
        var t := reloadTimeRemaining - args.dt;
        if t > 0.0 {
          behaviour := Cop(rounds, Reloading(t));
        } else {
          behaviour := Cop(cfg.copMagazineCapacity, Idle);
        }
      case Idle =>
        if rounds <= 0 {
          behaviour := Cop(rounds, Reloading(cfg.copReloadCooldown));
        } else {
          var nearest := FindNearest(entities, me.position, Zombies);
          match nearest
          case Some(minIndex) =>
            var aimTime := rnd.aimTime(rng);
            rng := rng + 1;
            behaviour := Cop(rounds, Aiming(aimTime, minIndex));
          case None =>
            behaviour := Cop(rounds, Idle);
        }
    }

    /** A zombie's turn: steer towards the nearest human or cop. */
    method SimulateZombie(args: UpdateArgs, index: nat, kernel: Kernel)
      requires index < |entities|
      modifies this
      ensures entities == ZombieStep(old(entities), index, args.dt, kernel)
      ensures projectiles == old(projectiles) && rng == old(rng) && sounds == old(sounds)
    {
      var myPos := entities[index].position;
      var nearest := FindNearest(entities, myPos, People);
      match nearest
      case Some(m) =>
        var minDelta := Sub(entities[m].position, myPos);
        entities := entities[index := WithMotion(entities[index], kernel.accelerateAlong(entities[index], minDelta, args.dt))];
      case None =>
    }

    /** A civilian's turn: steer away from the nearest zombie. */
    method SimulateHuman(args: UpdateArgs, index: nat, kernel: Kernel)
      requires index < |entities|
      modifies this
      ensures entities == HumanStep(old(entities), index, args.dt, kernel)
      ensures projectiles == old(projectiles) && rng == old(rng) && sounds == old(sounds)
    {
      var myPos := entities[index].position;
      var nearest := FindNearest(entities, myPos, Zombies);
      match nearest
      case Some(m) =>
        var minDelta := Sub(entities[m].position, myPos);
        entities := entities[index := WithMotion(entities[index], kernel.accelerateAlong(entities[index], Neg(minDelta), args.dt))];
      case None =>
    }

    /** The collision loops: for each `i`, each `j > i` in turn, an
        overlapping pair is handled against the entities as they are at that
        moment. Positions do not change in this pass, so the squared distance
        of a pair is never zero. */
    method ResolveCollisions(args: UpdateArgs, cfg: Config)
      requires Separated(entities)
      modifies this
      ensures Snapshot() == CollisionPass(old(Snapshot()), args.dt, cfg)
    {
      ghost var w0 := Snapshot();
      var n := |entities|;
      var i := 0;
      while i < n
        invariant i <= n == |w0.entities| && Separated(w0.entities)
        invariant Snapshot() == RowsUpTo(w0, i, args.dt, cfg)
      {
        NextRow(args, cfg, w0, i);
        i := i + 1;
      }
      assert Snapshot() == RowsUpTo(w0, |w0.entities|, args.dt, cfg);
    }

    /** One turn of the outer collision loop: after the first `i` rows, row
        `i` brings the pass to its first `i + 1` rows. */
    method NextRow(args: UpdateArgs, cfg: Config, ghost w0: World, i: nat)
      requires i < |w0.entities| && Separated(w0.entities)
      requires Snapshot() == RowsUpTo(w0, i, args.dt, cfg)
      modifies this
      ensures Snapshot() == RowsUpTo(w0, i + 1, args.dt, cfg)
    {
      RowsUpToNext(w0, i, args.dt, cfg);
      CollideRow(args, cfg, i);
    }

    /** The inner collision loop for row `i`: the pairs `(i, j)` with
        `i < j`, in order of `j`. */
    method CollideRow(args: UpdateArgs, cfg: Config, i: nat)
      requires i < |entities|
      requires Separated(entities)
      modifies this
      ensures Snapshot() == RowAlong(old(Snapshot()), i, |old(entities)|, args.dt, cfg)
    {
      ghost var w := Snapshot();
      var p1 := entities[i].position;
      for j := i + 1 to |entities|
        invariant Snapshot() == RowAlong(w, i, j, args.dt, cfg)
      {
        assert Separated(entities) by {
          SeparatedKept(w.entities, entities);
        }
        CollideIfOverlapping(args, cfg, i, j, p1);
      }
    }

    /** The body of the inner collision loop: the pair `(i, j)` is handled
        when it overlaps. `p1` is the position of entity `i`. */
    method CollideIfOverlapping(args: UpdateArgs, cfg: Config, i: nat, j: nat, p1: Vector2)
      requires i < j < |entities|
      requires Separated(entities)
      requires p1 == entities[i].position
      modifies this
      ensures Snapshot() == CollidePair(old(Snapshot()), i, j, args.dt, cfg)
    {
      var p2 := entities[j].position;
      var delta := Sub(p2, p1);
      var deltaLengthSquared := LengthSquared(delta);
      assert Apart(entities, i, j);
      if deltaLengthSquared < 4.0 * cfg.entityRadius * cfg.entityRadius {
        HandleCollision(args, i, j, delta, deltaLengthSquared);
      }
    }

    /** The collision response for the pair `i < j`: infection in either
        direction, then the velocity change pushing the pair apart. */
    method HandleCollision(args: UpdateArgs, i: nat, j: nat, delta: Vector2, deltaLengthSquared: real)
      requires i < j < |entities|
      requires deltaLengthSquared > 0.0
      modifies this
      ensures Snapshot() == CollisionResponse(old(Snapshot()), i, j, delta, deltaLengthSquared, args.dt)
    {
      match (entities[i].behaviour, entities[j].behaviour) {
        case (Human, Zombie) | (Cop(_, _), Zombie) =>
          entities := entities[i := entities[i].(behaviour := Zombie)];
          sounds := sounds + [PersonInfected];
        case (Zombie, Human) | (Zombie, Cop(_, _)) =>
          entities := entities[j := entities[j].(behaviour := Zombie)];
          sounds := sounds + [PersonInfected];
        case _ =>
      }
      var velocityChange := Scale(args.dt / deltaLengthSquared, delta);
      entities := entities[i := entities[i].(velocity := Sub(entities[i].velocity, velocityChange))];
      entities := entities[j := entities[j].(velocity := Add(entities[j].velocity, velocityChange))];
    }

    /** The integration loop over every entity. */
    method ApplyAcceleration(args: UpdateArgs)
      modifies this
      ensures Snapshot() == IntegrationPass(old(Snapshot()), args.dt)
    {
      ghost var es0 := entities;
      for k := 0 to |entities|
        invariant |entities| == |es0|
        invariant projectiles == old(projectiles) && rng == old(rng) && sounds == old(sounds)
        invariant forall m :: 0 <= m < k ==> entities[m] == Integrated(es0[m], args.dt)
        invariant forall m :: k <= m < |es0| ==> entities[m] == es0[m]
      {
        var e := entities[k];
        var displacement := Scale(args.dt, e.velocity);
        entities := entities[k := e.(position := Add(e.position, displacement),
                                     velocity := Sub(e.velocity, Scale(0.5, displacement)))];
      }
      assert entities == Integrate(es0, args.dt);
    }

    /** Spent projectiles are dropped, then each remaining projectile in turn
        kills the first living entity its sweep crosses, stopping dead, and
        moves to the end of its sweep. */
    method SimulateProjectiles(args: UpdateArgs, cfg: Config, kernel: Kernel)
      modifies this
      ensures Snapshot() == ProjectilePass(old(Snapshot()), args.dt, cfg, kernel)
    {
      projectiles := Retain(projectiles, cfg.minProjectileSpeed);
      ghost var w1 := Snapshot();
      for q := 0 to |projectiles|
        invariant Snapshot() == ProjectilesUpTo(w1, q, args.dt, cfg, kernel)
      {
        SimulateProjectile(args, q, cfg, kernel);
      }
    }

    /** One projectile's tick: the first living entity its sweep crosses
        dies and the projectile stops; it moves to the end of its sweep. */
    method SimulateProjectile(args: UpdateArgs, q: nat, cfg: Config, kernel: Kernel)
      requires q < |projectiles|
      modifies this
      ensures Snapshot() == ProjectileStep(old(Snapshot()), q, args.dt, cfg, kernel)
    {
      var projectile := projectiles[q];
      var displacement := Scale(args.dt, projectile.velocity);
      var segment := Segment2(projectile.position, Add(projectile.position, displacement));
      var hit := FindFirstHit(entities, segment, cfg, kernel);
      match hit {
        case None =>
        case Some(h) =>
          entities := entities[h.index := entities[h.index].(behaviour := Dead)];
          projectiles := projectiles[q := projectiles[q].(velocity := Zero())];
          sounds := sounds + [ZombieDead];
      }
      projectiles := projectiles[q := projectiles[q].(position := segment.p2)];
    }
  }
}
