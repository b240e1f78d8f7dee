/** The simulation's data model: entities and their behaviours, projectiles,
    the world snapshot that the tick transforms, and the parameters the tick
    reads but does not own (constants, geometry helpers, random samples). */
module Entities {
  import opened Optional
  import opened Geometry

  /** The cop state machine's states. */
  datatype CopState =
    | Idle
    | Moving(waypoint: Vector2)
    | Aiming(aimTimeRemaining: real, targetIndex: nat)
    | Reloading(reloadTimeRemaining: real)

  /** What an entity is and, for a cop, what it is doing. */
  datatype Behaviour =
    | Dead
    | Human
    | Zombie
    | Cop(roundsInMagazine: int, state: CopState)

  datatype Entity = Entity(position: Vector2, velocity: Vector2, facing: Vector2, behaviour: Behaviour)

  /** The part of an entity the steering helpers may change. */
  datatype Motion = Motion(velocity: Vector2, facing: Vector2)

  datatype Projectile = Projectile(position: Vector2, velocity: Vector2)

  /** Audio cues the tick asks for, recorded instead of played. */
  datatype Sound = ZombieDead | PersonInfected | Shotgun

  /** Everything the tick reads and writes: the entity list, the projectile
      list, the position in the random stream and the log of sound cues. */
  datatype World = World(entities: seq<Entity>, projectiles: seq<Projectile>, rng: nat, sounds: seq<Sound>)

  /** The simulation constants the tick uses. */
  datatype Config = Config(
    entityRadius: real,
    minProjectileSpeed: real,
    bulletSpeed: real,
    copMagazineCapacity: int,
    copReloadCooldown: real,
    copMinDistanceFromWaypointSquared: real)

  /** The geometry helpers the tick calls but whose code is not modelled. */
  datatype Kernel = Kernel(
    minPositiveIntersectTime: (Segment2, Circle) -> Option<real>,
    rotateBy: (Vector2, real) -> Vector2,
    lookAlong: (Entity, Vector2, real) -> Motion,
    accelerateAlong: (Entity, Vector2, real) -> Motion)

  /** Samples of the aim-time and angular-deviation distributions, indexed by
      the position in the random stream at which they are drawn. */
  datatype Random = Random(aimTime: nat -> real, angularDeviation: nat -> real)

  function WithMotion(e: Entity, m: Motion): Entity {
    e.(velocity := m.velocity, facing := m.facing)
  }

  /** The kind of a behaviour, forgetting a cop's payload. */
  datatype Kind = HumanKind | CopKind | ZombieKind | DeadKind

  function KindOf(b: Behaviour): Kind {
    match b
    case Dead => DeadKind
    case Human => HumanKind
    case Zombie => ZombieKind
    case Cop(_, _) => CopKind
  }

  /** Position of a kind in the status lattice: the living are at the bottom,
      then the infected, then the dead. */
  function Rank(k: Kind): nat {
    match k
    case HumanKind => 0
    case CopKind => 0
    case ZombieKind => 1
    case DeadKind => 2
  }

  /** The only ways an entity's behaviour may change: within its kind, or up
      the lattice. A zombie never becomes a human or a cop, the dead stay dead,
      and a human never becomes a cop nor a cop a human. */
  predicate Evolves(b: Behaviour, b': Behaviour) {
    KindOf(b') == KindOf(b) || Rank(KindOf(b)) < Rank(KindOf(b'))
  }

  /** Entity lists of the same length whose every behaviour evolved. */
  predicate AllEvolve(es: seq<Entity>, es': seq<Entity>) {
    |es'| == |es| && forall k :: 0 <= k < |es| ==> Evolves(es[k].behaviour, es'[k].behaviour)
  }

  /** Same positions, index by index. */
  predicate SamePositions(es: seq<Entity>, es': seq<Entity>) {
    |es'| == |es| && forall k :: 0 <= k < |es| ==> es'[k].position == es[k].position
  }

  /** What the tick keeps true of every cop: its magazine holds between zero
      and a full load of rounds, and an aiming cop has a round to fire and aims
      at an index of the entity list that holds a zombie or a corpse. */
  predicate CopOk(es: seq<Entity>, b: Behaviour, capacity: int) {
    b.Cop? ==>
      && 0 <= b.roundsInMagazine <= capacity
      && (b.state.Aiming? ==>
            && b.roundsInMagazine > 0
            && b.state.targetIndex < |es|
            && KindOf(es[b.state.targetIndex].behaviour) in {ZombieKind, DeadKind})
  }

  predicate WorldValid(w: World, cfg: Config) {
    forall k :: 0 <= k < |w.entities| ==> CopOk(w.entities, w.entities[k].behaviour, cfg.copMagazineCapacity)
  }

  /** No two entities share a position: every pair is a positive squared
      distance apart. */
  predicate Separated(es: seq<Entity>) {
    forall a, b :: 0 <= a < b < |es| ==> Apart(es, a, b)
  }

  /** Entities `a` and `b` are a positive squared distance apart. */
  predicate Apart(es: seq<Entity>, a: nat, b: nat)
    requires a < |es| && b < |es|
  {
    LengthSquared(Sub(es[b].position, es[a].position)) > 0.0
  }

  lemma {:induction false} EvolvesTransitive(b0: Behaviour, b1: Behaviour, b2: Behaviour)
    requires Evolves(b0, b1) && Evolves(b1, b2)
    ensures Evolves(b0, b2)
  {
  }

  lemma AllEvolveTransitive(es0: seq<Entity>, es1: seq<Entity>, es2: seq<Entity>)
    requires AllEvolve(es0, es1) && AllEvolve(es1, es2)
    ensures AllEvolve(es0, es2)
  {
    forall k | 0 <= k < |es0|
      ensures Evolves(es0[k].behaviour, es2[k].behaviour)
    {
      EvolvesTransitive(es0[k].behaviour, es1[k].behaviour, es2[k].behaviour);
    }
  }

  /** What evolving means entity by entity: the dead stay dead, a zombie
      stays a zombie or dies, a civilian never becomes a cop, a cop never
      becomes a civilian. */
  lemma AllEvolveKeepsLattice(es: seq<Entity>, es': seq<Entity>)
    requires AllEvolve(es, es')
    ensures |es'| == |es|
    ensures forall k :: 0 <= k < |es| && es[k].behaviour == Dead ==> es'[k].behaviour == Dead
    ensures forall k :: 0 <= k < |es| && es[k].behaviour == Zombie ==> es'[k].behaviour in {Zombie, Dead}
    ensures forall k :: 0 <= k < |es| && es[k].behaviour == Human ==> !es'[k].behaviour.Cop?
    ensures forall k :: 0 <= k < |es| && es[k].behaviour.Cop? ==> es'[k].behaviour != Human
  {
    forall k | 0 <= k < |es|
      ensures Evolves(es[k].behaviour, es'[k].behaviour)
    {
    }
  }

  /** A step in which every behaviour evolves and no cop's payload changes
      keeps the cop invariant: the cops carry the same payload, and their
      targets were zombies or corpses, which can only stay zombies or die. */
  lemma {:induction false} ValidAfterEvolve(w: World, w': World, cfg: Config)
    requires WorldValid(w, cfg)
    requires AllEvolve(w.entities, w'.entities)
    requires forall k :: 0 <= k < |w'.entities| && w'.entities[k].behaviour.Cop? ==>
               w'.entities[k].behaviour == w.entities[k].behaviour
    ensures WorldValid(w', cfg)
  {
    var es, es' := w.entities, w'.entities;
    forall k | 0 <= k < |es'|
      ensures CopOk(es', es'[k].behaviour, cfg.copMagazineCapacity)
    {
      var b := es'[k].behaviour;
      if b.Cop? {
        assert b == es[k].behaviour;
        assert CopOk(es, b, cfg.copMagazineCapacity);
        if b.state.Aiming? {
          var t := b.state.targetIndex;
          assert Evolves(es[t].behaviour, es'[t].behaviour);
        }
      }
    }
  }
}
