/** The initial population: `count` entities at sampled positions, at rest,
    the first 80% (rounded down) civilians, the next 18% (rounded down) cops,
    and the rest zombies. */
module Spawning {
  import opened Geometry
  import opened Entities
  import opened Simulation

  /** The number of civilians: 80% of `count`, rounded down. */
  function HumanCount(count: nat): (h: nat)
    ensures h as real <= count as real * 0.8 < h as real + 1.0
  {
    (count as real * 0.8).Floor
  }

  /** The number of cops: 18% of `count`, rounded down. */
  function CopCount(count: nat): (c: nat)
    ensures c as real <= count as real * 0.18 < c as real + 1.0
  {
    (count as real * 0.18).Floor
  }

  /** Civilians and cops together never outnumber the population, so the
      zombie count `count - (humans + cops)` is never negative. */
  lemma SharesFit(count: nat)
    ensures HumanCount(count) + CopCount(count) <= count
  {
  }

  /** A non-empty population always has a zombie, since the two shares add
      up to 98%; it has a cop from six entities on. */
  lemma ZombiesAndCopsPresent(count: nat)
    ensures count > 0 ==> count - (HumanCount(count) + CopCount(count)) >= 1
    ensures CopCount(count) > 0 <==> count >= 6
  {
    if count >= 6 {
      assert count as real * 0.18 >= 1.0;
    }
  }

  /** The behaviour the `i`-th spawned entity gets, by the same tests the
      spawning loop makes. */
  function SpawnedBehaviour(count: nat, i: nat, rounds: int, copState: CopState): Behaviour {
    var humanCount := HumanCount(count);
    var copCount := CopCount(count);
    var zombieCount := count - (humanCount + copCount);
    if i < humanCount then Human
    else if i >= humanCount && i < count - zombieCount then Cop(rounds, copState)
    else Zombie
  }

  /** The `i`-th spawned entity: at the `i`-th pair of sampled coordinates,
      at rest. */
  function Spawned(count: nat, i: nat, rounds: int, copState: CopState, coordinates: seq<real>): Entity
    requires 2 * i + 1 < |coordinates|
  {
    Entity(Vector2(coordinates[2 * i], coordinates[2 * i + 1]), Zero(), Zero(),
           SpawnedBehaviour(count, i, rounds, copState))
  }

  /** The initial state. `coordinates` holds the `2 * count` position samples
      in the order they are drawn (x, then y, for each entity), each from the
      sampler's range `[0, 10)`; `rounds` and
      `copState` are the payload every spawned cop starts with; `rng` is
      where the state's random stream starts. */
  method InitialState(count: nat, rounds: int, copState: CopState, coordinates: seq<real>, rng: nat)
    returns (state: State)
    requires |coordinates| == 2 * count
    requires forall k :: 0 <= k < |coordinates| ==> 0.0 <= coordinates[k] < 10.0
    ensures fresh(state)
    ensures state.projectiles == [] && state.rng == rng && state.sounds == []
    ensures |state.entities| == count
    ensures forall i :: 0 <= i < count ==> state.entities[i] == Spawned(count, i, rounds, copState, coordinates)
    ensures forall i :: 0 <= i < count ==>
              && 0.0 <= state.entities[i].position.x < 10.0
              && 0.0 <= state.entities[i].position.y < 10.0
  {
    state := new State([], rng);
    for i := 0 to count
      invariant |state.entities| == i
      invariant forall k :: 0 <= k < i ==> state.entities[k] == Spawned(count, k, rounds, copState, coordinates)
      invariant state.projectiles == [] && state.rng == rng && state.sounds == []
    {
      var x := coordinates[2 * i];
      var y := coordinates[2 * i + 1];
      var position := Vector2(x, y);
      var velocity := Zero();
      var humanCount := HumanCount(count);
      var copCount := CopCount(count);
      var zombieCount := count - (humanCount + copCount);
      if i < humanCount {
        state.entities := state.entities + [Entity(position, velocity, Zero(), Human)];
      } else if i >= humanCount && i < count - zombieCount {
        state.entities := state.entities + [Entity(position, velocity, Zero(), Cop(rounds, copState))];
      } else {
        state.entities := state.entities + [Entity(position, velocity, Zero(), Zombie)];
      }
    }
  }

  /** The number of entities of kind `kind`. */
  function CountOf(es: seq<Entity>, kind: Kind): nat
    decreases |es|
  {
    if es == [] then 0
    else CountOf(es[..|es| - 1], kind) + (if KindOf(es[|es| - 1].behaviour) == kind then 1 else 0)
  }

  /** Entities laid out in three bands, `h` civilians, then `c` cops, then
      zombies, are counted band by band. */
  lemma {:induction false} BandCounts(es: seq<Entity>, h: nat, c: nat)
    requires forall k :: 0 <= k < |es| ==>
               KindOf(es[k].behaviour) == (if k < h then HumanKind else if k < h + c then CopKind else ZombieKind)
    ensures CountOf(es, HumanKind) == if |es| < h then |es| else h
    ensures CountOf(es, CopKind) == if |es| < h then 0 else if |es| < h + c then |es| - h else c
    ensures CountOf(es, ZombieKind) == if |es| < h + c then 0 else |es| - (h + c)
    decreases |es|
  {
    if es != [] {
      var init := es[..|es| - 1];
      assert forall k :: 0 <= k < |init| ==> init[k] == es[k];
      BandCounts(init, h, c);
    }
  }

  /** The spawned population has exactly `HumanCount(count)` civilians,
      `CopCount(count)` cops and the rest zombies, and no corpse. */
  lemma PopulationCounts(count: nat, rounds: int, copState: CopState, coordinates: seq<real>, es: seq<Entity>)
    requires |coordinates| == 2 * count
    requires |es| == count
    requires forall i :: 0 <= i < count ==> es[i] == Spawned(count, i, rounds, copState, coordinates)
    ensures CountOf(es, HumanKind) == HumanCount(count)
    ensures CountOf(es, CopKind) == CopCount(count)
    ensures CountOf(es, ZombieKind) == count - (HumanCount(count) + CopCount(count))
    ensures forall i :: 0 <= i < count ==> es[i].behaviour != Dead
    ensures forall i :: 0 <= i < count ==>
              KindOf(es[i].behaviour) ==
                if i < HumanCount(count) then HumanKind
                else if i < HumanCount(count) + CopCount(count) then CopKind
                else ZombieKind
  {
    SharesFit(count);
    BandCounts(es, HumanCount(count), CopCount(count));
  }

  /** With every cop starting with between zero and a full magazine of rounds
      and not aiming, the spawned population meets the cop invariant. */
  lemma InitialStateValid(count: nat, rounds: int, copState: CopState, coordinates: seq<real>, es: seq<Entity>, rng: nat, cfg: Config)
    requires |coordinates| == 2 * count
    requires |es| == count
    requires forall i :: 0 <= i < count ==> es[i] == Spawned(count, i, rounds, copState, coordinates)
    requires 0 <= rounds <= cfg.copMagazineCapacity && !copState.Aiming?
    ensures WorldValid(World(es, [], rng, []), cfg)
  {
    forall k | 0 <= k < |es|
      ensures CopOk(es, es[k].behaviour, cfg.copMagazineCapacity)
    {
      assert es[k] == Spawned(count, k, rounds, copState, coordinates);
    }
  }
}
