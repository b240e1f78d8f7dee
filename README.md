# Contagion simulation core in Dafny

This project models the simulation engine of *contagion*, a 2D zombie-outbreak
simulation. It covers one tick of `update` and the spawning of the initial
population (`initial_state`).

A world is a list of entities and a list of projectiles. Every entity is a
civilian, a cop, a zombie or a corpse. A tick runs four passes, in this order:

1. **Behaviours.** Each entity acts in index order:
   - a civilian accelerates away from the nearest zombie;
   - a zombie accelerates towards the nearest civilian or cop;
   - a cop takes one step of its state machine (idle, aiming, moving,
     reloading) and may fire a projectile;
   - the dead do nothing.
2. **Collisions.** Every pair `i < j` closer than two entity radii is handled.
   A civilian or cop touching a zombie becomes a zombie, and the pair is
   pushed apart by an equal and opposite velocity change.
3. **Integration.** Each entity moves by its velocity times `dt`. Its velocity
   then loses half of that displacement.
4. **Projectiles.** Spent projectiles are dropped. Each remaining projectile
   kills the first living entity its path crosses in this tick, stops, and
   moves to the end of its path.

The model is imperative where the source is. `Simulation.State` is a class
holding the entity list, the projectile list, the position in the random
stream and the log of sounds played. Each of its methods performs one loop of
`update` in place. Each method is proved to leave exactly the world that a pure
function of the old world computes. Those functions are `Tick.Tick` and the
pass functions in `Behaviours`, `Collision`, `Projectiles` and `Tick`. The
source's properties are proved as lemmas about those functions:

- which entity each scan picks, with the lowest index winning ties;
- the cop state machine's transitions;
- that the collision loops visit every pair once;
- conservation of the pair's total velocity in a collision;
- which projectiles the retain step keeps;
- which entity a projectile kills;
- a status lattice that no tick goes down (dead stays dead; a zombie never
  recovers; the number infected or dead never falls);
- the cop invariant that every tick keeps: magazine within bounds, and an
  aiming cop holds a round and has a valid target.

`Spawning.InitialState` is the spawning loop. Lemmas give the exact numbers of
civilians, cops and zombies it creates.

Modules: `Optional`, `Geometry` (geometry.dfy), `Entities`, `Targeting`,
`CopMachine`, `Behaviours`, `Collision`, `Projectiles`, `Tick`, `Simulation`
(state.dfy), `Spawning` (initial_state.dfy).

Behaviour worth noting:
- Corpses are integrated like everyone else. They also take part in the
  collision pass: no infection, but the push apart applies, so a corpse can
  still move.
- The population is `floor(0.8 * count)` civilians, then
  `floor(0.18 * count)` cops, then zombies, in index order, with positions
  drawn in `[0, 10)`. A population of fewer than six has no cop, and any
  non-empty population has at least one zombie.
- The fired projectile's direction is `rotate_by(delta, deviation)` of the
  unnormalised vector to the target. Its velocity and its spawn offset
  therefore scale with the distance to the target.

## Model

| member | source | states |
|---|---|---|
| Targeting.NearestIsArgmin | src/simulation/update.rs:286-305 | The nearest-prey scan finds nothing exactly when there is no entity of the prey kind. Otherwise it finds one of minimal squared distance, and every earlier index is strictly farther (strict `<` keeps the first on ties). |
| Targeting.NearestCharacterized | src/simulation/update.rs:316-335 | The scan returns `m` if and only if `m` is the lowest-index nearest entity of the prey kind. |
| Targeting.NearestUnique | src/simulation/update.rs:243-259 | At most one index is the nearest in that sense, so the scan's answer is determined. |
| Targeting.FindNearest | src/simulation/update.rs:240-261 | The scanning loop: its result is the scan's answer, it is none exactly when there is no prey, and any result is the lowest-index nearest prey. |
| CopMachine.CopNext | src/simulation/update.rs:149-277 | The cop transition table: a round is fired exactly when an aiming cop's target is alive and its aim time runs out. Firing costs one round and returns to idle. Otherwise the rounds are unchanged, except that a finished reload refills the magazine. A new aim keeps the old target or takes the nearest zombie when idle with a round. The magazine invariant is preserved. |
| CopMachine.IdleEmptyStartsReloading | src/simulation/update.rs:229-235 | An idle cop with no rounds starts reloading for the full cooldown. |
| CopMachine.DeadTargetAbortsAim | src/simulation/update.rs:153-159 | An aiming cop whose target is dead returns to idle without firing. |
| CopMachine.ArrivalStopsMoving | src/simulation/update.rs:197-203 | A moving cop within the waypoint threshold becomes idle. |
| CopMachine.ReloadCompletes | src/simulation/update.rs:212-227 | Over ticks whose lengths sum to at least the remaining reload time, a reloading cop ends idle with a full magazine. Before that it is still reloading, with the time reduced by the sum. |
| CopMachine.CopUpdate | src/simulation/update.rs:142-281 | One cop's turn. Its new behaviour is the table's answer for what it perceives. When it fires, exactly one projectile is appended, one shotgun sound is logged, and the random stream advances by one. The projectile starts `1.125` radii out from the cop along the deviated aim direction, and its velocity is the bullet speed times that direction. An aiming cop with a live target turns towards it. A moving cop away from its waypoint accelerates towards it. In every other case the cop's motion is unchanged, and no other entity changes. |
| CopMachine.IdleCopAimsAtNearestZombie | src/simulation/update.rs:236-274 | An idle cop with a round stays idle exactly when there is no zombie. Otherwise it starts aiming, with the sampled aim time, at the lowest-index nearest zombie, with its rounds unchanged. |
| Behaviours.HumanStep | src/simulation/update.rs:313-341 | A civilian's turn changes only that civilian's motion. Its position and behaviour stay the same. |
| Behaviours.ZombieStep | src/simulation/update.rs:283-311 | A zombie's turn changes only that zombie's motion. Its position and behaviour stay the same. |
| Behaviours.CivilianFleesNearestZombie | src/simulation/update.rs:313-341 | With no zombie, nothing changes. Otherwise the civilian accelerates along the negated vector to the lowest-index nearest zombie. |
| Behaviours.ZombieChasesNearestPerson | src/simulation/update.rs:283-311 | With no civilian or cop, nothing changes. Otherwise the zombie accelerates along the vector to the lowest-index nearest civilian or cop, never towards a zombie or corpse. |
| Behaviours.CopStep | src/simulation/update.rs:24-28 | A cop's turn with its behaviour written back keeps positions and the cop invariant. Every behaviour only moves up the status lattice. |
| Behaviours.BehaviourStep | src/simulation/update.rs:23-38 | Dispatching one entity's turn on its behaviour keeps positions and the cop invariant, and only moves behaviours up the lattice. |
| Behaviours.BehavioursUpTo | src/simulation/update.rs:21-39 | The behaviour pass over the first `n` entities keeps positions and the cop invariant, and only moves behaviours up the lattice. |
| Collision.CollisionResponse | src/simulation/update.rs:115-140 | A civilian or cop meeting a zombie becomes a zombie, in either order, and a person-infected sound is logged exactly then. Any other pair keeps its behaviours. The impulse `dt / dsq` times the offset `delta` is taken from the first entity's velocity and added to the second's, so the pair's total velocity is unchanged. The pair's facings are kept. No other entity, position, projectile or the random stream changes. |
| Collision.CollidePair | src/simulation/update.rs:48-56 | A pair is handled exactly when its squared distance is below four squared radii. Otherwise nothing changes. |
| Collision.PairsBelowMembers | src/simulation/update.rs:44-47 | After the first `i` rows, the loops have visited the pair `(a, b)` if and only if `a < i` and `a < b < n`. |
| Collision.PairsBelowOrdered | src/simulation/update.rs:44-47 | The pairs of the first `i` rows are visited in strictly increasing lexicographic order. |
| Collision.PairsBelowExact | src/simulation/update.rs:44-47 | After the first `i` rows, the loops have visited exactly the pairs `(a, b)` with `a < i` and `a < b < n`, in strictly increasing lexicographic order. |
| Collision.AllPairsOnce | src/simulation/update.rs:43-58 | The collision loops visit every unordered pair `i < j < n`, and no pair twice. |
| Collision.ApplyPairsAppend | src/simulation/update.rs:43-58 | Handling the pairs of `ps + qs` in order is handling those of `ps`, then those of `qs`. |
| Collision.RowAlongAppliesRow | src/simulation/update.rs:47-57 | The inner loop for row `i` up to `j` handles exactly the pairs `(i, i + 1)`, ..., `(i, j - 1)`, one after the other. |
| Collision.RowsUpToAppliesPairsBelow | src/simulation/update.rs:44-58 | The first `i` rows of the loops handle exactly the pairs listed in `PairsBelow(n, i)`, in that order. |
| Collision.CollisionPassVisitsEachPairOnce | src/simulation/update.rs:41-58 | The collision pass is the pair handling applied to exactly the unordered pairs `i < j < n`, each once, in increasing lexicographic order. |
| Collision.RowAlong | src/simulation/update.rs:47-57 | One row of the inner loop keeps positions, projectiles, the random stream and every cop's payload, and only moves behaviours up the lattice. |
| Collision.RowsUpTo | src/simulation/update.rs:44-58 | The first `i` rows of the collision loops keep the same things as one row. |
| Collision.CollisionPass | src/simulation/update.rs:41-58 | The collision pass keeps positions, projectiles, the random stream and every cop's payload, and only moves behaviours up the lattice. |
| Collision.CollisionPassKeepsValid | src/simulation/update.rs:41-58 | The collision pass keeps the cop invariant: an infection can only turn a target into a zombie, never back into a civilian or cop. |
| Collision.RowsUpToNext | src/simulation/update.rs:44-57 | Each turn of the outer loop starts from a world whose entities are still pairwise apart and as many as before. It runs row `i` of the inner loop on that world. |
| Projectiles.Retain | src/simulation/update.rs:67-70 | The retain step keeps no more projectiles than it had, and every one it keeps is live. |
| Projectiles.RetainKeepsExactlyLive | src/simulation/update.rs:67-70 | A projectile survives the retain step if and only if its squared speed exceeds the minimum. |
| Projectiles.RetainKeepsOrder | src/simulation/update.rs:67-70 | The retain step keeps the survivors in order: it distributes over concatenation. |
| Projectiles.RetainIdempotent | src/simulation/update.rs:67-70 | Retaining twice is the same as retaining once. |
| Projectiles.StoppedIsSpent | src/simulation/update.rs:67-106 | A projectile stopped by a hit has zero velocity, so it is dropped on the next tick. |
| Projectiles.FirstHitUpTo | src/simulation/update.rs:78-100 | The hit candidate is always a living entity among those scanned, crossed at the recorded time. |
| Projectiles.FirstHitIsEarliest | src/simulation/update.rs:78-100 | The scan finds no hit exactly when no living entity is crossed. Otherwise it finds the living entity crossed first, the lowest index on equal times. |
| Projectiles.FindFirstHit | src/simulation/update.rs:78-100 | The hit-selection loop returns the scan's answer, with the same none-iff and earliest-hit guarantees. |
| Projectiles.ProjectileStep | src/simulation/update.rs:73-111 | One projectile's tick. With no hit, only the projectile's position changes. With a hit, exactly the first-crossed entity dies, the projectile stops, and a zombie-dead sound is logged. Either way the projectile ends at the end of its path. |
| Projectiles.ProjectileKillsFirstCrossed | src/simulation/update.rs:102-108 | Any living entity that a projectile's step kills is the entity its path crosses first. |
| Projectiles.ProjectilesUpTo | src/simulation/update.rs:72-112 | The projectile loop keeps the projectile count, positions, the random stream and every cop. It only moves behaviours up the lattice. |
| Projectiles.ProjectilePass | src/simulation/update.rs:67-112 | The projectile pass leaves exactly as many projectiles as were live. It keeps positions and the cop invariant, and only moves behaviours up the lattice. |
| Tick.Integrate | src/simulation/update.rs:60-65 | Each entity moves by its pre-damping velocity times `dt`. Its velocity becomes `(1 - dt/2)` times the old one. Facing and behaviour stay the same. |
| Tick.Tick | src/simulation/update.rs:18-113 | A whole tick keeps the entity count and the cop invariant, and only moves behaviours up the status lattice. |
| Tick.TickKeepsStatusLattice | src/simulation/update.rs:18-113 | After a tick the dead are still dead and a zombie is a zombie or dead. No civilian has become a cop, and no cop a civilian. |
| Tick.TickKeepsCopsInBounds | src/simulation/update.rs:18-113 | After a tick every cop has between zero and a full magazine. Every aiming cop has a round and a target index inside the list that holds a zombie or a corpse. |
| Tick.EvolveNeverLowersCounts | src/simulation/update.rs:123-134 | A step that only moves behaviours up the lattice never lowers the number of entities at or above any level. |
| Tick.TickNeverCures | src/simulation/update.rs:18-113 | Over a tick, the number of zombies and corpses together never falls, and neither does the number of corpses. |
| Entities.AllEvolveKeepsLattice | src/simulation/update.rs:123-134 | Moving up the lattice means: the dead stay dead, a zombie stays a zombie or dies, a civilian never becomes a cop, and a cop never becomes a civilian. |
| Entities.ValidAfterEvolve | src/simulation/update.rs:152-159 | If behaviours only move up the lattice and no cop's payload changes, the cop invariant holds afterwards: a target that was a zombie or corpse can only stay one. |
| Simulation.State.constructor | src/simulation/initial_state.rs:12 | A fresh state holds the given entities, no projectiles, an empty sound log, and the given stream position. |
| Simulation.State.Update | src/simulation/update.rs:18-113 | `update` leaves exactly the tick of the old state and keeps the cop invariant. |
| Simulation.State.ApplyBehaviours | src/simulation/update.rs:21-39 | The behaviour loop leaves exactly the behaviour pass of the old state. |
| Simulation.State.Act | src/simulation/update.rs:23-38 | The behaviour loop's body leaves exactly that entity's turn. |
| Simulation.State.UpdateCop | src/simulation/update.rs:142-281 | `update_cop` leaves exactly the world of the cop's turn and returns the cop's new behaviour. |
| Simulation.State.SimulateZombie | src/simulation/update.rs:283-311 | `simulate_zombie` leaves exactly the zombie's turn and changes nothing else. |
| Simulation.State.SimulateHuman | src/simulation/update.rs:313-341 | `simulate_human` leaves exactly the civilian's turn and changes nothing else. |
| Simulation.State.ResolveCollisions | src/simulation/update.rs:43-58 | The nested collision loops leave exactly the collision pass of the old state. |
| Simulation.State.NextRow | src/simulation/update.rs:44-57 | One turn of the outer collision loop takes the world from the first `i` rows of the pass to the first `i + 1`. |
| Simulation.State.CollideRow | src/simulation/update.rs:45-57 | The inner loop for row `i` leaves exactly that row of the pass. |
| Simulation.State.CollideIfOverlapping | src/simulation/update.rs:48-56 | The inner loop's body handles the pair exactly when it overlaps. |
| Simulation.State.HandleCollision | src/simulation/update.rs:115-140 | `handle_collision` leaves exactly the collision response. |
| Simulation.State.ApplyAcceleration | src/simulation/update.rs:60-65 | The integration loop leaves exactly the integration pass. |
| Simulation.State.SimulateProjectiles | src/simulation/update.rs:67-112 | Retain, then the projectile loop: together they leave exactly the projectile pass. |
| Simulation.State.SimulateProjectile | src/simulation/update.rs:73-111 | The projectile loop's body leaves exactly that projectile's step. |
| Spawning.HumanCount | src/simulation/initial_state.rs:23 | The civilian count is the largest whole number not above 80% of the population. |
| Spawning.CopCount | src/simulation/initial_state.rs:24 | The cop count is the largest whole number not above 18% of the population. |
| Spawning.SharesFit | src/simulation/initial_state.rs:25 | Civilians and cops together never outnumber the population, so the zombie count is never negative. |
| Spawning.InitialState | src/simulation/initial_state.rs:10-40 | The spawning loop creates `count` entities. Entity `i` is at the `i`-th coordinate pair, at rest, with the behaviour the branch tests give index `i`. Every position lies in `[0, 10)` on both axes, given samples from that range. The state has no projectiles and no sounds. |
| Spawning.PopulationCounts | src/simulation/initial_state.rs:23-37 | The population has exactly `floor(0.8 count)` civilians, `floor(0.18 count)` cops and the rest zombies, and no corpse. They lie in blocks: civilians first, then cops, then zombies. |
| Spawning.ZombiesAndCopsPresent | src/simulation/initial_state.rs:23-25 | A non-empty population always has at least one zombie. It has a cop exactly when it has at least six entities. |
| Spawning.InitialStateValid | src/simulation/initial_state.rs:26-37 | If cops start with between zero and a full magazine and are not aiming, the initial world meets the cop invariant. |

## Left out

- Scalars are `real`. The model does not capture `f64` rounding, NaN or
  infinity. The `INFINITY` sentinels of the scans become `Option`.
- Spawning.HumanCount and Spawning.CopCount take the floor of the exact real
  product. The source's `(count as f32 * 0.8) as u32` first rounds in `f32`,
  and that rounding is not modelled.
- Indices and counts are unbounded integers. The model does not capture
  `usize`/`u32` widths. The source's `rounds_in_magazine - 1` cannot go below
  zero anyway, because firing needs a round.
- Tick.Tick: requires that no two entities share a position. Collision
  handling divides by the pair's squared distance. When two entities coincide
  the source divides by zero and the velocities become NaN, which the model
  does not represent.
- Simulation.State.Update and Simulation.State.ResolveCollisions: carry the
  same requirement, for the same reason.
- Collision.CollisionResponse and Simulation.State.HandleCollision: require a
  positive squared distance, for the same reason.
- Tick.Tick and Simulation.State.Update: require the cop invariant
  `WorldValid` (magazine within bounds; an aiming cop holds a round and aims
  at an index in range that holds a zombie or a corpse). So do
  `Behaviours.CopStep`, `Behaviours.BehaviourStep`,
  `Behaviours.BehavioursUpTo`, `Behaviours.BehaviourPass`,
  `Simulation.State.ApplyBehaviours` and `Simulation.State.Act`. The source's
  `update` accepts any state. It fails only when an aiming cop's
  `target_index` is out of range, where the indexing at update.rs:153 panics.
  The model does not represent that panic. It also does not cover states that
  the source runs normally but that break the invariant, such as a cop
  holding more rounds than a full magazine or a cop aiming at a living
  civilian. `Spawning.InitialStateValid` establishes the invariant, and
  `Tick.Tick` keeps it.
- Spawning.InitialState: does not guarantee that positions differ. The source
  itself notes that two entities may be placed on the same spot.
- Sounds (`play_shotgun`, `play_person_infected`, `play_zombie_dead`) are
  recorded in a log instead of being played.
- The random samples are read from an oracle indexed by the stream position:
  the log-normal aim time and the normal angular deviation. Each draw
  advances the position by one. The distributions themselves are not
  modelled. The position samples of `initial_state` are drawn from the
  thread-local generator, not the state's. They are a parameter of
  `Spawning.InitialState`.
- The constants (`ENTITY_RADIUS`, `MIN_PROJECTILE_SPEED`, `BULLET_SPEED`,
  `COP_MAGAZINE_CAPACITY`, `COP_RELOAD_COOLDOWN`,
  `COP_MIN_DISTANCE_FROM_WAYPOINT_SQUARED`) are defined in files that are not
  part of this model. They are fields of a `Config` parameter.
- The geometry helpers `segment_circle_min_positive_intersect_time`,
  `rotate_by`, `look_along_vector` and `accelerate_along_vector` are in files
  that are not part of this model. They are function parameters (`Kernel`).
  The two steering helpers may change only an entity's velocity and facing.
- The `panic!` for a non-cop in `update_cop` cannot occur in the model:
  `UpdateCop` receives the cop's payload, and the dispatch only calls it on
  cops.
- `initial_state.rs` builds a `State` that holds only the entity list. The
  state used by `update.rs` also holds projectiles and a random generator.
  The model's constructor starts with no projectiles, an empty sound log and
  a given stream position.
- `initial_state.rs` builds entities without a facing and with a cop that
  carries no payload. This differs from the entity type `update.rs` uses. The
  model starts every facing at the zero vector, and the cops' rounds and state
  are parameters.
- `src/main.rs`, `src/presentation/display.rs`, `src/scenes/victory_screen.rs`
  and `src/core/vector/mod.rs` (rendering, input, scenes, vector re-exports)
  are not part of this model.
