/** The cop state machine. `CopNext` is its transition table, a function of
    what the cop perceives this tick; `CopUpdate` is the whole of one cop's
    turn as the source performs it, including turning, steering, drawing
    random samples and firing, and its contract ties it back to the table. */
module CopMachine {
  import opened Optional
  import opened Geometry
  import opened Entities
  import opened Targeting

  /** What the table needs to know about the world: whether an aiming cop's
      target is dead, whether a moving cop is within its waypoint threshold,
      and the nearest zombie an idle cop could aim at. */
  datatype Percept = Percept(targetDead: bool, nearWaypoint: bool, nearestZombie: Option<nat>)

  /** The table's answer: the new magazine count, the new state, and whether
      a round is fired this tick. */
  datatype CopDecision = CopDecision(rounds: int, state: CopState, fires: bool)

  /** The magazine invariant: between empty and full, and never aiming
      without a round to fire. */
  predicate MagazineOk(rounds: int, cs: CopState, capacity: int) {
    0 <= rounds <= capacity && (cs.Aiming? ==> rounds > 0)
  }

  /** The transition table. `aimTime` is the sample drawn when an idle cop
      starts aiming. */
  function CopNext(rounds: int, cs: CopState, pc: Percept, aimTime: real, dt: real, cfg: Config): (d: CopDecision)
    ensures d.fires <==> cs.Aiming? && !pc.targetDead && cs.aimTimeRemaining - dt <= 0.0
    ensures d.fires ==> d.rounds == rounds - 1 && d.state == Idle
    ensures !d.fires ==>
              d.rounds == rounds || (cs.Reloading? && d.state == Idle && d.rounds == cfg.copMagazineCapacity)
    ensures d.state.Aiming? ==>
              || (cs.Aiming? && d.state.targetIndex == cs.targetIndex)
              || (cs == Idle && rounds > 0 && pc.nearestZombie == Some(d.state.targetIndex))
    ensures cfg.copMagazineCapacity >= 0 && MagazineOk(rounds, cs, cfg.copMagazineCapacity) ==>
              MagazineOk(d.rounds, d.state, cfg.copMagazineCapacity)
  {
    match cs
    case Aiming(t, target) =>
      if pc.targetDead then CopDecision(rounds, Idle, false)
      else if t - dt > 0.0 then CopDecision(rounds, Aiming(t - dt, target), false)
      else CopDecision(rounds - 1, Idle, true)
    case Moving(waypoint) =>
      if pc.nearWaypoint then CopDecision(rounds, Idle, false)
      else CopDecision(rounds, Moving(waypoint), false)
    case Reloading(t) =>
      if t - dt > 0.0 then CopDecision(rounds, Reloading(t - dt), false)
      else CopDecision(cfg.copMagazineCapacity, Idle, false)
    case Idle =>
      if rounds <= 0 then CopDecision(rounds, Reloading(cfg.copReloadCooldown), false)
      else match pc.nearestZombie
        case None => CopDecision(rounds, Idle, false)
        case Some(m) => CopDecision(rounds, Aiming(aimTime, m), false)
  }

  /** An idle cop with an empty magazine starts reloading for the full
      cooldown, keeping its round count. */
  lemma IdleEmptyStartsReloading(rounds: int, pc: Percept, aimTime: real, dt: real, cfg: Config)
    requires rounds <= 0
    ensures CopNext(rounds, Idle, pc, aimTime, dt, cfg) == CopDecision(rounds, Reloading(cfg.copReloadCooldown), false)
  {
  }

  /** An aiming cop whose target is dead goes back to idle without firing. */
  lemma DeadTargetAbortsAim(rounds: int, t: real, target: nat, pc: Percept, aimTime: real, dt: real, cfg: Config)
    requires pc.targetDead
    ensures CopNext(rounds, Aiming(t, target), pc, aimTime, dt, cfg) == CopDecision(rounds, Idle, false)
  {
  }

  /** A moving cop within the waypoint threshold becomes idle. */
  lemma ArrivalStopsMoving(rounds: int, waypoint: Vector2, pc: Percept, aimTime: real, dt: real, cfg: Config)
    requires pc.nearWaypoint
    ensures CopNext(rounds, Moving(waypoint), pc, aimTime, dt, cfg) == CopDecision(rounds, Idle, false)
  {
  }

  function Sum(dts: seq<real>): real {
    if dts == [] then 0.0 else dts[0] + Sum(dts[1..])
  }

  lemma {:induction false} SumNonNegative(dts: seq<real>)
    requires forall k :: 0 <= k < |dts| ==> dts[k] >= 0.0
    ensures Sum(dts) >= 0.0
  {
    if dts != [] {
      SumNonNegative(dts[1..]);
    }
  }

  /** A reloading cop run through ticks of lengths `dts`, stopping at the tick
      in which the reload finishes. */
  function ReloadRun(rounds: int, t: real, dts: seq<real>, cfg: Config): CopDecision
    decreases |dts|
  {
    if dts == [] then CopDecision(rounds, Reloading(t), false)
    else
      var d := CopNext(rounds, Reloading(t), Percept(false, false, None), 0.0, dts[0], cfg);
      if d.state.Reloading? then ReloadRun(d.rounds, d.state.reloadTimeRemaining, dts[1..], cfg)
      else d
  }

  /** Once ticks totalling at least the remaining reload time have elapsed,
      the cop is idle with a full magazine; before that it is still reloading
      with its old round count and the remaining time reduced by the total. */
  lemma {:induction false} ReloadCompletes(rounds: int, t: real, dts: seq<real>, cfg: Config)
    requires t > 0.0
    requires forall k :: 0 <= k < |dts| ==> dts[k] >= 0.0
    ensures Sum(dts) >= t ==> ReloadRun(rounds, t, dts, cfg) == CopDecision(cfg.copMagazineCapacity, Idle, false)
    ensures Sum(dts) < t ==> ReloadRun(rounds, t, dts, cfg) == CopDecision(rounds, Reloading(t - Sum(dts)), false)
    decreases |dts|
  {
    if dts != [] {
      var rest := dts[1..];
      assert forall k :: 0 <= k < |rest| ==> rest[k] == dts[k + 1];
      SumNonNegative(rest);
      if t - dts[0] > 0.0 {
        ReloadCompletes(rounds, t - dts[0], rest, cfg);
      }
    }
  }

  /** What the cop at `index` perceives. The nearest zombie is only looked
      for by an idle cop that has a round to fire. */
  function CopPercept(w: World, index: nat, rounds: int, cs: CopState, cfg: Config): Percept
    requires index < |w.entities|
    requires cs.Aiming? ==> cs.targetIndex < |w.entities|
  {
    var me := w.entities[index];
    Percept(
      cs.Aiming? && w.entities[cs.targetIndex].behaviour == Dead,
      cs.Moving? && LengthSquared(Sub(cs.waypoint, me.position)) < cfg.copMinDistanceFromWaypointSquared,
      if cs == Idle && rounds > 0 then Nearest(w.entities, me.position, Zombies) else None)
  }

  /** The new world and the cop's new behaviour after its turn. */
  datatype CopOutcome = CopOutcome(world: World, behaviour: Behaviour)

  /** One cop's turn, branch by branch as the source takes it. The returned
      behaviour is not yet written back; the entity's motion may already have
      changed. */
  function CopUpdate(w: World, index: nat, rounds: int, cs: CopState, dt: real, cfg: Config, kernel: Kernel, rnd: Random): (r: CopOutcome)
    requires index < |w.entities|
    requires cs.Aiming? ==> cs.targetIndex < |w.entities|
    ensures |r.world.entities| == |w.entities|
    ensures forall k :: 0 <= k < |w.entities| && k != index ==> r.world.entities[k] == w.entities[k]
    ensures r.world.entities[index].position == w.entities[index].position
    ensures r.world.entities[index].behaviour == w.entities[index].behaviour
    ensures var d := CopNext(rounds, cs, CopPercept(w, index, rounds, cs, cfg), rnd.aimTime(w.rng), dt, cfg);
            && r.behaviour == Cop(d.rounds, d.state)
            && |r.world.projectiles| == |w.projectiles| + (if d.fires then 1 else 0)
            && r.world.projectiles[..|w.projectiles|] == w.projectiles
            && r.world.sounds == w.sounds + (if d.fires then [Shotgun] else [])
            && r.world.rng == w.rng + (if d.fires || (cs == Idle && d.state.Aiming?) then 1 else 0)
    // The shot leaves from just outside the cop along the deviated aim
    // direction, at the bullet speed scaled by that direction.
    ensures var d := CopNext(rounds, cs, CopPercept(w, index, rounds, cs, cfg), rnd.aimTime(w.rng), dt, cfg);
            d.fires ==>
              var me := w.entities[index];
              var deltaNormal := kernel.rotateBy(Sub(w.entities[cs.targetIndex].position, me.position),
                                                 rnd.angularDeviation(w.rng));
              r.world.projectiles[|w.projectiles|] ==
                Projectile(Add(me.position, Scale(1.125 * cfg.entityRadius, deltaNormal)),
                           Scale(cfg.bulletSpeed, deltaNormal))
    // An aiming cop with a live target turns towards it; a moving cop away
    // from its waypoint accelerates towards it; otherwise the cop's motion
    // is unchanged.
    ensures var me := w.entities[index];
            var pc := CopPercept(w, index, rounds, cs, cfg);
            && (cs.Aiming? && !pc.targetDead ==>
                  r.world.entities[index] ==
                    WithMotion(me, kernel.lookAlong(me, Sub(w.entities[cs.targetIndex].position, me.position), dt)))
            && (cs.Moving? && !pc.nearWaypoint ==>
                  r.world.entities[index] ==
                    WithMotion(me, kernel.accelerateAlong(me, Sub(cs.waypoint, me.position), dt)))
            && (!(cs.Aiming? && !pc.targetDead) && !(cs.Moving? && !pc.nearWaypoint) ==>
                  r.world.entities[index] == me)
  {
    var me := w.entities[index];
    match cs
    case Aiming(aimTimeRemaining, target) =>
      if w.entities[target].behaviour == Dead then
        CopOutcome(w, Cop(rounds, Idle))
      else
        var delta := Sub(w.entities[target].position, me.position);
        var me' := WithMotion(me, kernel.lookAlong(me, delta, dt));
        var es := w.entities[index := me'];
        var t := aimTimeRemaining - dt;
        if t > 0.0 then
          CopOutcome(w.(entities := es), Cop(rounds, Aiming(t, target)))
        else
          var deltaNormal := kernel.rotateBy(delta, rnd.angularDeviation(w.rng));
          var shot := Projectile(Add(me'.position, Scale(1.125 * cfg.entityRadius, deltaNormal)),
                                 Scale(cfg.bulletSpeed, deltaNormal));
          CopOutcome(World(es, w.projectiles + [shot], w.rng + 1, w.sounds + [Shotgun]), Cop(rounds - 1, Idle))
    case Moving(waypoint) =>
      var delta := Sub(waypoint, me.position);
      if LengthSquared(delta) < cfg.copMinDistanceFromWaypointSquared then
        CopOutcome(w, Cop(rounds, Idle))
      else
        var me' := WithMotion(me, kernel.accelerateAlong(me, delta, dt));
        CopOutcome(w.(entities := w.entities[index := me']), Cop(rounds, Moving(waypoint)))
    case Reloading(reloadTimeRemaining) =>
      var t := reloadTimeRemaining - dt;
      if t > 0.0 then CopOutcome(w, Cop(rounds, Reloading(t)))
      else CopOutcome(w, Cop(cfg.copMagazineCapacity, Idle))
    case Idle =>
      if rounds <= 0 then
        CopOutcome(w, Cop(rounds, Reloading(cfg.copReloadCooldown)))
      else
        match Nearest(w.entities, me.position, Zombies)
        case Some(m) => CopOutcome(w.(rng := w.rng + 1), Cop(rounds, Aiming(rnd.aimTime(w.rng), m)))
        case None => CopOutcome(w, Cop(rounds, Idle))
  }

  /** An idle cop with a round to fire aims at the nearest zombie, the lowest
      index among equally near ones, and stays idle when there is none. */
  lemma IdleCopAimsAtNearestZombie(w: World, index: nat, rounds: int, dt: real, cfg: Config, kernel: Kernel, rnd: Random)
    requires index < |w.entities|
    requires rounds > 0
    ensures var b := CopUpdate(w, index, rounds, Idle, dt, cfg, kernel, rnd).behaviour;
            && b.Cop? && b.roundsInMagazine == rounds
            && (b.state == Idle <==> forall k :: 0 <= k < |w.entities| ==> w.entities[k].behaviour != Zombie)
            && ((exists k :: 0 <= k < |w.entities| && w.entities[k].behaviour == Zombie) ==>
                  b.state.Aiming? && b.state.aimTimeRemaining == rnd.aimTime(w.rng))
            && (b.state.Aiming? ==>
                  IsNearest(w.entities, w.entities[index].position, Zombies, |w.entities|, b.state.targetIndex))
  {
    NearestIsArgmin(w.entities, w.entities[index].position, Zombies, |w.entities|);
  }
}
