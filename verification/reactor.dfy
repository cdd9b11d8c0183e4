/** The reactor: an energy store that refills with elapsed time, hands out
    energy on request, explodes when queried while over its safe limit, and
    reacts to each damage type differently. Wall-clock time is an explicit
    `now`, measured in DateTime ticks. */
module Reactors {
  import opened Primitives
  import opened Damages
  import opened Energies
  import opened Components

  /** Energy a proton hit pumps into the reactor. */
  const ProtonRechargeLevel: real := 14645.87

  /** Above this level a request for energy makes the core explode. */
  const MaxAllowedCapacity: real := 6000.0

  const MaxHealth: int := 100

  /** Passive regeneration only runs below this level. */
  const EnergyCapacity: real := 3000.0

  /** Elapsed ticks per unit of regenerated energy. */
  const TicksPerEnergyUnit: int := 1000

  /** `lastUsed` is the time of the last activation, deactivation or
      successful grant; regeneration is measured from it. */
  datatype Reactor = Reactor(energy: real, health: int, active: bool, lastUsed: int)

  predicate Valid(r: Reactor)
  {
    0 <= r.health <= MaxHealth
  }

  /** The `Reactor(double currentEnergyLevel)` constructor: full health,
      inactive, the clock at DateTime's default of zero ticks. */
  function New(energy: real): (r: Reactor)
    ensures Valid(r) && r.health == MaxHealth && !r.active
    ensures r.energy == energy
  {
    Reactor(energy, MaxHealth, false, 0)
  }

  /** Stored energy after passive regeneration at `now`: one unit per 1000
      elapsed ticks (the `long` quotient truncates toward zero), and only
      while the store is below its capacity. */
  function Regenerated(r: Reactor, now: int): (e: real)
    ensures r.energy >= EnergyCapacity ==> e == r.energy
    // below capacity the gain is the number of whole 1000-tick periods
    // elapsed since `lastUsed` (rounded toward zero for a clock set back)
    ensures r.energy < EnergyCapacity ==>
              && (e - r.energy).Floor as real == e - r.energy
              && var gained, elapsed := (e - r.energy).Floor, now - r.lastUsed;
                 if elapsed >= 0 then 0 <= elapsed - TicksPerEnergyUnit * gained < TicksPerEnergyUnit
                 else -TicksPerEnergyUnit < elapsed - TicksPerEnergyUnit * gained <= 0
  {
    if r.energy < EnergyCapacity then
      var gained := TruncDiv(now - r.lastUsed, TicksPerEnergyUnit);
      assert (r.energy + gained as real) - r.energy == gained as real;
      assert (gained as real).Floor == gained;
      r.energy + gained as real
    else
      r.energy
  }

  /** What `GetEnergy` leaves behind: the new reactor state and the granted
      energy, or None for the source's null. */
  datatype Grant = Grant(reactor: Reactor, energy: Option<Energy>)

  /** `GetEnergy(level)` at time `now`. */
  function GetEnergy(r: Reactor, level: real, now: int): (res: Result<Grant>)
    requires level > 0.0
    // an inactive or destroyed reactor refuses and changes nothing
    ensures !r.active || r.health <= 0 ==> res == Ok(Grant(r, None))
    // the only failure is the explosion, raised before anything changes
    ensures res.Err? <==> r.active && r.health > 0 && r.energy > MaxAllowedCapacity
    ensures res.Err? ==> res.fault == Destroyed
    // health and the active flag are never touched
    ensures res.Ok? ==> res.value.reactor.health == r.health
                        && res.value.reactor.active == r.active
    // a grant happens exactly when the regenerated store covers the request
    ensures res.Ok? && res.value.energy.Some? <==>
              r.active && r.health > 0 && r.energy <= MaxAllowedCapacity
              && Regenerated(r, now) >= level
    // a grant is of exactly the requested level, which leaves the store
    ensures res.Ok? && res.value.energy.Some? ==>
              && res.value.energy.value.level == level
              && res.value.reactor.energy + level == Regenerated(r, now)
              && res.value.reactor.lastUsed == now
    // a refusal for lack of charge keeps the regenerated energy but not the time
    ensures res.Ok? && res.value.energy.None? && r.active && r.health > 0 ==>
              && res.value.reactor.energy == Regenerated(r, now)
              && res.value.reactor.lastUsed == r.lastUsed
  {
    if !r.active then Ok(Grant(r, None))
    else if r.health <= 0 then Ok(Grant(r, None))
    else if r.energy > MaxAllowedCapacity then Err(Destroyed)
    else
      var e := Regenerated(r, now);
      if e - level < 0.0 then Ok(Grant(r.(energy := e), None))
      else Ok(Grant(r.(energy := e - level, lastUsed := now), Some(Energy(level))))
  }

  /** `GetDamage(damage)`: ion fire drains energy (subtracted twice), proton
      fire recharges without any limit, everything else wears health down. */
  function GetDamage(r: Reactor, d: Damage): (r': Reactor)
    ensures d.kind == Ion ==>
              && r'.energy == (if r.energy < 2.0 * d.level as real then 0.0
                               else r.energy - 2.0 * d.level as real)
              && r'.health == r.health
    ensures d.kind == Proton ==>
              r'.energy == r.energy + ProtonRechargeLevel && r'.health == r.health
    ensures d.kind == Laser || d.kind == Mechanic ==>
              r'.energy == r.energy && r'.health == Erode(r.health, d.level)
    ensures r'.active == r.active && r'.lastUsed == r.lastUsed
    ensures Valid(r) ==> Valid(r')
  {
    match d.kind
    case Ion =>
      var drained := r.energy - d.level as real;
      r.(energy := if drained - d.level as real < 0.0 then 0.0 else drained - d.level as real)
    case Proton =>
      r.(energy := r.energy + ProtonRechargeLevel)
    case _ =>
      r.(health := Erode(r.health, d.level))
  }

  /** `ActivateAsync`: switches on and restarts the regeneration clock,
      unless already on or destroyed. */
  function Activate(r: Reactor, now: int): (r': Reactor)
    ensures Switches(r.active, r.health, true) ==> r' == r.(active := true, lastUsed := now)
    ensures !Switches(r.active, r.health, true) ==> r' == r
    ensures r'.active <==> r.active || r.health > 0
  {
    if Switches(r.active, r.health, true) then r.(active := true, lastUsed := now) else r
  }

  /** `DeactivateAsync`: switches off and stamps the time, unless already off
      or destroyed. */
  function Deactivate(r: Reactor, now: int): (r': Reactor)
    ensures Switches(r.active, r.health, false) ==> r' == r.(active := false, lastUsed := now)
    ensures !Switches(r.active, r.health, false) ==> r' == r
    ensures r'.active <==> r.active && r.health <= 0
  {
    if Switches(r.active, r.health, false) then r.(active := false, lastUsed := now) else r
  }

  /** Activation and deactivation are idempotent: a second call, at any
      later time, changes nothing. */
  lemma SwitchIdempotent(r: Reactor, t1: int, t2: int)
    ensures Activate(Activate(r, t1), t2) == Activate(r, t1)
    ensures Deactivate(Deactivate(r, t1), t2) == Deactivate(r, t1)
  {
  }

  /** A freshly built reactor holding 100, activated at `t`, grants any
      request up to 100 at that same instant, in full, and keeps the rest. */
  lemma FreshReactorGrants(level: real, t: int)
    requires 0.0 < level <= 100.0
    ensures GetEnergy(Activate(New(100.0), t), level, t)
            == Ok(Grant(Reactor(100.0 - level, MaxHealth, true, t), Some(Energy(level))))
  {
  }

  /** A reactor built over the safe limit explodes on the first request,
      whatever is asked and whenever. */
  lemma OverchargedReactorExplodes(energy: real, t: int, level: real, now: int)
    requires energy > MaxAllowedCapacity && level > 0.0
    ensures GetEnergy(Activate(New(energy), t), level, now) == Err(Destroyed)
  {
  }

  /** One proton hit lifts any reactor that is not deeply negative past the
      explosion threshold, so the next request to a running reactor blows
      it up. */
  lemma ProtonHitPrimesExplosion(r: Reactor, level: DamageLevel, request: real, now: int)
    requires r.active && r.health > 0 && r.energy >= 0.0
    requires request > 0.0
    ensures GetEnergy(GetDamage(r, Damage(level, Proton)), request, now) == Err(Destroyed)
  {
  }

  /** A refusal keeps the regenerated energy but not the time stamp, so the
      next request credits the same idle period again: a reactor holding
      nothing refuses 100 after 50 000 ticks, keeping 50, and then grants
      the same request at the same instant. */
  lemma RefusalCreditsIdleTwice()
    ensures var r := Reactor(0.0, MaxHealth, true, 0);
            var first := GetEnergy(r, 100.0, 50_000);
            && first == Ok(Grant(Reactor(50.0, MaxHealth, true, 0), None))
            && GetEnergy(first.value.reactor, 100.0, 50_000)
               == Ok(Grant(Reactor(0.0, MaxHealth, true, 50_000), Some(Energy(100.0))))
  {
  }

  /** Passive regeneration is gated by the capacity, not capped by it: one
      long idle period lifts a reactor just below capacity past the explosion
      threshold without the request that does so failing. */
  lemma RegenerationOvershoots()
    ensures var r := Reactor(2999.0, MaxHealth, true, 0);
            var g := GetEnergy(r, 1.0, 4_000_000);
            && g.Ok? && g.value.energy.Some?
            && g.value.reactor.energy > MaxAllowedCapacity
            && GetEnergy(g.value.reactor, 1.0, 4_000_000) == Err(Destroyed)
  {
  }
}
