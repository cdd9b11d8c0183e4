/** The protective field generator: a shield that takes part of each blow,
    wears down by half of what gets through, and is topped up by a periodic
    regeneration loop fed with energy from a reactor. The reactor is an
    interface here, so its replies are inputs; the loop is a fold over them. */
module FieldGenerators {
  import opened Primitives
  import opened Damages
  import opened Energies
  import opened Components
  import Reactors

  const MaxHealth: int := 120
  const MaxShieldLevel: int := 100

  /** Shield gained per regeneration tick. */
  const ShieldRegenerationLevel: int := 4

  /** Energy each regeneration tick asks the reactor for. */
  const RegenerationRequest: real := 10.0

  /** How close a reply must be to the request to count as full. */
  const Tolerance: real := 0.0000000001

  datatype Generator = Generator(health: int, active: bool, shield: int)

  predicate Valid(g: Generator)
  {
    0 <= g.health <= MaxHealth && 0 <= g.shield <= MaxShieldLevel
  }

  /** The constructor: full health, full shield, inactive. */
  function New(): (g: Generator)
    ensures Valid(g) && !g.active
    ensures g.health == MaxHealth && g.shield == MaxShieldLevel
  {
    Generator(MaxHealth, false, MaxShieldLevel)
  }

  /** The absorption factor of each damage type, in percent (the source's
      0.2, 0.1, 0.9 and 0.74). */
  function ReducePercent(k: DamageType): (p: nat)
    ensures p <= 100
  {
    match k
    case Ion => 20
    case Proton => 10
    case Laser => 90
    case Mechanic => 74
  }

  /** The part of a blow the field takes: `Math.Round(factor * level)`,
      ties to even. It never exceeds the blow. */
  function Absorbed(level: DamageLevel, k: DamageType): (a: nat)
    ensures IsRoundHalfEven(ReducePercent(k) * level, 100, a)
    ensures a <= level
  {
    var p := ReducePercent(k);
    assert p * level <= 100 * level;
    RoundHalfEven(p * level, 100)
  }

  /** What `AbsorbDamage` leaves behind: the new generator state and the
      damage that got through, None for the source's null. */
  datatype Absorption = Absorption(generator: Generator, residual: Option<Damage>)

  /** `AbsorbDamage(damage)`. */
  function AbsorbDamage(g: Generator, d: Damage): (res: Absorption)
    // with the shield down the blow passes untouched
    ensures g.shield <= 0 ==> res == Absorption(g, Some(d))
    // otherwise what gets through is the blow minus the absorbed part ...
    ensures g.shield > 0 ==>
              var left := d.level - Absorbed(d.level, d.kind);
              && 0 <= left <= d.level
              // ... nothing at all leaves the shield as it was ...
              && (left == 0 ==> res == Absorption(g, None))
              // ... and a real remainder costs half of itself in shield
              && (left > 0 ==> res == Absorption(g.(shield := Max(0, g.shield - left / 2)),
                                                 Some(Damage(left, d.kind))))
    // the shield never grows, and only the shield changes
    ensures res.generator.shield <= g.shield
    ensures res.generator == g.(shield := res.generator.shield)
    ensures res.residual.Some? ==> res.residual.value.kind == d.kind
                                   && res.residual.value.level <= d.level
    ensures Valid(g) ==> Valid(res.generator)
  {
    if g.shield <= 0 then Absorption(g, Some(d))
    else
      var left := d.level - Absorbed(d.level, d.kind);
      if left <= 0 then Absorption(g, None)
      else Absorption(g.(shield := Max(0, g.shield - left / 2)), Some(Damage(left, d.kind)))
  }

  /** A blow of 10 with a standing shield lets 8, 9, 1 and 3 through for
      ion, proton, laser and mechanical damage. A blow of 100 lets 100 - p
      through, which pins each absorption factor p exactly. */
  lemma AbsorbVectors(g: Generator)
    requires g.shield > 0
    ensures AbsorbDamage(g, Damage(10, Ion)).residual == Some(Damage(8, Ion))
    ensures AbsorbDamage(g, Damage(10, Proton)).residual == Some(Damage(9, Proton))
    ensures AbsorbDamage(g, Damage(10, Laser)).residual == Some(Damage(1, Laser))
    ensures AbsorbDamage(g, Damage(10, Mechanic)).residual == Some(Damage(3, Mechanic))
    ensures AbsorbDamage(g, Damage(100, Ion)).residual == Some(Damage(80, Ion))
    ensures AbsorbDamage(g, Damage(100, Proton)).residual == Some(Damage(90, Proton))
    ensures AbsorbDamage(g, Damage(100, Laser)).residual == Some(Damage(10, Laser))
    ensures AbsorbDamage(g, Damage(100, Mechanic)).residual == Some(Damage(26, Mechanic))
  {
  }

  /** Whether a reactor reply counts as the full requested charge. */
  predicate FullCharge(reply: Option<Energy>)
  {
    reply.Some? && Abs(reply.value.level - RegenerationRequest) < Tolerance
  }

  /** One pass of the regeneration loop, given the reactor's reply to the
      request for 10: a full reply raises the shield by 4, never beyond 100;
      a destroyed generator does nothing (the loop breaks). */
  function RegenerationTick(g: Generator, reply: Option<Energy>): (g': Generator)
    ensures g.health > 0 && FullCharge(reply) ==>
              g'.shield == Min(MaxShieldLevel, g.shield + ShieldRegenerationLevel)
    ensures g.health <= 0 || !FullCharge(reply) ==> g' == g
    ensures g' == g.(shield := g'.shield)
    ensures Valid(g) ==> Valid(g') && g.shield <= g'.shield
  {
    if g.health <= 0 then g
    else if FullCharge(reply) then
      g.(shield := Min(MaxShieldLevel, g.shield + ShieldRegenerationLevel))
    else g
  }

  /** The regeneration loop over a run of reactor replies, one per tick. */
  function Regenerate(g: Generator, replies: seq<Option<Energy>>): (g': Generator)
    // only the shield changes, and it never falls
    ensures g' == g.(shield := g'.shield)
    ensures Valid(g) ==> Valid(g') && g.shield <= g'.shield
    decreases |replies|
  {
    if |replies| == 0 then g
    else Regenerate(RegenerationTick(g, replies[0]), replies[1..])
  }

  /** The number of replies that count as a full charge. */
  function FullCharges(replies: seq<Option<Energy>>): (n: nat)
    ensures n <= |replies|
    decreases |replies|
  {
    if |replies| == 0 then 0
    else (if FullCharge(replies[0]) then 1 else 0) + FullCharges(replies[1..])
  }

  /** Over any run of ticks the shield rises by 4 per full reply, saturating
      at 100; a destroyed generator gains nothing; nothing but the shield
      changes. */
  lemma {:induction false} RegenerateShield(g: Generator, replies: seq<Option<Energy>>)
    requires Valid(g)
    ensures var g' := Regenerate(g, replies);
            && g' == g.(shield := g'.shield)
            && g'.shield == (if g.health <= 0 then g.shield
                             else Min(MaxShieldLevel, g.shield + ShieldRegenerationLevel * FullCharges(replies)))
    decreases |replies|
  {
    if |replies| > 0 {
      RegenerateShield(RegenerationTick(g, replies[0]), replies[1..]);
    }
  }

  /** A grant from the model reactor for the tick's request is always a full
      charge, so it always feeds the shield. */
  lemma ReactorGrantIsFullCharge(r: Reactors.Reactor, now: int)
    requires var res := Reactors.GetEnergy(r, RegenerationRequest, now);
             res.Ok? && res.value.energy.Some?
    ensures FullCharge(Reactors.GetEnergy(r, RegenerationRequest, now).value.energy)
  {
  }

  /** `GetDamage(damage)`: the full blow wears health down. */
  function GetDamage(g: Generator, d: Damage): (g': Generator)
    ensures g'.health == Erode(g.health, d.level)
    ensures g' == g.(health := g'.health)
    ensures Valid(g) ==> Valid(g')
  {
    g.(health := Erode(g.health, d.level))
  }

  /** `ActivateAsync`: unless already on or destroyed, switches on and starts
      the regeneration loop, whose first tick runs before the call returns
      (the loop only yields at its first delay); `firstReply` is the
      reactor's answer to that tick. */
  function Activate(g: Generator, firstReply: Option<Energy>): (g': Generator)
    ensures Switches(g.active, g.health, true) ==>
              g' == RegenerationTick(g.(active := true), firstReply)
    ensures !Switches(g.active, g.health, true) ==> g' == g
    ensures g'.active <==> g.active || g.health > 0
    ensures g'.health == g.health
    ensures Valid(g) ==> Valid(g')
  {
    if Switches(g.active, g.health, true) then RegenerationTick(g.(active := true), firstReply)
    else g
  }

  /** `DeactivateAsync`: unless already off or destroyed, switches off and
      cancels the regeneration loop. */
  function Deactivate(g: Generator): (g': Generator)
    ensures Switches(g.active, g.health, false) ==> g' == g.(active := false)
    ensures !Switches(g.active, g.health, false) ==> g' == g
    ensures g'.active <==> g.active && g.health <= 0
  {
    if Switches(g.active, g.health, false) then g.(active := false) else g
  }

  /** Activating a generator with a full shield leaves the shield full and
      the generator on, whatever the reactor answers. */
  lemma ActivateAtFullShield(reply: Option<Energy>)
    ensures Activate(New(), reply) == New().(active := true)
  {
  }

  /** Activation and deactivation are idempotent. */
  lemma SwitchIdempotent(g: Generator, first: Option<Energy>, second: Option<Energy>)
    ensures Activate(Activate(g, first), second) == Activate(g, first)
    ensures Deactivate(Deactivate(g)) == Deactivate(g)
  {
  }
}
