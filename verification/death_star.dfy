/** The Death Star: a hull plus its three components, in the order the
    source lists them (reactor, field generator, super laser). Incoming
    damage first meets the shield, then lands on one component picked at
    random; the random pick is an input here. */
module DeathStars {
  import opened Primitives
  import opened Damages
  import opened Energies
  import Reactors
  import FieldGenerators
  import Cannons
  import Components

  const MaxHullHealthLevel: int := 2000

  /** Number of components damage can be routed to. */
  const ComponentCount: int := 3

  datatype DeathStar = DeathStar(
    hull: int,
    reactor: Reactors.Reactor,
    generator: FieldGenerators.Generator,
    cannon: Cannons.Cannon)

  predicate Valid(ds: DeathStar)
  {
    && 0 <= ds.hull <= MaxHullHealthLevel
    && Reactors.Valid(ds.reactor)
    && FieldGenerators.Valid(ds.generator)
    && Cannons.Valid(ds.cannon)
  }

  /** The constructor: the given components and a hull at full health. */
  function New(r: Reactors.Reactor, g: FieldGenerators.Generator, c: Cannons.Cannon): (ds: DeathStar)
    ensures ds.hull == MaxHullHealthLevel
    ensures ds.reactor == r && ds.generator == g && ds.cannon == c
    ensures Reactors.Valid(r) && FieldGenerators.Valid(g) && Cannons.Valid(c) ==> Valid(ds)
  {
    DeathStar(MaxHullHealthLevel, r, g, c)
  }

  /** The components' health in list order. */
  function ComponentHealths(ds: DeathStar): seq<int>
  {
    [ds.reactor.health, ds.generator.health, ds.cannon.health]
  }

  function Sum(s: seq<int>): int
    decreases |s|
  {
    if |s| == 0 then 0 else s[0] + Sum(s[1..])
  }

  /** `HealthLevel`: the hull plus every component, cast back to `short`.
      For a valid station the cast never wraps. */
  function HealthLevel(ds: DeathStar): (h: Int16)
    ensures Valid(ds) ==>
              h == ds.hull + ds.reactor.health + ds.generator.health + ds.cannon.health
    ensures Valid(ds) ==> ds.hull <= h <= MaxHullHealthLevel + Reactors.MaxHealth
                                      + FieldGenerators.MaxHealth + Cannons.MaxHealth
  {
    SumOfThree(ds.reactor.health, ds.generator.health, ds.cannon.health);
    ToInt16(ds.hull + Sum(ComponentHealths(ds)))
  }

  lemma SumOfThree(a: int, b: int, c: int)
    ensures Sum([a, b, c]) == a + b + c
  {
    assert [a, b, c][1..] == [b, c];
    assert [b, c][1..] == [c];
    assert [c][1..] == [];
    assert Sum([c]) == c + Sum([]);
    assert Sum([b, c]) == b + Sum([c]);
  }

  /** `ShieldLevel`: read through from the generator. */
  function ShieldLevel(ds: DeathStar): (s: int)
    ensures FieldGenerators.Valid(ds.generator) ==> 0 <= s <= FieldGenerators.MaxShieldLevel
  {
    ds.generator.shield
  }


  /** Health with the real super laser (200) beside a reactor and a
      generator that report no health is the hull plus 200: 2200. */
  lemma HealthWithSpentComponents(r: Reactors.Reactor, g: FieldGenerators.Generator)
    requires r.health == 0 && g.health == 0 && FieldGenerators.Valid(g)
    ensures HealthLevel(New(r, g, Cannons.New())) == 2200
  {
  }

  /** Lines 127-138 of `GetDamage` for a drawn `index`: the shield absorbs
      the blow (its residual is dropped), then the index picks a component,
      or the hull when it equals the component count. The original blow is
      what the target receives. */
  function Route(ds: DeathStar, d: Damage, index: int): (ds': DeathStar)
    requires 0 <= index <= ComponentCount
    ensures var shielded := FieldGenerators.AbsorbDamage(ds.generator, d).generator;
            && ds'.hull == (if index == ComponentCount then ToInt16(Max(0, ds.hull - d.level))
                            else ds.hull)
            && ds'.reactor == (if index == 0 then Reactors.GetDamage(ds.reactor, d) else ds.reactor)
            && ds'.generator == (if index == 1 then FieldGenerators.GetDamage(shielded, d) else shielded)
            && ds'.cannon == (if index == 2 then Cannons.GetDamage(ds.cannon, d) else ds.cannon)
    ensures Valid(ds) ==> Valid(ds')
  {
    var shielded := ds.(generator := FieldGenerators.AbsorbDamage(ds.generator, d).generator);
    if index == ComponentCount then
      shielded.(hull := ToInt16(Max(0, ds.hull - d.level)))
    else if index == 0 then
      shielded.(reactor := Reactors.GetDamage(shielded.reactor, d))
    else if index == 1 then
      shielded.(generator := FieldGenerators.GetDamage(shielded.generator, d))
    else
      shielded.(cannon := Cannons.GetDamage(shielded.cannon, d))
  }

  /** What a blow leaves behind: the station after routing, and whether
      `LastSeenException` was then thrown. The exception comes after the
      shield and the drawn component have taken the blow, so the station
      keeps those changes either way. */
  datatype Hit = Hit(star: DeathStar, lost: bool)

  /** `GetDamage(damage)`, where `index` is the value `Random.Next(3)` drew,
      hence in [0, 3). */
  function GetDamage(ds: DeathStar, damage: Option<Damage>, index: int): (res: Result<Hit>)
    requires 0 <= index < ComponentCount
    // a null blow is an invalid argument, raised before anything changes
    ensures res.Err? <==> damage.None?
    ensures res.Err? ==> res.fault == InvalidArgument
    // any blow is routed, and the routing stays even when the station is lost
    ensures damage.Some? ==> res.Ok? && res.value.star == Route(ds, damage.value, index)
    // the hull branch cannot be drawn: the hull is never hit directly
    ensures res.Ok? ==> res.value.star.hull == ds.hull
    // after routing, the station is lost exactly when its total health is
    // gone or its hull is gone
    ensures res.Ok? ==> (res.value.lost <==> HealthLevel(res.value.star) <= 0 || ds.hull <= 0)
  {
    if damage.None? then Err(InvalidArgument)
    else
      var ds' := Route(ds, damage.value, index);
      Ok(Hit(ds', HealthLevel(ds') <= 0 || ds'.hull <= 0))
  }

  /** Under fire the station's shield never rises, whether or not the
      station is lost, and once it is down a blow leaves it down. */
  lemma ShieldNeverRisesUnderFire(ds: DeathStar, d: Damage, index: int)
    requires 0 <= index < ComponentCount
    ensures var star := GetDamage(ds, Some(d), index).value.star;
            && ShieldLevel(star) <= ShieldLevel(ds)
            && (ShieldLevel(ds) <= 0 ==> ShieldLevel(star) == ShieldLevel(ds))
  {
  }

  /** Only the drawn component takes the blow, and it takes the whole blow,
      not the shield's residual; the others keep their state except for the
      shield wear from absorption. */
  lemma OnlyDrawnComponentHit(ds: DeathStar, d: Damage, index: int)
    requires 0 <= index < ComponentCount
    ensures var ds' := Route(ds, d, index);
            && ds'.hull == ds.hull
            && (index != 0 ==> ds'.reactor == ds.reactor)
            && (index != 2 ==> ds'.cannon == ds.cannon)
            && (index != 1 ==> ds'.generator.health == ds.generator.health)
            && (index == 0 ==> ds'.reactor.health == Reactors.GetDamage(ds.reactor, d).health)
            && (index == 2 ==> ds'.cannon.health == Components.Erode(ds.cannon.health, d.level))
  {
  }

  /** The shield's residual is dropped: a laser blow of 10 that the shield
      cuts to 1 still costs the super laser 10 health. */
  lemma UnreducedBlowReachesCannon()
    ensures var ds := New(Reactors.New(100.0), FieldGenerators.New(), Cannons.New());
            && FieldGenerators.AbsorbDamage(ds.generator, Damage(10, Laser)).residual
               == Some(Damage(1, Laser))
            && !GetDamage(ds, Some(Damage(10, Laser)), 2).value.lost
            && GetDamage(ds, Some(Damage(10, Laser)), 2).value.star.cannon.health == Cannons.MaxHealth - 10
  {
  }

  /** A station whose reactor reports deeply negative health is lost on the
      next blow, and still keeps that blow: the shield wore down to 99 and
      the super laser lost 10 health before the exception. */
  lemma LostStationKeepsTheBlow()
    ensures var ds := New(Reactors.Reactor(0.0, -3000, false, 0), FieldGenerators.New(), Cannons.New());
            var hit := GetDamage(ds, Some(Damage(10, Mechanic)), 2).value;
            && hit.lost
            && ShieldLevel(hit.star) == 99
            && hit.star.cannon.health == Cannons.MaxHealth - 10
  {
  }

  /** While the hull stands, no blow destroys a valid station: the hull is
      never hit, so the total never reaches zero. */
  lemma NoDestructionWhileHullStands(ds: DeathStar, d: Damage, index: int)
    requires Valid(ds) && ds.hull > 0
    requires 0 <= index < ComponentCount
    ensures !GetDamage(ds, Some(d), index).value.lost
  {
  }

  /** `StartAsync`: activates the reactor, the generator and the super laser
      in list order. `firstShieldReply` is the reactor's answer to the
      generator's first regeneration request. */
  function Start(ds: DeathStar, now: int, firstShieldReply: Option<Energy>): (ds': DeathStar)
    ensures ds'.hull == ds.hull
    ensures ds'.reactor == Reactors.Activate(ds.reactor, now)
    ensures ds'.generator == FieldGenerators.Activate(ds.generator, firstShieldReply)
    ensures ds'.cannon == Cannons.Activate(ds.cannon)
    ensures ComponentHealths(ds') == ComponentHealths(ds)
    // every component that is not destroyed ends up active
    ensures ds.reactor.health > 0 ==> ds'.reactor.active
    ensures ds.generator.health > 0 ==> ds'.generator.active
    ensures ds.cannon.health > 0 ==> ds'.cannon.active
    ensures Valid(ds) ==> Valid(ds')
  {
    ds.(reactor := Reactors.Activate(ds.reactor, now),
        generator := FieldGenerators.Activate(ds.generator, firstShieldReply),
        cannon := Cannons.Activate(ds.cannon))
  }

  /** `StopAsync`: deactivates the three components in list order. */
  function Stop(ds: DeathStar, now: int): (ds': DeathStar)
    ensures ds'.hull == ds.hull
    ensures ds'.reactor == Reactors.Deactivate(ds.reactor, now)
    ensures ds'.generator == FieldGenerators.Deactivate(ds.generator)
    ensures ds'.cannon == Cannons.Deactivate(ds.cannon)
    ensures ComponentHealths(ds') == ComponentHealths(ds)
    // reactor and generator go off unless destroyed; the super laser stays on
    ensures ds.reactor.health > 0 ==> !ds'.reactor.active
    ensures ds.generator.health > 0 ==> !ds'.generator.active
    ensures ds'.cannon.active == ds.cannon.active
    ensures Valid(ds) ==> Valid(ds')
  {
    ds.(reactor := Reactors.Deactivate(ds.reactor, now),
        generator := FieldGenerators.Deactivate(ds.generator),
        cannon := Cannons.Deactivate(ds.cannon))
  }

  /** Starting twice, or stopping twice, is the same as doing it once. */
  lemma StartStopIdempotent(ds: DeathStar, t1: int, t2: int, first: Option<Energy>, second: Option<Energy>)
    ensures Start(Start(ds, t1, first), t2, second) == Start(ds, t1, first)
    ensures Stop(Stop(ds, t1), t2) == Stop(ds, t1)
  {
    Reactors.SwitchIdempotent(ds.reactor, t1, t2);
    FieldGenerators.SwitchIdempotent(ds.generator, first, second);
  }

  /** What `DestroyAsync` leaves behind: the station and the laser's run. */
  datatype Salvo = Salvo(star: DeathStar, run: Cannons.ChargeRun)

  /** `DestroyAsync`: exactly the super laser's `FireAsync`, including the
      task faulting when the reactor explodes during the charge run. */
  function Destroy(ds: DeathStar, replies: seq<Cannons.Reply>): (res: Result<Salvo>)
    ensures res.Err? <==> Cannons.Fire(ds.cannon, replies).Err?
    ensures res.Err? ==> res.fault == InvalidState
    ensures res.Ok? ==> var shot := Cannons.Fire(ds.cannon, replies).value;
                        res.value == Salvo(ds.(cannon := shot.cannon), shot.run)
  {
    match Cannons.Fire(ds.cannon, replies)
    case Err(f) => Err(f)
    case Ok(shot) => Ok(Salvo(ds.(cannon := shot.cannon), shot.run))
  }

  /** A stopped and restarted station cannot charge its super laser any
      more: the laser never switched off, its cancellation stays signalled,
      and each later shot asks the reactor at most once, and exactly once
      while the laser is short of charge, so that one request can still
      meet an exploding reactor. */
  lemma RestartLeavesLaserCancelled(ds: DeathStar, t1: int, t2: int, reply: Option<Energy>,
                                    replies: seq<Cannons.Reply>)
    requires ds.cannon.active && ds.cannon.health > 0
    ensures var ds' := Start(Stop(ds, t1), t2, reply);
            && ds'.cannon.active && ds'.cannon.cancelled
            && Destroy(ds', replies).Ok?
            && Destroy(ds', replies).value.run.requests <= 1
            && (Cannons.NeedCharge(ds.cannon.charge) && |replies| > 0 ==>
                  Destroy(ds', replies).value.run.requests == 1)
  {
  }
}
