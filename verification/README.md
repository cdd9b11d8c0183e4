# Death Star damage and energy accounting, in Dafny

This project models how the Death Star toy system keeps track of damage and energy. The station has a hull and three components. The reactor stores energy, refills it over time, and explodes if it is asked for energy while over its safe limit. The protective field generator keeps a shield: the shield takes part of each blow and is topped up by a regeneration loop that draws energy from the reactor. The super laser collects energy from the reactor, 100 units per request, until it has the 1500 a shot needs.

Each component is an immutable record, and each operation is a pure function from one state to the next. C# exceptions become a `Result` with the three faults the code throws: invalid argument, invalid state, and `LastSeenException` (`Destroyed`). Three kinds of outside input are passed in explicitly:

- the clock, as `now` in DateTime ticks; where one call reads `DateTime.UtcNow` twice (the reactor's regeneration measurement and its time stamp), both reads are taken at the same instant;
- the index that `Random.Next(3)` drew;
- the reactor's replies to the two loops.

The generator and the laser hold an `IReactor` interface, so each reply is an input: a granted `Energy`, or `None` for null. The laser's replies can also be the exception a request threw (`Cannons.Reply`), because the charge loop catches only cancellation. The two background loops become folds over sequences of replies:

- `FieldGenerators.Regenerate` for the shield's regeneration loop;
- `Cannons.ChargeLoop` for the laser's charge loop.

Modules follow the source files:

- `Primitives`: nullable values, faults, the `(short)` cast, `long` division, and `Math.Round` with ties to even.
- `Damages`: `Damage.cs` and `DamageType.cs`.
- `Energies`: `Energy.cs`.
- `Components`: what the three components share. A blow wears health down to a floor of 0. Activation and deactivation are guarded.
- `Reactors`: `Reactor.cs`.
- `FieldGenerators`: `ProtectiveFieldGenerator.cs`.
- `Cannons`: `SuperLaserCannon.cs`.
- `DeathStars`: `DeathStar.cs`.

Behaviour that looks unintended is modelled as written, and its consequences are proved:

- The routing index is drawn from [0, 3). The hull branch (index 3) is never taken, so `GetDamage` never touches the hull. `DeathStars.Route` still models the hull branch for index 3.
- The shield's residual is computed and then dropped. The chosen component receives the original blow.
- The hull starts at 2000 and nothing lowers it. The destruction check in `GetDamage` can therefore never fire on a valid station (`DeathStars.NoDestructionWhileHullStands`).
- Ion damage is subtracted from the reactor's energy twice.
- A reactor that refuses a request for lack of charge keeps the regenerated energy but not the new time stamp, so the next request credits the same idle period again (`Reactors.RefusalCreditsIdleTwice`).
- The super laser's `DeactivateAsync` only signals a cancellation source. That source is created once with the cannon and never renewed. The laser stays active, and every later shot asks the reactor at most once.

The model also keeps these details of the code:

- `Reactor.GetDamage` subtracts an ion blow's level twice and floors only the second result at 0. The net effect is `max(0, E - 2L)`.
- The laser's `DeactivateAsync` never clears `IsActive`, whereas the reactor's and the generator's do.
- The reactor's `DeactivateAsync` stamps `_lastUsingUtc`, just as its activation does.
- The generator's `ActivateAsync` runs the first regeneration tick before it returns, because the async loop only yields at its first delay. `FieldGenerators.Activate` therefore takes the reactor's reply to that tick.
- A reactor that explodes while the laser is charging faults the task that `FireAsync` and `DestroyAsync` return. The grants collected before the explosion stay in the laser. Because `DeactivateAsync` returns that same faulted task, a later `StopAsync` faults too; awaiting tasks is not modelled, so this is not stated in Dafny.

## Model

| member | source | states |
|---|---|---|
| Damages.NewDamage | src/DeathStar/Damage.cs:21-27 | a negative level is refused with an invalid-argument error; any other level and the type are stored unchanged |
| Damages.NewDamageRoundTrip | src/DeathStar/Damage.cs:13-26 | every damage that can be built has its level in [0, 32767], and rebuilding it from its own fields gives it back |
| Energies.NewEnergy | src/DeathStar/Energy.cs:16-20 | a level of zero or below is refused; a positive level is stored exactly |
| Primitives.ToInt16 | src/DeathStar/DeathStar.cs:59 | the `(short)` cast keeps the value modulo 2^16 and is the identity on the short range |
| Primitives.TruncDiv | src/DeathStar/Reactor.cs:83 | `long` division truncates toward zero: the remainder has the dividend's sign and is smaller than the divisor |
| Primitives.RoundHalfEven | src/DeathStar/ProtectiveFieldGenerator.cs:206 | `Math.Round` on n/d returns the nearest integer, and an exact tie goes to the even one |
| Primitives.RoundHalfEvenUnique | src/DeathStar/ProtectiveFieldGenerator.cs:206 | at most one integer meets that rounding rule, so the rounding is fully determined |
| Components.Erode | src/DeathStar/ProtectiveFieldGenerator.cs:144-148 | a destroyed component takes no more damage; otherwise health drops by the blow and is floored at 0, reaching 0 exactly when the blow is at least the health |
| Reactors.New | src/DeathStar/Reactor.cs:62-67 | a new reactor holds the given energy, has health 100, and is inactive |
| Reactors.Regenerated | src/DeathStar/Reactor.cs:79-85 | at or above 3000 nothing regenerates; below it, energy rises by the number of whole 1000-tick periods since the last use, truncated toward zero |
| Reactors.GetEnergy | src/DeathStar/Reactor.cs:70-94 | inactive or destroyed: null and no change; over 6000: the destruction error, and that is the only error; a grant happens exactly when the regenerated store covers the request, is of exactly the requested level, removes exactly that much and stamps the time; a refusal for lack of charge keeps the regenerated energy and the old time |
| Reactors.GetDamage | src/DeathStar/Reactor.cs:97-128 | ion damage leaves max(0, E - 2L) energy and health unchanged; proton damage adds 14645.87 without a cap; laser and mechanical damage wear health down and leave energy alone; health stays in [0, 100] |
| Reactors.Activate | src/DeathStar/Reactor.cs:131-141 | switches on and restarts the clock unless already on or destroyed, which is a no-op |
| Reactors.Deactivate | src/DeathStar/Reactor.cs:144-154 | switches off and stamps the clock unless already off or destroyed, which is a no-op |
| Reactors.SwitchIdempotent | src/DeathStar/Reactor.cs:131-154 | activating or deactivating twice, at any times, equals doing it once |
| Reactors.FreshReactorGrants | tests/DeathStar.UnitTests/ReactorTests_XUnitExamples.cs:78-92 | a reactor built with 100 and activated grants any request up to 100 in full at that instant and keeps the rest |
| Reactors.OverchargedReactorExplodes | tests/DeathStar.UnitTests/ReactorTests_XUnitExamples.cs:37-46 | a reactor built over 6000 and activated explodes on any request at any time |
| Reactors.ProtonHitPrimesExplosion | src/DeathStar/Reactor.cs:115-119 | one proton hit on a running reactor with non-negative energy makes its next request explode |
| Reactors.RefusalCreditsIdleTwice | src/DeathStar/Reactor.cs:79-91 | a reactor holding nothing refuses 100 after 50 000 ticks and keeps 50 with the old stamp; the same request at the same instant is then granted in full |
| Reactors.RegenerationOvershoots | src/DeathStar/Reactor.cs:79-85 | regeneration is gated by the capacity but not capped by it: one long idle period can take the store past 6000, and the following request explodes |
| FieldGenerators.New | src/DeathStar/ProtectiveFieldGenerator.cs:82-86 | a new generator has health 120 and shield 100, and is inactive |
| FieldGenerators.Absorbed | src/DeathStar/ProtectiveFieldGenerator.cs:206 | the absorbed part is factor times level, rounded with ties to even, and never more than the blow; the factors are the percentages of the helper `ReducePercent` (lines 26-41: 20, 10, 90 and 74), which `AbsorbVectors` pins |
| FieldGenerators.AbsorbDamage | src/DeathStar/ProtectiveFieldGenerator.cs:182-213 | with the shield at 0 or below, the blow passes unchanged; otherwise the residual lies in [0, L]; a residual of 0 gives null and leaves the shield alone; a positive residual r comes back as a blow of the same type, and the shield becomes max(0, S - r/2); only the shield changes, it never grows, and it stays in [0, 100] |
| FieldGenerators.AbsorbVectors | tests/DeathStar.UnitTests/FieldGenerator_XUnitAndMoqUsingExamples.cs:112-140 | a blow of 10 against a standing shield leaves 8, 9, 1 and 3 for ion, proton, laser and mechanical damage; a blow of 100 leaves 80, 90, 10 and 26, i.e. 100 minus each factor |
| FieldGenerators.RegenerationTick | src/DeathStar/ProtectiveFieldGenerator.cs:114-130 | a reply within tolerance of 10 raises a live generator's shield by 4, capped at 100; any other reply, or a destroyed generator, changes nothing; only the shield changes. "Within tolerance" is the predicate `FullCharge` (lines 123-124): non-null and less than 1e-10 away from 10 |
| FieldGenerators.Regenerate | src/DeathStar/ProtectiveFieldGenerator.cs:109-138 | the regeneration loop over a run of ticks changes only the shield, never lowers it, and keeps it in [0, 100] |
| FieldGenerators.RegenerateShield | src/DeathStar/ProtectiveFieldGenerator.cs:109-138 | over any run of ticks, the shield becomes min(100, S + 4 × full replies) for a live generator and stays put for a destroyed one; nothing else changes |
| FieldGenerators.ReactorGrantIsFullCharge | src/DeathStar/ProtectiveFieldGenerator.cs:122-124 | a grant that the reactor makes for the tick's request of 10 always counts as a full charge |
| FieldGenerators.GetDamage | src/DeathStar/ProtectiveFieldGenerator.cs:140-149 | the full blow wears health down (floor 0; no-op at 0), and nothing else changes |
| FieldGenerators.Activate | src/DeathStar/ProtectiveFieldGenerator.cs:151-162 | unless already on or destroyed, switches on and runs the first regeneration tick; otherwise a no-op |
| FieldGenerators.Deactivate | src/DeathStar/ProtectiveFieldGenerator.cs:164-173 | unless already off or destroyed, switches off; otherwise a no-op |
| FieldGenerators.ActivateAtFullShield | tests/DeathStar.UnitTests/FieldGenerator_XUnitAndMoqUsingExamples.cs:21-38 | activating a new generator leaves it active with the shield still at 100, whatever the reactor replies |
| FieldGenerators.SwitchIdempotent | src/DeathStar/ProtectiveFieldGenerator.cs:151-173 | activating or deactivating twice equals doing it once |
| Cannons.New | src/DeathStar/SuperLaserCannon.cs:67-72 | a new laser has health 200, is inactive and uncharged, and has not been cancelled |
| Cannons.NeedCharge | src/DeathStar/SuperLaserCannon.cs:158-163 | charge is needed exactly when the energy held (0 for null) is below 1500 |
| Cannons.Accumulate | src/DeathStar/SuperLaserCannon.cs:132-136 | a null reply leaves the gathered energy unchanged; a grant adds its level |
| Cannons.RequestCharge | src/DeathStar/SuperLaserCannon.cs:129 | asked of the model reactor, a charge request is granted exactly 100; it throws the destruction error exactly when the reactor is over 6000; it gets null exactly when the reactor is off, destroyed or short of 100 |
| Cannons.ChargeLoop | src/DeathStar/SuperLaserCannon.cs:115-147 | the gathered energy never shrinks; a healthy laser fires exactly when charged; a run that runs out of replies is still short of charge; a run ends cancelled only if the cancellation was signalled; an explosion ends a healthy run on its last request; a destroyed laser makes no request; the first pass has no delay, so a healthy laser short of charge asks the reactor at least once even when cancelled, and once cancelled only that first pass asks |
| Cannons.UncancelledRunEnds | src/DeathStar/SuperLaserCannon.cs:120-146 | a healthy run that was never cancelled ends by firing, by running out of replies, or by an explosion |
| Cannons.ChargeLoopAccounting | src/DeathStar/SuperLaserCannon.cs:120-136 | the gathered energy is what was there plus every grant consumed; a null reply or an exception adds nothing |
| Cannons.RequestsWhileShort | src/DeathStar/SuperLaserCannon.cs:120-129 | every request was made while the gathered charge was still below 1500 |
| Cannons.ChargeLoopExceptions | src/DeathStar/SuperLaserCannon.cs:118-146 | no request before the last one threw; the last one threw exactly when the run ended in an explosion |
| Cannons.Fire | src/DeathStar/SuperLaserCannon.cs:99-147 | an inactive laser fails with an invalid-state error; a destroyed one completes with no effect; only the gathered energy changes, and it never shrinks or resets; a charged laser fires without asking the reactor, and a healthy one short of charge asks at least once; the returned task faults exactly when one of the run's requests threw |
| Cannons.GetDamage | src/DeathStar/SuperLaserCannon.cs:166-175 | the full blow wears health down (floor 0; no-op at 0), and nothing else changes |
| Cannons.Activate | src/DeathStar/SuperLaserCannon.cs:75-83 | switches on unless already on or destroyed, which is a no-op |
| Cannons.Deactivate | src/DeathStar/SuperLaserCannon.cs:88-96 | never clears the active flag; the laser is cancelled afterwards exactly when it was cancelled already or was active and healthy |
| Cannons.DeactivatedCannonStaysCancelled | src/DeathStar/SuperLaserCannon.cs:75-108 | after deactivating and reactivating, the laser is still active and still cancelled, and each shot asks the reactor at most once, exactly once while short of charge |
| Cannons.SteadyGrantsRequests | src/DeathStar/SuperLaserCannon.cs:120-138 | with every request granted 100, a run starting from 100·k makes exactly 15 − k requests and fires with 1500 gathered |
| Cannons.FreshCannonFiresAfterFifteen | src/DeathStar/SuperLaserCannon.cs:24-29 | a new, activated laser fed by a reactor that always grants makes exactly 15 requests and fires with 1500 |
| Cannons.ChargeSurvivesShot | src/DeathStar/SuperLaserCannon.cs:134-141 | the gathered energy is not used up by a shot, so the next shot fires at once without any request |
| DeathStars.New | src/DeathStar/DeathStar.cs:68-85 | the station keeps the given components and starts with the hull at 2000 |
| DeathStars.HealthLevel | src/DeathStar/DeathStar.cs:59 | for a valid station, health is the hull plus the three components' health, with no wrap-around, and lies in [hull, 2420] |
| DeathStars.ShieldLevel | src/DeathStar/DeathStar.cs:64 | the station's shield level is the generator's, and lies in [0, 100] for a valid generator |
| DeathStars.ShieldNeverRisesUnderFire | src/DeathStar/DeathStar.cs:123-143 | a blow never raises the station's shield level, whether or not the station is lost, and a shield that is down stays down |
| DeathStars.HealthWithSpentComponents | tests/DeathStar.UnitTests/DeathStatTests_XUnitAndMoqExamples.cs:26-34 | with the real laser and two components at 0 health, the station's health is 2200 |
| DeathStars.Route | src/DeathStar/DeathStar.cs:127-138 | the shield absorbs first, but its residual is dropped; the chosen component, or the hull for index 3, receives the original blow; everything else keeps its state; validity is preserved |
| DeathStars.GetDamage | src/DeathStar/DeathStar.cs:123-143 | a null blow is an invalid-argument error and changes nothing; any other blow is routed, and the routed station is kept even when the destruction error follows; the hull never changes; the destruction error is raised exactly when, after routing, total health ≤ 0 or the hull ≤ 0 |
| DeathStars.OnlyDrawnComponentHit | src/DeathStar/DeathStar.cs:127-137 | for any index in [0, 3), only the drawn component takes the blow, in full; the hull is untouched |
| DeathStars.UnreducedBlowReachesCannon | src/DeathStar/DeathStar.cs:127-137 | a laser blow of 10 that the shield cuts to 1 still costs the laser 10 health |
| DeathStars.LostStationKeepsTheBlow | src/DeathStar/DeathStar.cs:127-142 | a station with a reactor at health −3000 is lost on a mechanical blow of 10 to the laser, yet keeps the shield wear (99) and the laser's loss of 10 |
| DeathStars.NoDestructionWhileHullStands | src/DeathStar/DeathStar.cs:129-142 | on a valid station with a standing hull, no blow and no index leads to the destruction error |
| DeathStars.Start | src/DeathStar/DeathStar.cs:92-97 | activates all three components; every component that is not destroyed ends up active; health is unchanged |
| DeathStars.Stop | src/DeathStar/DeathStar.cs:103-108 | deactivates all three components; the reactor and generator switch off unless destroyed, while the laser keeps its active flag |
| DeathStars.StartStopIdempotent | src/DeathStar/DeathStar.cs:92-108 | starting twice, or stopping twice, equals doing it once |
| DeathStars.Destroy | src/DeathStar/DeathStar.cs:114-117 | is exactly the laser's `FireAsync`: it throws the invalid-state error when the laser is inactive, its task faults when the laser's charge run meets an exploding reactor, and only the laser changes |
| DeathStars.RestartLeavesLaserCancelled | src/DeathStar/SuperLaserCannon.cs:88-96 | after stop and start, the station's laser is still cancelled, and each later shot asks the reactor at most once, exactly once while short of charge |

## Left out

- Asynchronous scheduling: `Task`, `Task.Delay`, `Task.WhenAll`, awaiting a loop's end (including the laser's `DeactivateAsync`, and so `StopAsync`, returning a fire task that faulted on a reactor explosion), and interleaving between the two loops and incoming damage. Each operation is one atomic step, and each loop is a fold.
- A second `FireAsync` while a run is in flight starts a second, concurrent charge loop. Both loops request energy, both add to the gathered charge, and both reach the discharge point. Runs are modelled one at a time.
- Cannons.ChargeLoop: health is constant during a run. Damage arriving during the inter-request delays, and cancellation signalled mid-run, are not modelled. Only the cancellation state at launch is used.
- FieldGenerators.Regenerate: cancellation ends the loop between ticks, so the fold is over the ticks that ran before deactivation.
- Wall-clock time and `System.Random`: both are inputs, as `now` and the drawn index.
- IEEE-754 doubles: energy is a `real`, and absorption factors are integer percentages with round-half-to-even. Agreement with the source's double products is claimed only for the tested blows of level 10. Matching replies for the shield keep the source's 1e-10 tolerance.
- Reactors.GetEnergy requires a positive request. For a request of 0 or below, the source changes state and then throws while building the `Energy`.
- The reactor is not threaded through the generator's and the laser's requests: their replies are inputs, because the components hold an `IReactor`. `FieldGenerators.ReactorGrantIsFullCharge` and `Cannons.RequestCharge` link the two for the generator's and the laser's requests.
- A reactor that throws into the shield's regeneration loop (the laser's charge loop does model it), the missing-reactor `InvalidOperationException`, the `GetReactor` seam, and `Dispose`.
- Null damage passed straight to a component's `GetDamage` or to `AbsorbDamage`: `Damage` is a non-null type there. The null case is modelled where the station receives the blow, in `DeathStars.GetDamage`.
- The `default` branch of the damage-type switch in `AbsorbDamage`: a four-constructor datatype leaves no other value.
- 64-bit overflow of the tick arithmetic in the reactor, and the checked `int` sum in `HealthLevel`: neither can be reached with valid states.
- Interfaces, mocks and test fixtures: `IDeathStarComponent`, `IReactor`, `IProtectiveFieldGenerator` and `ICannon` are signatures only. Mocks that report arbitrary health are represented by component states with that health.
