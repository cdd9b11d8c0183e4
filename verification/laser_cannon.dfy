/** The super laser: it must gather 1500 units of energy, asked from a
    reactor 100 at a time, before it discharges. The reactor is an interface
    here, so its replies (a grant, null, or the exception of an exploding
    reactor) are inputs, and the charge loop is a fold over them. */
module Cannons {
  import opened Primitives
  import opened Damages
  import opened Energies
  import opened Components
  import Reactors

  const MaxHealth: int := 200

  /** Energy one shot needs. */
  const RequiredEnergyForShot: real := 1500.0

  /** Energy asked of the reactor per request. */
  const EnergyPerRequest: real := 100.0

  /** `charge` is the energy gathered for the next shot (null at first).
      `cancelled` records that the cannon's one cancellation source, created
      with the cannon, has been signalled; nothing ever resets it. */
  datatype Cannon = Cannon(health: int, active: bool, charge: Option<Energy>, cancelled: bool)

  predicate Valid(c: Cannon)
  {
    0 <= c.health <= MaxHealth
  }

  /** The constructor: full health, inactive, uncharged, not cancelled. */
  function New(): (c: Cannon)
    ensures Valid(c) && c.health == MaxHealth && !c.active
    ensures c.charge.None? && !c.cancelled
  {
    Cannon(MaxHealth, false, None, false)
  }

  /** `NeedCharge(currentEnergy)`: null, or less than a shot's worth. */
  function NeedCharge(current: Option<Energy>): (b: bool)
    ensures b <==> Held(current) < RequiredEnergyForShot
  {
    if current.None? then true else current.value.level < RequiredEnergyForShot
  }

  /** Adding one reactor reply to the gathered energy: a null reply changes
      nothing, a grant adds its level. */
  function Accumulate(charge: Option<Energy>, reply: Option<Energy>): (c: Option<Energy>)
    ensures Held(c) == Held(charge) + Held(reply)
    ensures reply.None? ==> c == charge
  {
    if reply.None? then charge
    else if charge.None? then reply
    else Some(Energy(charge.value.level + reply.value.level))
  }

  /** The reactor's answer to one `GetEnergy` request: a grant, null, or
      the exception the request threw (`LastSeenException` when the reactor
      explodes), which nothing in the charge loop catches. */
  type Reply = Result<Option<Energy>>

  /** The energy a reply hands over: none for null or for an exception. */
  function Payload(reply: Reply): Option<Energy>
  {
    if reply.Ok? then reply.value else None
  }

  /** `_reactor.GetEnergy(EnergyLevelPerReactorRequest)` answered by the
      model reactor at time `now`. */
  function RequestCharge(r: Reactors.Reactor, now: int): (reply: Reply)
    // a grant is always of exactly the 100 asked for
    ensures reply.Ok? && reply.value.Some? ==> reply.value.value.level == EnergyPerRequest
    // the request throws exactly when the reactor explodes
    ensures reply.Err? <==> r.active && r.health > 0 && r.energy > Reactors.MaxAllowedCapacity
    ensures reply.Err? ==> reply.fault == Destroyed
    // null comes back exactly when the reactor is off, destroyed or short
    ensures reply == Ok(None) <==>
              !r.active || r.health <= 0
              || (r.energy <= Reactors.MaxAllowedCapacity
                  && Reactors.Regenerated(r, now) < EnergyPerRequest)
  {
    match Reactors.GetEnergy(r, EnergyPerRequest, now)
    case Err(f) => Err(f)
    case Ok(grant) => Ok(grant.energy)
  }

  /** Total energy granted by a run of replies. */
  function Granted(replies: seq<Reply>): (x: real)
    ensures x >= 0.0
    decreases |replies|
  {
    if |replies| == 0 then 0.0 else Held(Payload(replies[0])) + Granted(replies[1..])
  }

  /** How a run of the charge loop ended: the shot went off; cancellation
      stopped it at a delay; the cannon was destroyed; the replies ran out
      with the loop still waiting for energy; or a request threw, which
      faults the task `FireAsync` returned. */
  datatype Outcome = Fired | Cancelled | Broken | Waiting | Exploded

  /** The gathered energy after a run, how many reactor requests it made,
      and how it ended. */
  datatype ChargeRun = ChargeRun(charge: Option<Energy>, requests: nat, outcome: Outcome)

  /** The loop of `InternalFireAsync`. While charge is needed: every pass but
      the first waits first (a signalled cancellation ends the run there); a
      destroyed cannon stops; otherwise one reply is consumed: an exception
      ends the run, a grant is added. After the loop a healthy cannon fires.
      Health does not change during a run. */
  function ChargeLoop(charge: Option<Energy>, replies: seq<Reply>,
                      health: int, cancelled: bool, first: bool): (run: ChargeRun)
    ensures run.requests <= |replies|
    // the gathered energy never shrinks
    ensures Held(charge) <= Held(run.charge)
    // the shot goes off exactly when a healthy cannon is charged
    ensures run.outcome == Fired <==> health > 0 && !NeedCharge(run.charge)
    ensures run.outcome == Waiting ==> run.requests == |replies| && NeedCharge(run.charge)
    // only a signalled cancellation stops a run early at a delay
    ensures run.outcome == Cancelled ==> cancelled && NeedCharge(run.charge)
    // an explosion is the answer to the last request a healthy cannon made
    ensures run.outcome == Exploded ==>
              && health > 0 && NeedCharge(run.charge)
              && 0 < run.requests && replies[run.requests - 1].Err?
    // a destroyed cannon asks for nothing and ends broken (or cancelled)
    ensures run.outcome == Broken ==> health <= 0
    ensures health <= 0 ==> && run.requests == 0 && run.charge == charge
                            && (run.outcome == Broken || run.outcome == Cancelled)
    // the first pass has no delay, so a healthy cannon short of charge
    // always asks the reactor at least once, cancelled or not ...
    ensures first && health > 0 && NeedCharge(charge) && |replies| > 0 ==> run.requests >= 1
    // ... and once cancelled, that first pass is the only one that asks
    ensures cancelled ==> run.requests <= (if first then 1 else 0)
    decreases |replies|
  {
    if !NeedCharge(charge) then
      ChargeRun(charge, 0, if health <= 0 then Broken else Fired)
    else if !first && cancelled then
      ChargeRun(charge, 0, Cancelled)
    else if health <= 0 then
      ChargeRun(charge, 0, Broken)
    else if |replies| == 0 then
      ChargeRun(charge, 0, Waiting)
    else if replies[0].Err? then
      ChargeRun(charge, 1, Exploded)
    else
      var rest := ChargeLoop(Accumulate(charge, replies[0].value), replies[1..], health, cancelled, false);
      ChargeRun(rest.charge, rest.requests + 1, rest.outcome)
  }

  /** A healthy run that was never cancelled ends only by firing, by running
      out of replies, or by the reactor exploding. */
  lemma UncancelledRunEnds(charge: Option<Energy>, replies: seq<Reply>, health: int, first: bool)
    requires health > 0
    ensures var run := ChargeLoop(charge, replies, health, false, first);
            run.outcome == Fired || run.outcome == Waiting || run.outcome == Exploded
  {
  }

  /** Splitting the first reply off a non-empty prefix. */
  lemma PrefixGranted(replies: seq<Reply>, k: nat)
    requires 1 <= k <= |replies|
    ensures Granted(replies[..k]) == Held(Payload(replies[0])) + Granted(replies[1..][..k - 1])
  {
    assert replies[..k][1..] == replies[1..][..k - 1];
  }

  /** Energy accounting of a run: the gathered energy is what was there plus
      every grant consumed. */
  lemma {:induction false} ChargeLoopAccounting(charge: Option<Energy>, replies: seq<Reply>,
                                                health: int, cancelled: bool, first: bool)
    ensures var run := ChargeLoop(charge, replies, health, cancelled, first);
            Held(run.charge) == Held(charge) + Granted(replies[..run.requests])
    decreases |replies|
  {
    if !NeedCharge(charge) || (!first && cancelled) || health <= 0 || |replies| == 0 {
      assert replies[..0] == [];
    } else if replies[0].Err? {
      assert replies[..1] == [replies[0]] && [replies[0]][1..] == [];
    } else {
      var next := Accumulate(charge, replies[0].value);
      var rest := ChargeLoop(next, replies[1..], health, cancelled, false);
      ChargeLoopAccounting(next, replies[1..], health, cancelled, false);
      PrefixGranted(replies, rest.requests + 1);
    }
  }

  /** Every request was made while the charge was still short of a shot:
      the loop stops at the first moment it is not. */
  lemma {:induction false} RequestsWhileShort(charge: Option<Energy>, replies: seq<Reply>,
                                              health: int, cancelled: bool, first: bool)
    ensures var run := ChargeLoop(charge, replies, health, cancelled, first);
            forall k :: 0 <= k < run.requests ==>
              Held(charge) + Granted(replies[..k]) < RequiredEnergyForShot
    decreases |replies|
  {
    var run := ChargeLoop(charge, replies, health, cancelled, first);
    if run.requests > 0 {
      assert replies[..0] == [];
      if replies[0].Ok? {
        var next := Accumulate(charge, replies[0].value);
        RequestsWhileShort(next, replies[1..], health, cancelled, false);
        forall k | 1 <= k < run.requests
          ensures Held(charge) + Granted(replies[..k]) < RequiredEnergyForShot
        {
          PrefixGranted(replies, k);
        }
      }
    }
  }

  /** Every request of a run was answered without an exception, except that
      an explosion, when it ends the run, answers its last request. */
  lemma {:induction false} ChargeLoopExceptions(charge: Option<Energy>, replies: seq<Reply>,
                                                health: int, cancelled: bool, first: bool)
    ensures var run := ChargeLoop(charge, replies, health, cancelled, first);
            forall k :: 0 <= k < run.requests ==>
              (replies[k].Err? <==> run.outcome == Exploded && k == run.requests - 1)
    decreases |replies|
  {
    var run := ChargeLoop(charge, replies, health, cancelled, first);
    if run.requests > 0 && replies[0].Ok? {
      var next := Accumulate(charge, replies[0].value);
      ChargeLoopExceptions(next, replies[1..], health, cancelled, false);
      var rest := ChargeLoop(next, replies[1..], health, cancelled, false);
      assert run.requests == rest.requests + 1 && run.outcome == rest.outcome;
      forall k | 0 <= k < run.requests
        ensures replies[k].Err? <==> run.outcome == Exploded && k == run.requests - 1
      {
        if k > 0 {
          assert replies[k] == replies[1..][k - 1];
        }
      }
    }
  }

  /** What `FireAsync` leaves behind: the new cannon state and the run. */
  datatype Shot = Shot(cannon: Cannon, run: ChargeRun)

  /** `FireAsync()`, given the replies the reactor will give to the
      requests of the launched run. `Err` is the exception `FireAsync`
      throws itself; a run whose outcome is `Exploded` is the returned task
      faulting with the reactor's exception, after the grants before it
      were kept. */
  function Fire(c: Cannon, replies: seq<Reply>): (res: Result<Shot>)
    // firing an inactive cannon is an invalid-state error
    ensures res.Err? <==> !c.active
    ensures res.Err? ==> res.fault == InvalidState
    // a destroyed cannon completes at once without effect
    ensures c.active && c.health <= 0 ==> res == Ok(Shot(c, ChargeRun(c.charge, 0, Broken)))
    // only the gathered energy changes, and it never shrinks nor resets
    ensures res.Ok? ==> res.value.cannon == c.(charge := res.value.run.charge)
    ensures res.Ok? ==> Held(c.charge) <= Held(res.value.run.charge)
    // a cannon already charged fires without asking the reactor
    ensures c.active && c.health > 0 && !NeedCharge(c.charge) ==>
              res == Ok(Shot(c, ChargeRun(c.charge, 0, Fired)))
    ensures res.Ok? && c.cancelled ==> res.value.run.requests <= 1
    // a healthy cannon short of charge asks the reactor at least once
    ensures c.active && c.health > 0 && NeedCharge(c.charge) && |replies| > 0 ==>
              res.Ok? && res.value.run.requests >= 1
    // the returned task faults exactly when a request of the run threw
    ensures res.Ok? && res.value.run.outcome == Exploded <==>
              && c.active && c.health > 0
              && exists k :: 0 <= k < |replies| && k < res.value.run.requests && replies[k].Err?
  {
    if !c.active then Err(InvalidState)
    else if c.health <= 0 then Ok(Shot(c, ChargeRun(c.charge, 0, Broken)))
    else
      var run := ChargeLoop(c.charge, replies, c.health, c.cancelled, true);
      ChargeLoopExceptions(c.charge, replies, c.health, c.cancelled, true);
      assert run.outcome == Exploded ==> replies[run.requests - 1].Err?;
      Ok(Shot(c.(charge := run.charge), run))
  }

  /** `GetDamage(damage)`: the full blow wears health down. */
  function GetDamage(c: Cannon, d: Damage): (c': Cannon)
    ensures c'.health == Erode(c.health, d.level)
    ensures c' == c.(health := c'.health)
    ensures Valid(c) ==> Valid(c')
  {
    c.(health := Erode(c.health, d.level))
  }

  /** `ActivateAsync`: switches on unless already on or destroyed; the
      cancellation source is not renewed. */
  function Activate(c: Cannon): (c': Cannon)
    ensures Switches(c.active, c.health, true) ==> c' == c.(active := true)
    ensures !Switches(c.active, c.health, true) ==> c' == c
    ensures c'.active <==> c.active || c.health > 0
  {
    if Switches(c.active, c.health, true) then c.(active := true) else c
  }

  /** `DeactivateAsync`: unless already off or destroyed, signals the
      cancellation source. It never clears the active flag. */
  function Deactivate(c: Cannon): (c': Cannon)
    ensures c'.active == c.active
    ensures c'.cancelled <==> c.cancelled || (c.active && c.health > 0)
    ensures c' == c.(cancelled := c'.cancelled)
  {
    if Switches(c.active, c.health, false) then c.(cancelled := true) else c
  }

  /** A deactivated cannon still reports itself active, a later activation
      does not undo the cancellation, and from then on every shot asks the
      reactor at most once, and exactly once while it is short of charge. */
  lemma DeactivatedCannonStaysCancelled(c: Cannon, replies: seq<Reply>)
    requires c.active && c.health > 0
    ensures var c' := Activate(Deactivate(c));
            && c'.active && c'.cancelled
            && Fire(c', replies).Ok?
            && Fire(c', replies).value.run.requests <= 1
            && (NeedCharge(c.charge) && |replies| > 0 ==> Fire(c', replies).value.run.requests == 1)
  {
  }

  /** A run that gets a full grant of 100 on each request, starting from
      `100 * k` gathered, fires after exactly 15 - k requests with 1500
      gathered. */
  lemma {:induction false} SteadyGrantsRequests(charge: Option<Energy>, k: nat,
                                                replies: seq<Reply>, health: int, first: bool)
    requires k <= 15 && Held(charge) == EnergyPerRequest * k as real
    requires health > 0
    requires |replies| >= 15 - k
    requires forall i :: 0 <= i < |replies| ==> replies[i] == Ok(Some(Energy(EnergyPerRequest)))
    ensures var run := ChargeLoop(charge, replies, health, false, first);
            && run.requests == 15 - k
            && run.outcome == Fired
            && Held(run.charge) == RequiredEnergyForShot
    decreases 15 - k
  {
    if k < 15 {
      SteadyGrantsRequests(Accumulate(charge, replies[0].value), k + 1, replies[1..], health, false);
    }
  }

  /** With a reactor that always grants, a fresh activated cannon makes
      exactly 15 requests and fires with 1500 gathered. */
  lemma FreshCannonFiresAfterFifteen(replies: seq<Reply>)
    requires |replies| >= 15
    requires forall i :: 0 <= i < |replies| ==> replies[i] == Ok(Some(Energy(EnergyPerRequest)))
    ensures var res := Fire(Activate(New()), replies);
            && res.Ok? && res.value.run.requests == 15 && res.value.run.outcome == Fired
            && Held(res.value.cannon.charge) == RequiredEnergyForShot
  {
    SteadyGrantsRequests(None, 0, replies, MaxHealth, true);
  }

  /** The shot does not use up the gathered energy: a second shot fires at
      once, with no request to the reactor. */
  lemma ChargeSurvivesShot(c: Cannon, replies: seq<Reply>, later: seq<Reply>)
    requires Fire(c, replies).Ok? && Fire(c, replies).value.run.outcome == Fired
    ensures var c' := Fire(c, replies).value.cannon;
            Fire(c', later) == Ok(Shot(c', ChargeRun(c'.charge, 0, Fired)))
  {
  }
}
