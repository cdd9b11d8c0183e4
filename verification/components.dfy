/** Behaviour shared by the three station components (the
    `IDeathStarComponent` capability set): how a blow wears health down, and
    when activation or deactivation takes effect. */
module Components {

  /** Health after a blow of `level` in a component's `GetDamage`: nothing
      happens once health is gone, otherwise it drops by the blow and stops
      at zero. */
  function Erode(health: int, level: nat): (h: int)
    ensures health <= 0 ==> h == health
    ensures health > 0 ==> 0 <= h <= health
    ensures health > 0 ==> (h == 0 <==> level >= health)
    ensures h > 0 ==> health - h == level
  {
    if health <= 0 then health
    else if level > health then 0
    else health - level
  }

  /** Whether a switch toward `target` (true: activate, false: deactivate)
      has any effect: the component is not already there and not destroyed. */
  predicate Switches(active: bool, health: int, target: bool)
  {
    active != target && health > 0
  }
}
