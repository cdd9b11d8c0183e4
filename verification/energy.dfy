/** The `Energy` value object. */
module Energies {
  import opened Primitives

  /** An energy level: a C# `double` that the constructor has checked to be
      positive (modelled as a real number). */
  type EnergyLevel = x: real | x > 0.0 witness 1.0

  /** A quantity of energy; `Level` is get-only in the source. */
  datatype Energy = Energy(level: EnergyLevel)

  /** The `Energy(double level)` constructor: a level of zero or below is
      refused, a positive one is stored exactly. */
  function NewEnergy(level: real): (r: Result<Energy>)
    ensures r.Err? <==> level <= 0.0
    ensures r.Err? ==> r.fault == InvalidArgument
    ensures r.Ok? ==> r.value.level == level
  {
    if level <= 0.0 then Err(InvalidArgument) else Ok(Energy(level))
  }

  /** Energy held by a reference that may be null; null holds none. */
  function Held(e: Option<Energy>): (x: real)
    ensures x >= 0.0
    ensures e.Some? <==> x > 0.0
  {
    if e.None? then 0.0 else e.value.level
  }
}
