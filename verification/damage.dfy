/** The `Damage` value object and its four damage types. */
module Damages {
  import opened Primitives

  /** `DamageType`: ion, proton and laser weapons, and mechanical impact. */
  datatype DamageType = Ion | Proton | Laser | Mechanic

  /** A damage level: a C# `short` that the constructor has checked to be
      non-negative. */
  type DamageLevel = x: int | 0 <= x < 0x8000

  /** A blow of some level and type. Both fields are get-only in the source;
      a datatype value never changes after it is built. */
  datatype Damage = Damage(level: DamageLevel, kind: DamageType)

  /** The `Damage(short level, DamageType type)` constructor: a negative
      level is refused, anything else is stored as given. */
  function NewDamage(level: Int16, kind: DamageType): (r: Result<Damage>)
    ensures r.Err? <==> level < 0
    ensures r.Err? ==> r.fault == InvalidArgument
    ensures r.Ok? ==> r.value.level == level && r.value.kind == kind
  {
    if level < 0 then Err(InvalidArgument) else Ok(Damage(level, kind))
  }

  /** Every damage that can be built lies in [0, 32767], and reading its
      fields back gives exactly what was passed in. */
  lemma NewDamageRoundTrip(level: Int16, kind: DamageType)
    requires level >= 0
    ensures NewDamage(level, kind).Ok?
    ensures var d := NewDamage(level, kind).value;
      0 <= d.level <= 32767 && NewDamage(d.level, d.kind) == Ok(d)
  {
  }
}
