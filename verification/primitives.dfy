/** Shared vocabulary of the Death Star model: nullable references, the
    exceptions the core raises, and the pieces of C# arithmetic whose
    behaviour the model depends on (the unchecked `(short)` cast, `long`
    division, and `Math.Round` with ties going to the even neighbour). */
module Primitives {

  /** A C# reference that may be null. */
  datatype Option<+T> = None | Some(value: T)

  /** The exceptions thrown by the core. */
  datatype Fault =
    | InvalidArgument   // ArgumentOutOfRangeException, ArgumentNullException
    | InvalidState      // InvalidOperationException
    | Destroyed         // LastSeenException: the station blew up

  /** A call that either returns a value or throws one of the faults. */
  datatype Result<+T> = Ok(value: T) | Err(fault: Fault)

  /** The C# `short` range. */
  type Int16 = x: int | -0x8000 <= x < 0x8000

  function Max(a: int, b: int): int { if a < b then b else a }

  function Min(a: int, b: int): int { if a < b then a else b }

  function Abs(x: real): real { if x < 0.0 then -x else x }

  /** The unchecked `(short)` cast: keeps the low 16 bits, read as signed. */
  function ToInt16(x: int): (r: Int16)
    ensures (x - r) % 0x1_0000 == 0
    ensures -0x8000 <= x < 0x8000 ==> r == x
  {
    (x + 0x8000) % 0x1_0000 - 0x8000
  }

  /** C# division of integers, which truncates toward zero (Dafny's `/`
      is Euclidean and differs for a negative dividend). */
  function TruncDiv(a: int, b: int): (q: int)
    requires b > 0
    ensures 0 <= a ==> 0 <= a - q * b < b
    ensures a < 0 ==> -b < a - q * b <= 0
  {
    if a >= 0 then a / b else -((-a) / b)
  }

  /** `q` is the integer nearest to n/d; an exact tie goes to the even one. */
  predicate IsRoundHalfEven(n: int, d: int, q: int)
    requires d > 0
  {
    && -d <= 2 * (n - q * d) <= d
    && (2 * (n - q * d) == d || 2 * (n - q * d) == -d ==> q % 2 == 0)
  }

  /** `Math.Round(n / d)` with the default midpoint rule (to even). */
  function RoundHalfEven(n: nat, d: nat): (q: nat)
    requires d > 0
    ensures IsRoundHalfEven(n, d, q)
  {
    var q0 := n / d;
    var rem := n % d;
    assert n == q0 * d + rem && 0 <= rem < d;
    assert n - q0 * d == rem;
    assert n - (q0 + 1) * d == rem - d;
    if 2 * rem < d then q0
    else if 2 * rem > d then q0 + 1
    else if q0 % 2 == 0 then q0
    else q0 + 1
  }

  /** The rounding rule admits exactly one answer, so `RoundHalfEven` is the
      only function meeting its contract. Two distinct answers would have
      errors at least d apart inside an interval of width d: both would sit
      on a tie, one unit apart, and could not both be even. */
  lemma RoundHalfEvenUnique(n: int, d: int, q1: int, q2: int)
    requires d > 0
    requires IsRoundHalfEven(n, d, q1) && IsRoundHalfEven(n, d, q2)
    ensures q1 == q2
  {
    var lo, hi := Min(q1, q2), Max(q1, q2);
    assert IsRoundHalfEven(n, d, lo) && IsRoundHalfEven(n, d, hi);
    var k := hi - lo;
    assert (n - lo * d) - (n - hi * d) == k * d;
    MulSteps(k, d);
  }

  /** The three cases of k * d that the uniqueness argument needs. */
  lemma MulSteps(k: int, d: int)
    requires d > 0
    ensures k == 1 ==> k * d == d
    ensures k >= 2 ==> k * d >= 2 * d
  {
    if k >= 2 {
      assert k * d == (k - 2) * d + 2 * d;
    }
  }
}
