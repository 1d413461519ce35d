/**
 * Go's `int32`: the range of the type, and two's-complement wrap-around for the
 * arithmetic the services do on stock counters (`+=`, `-=`, `Quantity - Reserved`).
 */
module Int32 {

  const MIN: int := -0x8000_0000
  const MAX: int := 0x7fff_ffff
  const MODULUS: int := 0x1_0000_0000

  type int32 = x: int | MIN <= x <= MAX

  predicate InRange(x: int) {
    MIN <= x <= MAX
  }

  /** Reduces an exact result to the int32 value Go computes for it. */
  function Wrap(x: int): (r: int32)
    ensures InRange(x) ==> r == x
    ensures x > MAX && x <= MAX + MODULUS ==> r == x - MODULUS
    ensures x < MIN && x >= MIN - MODULUS ==> r == x + MODULUS
    ensures (x - r) % MODULUS == 0
  {
    (x - MIN) % MODULUS + MIN
  }

  /**
   * The result of an int32 `+` or `-`: the exact value is at most one modulus out of
   * range, so one correction suffices.
   */
  function WrapOnce(x: int): int32
    requires MIN - MODULUS <= x <= MAX + MODULUS
  {
    if x > MAX then x - MODULUS else if x < MIN then x + MODULUS else x
  }

  /** `a + b` on int32 operands. */
  function Add(a: int32, b: int32): int32 {
    WrapOnce(a + b)
  }

  /** `a - b` on int32 operands. */
  function Sub(a: int32, b: int32): int32 {
    WrapOnce(a - b)
  }

  /** The two operators agree with the general two's-complement reduction. */
  lemma OperatorsWrap(a: int32, b: int32)
    ensures Add(a, b) == Wrap(a + b)
    ensures Sub(a, b) == Wrap(a - b)
  {
  }
}
