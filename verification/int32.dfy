/** Java's 32-bit two's-complement `int` and its wrap-around arithmetic. */
module Int32 {

  const MIN: int := -0x8000_0000
  const MAX: int := 0x7fff_ffff
  const MODULUS: int := 0x1_0000_0000

  predicate InRange(x: int) {
    MIN <= x <= MAX
  }

  /** The values a Java `int` can hold. */
  type int32 = x: int | InRange(x)

  /** The Java `int` that the mathematical integer `x` wraps to: the unique
      value in range that is congruent to `x` modulo 2^32. */
  function Wrap(x: int): (r: int32)
    ensures (r - x) % MODULUS == 0
    ensures InRange(x) ==> r == x
  {
    (x - MIN) % MODULUS + MIN
  }
}
