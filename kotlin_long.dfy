/**
 * Kotlin's 64-bit `Long`: its range, the two's-complement view of a value
 * as 64 bits, and the truncating remainder operator `%`.
 */
module KotlinLong {

  const MinLong: int := -0x8000_0000_0000_0000
  const MaxLong: int := 0x7FFF_FFFF_FFFF_FFFF
  const TwoTo64: int := 0x1_0000_0000_0000_0000

  /** A value of Kotlin type `Long`. */
  type Long = x: int | MinLong <= x <= MaxLong

  /**
   * The 64 bits that represent `x` in two's complement. A negative `x` is
   * the bitwise complement of the non-negative `-1 - x` (as `-x == ~x + 1`).
   */
  function ToBits(x: Long): bv64
  {
    if x < 0 then !((-1 - x) as bv64) else x as bv64
  }

  /** The signed value of a 64-bit pattern, which is how Kotlin reads a `Long`. */
  function ToLong(b: bv64): Long
  {
    var u := b as int;
    if u <= MaxLong then u else u - TwoTo64
  }

  /** Kotlin's `a / b`: the quotient truncates toward zero. */
  function Quot(a: int, b: int): int
    requires b > 0
  {
    if a >= 0 then a / b else -((-a) / b)
  }

  /**
   * Kotlin's `a % b`: what is left of `a` after taking away `b` times the
   * truncated quotient, so it takes the sign of `a`.
   */
  function Rem(a: int, b: int): (r: int)
    requires b > 0
    ensures a == b * Quot(a, b) + r
    ensures a >= 0 ==> 0 <= r < b
    ensures a < 0 ==> -b < r <= 0
  {
    if a >= 0 then a % b
    else
      assert -a == b * ((-a) / b) + (-a) % b;
      -((-a) % b)
  }
}
