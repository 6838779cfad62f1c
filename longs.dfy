/**
 * Kotlin and Java `Long` division by a positive constant: the quotient is
 * truncated toward zero, unlike Dafny's Euclidean `/` on negative operands.
 * The 64-bit range itself is not modelled.
 */
module Longs {

  /** `ms / 1000L`: whole seconds in a signed millisecond span, truncated toward zero. */
  function MillisToSeconds(ms: int): (s: int)
    ensures ms >= 0 ==> s * 1000 <= ms < s * 1000 + 1000
    ensures ms < 0 ==> s * 1000 - 1000 < ms <= s * 1000
    ensures s < 0 <==> ms <= -1000
  {
    if ms >= 0 then ms / 1000 else -((-ms) / 1000)
  }
}
