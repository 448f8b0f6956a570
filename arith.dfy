/** Facts about integer multiplication that several modules share. */
module Arith {

  /** Multiplying by a non-negative factor keeps the order of the operands. */
  lemma MulMonotone(a: int, b: int, c: int)
    requires a <= b && 0 <= c
    ensures a * c <= b * c
  {
  }
}
