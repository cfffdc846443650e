/**
 * A weight semiring given by its four operations, standing for rustfst's `Semiring`
 * trait. The algorithms of the model are generic in the weight type and receive the
 * operations they use as a value of this record.
 */
module Semirings {
  datatype Semiring<!W> = Semiring(zero: W, one: W, plus: (W, W) -> W, times: (W, W) -> W)

  /** `IntegerWeight`: integers under addition and multiplication. */
  function IntegerSemiring(): (sr: Semiring<int>)
    ensures sr.zero == 0 && sr.one == 1
    ensures forall a, b :: sr.plus(a, b) == a + b && sr.times(a, b) == a * b
  {
    Semiring(0, 1, (a: int, b: int) => a + b, (a: int, b: int) => a * b)
  }
}
