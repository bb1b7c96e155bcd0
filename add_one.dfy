/** `add_one` of the add workspace's add_one crate. */
module AddOne {
  import opened RustInt

  /** `x + 1`, which overflows `i32` when `x` is already the largest `i32`. */
  function AddOne(x: I32): (r: I32)
    requires x < I32_MAX
  {
    x + 1
  }

  /** The result is the successor: one more than the input, and one less than it gives the input back. */
  lemma AddOneIsSuccessor(x: I32)
    requires x < I32_MAX
    ensures AddOne(x) - 1 == x && AddOne(x) > x
  {
  }

  /** Distinct inputs give distinct outputs. */
  lemma AddOneInjective(x: I32, y: I32)
    requires x < I32_MAX && y < I32_MAX
    ensures AddOne(x) == AddOne(y) <==> x == y
  {
  }

  /** The crate's test `it_adds_one`. */
  lemma ItAddsOne()
    ensures AddOne(2) == 3
  {
  }
}
