/**
  Unsigned 32-bit arithmetic as the controller's C++ performs it on
  `uint32_t` timestamps and speeds: addition and subtraction wrap modulo
  2^32, and a value passed where a signed 32-bit integer is expected is
  reinterpreted in two's complement.
 */
module U32 {

  const MODULUS: int := 0x1_0000_0000
  const HALF: int := 0x8000_0000

  type u32 = x: int | 0 <= x < MODULUS

  /** The unique u32 congruent to `x` modulo 2^32 (an integer converted to `uint32_t`). */
  function Wrap(x: int): (r: u32)
    ensures (x - r) % MODULUS == 0
    ensures 0 <= x < MODULUS ==> r == x
  {
    x % MODULUS
  }

  /** `a + b` on `uint32_t`. */
  function Add(a: u32, b: u32): (r: u32)
    ensures r == Wrap(a + b)
    ensures a + b < MODULUS ==> r == a + b
  {
    if a + b < MODULUS then a + b else a + b - MODULUS
  }

  /** `a - b` on `uint32_t`: the elapsed time from `b` to `a` when no wrap-around intervened. */
  function Sub(a: u32, b: u32): (r: u32)
    ensures r == Wrap(a - b)
    ensures b <= a ==> r == a - b
  {
    if b <= a then a - b else a - b + MODULUS
  }

  /** Unary minus on `uint32_t`. */
  function Neg(a: u32): (r: u32)
    ensures r == Wrap(-(a as int))
    ensures Add(a, r) == 0
  {
    Sub(0, a)
  }

  /** The `int32_t` value with the same bit pattern as `a`. */
  function ToSigned(a: u32): (r: int)
    ensures -HALF <= r < HALF
    ensures Wrap(r) == a
  {
    if a < HALF then a else a - MODULUS
  }

  /** Shifting an end time by the length of an interval leaves the distance to the interval's end unchanged. */
  lemma SubAfterShift(e: u32, p: u32, q: u32)
    ensures Sub(Add(e, Sub(q, p)), q) == Sub(e, p)
  {
  }
}
