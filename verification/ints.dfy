/** Integers as the machine has them. */
module Ints {
  const MAX_INT32: int := 0x7fff_ffff

  predicate Int32(x: int) {
    -0x8000_0000 <= x <= MAX_INT32
  }

  // Truncation to 32 bits, two's complement.
  function Wrap(x: int): (y: int)
    ensures Int32(y)
  {
    (x + 0x8000_0000) % 0x1_0000_0000 - 0x8000_0000
  }

  lemma WrapSmall(x: int)
    requires Int32(x)
    ensures Wrap(x) == x
  {
  }

  function Uint32(x: int): (y: nat) {
    x % 0x1_0000_0000
  }

  function Min(a: int, b: int): int {
    if a < b then a else b
  }
}
