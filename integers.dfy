/** The fixed-width integers of the source and the two's-complement
    conversions that its `as` casts and wrapping arithmetic perform. */
module Integers {

  const TWO_16: int := 0x1_0000
  const TWO_32: int := 0x1_0000_0000

  type U16 = n: int | 0 <= n < 0x1_0000
  type U32 = n: int | 0 <= n < 0x1_0000_0000
  type I16 = n: int | -0x8000 <= n < 0x8000
  type I32 = n: int | -0x8000_0000 <= n < 0x8000_0000

  /** The i32 that keeps the low 32 bits of `n` (`n as i32`, or wrapping i32 arithmetic). */
  function WrapI32(n: int): (r: I32)
    ensures (n - r) % TWO_32 == 0
    ensures -0x8000_0000 <= n < 0x8000_0000 ==> r == n
  {
    var m := n % TWO_32;
    if m < 0x8000_0000 then m else m - TWO_32
  }

  /** The i16 that keeps the low 16 bits of `n` (`n as i16`). */
  function WrapI16(n: int): (r: I16)
    ensures (n - r) % TWO_16 == 0
    ensures -0x8000 <= n < 0x8000 ==> r == n
  {
    var m := n % TWO_16;
    if m < 0x8000 then m else m - TWO_16
  }

  /** Two integers with the same low 32 bits wrap to the same i32. */
  lemma WrapI32Congruent(a: int, b: int)
    requires (a - b) % TWO_32 == 0
    ensures WrapI32(a) == WrapI32(b)
  {
    var k := (a - b) / TWO_32;
    assert a == b + k * TWO_32;
    assert a % TWO_32 == b % TWO_32;
  }

  /** Wrapping subtraction: subtracting wrapped operands and wrapping agrees
      with wrapping the exact difference. */
  lemma WrapI32Sub(a: int, b: int)
    ensures WrapI32(WrapI32(a) - WrapI32(b)) == WrapI32(a - b)
  {
    var ka := (a - WrapI32(a)) / TWO_32;
    var kb := (b - WrapI32(b)) / TWO_32;
    assert a == WrapI32(a) + ka * TWO_32;
    assert b == WrapI32(b) + kb * TWO_32;
    assert (a - b) - (WrapI32(a) - WrapI32(b)) == (ka - kb) * TWO_32;
    WrapI32Congruent(a - b, WrapI32(a) - WrapI32(b));
  }
}
