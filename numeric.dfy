/** Fixed-width integer behaviour of the Go code that the drivers rely on:
    `int16` wrap-around and the `uint8(v & 0xFF)` / `uint8((v >> 8) & 0xFF)`
    byte splits used when coordinates are sent to a panel. */
module Numeric {

  const MIN16: int := -0x8000
  const MAX16: int := 0x7FFF

  predicate IsInt16(v: int) {
    MIN16 <= v <= MAX16
  }

  /** Go `int16` arithmetic: the mathematical result reduced into
      [-32768, 32767] modulo 2^16. */
  function Wrap16(v: int): (r: int)
    ensures IsInt16(r)
    ensures (r - v) % 0x1_0000 == 0
    ensures IsInt16(v) ==> r == v
  {
    (v + 0x8000) % 0x1_0000 - 0x8000
  }

  /** `uint8(v & 0xFF)`: the low byte of the two's-complement value.
      Dafny's `%` is Euclidean, so this is right for negative `v` too. */
  function LowByte(v: int): bv8 {
    (v % 0x100) as bv8
  }

  /** `uint8((v >> 8) & 0xFF)`: Go's `>>` on a signed value is an arithmetic
      shift, which is floor division by 256, as Dafny's `/` is for a positive
      divisor. */
  function HighByte(v: int): bv8 {
    ((v / 0x100) % 0x100) as bv8
  }
}
