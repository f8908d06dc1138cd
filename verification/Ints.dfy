/** 32-bit integers and their saturation, and the rounding of the C library. */
module Ints {
  const INT_MAX: int := 0x7FFF_FFFF
  const INT_MIN: int := -0x8000_0000

  type Int32 = x: int | INT_MIN <= x <= INT_MAX

  /** The nearest 32-bit integer. */
  function Saturate(value: int): (r: Int32)
    ensures INT_MIN <= value <= INT_MAX ==> r == value
    ensures forall other: Int32 :: Distance(value, r) <= Distance(value, other)
  {
    if value > INT_MAX then INT_MAX else if value < INT_MIN then INT_MIN else value
  }

  function Distance(a: int, b: int): nat {
    if a < b then b - a else a - b
  }

  function Max(a: int, b: int): int { if a > b then a else b }

  function Min(a: int, b: int): int { if b < a then b else a }

  /** round and llround: half away from zero. */
  function Round(x: real): (r: int)
    ensures -0.5 <= x - r as real <= 0.5
  {
    if x >= 0.0 then (x + 0.5).Floor else -(-x + 0.5).Floor
  }

  /** The conversion of a double to an integer: towards zero. */
  function Truncate(x: real): int {
    if x >= 0.0 then x.Floor else -(-x).Floor
  }
}
