/**
 * The 32-bit signed integers of the controllers' `int` properties, and the
 * unchecked (wrap-around) arithmetic C# performs on them by default.
 */
module Int32 {

  const Min: int := -0x8000_0000
  const Max: int := 0x7fff_ffff

  type int32 = x: int | -0x8000_0000 <= x <= 0x7fff_ffff

  /** The int32 an unchecked C# addition yields for the mathematical result `x`:
      the unique int32 congruent to `x` modulo 2^32. */
  function Wrap(x: int): (r: int32)
    ensures (r - x) % 0x1_0000_0000 == 0
    ensures Min <= x <= Max ==> r == x
    ensures x == Max + 1 ==> r == Min
    ensures x == Min - 1 ==> r == Max
  {
    (x - Min) % 0x1_0000_0000 + Min
  }
}
