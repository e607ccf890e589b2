/** The 32-bit two's-complement `int` of the C++ sources. */
module Int32 {
  const INT_MAX: int := 0x7FFF_FFFF
  const INT_MIN: int := -0x8000_0000

  function Wrap32(x: int): int {
    (x + 0x8000_0000) % 0x1_0000_0000 - 0x8000_0000
  }

  lemma WrapKeeps(x: int)
    requires INT_MIN <= x <= INT_MAX
    ensures Wrap32(x) == x
  {
  }

  function Min(a: int, b: int): int {
    if a < b then a else b
  }

  function Max(a: int, b: int): int {
    if a < b then b else a
  }
}
