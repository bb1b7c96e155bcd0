/** The fixed-width integer types the exercises use, as ranges of mathematical integers. */
module RustInt {

  const I32_MIN: int := -0x8000_0000
  const I32_MAX: int := 0x7FFF_FFFF
  const U32_MAX: int := 0xFFFF_FFFF

  /** `i32`: an arithmetic result outside this range panics in a debug build. */
  type I32 = x: int | I32_MIN <= x <= I32_MAX

  /** `u32`. */
  type U32 = x: int | 0 <= x <= U32_MAX
}
