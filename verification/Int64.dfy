/** Signed 64-bit integers with the checked operations the code relies on. */
module Int64 {
  import opened Wrappers

  const I64_MIN: int := -0x8000_0000_0000_0000
  const I64_MAX: int := 0x7FFF_FFFF_FFFF_FFFF

  type I64 = x: int | I64_MIN <= x <= I64_MAX

  /** The value when it is representable, as `checked_add`, `checked_sub` and `checked_mul` give it. */
  function Checked(x: int): Option<I64> {
    if I64_MIN <= x <= I64_MAX then Some(x) else None
  }
}
