/** Small shared definitions: an optional value and the signed 64-bit integer range. */
module Basics {

  /** Rust's `Option<T>`. */
  datatype Option<+T> = None | Some(value: T)

  const I64_MIN: int := -0x8000_0000_0000_0000
  const I64_MAX: int := 0x7FFF_FFFF_FFFF_FFFF

  /** Rust's `i64`: the integers that fit in 64-bit two's complement. */
  type i64 = x: int | I64_MIN <= x <= I64_MAX
}
