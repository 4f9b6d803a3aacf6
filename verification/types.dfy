/**
 * Shared vocabulary of the model: optional values, results with an error
 * side, and the fixed-width unsigned integers the reader uses.
 */
module Types {

  /** An optional value (Rust's `Option`). */
  datatype Option<+T> = None | Some(value: T)

  /** A value or an error (Rust's `Result`). */
  datatype Result<+T, +E> = Ok(value: T) | Err(error: E)

  const U16_MAX: int := 0xFFFF

  /** Rust's `u16`. */
  type U16 = x: int | 0 <= x <= U16_MAX

  /** Rust's `u32`. */
  type U32 = x: int | 0 <= x <= 0xFFFF_FFFF

  /** `u16::saturating_add`. */
  function SaturatingAdd(a: U16, b: U16): U16
  {
    if a + b > U16_MAX then U16_MAX else a + b
  }

  /** `u16::saturating_sub`. */
  function SaturatingSub(a: U16, b: U16): U16
  {
    if a < b then 0 else a - b
  }

  /** Whether `sub` occurs as a contiguous piece of `s`. */
  predicate Contains(s: string, sub: string)
  {
    exists i :: 0 <= i <= |s| && sub <= s[i..]
  }
}
