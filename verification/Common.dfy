/** Vocabulary shared by every module: optional values, results and 64-bit arithmetic. */
module Common {
  datatype Option<+T> = None | Some(value: T)

  datatype Result<+T, +E> = Ok(value: T) | Err(error: E)

  const U64_MAX: nat := 0xFFFF_FFFF_FFFF_FFFF

  type u64 = n: nat | n <= U64_MAX

  /** Rust's `u64::checked_add`. */
  function CheckedAdd(a: u64, b: u64): Option<u64> {
    if a + b <= U64_MAX then Some(a + b) else None
  }

  /** Rust's `u64::saturating_add`. */
  function SaturatingAdd(a: u64, b: u64): u64 {
    if a + b <= U64_MAX then a + b else U64_MAX
  }

  /** Rust's `u64::saturating_sub`. */
  function SaturatingSub(a: u64, b: u64): u64 {
    if b <= a then a - b else 0
  }
}
