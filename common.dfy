/** Shared value types: optional values, results of calls that can throw,
    and the fixed-width unsigned integers the engine interface uses. */
module Common {

  /** Swift's `T?` */
  datatype Option<+T> = None | Some(value: T)

  /** The outcome of a Swift call that either returns a value or throws */
  datatype Result<+T, +E> = Ok(value: T) | Err(error: E)

  /** The outcome of a Swift `throws` function returning `Void` */
  datatype Outcome<+E> = Pass | Fail(error: E)

  const UINT32_MAX: int := 0xFFFF_FFFF
  const UINT64_MAX: int := 0xFFFF_FFFF_FFFF_FFFF

  /** `UInt32` / Rust `u32` */
  type UInt32 = x: int | 0 <= x <= UINT32_MAX

  /** `UInt64` / Rust `u64` */
  type UInt64 = x: int | 0 <= x <= UINT64_MAX
}
