/** Small shared vocabulary: optional values, bytes and machine-word limits. */
module Common {
  datatype Option<+T> = None | Some(value: T)

  type byte = x: int | 0 <= x < 256

  const UINT32_MAX: nat := 0xffff_ffff
  const UINT64_MAX: nat := 0xffff_ffff_ffff_ffff

  /** Machine words. Assigning to one proves that the arithmetic did not wrap. */
  type u32 = x: int | 0 <= x <= 0xffff_ffff
  type u64 = x: int | 0 <= x <= 0xffff_ffff_ffff_ffff

  function Min(a: int, b: int): int {
    if a <= b then a else b
  }

  function Max(a: int, b: int): int {
    if a <= b then b else a
  }
}
