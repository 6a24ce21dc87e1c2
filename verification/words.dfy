/** Fixed-width unsigned arithmetic, as the emulator's Rust code uses it. */
module Words {

  const TWO_32: int := 0x1_0000_0000
  const TWO_63: int := 0x8000_0000_0000_0000
  const TWO_64: int := 0x1_0000_0000_0000_0000
  const MAX_U64: u64 := 0xffff_ffff_ffff_ffff

  type u8 = x: int | 0 <= x < 0x100
  type u16 = x: int | 0 <= x < 0x1_0000
  type u32 = x: int | 0 <= x < 0x1_0000_0000
  type u64 = x: int | 0 <= x < 0x1_0000_0000_0000_0000

  datatype Option<+T> = None | Some(value: T)

  /** `a.wrapping_add(b)` on `u64`. */
  function WrapAdd(a: u64, b: u64): u64 {
    if a + b < TWO_64 then a + b else a + b - TWO_64
  }

  /** `a.wrapping_sub(b)` on `u64`. */
  function WrapSub(a: u64, b: u64): u64 {
    if a >= b then a - b else a - b + TWO_64
  }

  /** A pointer that has run at most once past either end of the address space. */
  function Wrap64(x: int): int {
    if x < 0 then x + TWO_64 else if x >= TWO_64 then x - TWO_64 else x
  }

  /** `a.saturating_add(b)` on `u64`. */
  function SatAdd(a: u64, b: u64): u64 {
    if a + b < TWO_64 then a + b else MAX_U64
  }

  /** `a.saturating_sub(b)` on `u64`. */
  function SatSub(a: u64, b: u64): u64 {
    if a >= b then a - b else 0
  }

  function Min(a: int, b: int): int {
    if a <= b then a else b
  }
}
