/** Rust's `u8` and the overflow-checked arithmetic a debug build performs on it.
    A result of `None` stands for the "attempt to add with overflow" panic. */
module Bytes {
  import opened Wrappers

  type u8 = x: int | 0 <= x < 0x100

  const U8_MAX: int := 0xFF

  function CheckedAdd(a: u8, b: u8): Option<u8> {
    if a + b <= U8_MAX then Some(a + b) else None
  }

  function CheckedSub(a: u8, b: u8): Option<u8> {
    if a >= b then Some(a - b) else None
  }

  function CheckedMul(a: u8, b: u8): Option<u8> {
    if a * b <= U8_MAX then Some(a * b) else None
  }

  /** `u8::pow`, on unbounded naturals. */
  function Pow(base: nat, exp: nat): nat {
    if exp == 0 then 1 else base * Pow(base, exp - 1)
  }
}
