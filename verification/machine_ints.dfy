/** The Rust machine integers the widget uses, and the checked `u16`
    arithmetic of a debug build, where an overflow panics. */
module MachineInts {
  import opened Wrappers

  type U8 = x: int | 0 <= x < 0x100
  type U16 = x: int | 0 <= x < 0x1_0000
  type I64 = x: int | -0x8000_0000_0000_0000 <= x < 0x8000_0000_0000_0000

  /** `a + b` on `u16`; `None` is the overflow panic. */
  function CheckedAdd16(a: U16, b: U16): Option<U16>
  {
    if a + b < 0x1_0000 then Some(a + b) else None
  }

  /** `a - b` on `u16`; `None` is the underflow panic. */
  function CheckedSub16(a: U16, b: U16): Option<U16>
  {
    if b <= a then Some(a - b) else None
  }

  /** `n.try_into::<u16>().unwrap()` on a `usize`; `None` is the panic. */
  function ToU16(n: nat): Option<U16>
  {
    if n < 0x1_0000 then Some(n) else None
  }
}
