// Machine words and small value types shared by every component.
module Basics {
  const TWO_8: int := 0x100
  const TWO_16: int := 0x1_0000
  const TWO_32: int := 0x1_0000_0000
  const TWO_64: int := 0x1_0000_0000_0000_0000
  const U32_MAX: int := 0xffff_ffff
  const U64_MAX: int := 0xffff_ffff_ffff_ffff

  type u8 = x: int | 0 <= x < TWO_8
  type u16 = x: int | 0 <= x < TWO_16
  type u32 = x: int | 0 <= x < TWO_32
  type u64 = x: int | 0 <= x < TWO_64

  datatype Option<+T> = None | Some(value: T)

  datatype Result<+T, +E> = Ok(value: T) | Err(error: E) {
    predicate IsFailure() { Err? }

    function PropagateFailure<U>(): Result<U, E>
      requires Err?
    {
      Err(error)
    }

    function Extract(): T
      requires Ok?
    {
      value
    }
  }

  predicate Contains(text: string, pattern: string) {
    pattern <= text || (text != "" && Contains(text[1..], pattern))
  }

  function Min(a: int, b: int): int { if a <= b then a else b }

  function Max(a: int, b: int): int { if a >= b then a else b }

  // 64-bit wrapping and saturating arithmetic.
  function WrapAdd(a: u64, b: u64): u64 { (a + b) % TWO_64 }

  function WrapSub(a: u64, b: u64): u64 { (a - b) % TWO_64 }

  function SatAdd(a: u64, b: u64): u64 { Min(a + b, U64_MAX) }
}
