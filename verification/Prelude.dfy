/** Small shared vocabulary: options, results and machine integers. */
module Prelude {

  datatype Option<+T> = None | Some(value: T)

  datatype Result<+T, +E> = Ok(value: T) | Err(error: E)

  const U32_MAX: int := 0xffff_ffff
  const U64_MAX: int := 0xffff_ffff_ffff_ffff

  /** A signed 32-bit integer. */
  type I32 = x: int | -0x8000_0000 <= x <= 0x7fff_ffff

  /** One byte of a stream. */
  type Byte = x: int | 0 <= x < 256

  /** The i32 closest to a mathematical integer. */
  function ClampI32(x: int): (r: I32)
    ensures -0x8000_0000 <= x <= 0x7fff_ffff ==> r == x
  {
    if x < -0x8000_0000 then -0x8000_0000 else if x > 0x7fff_ffff then 0x7fff_ffff else x
  }

  /** i32::saturating_add. */
  function SaturatingAdd(a: I32, b: I32): I32 {
    ClampI32(a + b)
  }

  predicate FitsI32(x: int) {
    -0x8000_0000 <= x <= 0x7fff_ffff
  }

  lemma {:induction false} Associate<T>(a: seq<T>, b: seq<T>, c: seq<T>)
    ensures a + b + c == a + (b + c)
  {
  }
}
