/** Fixed-width integers as the tracer uses them: unsigned C/Go words, the casts to
    signed words, wrap-around arithmetic and Go's truncating division. */
module Words {
  datatype Option<+T> = None | Some(value: T)

  const TWO_31: int := 0x8000_0000
  const TWO_32: int := 0x1_0000_0000
  const TWO_63: int := 0x8000_0000_0000_0000
  const TWO_64: int := 0x1_0000_0000_0000_0000

  type u32 = x: int | 0 <= x < 0x1_0000_0000
  type u64 = x: int | 0 <= x < 0x1_0000_0000_0000_0000

  /** The value of a 64-bit register after storing `x` into it. */
  function Wrap64(x: int): u64 {
    x % TWO_64
  }

  function Add64(a: u64, b: u64): u64 {
    Wrap64(a as int + b as int)
  }

  function Sub64(a: u64, b: u64): u64 {
    Wrap64(a as int - b as int)
  }

  /** The conversion (__s32)x, or Go's int32(x). */
  function AsS32(x: u32): int {
    if x < TWO_31 then x else x - TWO_32
  }

  /** Go's int32(x) of a wider integer: truncate, then read as signed. */
  function Truncate32(x: int): int {
    AsS32(x % TWO_32)
  }

  /** It is the one signed 32-bit value that differs from `x` by a multiple of 2^32. */
  lemma TruncateIs(x: int, r: int)
    requires -0x8000_0000 <= r < 0x8000_0000
    ensures Truncate32(x) == r <==> (r - x) % 0x1_0000_0000 == 0
  {
    assert x == x / TWO_32 * TWO_32 + x % TWO_32;
    var q := (r - x) / TWO_32;
    assert r - x == q * TWO_32 + (r - x) % TWO_32;
  }

  /** Go's int64(x). */
  function AsS64(x: u64): int {
    if x < TWO_63 then x else x - TWO_64
  }

  /** Go's a / b for positive b: rounds toward zero. */
  function TruncDiv(a: int, b: int): int
    requires b > 0
  {
    if a >= 0 then a / b else -((-a) / b)
  }

  /** The one signed 64-bit value that differs from `x` by a multiple of 2^64. */
  lemma SignedIs(x: u64, r: int)
    requires -0x8000_0000_0000_0000 <= r < 0x8000_0000_0000_0000
    ensures AsS64(x) == r <==> (r - x) % 0x1_0000_0000_0000_0000 == 0
  {}
}
