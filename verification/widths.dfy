/** Fixed-width integers of the contract's C++ record layouts, written out
    over Dafny's unbounded `int`: the unsigned widths as subset types, the
    two's-complement casts between `int64_t` and `uint64_t`, and the
    wrap-around of unsigned arithmetic. */
module Widths {

  const U16_MODULUS: int := 0x1_0000
  const U64_MODULUS: int := 0x1_0000_0000_0000_0000
  const I64_MIN: int := -0x8000_0000_0000_0000
  const I64_LIMIT: int := 0x8000_0000_0000_0000

  type u8 = x: int | 0 <= x < 0x100
  type u16 = x: int | 0 <= x < 0x1_0000
  type u32 = x: int | 0 <= x < 0x1_0000_0000
  type u64 = x: int | 0 <= x < 0x1_0000_0000_0000_0000
  type i64 = x: int | -0x8000_0000_0000_0000 <= x < 0x8000_0000_0000_0000

  /** Storing an integer into a `uint16_t` keeps it modulo 2^16. */
  function WrapU16(x: int): (r: u16)
    ensures 0 <= x < U16_MODULUS ==> r == x
    ensures (r - x) % U16_MODULUS == 0
  {
    x % U16_MODULUS
  }

  /** Unsigned 64-bit arithmetic keeps its result modulo 2^64. */
  function WrapU64(x: int): (r: u64)
    ensures 0 <= x < U64_MODULUS ==> r == x
    ensures (r - x) % U64_MODULUS == 0
  {
    x % U64_MODULUS
  }

  /** The cast `uint64_t(x)` of a signed 64-bit value: negative values
      reappear as their two's-complement bit pattern. */
  function ToUnsigned(x: i64): (r: u64)
    ensures x >= 0 ==> r == x
    ensures x < 0 ==> r >= I64_LIMIT
    ensures (r - x) % U64_MODULUS == 0
  {
    if x < 0 then x + U64_MODULUS else x
  }

  /** The cast `int64_t(x)` of an unsigned 64-bit value. */
  function ToSigned(x: u64): (r: i64)
    ensures x < I64_LIMIT ==> r == x
    ensures x >= I64_LIMIT ==> r < 0
    ensures (r - x) % U64_MODULUS == 0
  {
    if x < I64_LIMIT then x else x - U64_MODULUS
  }

  /** The two casts are mutually inverse, so a signed amount stored as
      `uint64_t` and read back through `int64_t` is recovered exactly. */
  lemma SignedRoundTrip(x: i64)
    ensures ToSigned(ToUnsigned(x)) == x
  {
  }
}
