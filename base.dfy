/** Shared value types: an option type and the fixed-width integer ranges of the source. */
module Base {
  datatype Option<+T> = None | Some(value: T)
  {
    predicate IsFailure() { None? }

    function PropagateFailure<U>(): Option<U>
      requires None?
    {
      None
    }

    function Extract(): T
      requires Some?
    {
      value
    }
  }

  const U64_LIMIT: int := 0x1_0000_0000_0000_0000
  const I64_MIN: int := -0x8000_0000_0000_0000
  const I64_MAX: int := 0x7FFF_FFFF_FFFF_FFFF

  /** Rust `u8`. */
  type U8 = x: int | 0 <= x < 0x100

  /** Rust `u32`. */
  type U32 = x: int | 0 <= x < 0x1_0000_0000

  /** Rust `u64`. */
  type U64 = x: int | 0 <= x < 0x1_0000_0000_0000_0000

  /** Rust's `x as i64` on a `u64`: the same bits read as two's complement. */
  function AsI64(x: U64): (r: int)
    ensures I64_MIN <= r <= I64_MAX
    ensures (r - x) % U64_LIMIT == 0
    ensures x <= I64_MAX ==> r == x
  {
    if x <= I64_MAX then x else x - U64_LIMIT
  }

  /** Rust's `x as u64` on an `i64`: the same bits read as unsigned. */
  function AsU64(x: int): (r: U64)
    requires I64_MIN <= x <= I64_MAX
    ensures (r - x) % U64_LIMIT == 0
    ensures 0 <= x ==> r == x
  {
    if 0 <= x then x else x + U64_LIMIT
  }

  /** Storing a `u64` as an `i64` and reading it back loses nothing. */
  lemma AsI64RoundTrip(x: U64)
    ensures AsU64(AsI64(x)) == x
  {
  }
}
