/** Shared vocabulary: Rust's `Option` and the fixed-width unsigned integer
    types the server's options and health record are declared with. Dafny's
    integers are unbounded, so each width is a subset type and every place
    where the source can overflow spells out what happens there. */
module Basics {

  /** Rust's `Option<T>`. */
  datatype Option<+T> = None | Some(value: T) {

    /** `Option::unwrap_or`: the contained value, or `default` when absent. */
    function UnwrapOr(default: T): (r: T)
      ensures Some? ==> r == value
      ensures None? ==> r == default
    {
      match this
      case Some(v) => v
      case None => default
    }
  }

  const U16_LIMIT: int := 0x1_0000
  const U32_LIMIT: int := 0x1_0000_0000
  /** The server is built for 64-bit targets, so `usize` is 64 bits wide. */
  const USIZE_LIMIT: int := 0x1_0000_0000_0000_0000
  const USIZE_MAX: int := USIZE_LIMIT - 1

  type U16 = x: int | 0 <= x < U16_LIMIT
  type U32 = x: int | 0 <= x < U32_LIMIT
  type Usize = x: int | 0 <= x < USIZE_LIMIT

  /** `usize::saturating_add(1)`: one more, but never past `usize::MAX`. */
  function SaturatingIncrement(x: Usize): (r: Usize)
    ensures x < USIZE_MAX ==> r == x + 1
    ensures x == USIZE_MAX ==> r == x
  {
    if x < USIZE_MAX then x + 1 else x
  }

  /** `usize += 1` in a release build: one more, wrapping to 0 past `usize::MAX`. */
  function WrappingIncrement(x: Usize): (r: Usize)
    ensures x < USIZE_MAX ==> r == x + 1
    ensures x == USIZE_MAX ==> r == 0
  {
    (x + 1) % USIZE_LIMIT
  }
}
