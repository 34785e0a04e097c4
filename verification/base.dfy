/** Shared vocabulary: bytes and the optional/fallible results every
    checked operation returns instead of trapping. */
module Base {

  /** An unsigned 8-bit value (Rust's `u8`). */
  type byte = x: int | 0 <= x < 256

  datatype Option<+T> = None | Some(value: T)

  datatype Result<+T, +E> = Ok(value: T) | Err(error: E)

  /** `t` is a (not necessarily proper) suffix of `s`. */
  predicate IsSuffix(t: seq<byte>, s: seq<byte>) {
    |t| <= |s| && t == s[|s| - |t|..]
  }

  /** `usize::checked_sub`: `None` where the subtraction would underflow. */
  function CheckedSub(a: nat, b: nat): (r: Option<nat>)
    ensures r.Some? <==> b <= a
    ensures r.Some? ==> r.value + b == a
  {
    if a < b then None else Some(a - b)
  }
}
