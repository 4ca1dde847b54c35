/** 64-bit integers with the wrap-around of Go's int64. */
module Ints {
  const MAX_INT64 := 0x7FFF_FFFF_FFFF_FFFF
  const RANGE := 0x1_0000_0000_0000_0000

  type Int64 = n: int | -MAX_INT64 - 1 <= n <= MAX_INT64

  /** The value an int64 holds after a computation whose exact result is n. */
  function Wrap(n: int): (w: Int64)
    ensures -MAX_INT64 - 1 <= n <= MAX_INT64 ==> w == n
    ensures (n - w) % 0x1_0000_0000_0000_0000 == 0 && -0x8000_0000_0000_0000 <= w < 0x8000_0000_0000_0000
  {
    var r := n % RANGE;
    if r <= MAX_INT64 then r else r - RANGE
  }
}
