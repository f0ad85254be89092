/** What several modules share: optional values, and 64-bit integers that wrap. */
module Wrappers {
  datatype Option<+T> = None | Some(value: T)

  const TWO63 := 0x8000_0000_0000_0000

  predicate IsInt64(n: int) {
    -TWO63 <= n < TWO63
  }

  /** The value that `n` has as a 64-bit integer in two's complement. */
  function Wrap64(n: int): (r: int)
    ensures IsInt64(r)
    ensures IsInt64(n) ==> r == n
    ensures TWO63 <= n < 2 * TWO63 ==> r == n - 2 * TWO63
  {
    (n + TWO63) % (2 * TWO63) - TWO63
  }
}
