/** Go's unsigned machine word `uint`, taken to be 64 bits wide (as on
    64-bit platforms); arithmetic on it wraps around modulo 2^64. */
module GoUint {

  /** 2^64, the number of distinct `uint` values. */
  const WORD: nat := 0x1_0000_0000_0000_0000

  /** The largest `uint`, 2^64 - 1. */
  const MAX_UINT: nat := WORD - 1

  type uint64 = x: int | 0 <= x < 0x1_0000_0000_0000_0000

  /** Go's `a - b` on `uint`: the difference taken modulo 2^64. */
  function Sub(a: uint64, b: uint64): (r: uint64)
    ensures a >= b ==> r == a - b
    ensures a < b ==> r == WORD + a - b
  {
    (a - b) % WORD
  }
}
