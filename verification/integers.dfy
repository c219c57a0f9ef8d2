/** The 64-bit integers of the source, where their width shows. */
module Integers {
  const MAX_INT64: int := 0x7fff_ffff_ffff_ffff
  const MIN_INT64: int := -0x8000_0000_0000_0000

  type Int64 = x: int | MIN_INT64 <= x <= MAX_INT64

  /** Two's complement: what is left of a result that does not fit. */
  function Wrap64(x: int): (r: Int64)
    ensures MIN_INT64 <= x <= MAX_INT64 ==> r == x
  {
    if MIN_INT64 <= x <= MAX_INT64 then x else LowBits(x)
  }

  function LowBits(x: int): Int64 {
    var low := x % 0x1_0000_0000_0000_0000;
    if low <= MAX_INT64 then low else low - 0x1_0000_0000_0000_0000
  }

  /** The wrapped result is the one 64-bit integer that differs by a multiple of 2^64. */
  lemma WrapIsCongruent(x: int, y: Int64)
    ensures y == Wrap64(x) <==> (x - y) % 0x1_0000_0000_0000_0000 == 0
  {
  }

  /** One more; the largest is followed by the least. */
  function Successor(x: Int64): (r: Int64) {
    if x == MAX_INT64 then MIN_INT64 else x + 1
  }

  lemma SuccessorIsWrapped(x: Int64)
    ensures Successor(x) == Wrap64(x + 1)
  {
  }

  /** The difference of two times, which time.Time.Sub clamps to a Duration. */
  function Clamp64(x: int): (r: Int64)
    ensures MIN_INT64 <= x <= MAX_INT64 ==> r == x
  {
    if x > MAX_INT64 then MAX_INT64 else if x < MIN_INT64 then MIN_INT64 else x
  }
}
