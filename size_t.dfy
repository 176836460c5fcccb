/** The unsigned 64-bit counters (size_t) of the C++ components, with their wrap-around. */
module SizeT {

  /** The largest size_t value. */
  const SizeMax: int := 0xFFFF_FFFF_FFFF_FFFF

  /** An unsigned 64-bit count. */
  type Size = x: int | 0 <= x <= SizeMax

  /** size_t increment, wrapping to 0 past the maximum. */
  function Inc(x: Size): (r: Size)
    ensures r == (x + 1) % (SizeMax + 1)
  {
    if x == SizeMax then 0 else x + 1
  }

  /** size_t decrement, wrapping to the maximum below 0. */
  function Dec(x: Size): (r: Size)
    ensures r == (x - 1) % (SizeMax + 1)
    ensures Inc(r) == x
  {
    if x == 0 then SizeMax else x - 1
  }
}
