/** Java's 32-bit `int`, where an offset computation in the folding code can wrap around. */
module JavaInt {

  const MinInt: int := -0x8000_0000
  const MaxInt: int := 0x7fff_ffff

  type Int32 = x: int | MinInt <= x <= MaxInt

  /** `x + 1` in Java: two's-complement addition wraps Integer.MAX_VALUE to Integer.MIN_VALUE. */
  function Increment(x: Int32): (r: Int32)
    ensures r == (x + 1 - MinInt) % 0x1_0000_0000 + MinInt
    ensures r == x + 1 || (x == MaxInt && r == MinInt)
  {
    if x == MaxInt then MinInt else x + 1
  }

  /** `Math.min` on two ints. */
  function Min(a: int, b: int): (r: int)
    ensures r <= a && r <= b
    ensures r == a || r == b
  {
    if a <= b then a else b
  }

}
