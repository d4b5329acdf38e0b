/** Java's 32-bit `int`: its range and its wrap-around increment. */
module JavaInt {

  const MinValue: int := -0x8000_0000
  const MaxValue: int := 0x7fff_ffff

  /** The values a Java `int` can hold. */
  type Int32 = x: int | MinValue <= x <= MaxValue

  /** `x + 1` evaluated in `int` arithmetic: two's complement wraps
      `Integer.MAX_VALUE + 1` around to `Integer.MIN_VALUE`. */
  function Increment(x: Int32): Int32 {
    if x == MaxValue then MinValue else x + 1
  }

  /** The increment agrees with mathematical `x + 1` modulo 2^32, and
      equals it everywhere except at `Integer.MAX_VALUE`. */
  lemma IncrementWraps(x: Int32)
    ensures (Increment(x) - (x + 1)) % 0x1_0000_0000 == 0
    ensures x < MaxValue <==> Increment(x) == x + 1
  {
  }
}
