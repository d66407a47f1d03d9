/** C#'s unchecked 32-bit int arithmetic: a result is wrapped into [-2^31, 2^31). */
module Int32 {
  const Min: int := -0x8000_0000
  const Max: int := 0x7fff_ffff

  /** The int a wider result wraps around to. */
  function Wrap(x: int): (r: int)
    ensures Min <= r <= Max
    ensures (r - x) % 0x1_0000_0000 == 0
    ensures Min <= x <= Max ==> r == x
  {
    (x - Min) % 0x1_0000_0000 + Min
  }

  /** Multiplication as C# evaluates it on two ints. */
  function Mul(a: int, b: int): int
  {
    Wrap(a * b)
  }

  /** Out of range the product wraps: 65536 * 32768 is 2^31, which becomes the most negative int. */
  lemma ProductCanWrapNegative()
    ensures Mul(65536, 32768) == Min
  {
  }
}
