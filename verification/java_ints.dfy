/** Java's 32-bit int and its two's-complement overflow. */
module JavaInts {
  /** A Java int. */
  type Int32 = x: int | -0x8000_0000 <= x < 0x8000_0000

  /** Two's-complement narrowing to a Java int: what int arithmetic keeps of an exact result. */
  function Wrap(x: int): (r: Int32)
    ensures (r - x) % 0x1_0000_0000 == 0
  {
    var m := x % 0x1_0000_0000;
    if m >= 0x8000_0000 then m - 0x1_0000_0000 else m
  }

  /** Adding a multiple of 2^32 does not change the wrapped value. */
  lemma WrapShift(y: int, k: int)
    ensures Wrap(y + k * 0x1_0000_0000) == Wrap(y)
  {
    assert (y + k * 0x1_0000_0000) % 0x1_0000_0000 == y % 0x1_0000_0000;
  }
}
