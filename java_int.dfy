/**
 * Java's 32-bit `int`: the values it can hold and its wrap-around arithmetic.
 * Every `int` addition and subtraction in the modelled programs goes through Wrap32.
 */
module JavaInt {

  const MIN_INT: int := -0x8000_0000
  const MAX_INT: int := 0x7fff_ffff

  /** The values of Java's `int`. */
  type int32 = x: int | -0x8000_0000 <= x <= 0x7fff_ffff

  /**
   * The result of Java `int` arithmetic whose mathematical value is x:
   * the one int32 that is congruent to x modulo 2^32.
   */
  function Wrap32(x: int): (r: int32)
    ensures (x - r) % 0x1_0000_0000 == 0
    ensures MIN_INT <= x <= MAX_INT ==> r == x
  {
    (x + 0x8000_0000) % 0x1_0000_0000 - 0x8000_0000
  }

  /** Wrapping an intermediate sum changes nothing: `int` addition is addition modulo 2^32. */
  lemma WrapAdd(a: int, b: int)
    ensures Wrap32(Wrap32(a) + b) == Wrap32(a + b)
  {
  }
}
