/**
 * Java `int` arithmetic on Dafny's unbounded integers: 32-bit two's-complement
 * wrap-around and division that truncates toward zero.
 */
module JavaInt {

  const IntMin: int := -0x8000_0000
  const IntMax: int := 0x7fff_ffff

  /** The values a Java `int` can hold. */
  type Int32 = x: int | IntMin <= x <= IntMax

  /** Reduces an exact result to the `int` Java computes (two's-complement wrap-around). */
  function Wrap(x: int): (r: Int32)
    ensures IntMin <= x <= IntMax ==> r == x
    ensures (r - x) % 0x1_0000_0000 == 0
  {
    var m := (x - IntMin) % 0x1_0000_0000;
    m + IntMin
  }

  /** Java's `a - b` on two `int`s. */
  function Sub(a: Int32, b: Int32): Int32
  {
    Wrap(a - b)
  }

  /** Java's `a / 2` on an `int`: the quotient is truncated toward zero, so it
      never lies further from zero than the exact half. */
  function Half(a: Int32): (q: Int32)
    ensures a >= 0 ==> 0 <= 2 * q <= a <= 2 * q + 1
    ensures a < 0 ==> 2 * q - 1 <= a <= 2 * q <= 0
  {
    var n: int := a;
    if n >= 0 then n / 2 else -((-n) / 2)
  }

  /** Java's `Math.abs(int)`: `Integer.MIN_VALUE` is its own absolute value. */
  function Abs(a: Int32): (r: Int32)
    ensures a != IntMin ==> r >= 0 && (r == a || r == -a)
    ensures a == IntMin ==> r == IntMin
  {
    if a < 0 then Wrap(-(a as int)) else a
  }

  /** Java's unary minus on an `int`. */
  function Neg(a: Int32): (r: Int32)
    ensures a != IntMin ==> r == -a
  {
    Wrap(-(a as int))
  }
}
