/** Java's 32-bit `int` arithmetic, written out over Dafny's unbounded integers. */
module JavaInt {

  const TWO_32: int := 0x1_0000_0000
  const INT_MIN: int := -0x8000_0000
  const INT_MAX: int := 0x7FFF_FFFF

  type Int32 = x: int | INT_MIN <= x <= INT_MAX

  /** Two's-complement wrap-around of an exact result into 32 bits. */
  function Wrap(x: int): (r: Int32)
    ensures (r - x) % TWO_32 == 0
    ensures INT_MIN <= x <= INT_MAX ==> r == x
  {
    var m := (x - INT_MIN) % TWO_32;
    m + INT_MIN
  }

  /** Java `a * b` on two ints. */
  function Mul(a: Int32, b: Int32): Int32
  {
    Wrap(a * b)
  }

  /** Java `a / b` on two ints: rounds toward zero, and MIN_VALUE / -1 wraps to MIN_VALUE. */
  function Div(a: Int32, b: Int32): Int32
    requires b != 0
  {
    var q := if (a < 0) == (b < 0) then Abs(a) / Abs(b) else -(Abs(a) / Abs(b));
    Wrap(q)
  }

  /** Java `a % b` on ints: the remainder takes the sign of `a`. */
  function Rem(a: int, b: int): (r: int)
    requires b > 0
    ensures a >= 0 ==> r == a % b
    ensures -b < r < b
  {
    if a >= 0 then a % b else -((-a) % b)
  }

  function Abs(x: int): nat
  {
    if x < 0 then -x else x
  }

  /** On non-negative operands Java's division is Dafny's. */
  lemma DivNonNegative(a: Int32, b: Int32)
    requires a >= 0 && b > 0
    ensures Div(a, b) == a / b
  {
  }
}
