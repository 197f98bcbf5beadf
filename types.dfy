/** Fixed-width C types used by the firmware, and C's integer division. */
module Types {

  /** uint8_t as a bit-vector, so that `^`, `&`, `|` and shifts behave as in C. */
  type byte = bv8

  /** uint8_t as a number. */
  type uint8 = x: int | 0 <= x < 0x100

  /** uint16_t as a number. */
  type uint16 = x: int | 0 <= x < 0x1_0000

  /** uint32_t as a number. */
  type uint32 = x: int | 0 <= x < 0x1_0000_0000

  /** int16_t as a number. */
  type int16 = x: int | -0x8000 <= x < 0x8000

  datatype Option<+T> = None | Some(value: T)

  /** C's `/` on int: the quotient is truncated toward zero (Dafny's `/` is Euclidean). */
  function TruncDiv(a: int, b: int): (q: int)
    requires b > 0
    // the remainder a - q * b takes the sign of the dividend and is smaller than the divisor,
    // which is the C99 definition; it determines q uniquely
    ensures 0 <= a ==> 0 <= a - q * b < b
    ensures a < 0 ==> -b < a - q * b <= 0
  {
    if a >= 0 then a / b else -((-a) / b)
  }
}
