/** The fixed-width integers of the C++ sources, and the conversions that lose bits. */
module Words {

  type byte = x: int | 0 <= x < 0x100
  type int8 = x: int | -0x80 <= x < 0x80
  type uint16 = x: int | 0 <= x < 0x1_0000
  type int16 = x: int | -0x8000 <= x < 0x8000
  type uint32 = x: int | 0 <= x < 0x1_0000_0000

  /** The value kept when an integer is stored in 16 unsigned bits. */
  function Low16(x: int): uint16 {
    x % 0x1_0000
  }

  /** The value kept when an integer is stored in 32 unsigned bits. */
  function Low32(x: int): uint32 {
    x % 0x1_0000_0000
  }

  /** One more, wrapping around at 32 bits. */
  function Next32(x: uint32): uint32 {
    if x == 0xFFFF_FFFF then 0 else x + 1
  }

  /** A big-endian pair of bytes. */
  function Word(high: byte, low: byte): uint16 {
    var h: int := high;
    h * 256 + low
  }

  /** The value kept when an unsigned 16-bit word is read as a signed one. */
  function Signed16(x: uint16): int16 {
    if x < 0x8000 then x else x - 0x1_0000
  }

  /** Division of C++: the quotient is rounded toward zero. */
  function Truncated(a: int, b: int): int
    requires b > 0
  {
    if a >= 0 then a / b else -((-a) / b)
  }

  /** What the division leaves is smaller than the divisor, and on the side of zero that a is on. */
  lemma TruncatedIsExact(a: int, b: int)
    requires b > 0
    ensures a >= 0 ==> 0 <= a - b * Truncated(a, b) < b
    ensures a <= 0 ==> -b < a - b * Truncated(a, b) <= 0
  {
    if a >= 0 {
      assert a == b * (a / b) + a % b;
    } else {
      assert -a == b * (-a / b) + (-a) % b;
    }
  }
}
