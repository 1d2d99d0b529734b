/** Small value types shared by the modules of this model. */
module Wrappers {

  /** A value that may be absent; stands for the source's NULL pointers and missing lookups. */
  datatype Option<+T> = None | Some(value: T)

  /** A pair of integer coordinates (the engine's Vect2i / Vect2s). */
  datatype Vec2 = Vec2(x: int, y: int)

  /** The magnitude of an integer. */
  function Abs(a: int): nat {
    if a < 0 then -a else a
  }

  /** C++ division of ints, which truncates toward zero. */
  function CDiv(a: int, b: int): (q: int)
    requires b != 0
    ensures a >= 0 && b > 0 ==> q == a / b
  {
    if (a >= 0) == (b > 0) then Abs(a) / Abs(b) else -(Abs(a) / Abs(b))
  }

  /** C++ remainder of ints, which takes the sign of the dividend. */
  function CMod(a: int, b: int): (r: int)
    requires b != 0
    ensures a >= 0 && b > 0 ==> r == a % b
  {
    a - b * CDiv(a, b)
  }

  /** The largest value an unsigned 32-bit integer can hold, plus one. */
  const Two32: int := 0x1_0000_0000

  /** Unsigned 32-bit value. */
  type U32 = x: int | 0 <= x < Two32

  /**
   * One value of a binary save stream. The streams write little-endian
   * 32-bit integers, 32-bit floats and single bytes; the model keeps each
   * written value as one token instead of its bytes.
   */
  datatype Token = Int32(i: int) | Float32(f: real) | Byte(b: int)
}
