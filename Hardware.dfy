/** The Arduino primitives the controller is written against: 8-bit pin
    values, the 32-bit millisecond clock and the C conversions between them. */
module Hardware {

  /** An unsigned 8-bit value (`byte`). */
  type Byte = x: int | 0 <= x < 0x100

  /** The two values `digitalRead` returns and `digitalWrite` takes. */
  const LOW: Byte := 0
  const HIGH: Byte := 1

  /** A reading of a digital input pin. */
  type Level = b: Byte | b == LOW || b == HIGH witness 0

  const CLOCK_MODULUS: int := 0x1_0000_0000

  /** A value of `millis()` or of any `unsigned long`: 32 bits on the AVR boards. */
  type Millis = x: int | 0 <= x < 0x1_0000_0000

  /** An `int` on the AVR boards: 16 bits, signed. */
  type Int16 = x: int | -0x8000 <= x < 0x8000

  /** `now - since` computed on `unsigned long`, which wraps modulo 2^32. */
  function Elapsed(now: Millis, since: Millis): (e: Millis)
    ensures since <= now ==> e == now - since
    ensures now < since ==> e == now - since + CLOCK_MODULUS
  {
    (now - since) % CLOCK_MODULUS
  }

  /** The usual arithmetic conversion of an `int` operand to `unsigned long`. */
  function ToUnsignedLong(x: Int16): (u: Millis)
    ensures 0 <= x ==> u == x
    ensures x < 0 ==> u == x + CLOCK_MODULUS
  {
    x % CLOCK_MODULUS
  }

  /** Storing an `int` into a `byte` keeps its low 8 bits. */
  function ToByte(x: int): (b: Byte)
    ensures 0 <= x < 0x100 ==> b == x
    ensures -0x100 <= x < 0 ==> b == x + 0x100
  {
    x % 0x100
  }
}
