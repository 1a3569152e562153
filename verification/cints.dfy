/** Fixed-width C integer types and the implicit conversions the firmware relies on.
    Dafny integers are unbounded, so every narrowing assignment of the source is
    written out here as an explicit reduction. */
module CInts {

  type Uint8 = x: int | 0 <= x < 0x100
  type Uint16 = x: int | 0 <= x < 0x1_0000
  type Uint32 = x: int | 0 <= x < 0x1_0000_0000
  type Int8 = x: int | -0x80 <= x < 0x80

  /** Conversion of any integer to `uint8_t`: reduction modulo 2^8. */
  function ToUint8(x: int): (r: Uint8)
    ensures (r - x) % 0x100 == 0
    ensures 0 <= x < 0x100 ==> r == x
  {
    x % 0x100
  }

  /** Conversion of any integer to `uint16_t`: reduction modulo 2^16. */
  function ToUint16(x: int): (r: Uint16)
    ensures (r - x) % 0x1_0000 == 0
    ensures 0 <= x < 0x1_0000 ==> r == x
  {
    x % 0x1_0000
  }

  /** Conversion of any integer to `uint32_t`: reduction modulo 2^32. */
  function ToUint32(x: int): (r: Uint32)
    ensures (r - x) % 0x1_0000_0000 == 0
    ensures 0 <= x < 0x1_0000_0000 ==> r == x
  {
    x % 0x1_0000_0000
  }

  /** Conversion of any integer to `int8_t`, taken as the two's-complement
      wrap-around that the compilers this firmware targets perform. */
  function ToInt8(x: int): (r: Int8)
    ensures (r - x) % 0x100 == 0
    ensures -0x80 <= x < 0x80 ==> r == x
  {
    (x + 0x80) % 0x100 - 0x80
  }

  /** The integer a C `bool` promotes to. */
  function BoolToInt(b: bool): (r: int)
    ensures r == 0 || r == 1
    ensures b <==> r != 0
  {
    if b then 1 else 0
  }
}
