/** Fixed-width integers of the original 16-bit code and the two's-complement
    conversions between them. Every narrowing conversion of the source is
    written with one of the As* functions below. */
module FixedWidth {

  type u8 = x: int | 0 <= x < 0x100
  type u16 = x: int | 0 <= x < 0x1_0000
  type u32 = x: int | 0 <= x < 0x1_0000_0000
  type i8 = x: int | -0x80 <= x < 0x80
  type i16 = x: int | -0x8000 <= x < 0x8000

  /** Conversion to uint8_t. */
  function AsU8(x: int): (r: u8)
    ensures (x - r) % 0x100 == 0
  {
    x % 0x100
  }

  /** Conversion to uint16_t. */
  function AsU16(x: int): (r: u16)
    ensures (x - r) % 0x1_0000 == 0
  {
    x % 0x1_0000
  }

  /** Conversion to uint32_t. */
  function AsU32(x: int): (r: u32)
    ensures (x - r) % 0x1_0000_0000 == 0
  {
    x % 0x1_0000_0000
  }

  /** Conversion to int8_t (two's complement wrap-around). */
  function AsI8(x: int): (r: i8)
    ensures (x - r) % 0x100 == 0
    ensures -0x80 <= x < 0x80 ==> r == x
  {
    var m := x % 0x100;
    if m < 0x80 then m else m - 0x100
  }

  /** Conversion to int16_t (two's complement wrap-around). */
  function AsI16(x: int): (r: i16)
    ensures (x - r) % 0x1_0000 == 0
    ensures -0x8000 <= x < 0x8000 ==> r == x
  {
    var m := x % 0x1_0000;
    if m < 0x8000 then m else m - 0x1_0000
  }

  /** hi(uint32_t): the upper 16 bits, (v >> 16) & 0xffff. */
  function Hi(v: u32): (r: u16)
    ensures r * 0x1_0000 <= v < r * 0x1_0000 + 0x1_0000
  {
    v / 0x1_0000
  }

  /** lo(uint32_t): the lower 16 bits, v & 0xffff. */
  function Lo(v: u32): (r: u16)
    ensures Hi(v) * 0x1_0000 + r == v
  {
    v % 0x1_0000
  }

  /** hi(int16_t): v >> 8, an arithmetic shift, narrowed to int8_t. */
  function HiByte(v: i16): (r: i8)
    ensures r * 0x100 <= v < r * 0x100 + 0x100
  {
    AsI8(v / 0x100)
  }

  /** lo(int16_t): v & 0xff, narrowed to int8_t. */
  function LoByte(v: i16): (r: i8)
    ensures HiByte(v) * 0x100 + r % 0x100 == v
  {
    AsI8(v % 0x100)
  }

  /** Values that agree modulo 2^16 have the same int16_t reading. */
  lemma AsI16Congruent(x: int, y: int)
    requires (x - y) % 0x1_0000 == 0
    ensures AsI16(x) == AsI16(y)
  {
    assert x % 0x1_0000 == y % 0x1_0000;
  }

  /** Values that agree modulo 2^8 have the same int8_t reading. */
  lemma AsI8Congruent(x: int, y: int)
    requires (x - y) % 0x100 == 0
    ensures AsI8(x) == AsI8(y)
  {
    assert x % 0x100 == y % 0x100;
  }

  /** uint16_t -> int16_t -> uint16_t is the identity. */
  lemma U16RoundTrip(u: u16)
    ensures AsU16(AsI16(u)) == u
  {
  }
}
