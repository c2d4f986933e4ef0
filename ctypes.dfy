/** The integer types that cross the C interface, and Rust's `as u8` cast
    applied to them by the two C entry points. */
module CTypes {
  /** Rust `u8`. */
  type U8 = x: int | 0 <= x < 0x100

  /** C `unsigned int` (32 bits). */
  type CUint = x: int | 0 <= x < 0x1_0000_0000

  /** C `int` (32 bits, two's complement). */
  type CInt = x: int | -0x8000_0000 <= x < 0x8000_0000

  /** `value as u8`: keeps the low 8 bits, so it truncates rather than clamps.
      The result is the unique byte congruent to `v` modulo 256. */
  function AsU8(v: int): (b: U8)
    ensures (v - b) % 0x100 == 0
  {
    v % 0x100
  }

  /** The `c_uint` with the same 32-bit pattern as a `c_int`. */
  function Reinterpret(v: CInt): (u: CUint)
    ensures (u - v) % 0x1_0000_0000 == 0
  {
    if v < 0 then v + 0x1_0000_0000 else v
  }

  /** Because only the low eight bits survive, converting a `c_int` gives the
      same byte as converting the `c_uint` with the same bit pattern. */
  lemma AsU8IgnoresSignedness(v: CInt)
    ensures AsU8(v) == AsU8(Reinterpret(v))
  {
  }

  /** `as u8` wraps around rather than saturating: adding 256 never changes
      the byte, so values past either end of 0..255 wrap to the other end
      (where clamping would give 255, 255 and 0). */
  lemma AsU8Wraps(v: int)
    ensures AsU8(v + 0x100) == AsU8(v)
    ensures AsU8(0x100) == 0 && AsU8(0x1FF) == 0xFF && AsU8(-1) == 0xFF
  {
  }
}
