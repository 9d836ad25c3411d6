/**
 * The validated value types of the library. Each is a Rust tuple struct around a
 * `u8` or `u16` whose stored value never exceeds its bit width; here each is a
 * subset type, so a value of the type is always in range and every place where
 * the source constructs one without a check carries a proof obligation instead.
 */
module Values {
  import opened Wrappers

  /** A raw `u8`. */
  type Byte = x: int | 0 <= x < 0x100

  /** A raw `u16`. */
  type Word = x: int | 0 <= x < 0x1_0000

  /** One of the 16 MIDI channels (a 4-bit nibble). */
  type Channel = c: int | 0 <= c < 16

  /** A 7-bit data value. */
  type U7 = x: int | 0 <= x < 0x80

  /** A 7-bit controller number: the same range as U7 in a different role. */
  type ControllerNumber = n: int | 0 <= n < 0x80

  /** A 14-bit value. */
  type U14 = x: int | 0 <= x < 0x4000

  /**
   * The 14-bit controller pairing of MIDI 1.0 (Controller Numbers table of the
   * MIDI 1.0 Detailed Specification): controllers 0..31 carry the most significant
   * 7 bits and controller n + 32 carries the least significant 7 bits; no other
   * controller has a partner. The library's lookup table is not part of this
   * model; this function is the assumed content of
   * `corresponding_14_bit_lsb_controller_number`.
   */
  function CorrespondingLsbControllerNumber(n: ControllerNumber): (r: Option<ControllerNumber>)
    ensures r.Some? <==> n < 32
    ensures r.Some? ==> 32 <= r.value < 64 && r.value - 32 == n
  {
    if n < 32 then Some(n + 32) else None
  }
}
