/**
 * The crate-internal codec (`src/util.rs`), the older twin of BitUtil: nibble
 * splitting and joining, the 14-bit split on raw bytes, and adding a channel to a
 * status byte. Results built with `new_unchecked` have a range-restricted type
 * here, so the range is proved; results returned as raw `u8` state their range
 * in the contract.
 */
module Util {
  import opened Values
  import opened Bitwise
  import BitUtil

  /** `(byte >> 4) & 0x0f`: the high nibble, always a valid channel. */
  function ExtractHighNibbleFromByte(byte: Byte): (r: Channel)
    ensures r == byte / 16
  {
    MaskedHighNibble(byte);
    And(Shr(byte, 4), 0x0f)
  }

  /** A byte shifted right by 4 has at most 4 bits, so the mask loses nothing. */
  lemma MaskedHighNibble(byte: Byte)
    ensures And(Shr(byte, 4), 0x0f) == byte / 16
  {
    Pow2Values();
    var shifted := Shr(byte, 4);
    assert shifted < 16 && shifted == byte / 16 by {
      ShrIsDiv(byte, 4, 16);
    }
    AndLowMaskFits(shifted, 4, 0x0f);
  }

  /** `byte & 0x0f`: the low nibble, always a valid channel. */
  function ExtractLowNibbleFromByte(byte: Byte): (r: Channel)
    ensures r == byte % 16
  {
    Pow2Values();
    AndLowMask(byte, 4, 0x0f);
    And(byte, 0x0f)
  }

  /** `((u16::from(value) >> 7) & 0x7f) as u8`: the most significant 7 bits, as a raw byte. */
  function ExtractHigh7BitValueFrom14BitValue(value: U14): (r: Byte)
    ensures r <= 0x7f
    ensures r == value / 128
  {
    BitUtil.MaskedHighHalf(value);
    Truncate(And(Shr(value, 7), 0x7f), 8)
  }

  /** `(u16::from(value) & 0x7f) as u8`: the least significant 7 bits, as a raw byte. */
  function ExtractLow7BitValueFrom14BitValue(value: U14): (r: Byte)
    ensures r <= 0x7f
    ensures r == value % 128
  {
    BitUtil.MaskedLowHalf(value);
    Truncate(And(value, 0x7f), 8)
  }

  /** `(u8::from(high_nibble) << 4) | u8::from(low_nibble)`: the byte whose nibbles are the two arguments. */
  function BuildByteFromNibbles(highNibble: Channel, lowNibble: Channel): (r: Byte)
    ensures r == highNibble * 16 + lowNibble
  {
    Pow2Values();
    ShlNoOverflow(highNibble, 4, 8, 16);
    OrDisjoint(highNibble, lowNibble, 4, 16);
    Or(Shl(highNibble, 4, 8), lowNibble)
  }

  /**
   * `((high as u16) << 7) | (low as u16)` on raw bytes. The source checks the
   * 7-bit ranges with `debug_assert!` only, so they are this function's
   * precondition; under it the unchecked U14 is in range.
   */
  function Build14BitValueFromTwo7BitValues(high: Byte, low: Byte): (r: U14)
    requires high <= 0x7f
    requires low <= 0x7f
    ensures r == high * 128 + low
  {
    Pow2Values();
    ShlNoOverflow(high, 7, 16, 128);
    OrDisjoint(high, low, 7, 128);
    Or(Shl(high, 7, 16), low)
  }

  /**
   * `byte | u8::from(low_nibble)`: the high nibble is kept; when the byte's low
   * nibble is zero, the channel becomes its low nibble.
   */
  function WithLowNibbleAdded(byte: Byte, lowNibble: Channel): (r: Byte)
    ensures r / 16 == byte / 16
    ensures r % 16 == Or(byte % 16, lowNibble)
    ensures byte % 16 == 0 ==> r == byte + lowNibble
  {
    Pow2Values();
    OrBound(byte, lowNibble, 8, 0x100);
    OrLowBits(byte, lowNibble, 4, 16);
    Or(byte, lowNibble)
  }

  /** Joining the two nibbles of a byte gives the byte back. */
  lemma JoinSplitNibbles(byte: Byte)
    ensures BuildByteFromNibbles(ExtractHighNibbleFromByte(byte), ExtractLowNibbleFromByte(byte)) == byte
  {
  }

  /** The nibbles of a joined byte are the two nibbles it was joined from. */
  lemma SplitJoinNibbles(highNibble: Channel, lowNibble: Channel)
    ensures ExtractHighNibbleFromByte(BuildByteFromNibbles(highNibble, lowNibble)) == highNibble
    ensures ExtractLowNibbleFromByte(BuildByteFromNibbles(highNibble, lowNibble)) == lowNibble
  {
  }

  /** Joining the two 7-bit halves of a 14-bit value gives the value back. */
  lemma JoinSplit14(value: U14)
    ensures Build14BitValueFromTwo7BitValues(
              ExtractHigh7BitValueFrom14BitValue(value),
              ExtractLow7BitValueFrom14BitValue(value)) == value
  {
  }

  /** Splitting a joined 14-bit value gives back both 7-bit halves. */
  lemma SplitJoin14(high: Byte, low: Byte)
    requires high <= 0x7f && low <= 0x7f
    ensures ExtractHigh7BitValueFrom14BitValue(Build14BitValueFromTwo7BitValues(high, low)) == high
    ensures ExtractLow7BitValueFrom14BitValue(Build14BitValueFromTwo7BitValues(high, low)) == low
  {
  }

  /** Adding a channel to a byte with an empty low nibble keeps the high nibble and sets the low one. */
  lemma WithLowNibbleAddedNibbles(byte: Byte, lowNibble: Channel)
    requires byte % 16 == 0
    ensures ExtractHighNibbleFromByte(WithLowNibbleAdded(byte, lowNibble)) == ExtractHighNibbleFromByte(byte)
    ensures ExtractLowNibbleFromByte(WithLowNibbleAdded(byte, lowNibble)) == lowNibble
  {
  }

  /** The older codec computes what the public one computes, wherever both are defined. */
  lemma AgreesWithBitUtil(value: U14, high: U7, low: U7, byte: Byte, channel: Channel)
    ensures ExtractHigh7BitValueFrom14BitValue(value) == BitUtil.ExtractHigh7BitValueFrom14BitValue(value)
    ensures ExtractLow7BitValueFrom14BitValue(value) == BitUtil.ExtractLow7BitValueFrom14BitValue(value)
    ensures Build14BitValueFromTwo7BitValues(high, low) == BitUtil.Build14BitValueFromTwo7BitValues(high, low)
    ensures WithLowNibbleAdded(byte, channel) == BitUtil.BuildStatusByte(byte, channel)
    ensures ExtractLowNibbleFromByte(byte) == BitUtil.ExtractChannelFromStatusByte(byte)
  {
  }
}
