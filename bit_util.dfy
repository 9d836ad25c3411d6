/**
 * The public bit/byte codec (`src/bit_util.rs`): splitting a 14-bit value into
 * two 7-bit halves and joining them back, and assembling and parsing a status
 * byte. Each function is the source's single shift/mask/OR expression, and each
 * result is constructed without a range check in the source, so each result
 * type below is an obligation discharged by the lemmas of Bitwise.
 */
module BitUtil {
  import opened Values
  import opened Bitwise

  /** `((value >> 7) & 0x7f) as u8`: bits 13..7 of the value, i.e. its most significant 7 bits. */
  function ExtractHigh7BitValueFrom14BitValue(value: U14): (r: U7)
    ensures r == value / 128
  {
    MaskedHighHalf(value);
    Truncate(And(Shr(value, 7), 0x7f), 8)
  }

  /** Shifting a 14-bit value right by 7 leaves at most 7 bits, so the mask and the cast lose nothing. */
  lemma MaskedHighHalf(value: U14)
    ensures Truncate(And(Shr(value, 7), 0x7f), 8) == value / 128
  {
    var shifted := Shr(value, 7);
    assert shifted < 128 && shifted == value / 128 by {
      Pow2Values();
      ShrIsDiv(value, 7, 128);
    }
    assert And(shifted, 0x7f) == shifted by {
      Pow2Values();
      AndLowMaskFits(shifted, 7, 0x7f);
    }
    assert Truncate(shifted, 8) == shifted by {
      Pow2Values();
      TruncateFits(shifted, 8);
    }
  }

  /** `(value & 0x7f) as u8`: bits 6..0 of the value, i.e. its least significant 7 bits. */
  function ExtractLow7BitValueFrom14BitValue(value: U14): (r: U7)
    ensures r == value % 128
  {
    MaskedLowHalf(value);
    Truncate(And(value, 0x7f), 8)
  }

  /** Masking with 0x7f is the remainder modulo 128, which the cast to u8 keeps. */
  lemma MaskedLowHalf(value: U14)
    ensures Truncate(And(value, 0x7f), 8) == value % 128
  {
    Pow2Values();
    AndLowMask(value, 7, 0x7f);
    TruncateFits(value % 128, 8);
  }

  /** `(u16::from(high) << 7) | u16::from(low)`: the 14-bit value whose digits in base 128 are high and low. */
  function Build14BitValueFromTwo7BitValues(high: U7, low: U7): (r: U14)
    ensures r == high * 128 + low
  {
    Pow2Values();
    ShlNoOverflow(high, 7, 16, 128);
    OrDisjoint(high, low, 7, 128);
    Or(Shl(high, 7, 16), low)
  }

  /**
   * `type_byte | channel`: the status byte of a channel message. Its high nibble
   * is always the type byte's; when the type byte's low nibble is zero, as the
   * message-type tags are, the channel fills the low nibble.
   */
  function BuildStatusByte(typeByte: Byte, channel: Channel): (r: Byte)
    ensures r / 16 == typeByte / 16
    ensures r % 16 == Or(typeByte % 16, channel)
    ensures typeByte % 16 == 0 ==> r == typeByte + channel
  {
    Pow2Values();
    OrBound(typeByte, channel, 8, 0x100);
    OrLowBits(typeByte, channel, 4, 16);
    Or(typeByte, channel)
  }

  /** `byte & 0x0f`: the low nibble of a status byte, which is always a valid channel. */
  function ExtractChannelFromStatusByte(byte: Byte): (r: Channel)
    ensures r == byte % 16
  {
    Pow2Values();
    AndLowMask(byte, 4, 0x0f);
    And(byte, 0x0f)
  }

  /** Joining the two halves of a 14-bit value gives the value back. */
  lemma JoinSplit14(value: U14)
    ensures Build14BitValueFromTwo7BitValues(
              ExtractHigh7BitValueFrom14BitValue(value),
              ExtractLow7BitValueFrom14BitValue(value)) == value
  {
  }

  /** Splitting a joined value gives back both halves. */
  lemma SplitJoin14(high: U7, low: U7)
    ensures ExtractHigh7BitValueFrom14BitValue(Build14BitValueFromTwo7BitValues(high, low)) == high
    ensures ExtractLow7BitValueFrom14BitValue(Build14BitValueFromTwo7BitValues(high, low)) == low
  {
  }

  /** The channel put into a status byte by a tag with an empty low nibble is the one read back. */
  lemma StatusByteRoundTrip(typeByte: Byte, channel: Channel)
    requires typeByte % 16 == 0
    ensures ExtractChannelFromStatusByte(BuildStatusByte(typeByte, channel)) == channel
    ensures BuildStatusByte(typeByte, channel) / 16 == typeByte / 16
  {
  }

  /** Every byte is rebuilt from its high nibble (as a tag) and the channel read from it. */
  lemma StatusByteFromParts(byte: Byte)
    ensures BuildStatusByte(byte / 16 * 16, ExtractChannelFromStatusByte(byte)) == byte
  {
  }

  /** The Control Change status byte for channel 5 is 0xB5, and 5 is read back from it. */
  lemma StatusByteExample()
    ensures BuildStatusByte(0xB0, 5) == 0xB5
    ensures ExtractChannelFromStatusByte(0xB5) == 5
  {
  }
}
