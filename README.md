# helgoboss-midi: bit codec and 14-bit Control Change messages, modelled in Dafny

This project models the core of the Rust MIDI library helgoboss-midi. The core has two parts.

- **The bit/byte codec.** `src/bit_util.rs` and its older crate-internal twin `src/util.rs` split a 14-bit value into its high and low 7-bit halves and join them back. They also split a byte into two nibbles and join them, OR a message-type tag with a channel to form a status byte, and mask the channel back out.
- **`ControlChange14BitMessage`.** This is an immutable value made of a channel, an MSB controller number and a 14-bit value. Its constructor refuses an MSB controller number that has no paired LSB controller number. It sends the value as two ordinary Control Change messages in a fixed order: first the MSB controller number with the high 7 bits, then the LSB controller number with the low 7 bits.

Modules, leaves first:

- `Wrappers` (`wrappers.dfy`): `Option` and `Result`.
- `Values` (`values.dfy`): the value types as subset types. `Byte` and `Word` stand for `u8` and `u16`; `Channel` is 0..15; `U7` and `ControllerNumber` are 0..127; `U14` is 0..16383. The module also holds the assumed controller pairing.
- `Bitwise` (`bitwise.dfy`): Rust's unsigned `>>`, `<<`, `&`, `|` and truncating `as` on natural numbers. Their laws are proved by induction: masking is a remainder, OR of disjoint bit-fields is addition, and OR with a small value touches only the low bits.
- `BitUtil` (`bit_util.dfy`) and `Util` (`util.dfy`): each source function written with exactly the source's expression. The source builds these results with `U7(..)`, `U14(..)`, `Channel(..)` or `new_unchecked`, without a range check. Here each result has a range-restricted type, so every such construction is proved in range.
- `ControlChange14Bit` (`control_change_14_bit_message.dfy`): the message as a datatype whose `Valid()` predicate is the invariant the constructor checks, the constructor `New`, the derived LSB controller number, `ToShortMessages` and the `From` conversion.

Assumptions the model makes, because the code they stand for is not part of this model:

- The value types `Channel`, `U7`, `ControllerNumber` and `U14` are taken to be exactly their ranges.
- `corresponding_14_bit_lsb_controller_number` is taken to return `Some(n + 32)` exactly when `n < 32`. This is the 14-bit pairing of MIDI 1.0 (the Controller Numbers table of the MIDI 1.0 Detailed Specification). It agrees with the unit test (2 pairs with 34) and with the doc example (7, channel volume, pairs with 39).
- `ShortMessageFactory::control_change` is represented by the datatype `ShortMessage.ControlChange(channel, controllerNumber, controlValue)`. It records the three arguments, so a concrete factory's message is the image of this value under that factory.

## Model

| member | source | states |
|---|---|---|
| `Values.CorrespondingLsbControllerNumber` | src/control_change_14_bit_message.rs:65-69 | assumed pairing: an LSB partner exists exactly for MSB numbers 0..31, and it is the number 32 higher, in 32..63 |
| `Bitwise.ShrIsDiv` | src/bit_util.rs:4 | `x >> k` on an unsigned integer is division by 2^k |
| `Bitwise.ShlNoOverflow` | src/bit_util.rs:12 | a `<<` whose result fits the width loses no bits: it is multiplication by 2^k |
| `Bitwise.TruncateFits` | src/bit_util.rs:4 | an `as u8` of a value below 256 keeps the value |
| `Bitwise.AndLowMask` | src/bit_util.rs:8 | `x & (2^k - 1)` is `x mod 2^k` |
| `Bitwise.AndLowMaskFits` | src/util.rs:4 | `x & (2^k - 1)` leaves a value below 2^k unchanged |
| `Bitwise.OrDisjoint` | src/bit_util.rs:12 | OR of `a << k` with a value below 2^k is their sum, so no bits collide |
| `Bitwise.OrBound` | src/bit_util.rs:16 | OR of two values below 2^w stays below 2^w, so the OR of two bytes is a byte |
| `Bitwise.OrLowBits` | src/bit_util.rs:16 | OR with a value below 2^k keeps every bit from k upwards and changes only the low k bits |
| `BitUtil.ExtractHigh7BitValueFrom14BitValue` | src/bit_util.rs:3-5 | the high half of a U14 is a valid U7, so the unchecked `U7(..)` is sound, and it is `value / 128` |
| `BitUtil.MaskedHighHalf` | src/bit_util.rs:4 | shifting a 14-bit value right by 7 leaves at most 7 bits, so the mask and the `as u8` lose nothing |
| `BitUtil.ExtractLow7BitValueFrom14BitValue` | src/bit_util.rs:7-9 | the low half of a U14 is a valid U7, and it is `value mod 128` |
| `BitUtil.MaskedLowHalf` | src/bit_util.rs:8 | masking with 0x7f is `mod 128`, and the `as u8` keeps it |
| `BitUtil.Build14BitValueFromTwo7BitValues` | src/bit_util.rs:11-13 | joining two U7 gives a valid U14, so the unchecked `U14(..)` is sound, and it is `high * 128 + low` |
| `BitUtil.BuildStatusByte` | src/bit_util.rs:15-17 | the status byte's high nibble is always the type byte's; its low nibble is the OR of the type byte's low nibble and the channel; when that low nibble is zero, the status byte is `type + channel` |
| `BitUtil.ExtractChannelFromStatusByte` | src/bit_util.rs:19-21 | the channel read from any byte is a valid Channel, so the unchecked `Channel(..)` is sound, and it is the byte's low nibble |
| `BitUtil.JoinSplit14` | src/bit_util.rs:3-13 | joining the high and low halves of any U14 gives the value back |
| `BitUtil.SplitJoin14` | src/bit_util.rs:3-13 | splitting `join(h, l)` gives back `h` and `l` for all U7 `h` and `l` |
| `BitUtil.StatusByteRoundTrip` | src/bit_util.rs:15-21 | for a type byte with an empty low nibble, the channel read from the status byte is the channel put in, and the high nibble is the type byte's |
| `BitUtil.StatusByteFromParts` | src/bit_util.rs:15-21 | every byte is rebuilt from its high nibble, used as the type byte, and the channel read from it |
| `BitUtil.StatusByteExample` | src/bit_util.rs:15-21 | the status byte built from 0xB0 and channel 5 is 0xB5, and channel 5 is read back from 0xB5 |
| `Util.ExtractHighNibbleFromByte` | src/util.rs:3-5 | the high nibble of any byte is a valid Channel, so `new_unchecked` is sound, and it is `byte / 16` |
| `Util.MaskedHighNibble` | src/util.rs:4 | a byte shifted right by 4 has at most 4 bits, so the mask with 0x0f loses nothing |
| `Util.ExtractLowNibbleFromByte` | src/util.rs:7-9 | the low nibble of any byte is a valid Channel, and it is `byte mod 16` |
| `Util.ExtractHigh7BitValueFrom14BitValue` | src/util.rs:11-13 | the raw high half is at most 0x7f, and it is `value / 128` |
| `Util.ExtractLow7BitValueFrom14BitValue` | src/util.rs:15-17 | the raw low half is at most 0x7f, and it is `value mod 128` |
| `Util.BuildByteFromNibbles` | src/util.rs:20-22 | joining two nibbles gives a byte, `high * 16 + low` |
| `Util.Build14BitValueFromTwo7BitValues` | src/util.rs:24-31 | under the two `debug_assert!` bounds, the unchecked U14 is in range and is `high * 128 + low` |
| `Util.WithLowNibbleAdded` | src/util.rs:33-35 | the high nibble is kept; on a byte with an empty low nibble, the low nibble becomes the channel |
| `Util.JoinSplitNibbles` | src/util.rs:3-22 | joining the two nibbles of any byte gives the byte back |
| `Util.SplitJoinNibbles` | src/util.rs:3-22 | the nibbles of a joined byte are the two nibbles it was joined from |
| `Util.JoinSplit14` | src/util.rs:11-31 | joining the raw high and low halves of any U14 gives the value back |
| `Util.SplitJoin14` | src/util.rs:11-31 | splitting a joined value gives back both raw 7-bit halves |
| `Util.WithLowNibbleAddedNibbles` | src/util.rs:33-35 | on a byte with an empty low nibble, the high nibble is unchanged and the low nibble is the added channel |
| `Util.AgreesWithBitUtil` | src/util.rs:11-35 | the older codec computes the same values as the public one: both 7-bit extracts, the 14-bit join, the status byte and the channel/low nibble |
| `ControlChange14Bit.New` | src/control_change_14_bit_message.rs:60-75 | construction succeeds exactly when the MSB controller number has an LSB partner, and otherwise fails with UnpairedControllerNumber; on success the message is valid and holds the channel, MSB controller number and value unchanged |
| `ControlChange14Bit.ControlChange14BitMessage.LsbControllerNumber` | src/control_change_14_bit_message.rs:87-92 | on every valid message the pairing lookup succeeds, so the "impossible" branch is never taken; the LSB number is the MSB number plus 32, in 32..63 |
| `ControlChange14Bit.ControlChange14BitMessage.ToShortMessages` | src/control_change_14_bit_message.rs:99-114 | exactly two messages, both on the message's channel; the first goes to the MSB controller and the second to the LSB controller; the first value times 128 plus the second is the 14-bit value |
| `ControlChange14Bit.IntoShortMessages` | src/control_change_14_bit_message.rs:117-121 | the `From` conversion into `[T; 2]` yields the same two messages as `to_short_messages` |
| `ControlChange14Bit.ToShortMessagesLossless` | src/control_change_14_bit_message.rs:101-114 | joining the two carried 7-bit values with the 14-bit join gives back the message's value |
| `ControlChange14Bit.ToShortMessagesCarriesHalves` | src/control_change_14_bit_message.rs:102-113 | the MSB message carries the high-half extract of the value and the LSB message carries the low-half extract |
| `ControlChange14Bit.FromToShortMessages` | src/control_change_14_bit_message.rs:99-114 | a receiver that pairs an MSB message with the following LSB message on the same channel rebuilds every valid message exactly |
| `ControlChange14Bit.ToFromShortMessages` | src/control_change_14_bit_message.rs:99-114 | every pair such a receiver accepts is exactly the pair that its rebuilt message sends |
| `ControlChange14Bit.ToShortMessagesInjective` | src/control_change_14_bit_message.rs:99-114 | two valid messages that send the same pair of short messages are equal |
| `ControlChange14Bit.UnpairedIsRefused` | src/control_change_14_bit_message.rs:56-69 | an MSB controller number of 32 or more is refused, whatever the channel and value |
| `ControlChange14Bit.BasicsScenario` | src/control_change_14_bit_message.rs:130-149 | channel 5, MSB 2, value 1057: LSB 34, messages (5, 2, 8) then (5, 34, 33), and the `From` conversion gives the same pair |
| `ControlChange14Bit.ChannelVolumeScenario` | src/control_change_14_bit_message.rs:22-39 | channel 5, channel volume (7), value 1057: LSB 39, messages (5, 7, 8) then (5, 39, 33) |

## Left out

- The checked constructors of the value types (`Channel::new`, `U14::new` and so on), with their out-of-range failure, are not part of this model. Their definitions live outside the modelled files. The subset types stand for the ranges those constructors guarantee.
- The library's controller-number constants and the body of `corresponding_14_bit_lsb_controller_number` are not part of this model. `Values.CorrespondingLsbControllerNumber` states the assumed pairing instead.
- The concrete `ShortMessageFactory` implementations, `RawShortMessage` and its three-byte serialisation are not part of this model. The factory is the recording datatype `ShortMessage`, so the Control Change status byte of a produced message is not built here. `BitUtil.BuildStatusByte` is modelled on its own.
- `ControlChange14Bit.ControlChange14BitMessage.ToShortMessages` returns a two-element sequence whose length is stated in its contract. It is not a Rust fixed-size array that is generic over the factory type.
- `ControlChange14BitMessageScanner`, which reassembles these messages from a stream, is not part of this model. `FromShortMessages` is only a reference inverse for the lemmas. It does not model that scanner.
- The serde derives and their feature gates are a serialisation format, so they are left out. `Copy`, `Clone`, `Hash` and `Debug` are left out too: Dafny's structural datatype equality plays the role of the derived `Eq`.
- A `panic` in `new` is modelled as an `Err` result rather than as program abort.
- `Util.Build14BitValueFromTwo7BitValues`: its two range checks are `debug_assert!`s, which release builds skip. The model makes them preconditions, so it does not describe what a release build does with an out-of-range half.
