/**
 * A 14-bit MIDI Control Change message (`src/control_change_14_bit_message.rs`):
 * one logical controller change whose 14-bit value travels as two ordinary
 * Control Change messages, the first to the MSB controller number with the high
 * 7 bits, the second to the paired LSB controller number with the low 7 bits.
 */
module ControlChange14Bit {
  import opened Wrappers
  import opened Values
  import BitUtil

  /**
   * A Control Change short message as `ShortMessageFactory::control_change` is
   * asked to build it: the three arguments, recorded as they are. A concrete
   * factory's message is the image of this value under that factory.
   */
  datatype ShortMessage = ControlChange(channel: Channel, controllerNumber: ControllerNumber, controlValue: U7)

  /** Why construction was refused (the source panics). */
  datatype Error = UnpairedControllerNumber

  /**
   * The struct's three private fields. Only `New` builds one, so every message a
   * client holds satisfies `Valid()`; the accessors `channel`, `msb_controller_number`
   * and `value` are the datatype's fields.
   */
  datatype ControlChange14BitMessage = ControlChange14BitMessage(
    channel: Channel,
    msbControllerNumber: ControllerNumber,
    value: U14)
  {
    /** The invariant `new` checks: the MSB controller number has an LSB partner. */
    predicate Valid()
    {
      CorrespondingLsbControllerNumber(msbControllerNumber).Some?
    }

    /**
     * The LSB controller number, derived on every call from the MSB number; the
     * invariant rules out the lookup's "impossible" failure.
     */
    function LsbControllerNumber(): (n: ControllerNumber)
      requires Valid()
      ensures CorrespondingLsbControllerNumber(msbControllerNumber) == Some(n)
      ensures 32 <= n < 64 && n == msbControllerNumber + 32
    {
      CorrespondingLsbControllerNumber(msbControllerNumber).value
    }

    /**
     * The two short messages that carry this message, in the order they must be
     * sent: the MSB controller with the high 7 bits first, then the LSB
     * controller with the low 7 bits, both on this message's channel.
     */
    function ToShortMessages(): (messages: seq<ShortMessage>)
      requires Valid()
      ensures |messages| == 2
      ensures messages[0].channel == channel && messages[1].channel == channel
      ensures messages[0].controllerNumber == msbControllerNumber
      ensures messages[1].controllerNumber == LsbControllerNumber()
      ensures messages[0].controlValue * 128 + messages[1].controlValue == value
    {
      [ ControlChange(channel, msbControllerNumber, BitUtil.ExtractHigh7BitValueFrom14BitValue(value)),
        ControlChange(channel, LsbControllerNumber(), BitUtil.ExtractLow7BitValueFrom14BitValue(value)) ]
    }
  }

  /**
   * `ControlChange14BitMessage::new`: succeeds exactly when the MSB controller
   * number has an LSB partner, and then stores the three arguments unchanged.
   */
  function New(channel: Channel, msbControllerNumber: ControllerNumber, value: U14)
    : (r: Result<ControlChange14BitMessage, Error>)
    ensures r.Ok? <==> CorrespondingLsbControllerNumber(msbControllerNumber).Some?
    ensures r.Ok? ==> r.value.Valid()
    ensures r.Ok? ==> r.value.channel == channel
                      && r.value.msbControllerNumber == msbControllerNumber
                      && r.value.value == value
    ensures r.Err? ==> r.error == UnpairedControllerNumber
  {
    if CorrespondingLsbControllerNumber(msbControllerNumber).Some? then
      Ok(ControlChange14BitMessage(channel, msbControllerNumber, value))
    else
      Err(UnpairedControllerNumber)
  }

  /** `From<ControlChange14BitMessage> for [T; 2]`: the same two messages as `to_short_messages`. */
  function IntoShortMessages(message: ControlChange14BitMessage): (messages: seq<ShortMessage>)
    requires message.Valid()
    ensures messages == message.ToShortMessages()
  {
    message.ToShortMessages()
  }

  /**
   * A reference receiver: the 14-bit message that two short messages stand for,
   * when they are on one channel and address a paired MSB and LSB controller in
   * that order. Not part of the source, which leaves reassembly to a stream
   * scanner; it is the inverse against which ToShortMessages is checked.
   */
  function FromShortMessages(messages: seq<ShortMessage>): Option<ControlChange14BitMessage>
  {
    if |messages| == 2
       && messages[0].channel == messages[1].channel
       && CorrespondingLsbControllerNumber(messages[0].controllerNumber) == Some(messages[1].controllerNumber)
    then
      Some(ControlChange14BitMessage(
        messages[0].channel,
        messages[0].controllerNumber,
        BitUtil.Build14BitValueFromTwo7BitValues(messages[0].controlValue, messages[1].controlValue)))
    else
      None
  }

  /** The two carried 7-bit values join back into the message's value. */
  lemma ToShortMessagesLossless(message: ControlChange14BitMessage)
    requires message.Valid()
    ensures BitUtil.Build14BitValueFromTwo7BitValues(
              message.ToShortMessages()[0].controlValue,
              message.ToShortMessages()[1].controlValue) == message.value
  {
  }

  /** The high 7 bits go to the MSB controller and the low 7 bits to the LSB controller. */
  lemma ToShortMessagesCarriesHalves(message: ControlChange14BitMessage)
    requires message.Valid()
    ensures message.ToShortMessages()[0].controlValue == BitUtil.ExtractHigh7BitValueFrom14BitValue(message.value)
    ensures message.ToShortMessages()[1].controlValue == BitUtil.ExtractLow7BitValueFrom14BitValue(message.value)
  {
  }

  /** A receiver rebuilds every valid message from its two short messages. */
  lemma FromToShortMessages(message: ControlChange14BitMessage)
    requires message.Valid()
    ensures FromShortMessages(message.ToShortMessages()) == Some(message)
  {
  }

  /** Whatever pair a receiver accepts is exactly the pair its message sends. */
  lemma ToFromShortMessages(messages: seq<ShortMessage>, message: ControlChange14BitMessage)
    requires FromShortMessages(messages) == Some(message)
    ensures message.Valid()
    ensures message.ToShortMessages() == messages
  {
    BitUtil.SplitJoin14(messages[0].controlValue, messages[1].controlValue);
  }

  /** Distinct messages are sent as distinct pairs. */
  lemma ToShortMessagesInjective(a: ControlChange14BitMessage, b: ControlChange14BitMessage)
    requires a.Valid() && b.Valid()
    requires a.ToShortMessages() == b.ToShortMessages()
    ensures a == b
  {
    FromToShortMessages(a);
    FromToShortMessages(b);
  }

  /** A controller number from 32 upwards is refused, whatever the channel and value. */
  lemma UnpairedIsRefused(channel: Channel, msbControllerNumber: ControllerNumber, value: U14)
    requires msbControllerNumber >= 32
    ensures New(channel, msbControllerNumber, value) == Err(UnpairedControllerNumber)
  {
  }

  /** Channel 5, controller 2, value 1057 = 8 * 128 + 33. */
  lemma BasicsScenario()
    ensures New(5, 2, 1057).Ok?
    ensures New(5, 2, 1057).value.LsbControllerNumber() == 34
    ensures New(5, 2, 1057).value.ToShortMessages() == [ControlChange(5, 2, 8), ControlChange(5, 34, 33)]
    ensures IntoShortMessages(New(5, 2, 1057).value) == New(5, 2, 1057).value.ToShortMessages()
  {
  }

  /** Channel volume (controller 7) pairs with controller 39. */
  lemma ChannelVolumeScenario()
    ensures New(5, 7, 1057).Ok?
    ensures New(5, 7, 1057).value.LsbControllerNumber() == 39
    ensures New(5, 7, 1057).value.ToShortMessages() == [ControlChange(5, 7, 8), ControlChange(5, 39, 33)]
  {
  }
}
