/**
 * The single-byte payload convention shared by every characteristic of the
 * thermostat, and the two 0/nonzero interpretations the controller puts on
 * a decoded byte.
 */
module Codec {

  /** Swift's `UInt8`. */
  type uint8 = x: int | 0 <= x < 0x100

  /**
   * `unwrapCharacteristicData`: the payload as a byte array, first element.
   * The force-unwrap of the value and the `[0]` index make a non-empty
   * payload the caller's obligation.
   */
  function Decode(payload: seq<uint8>): (v: uint8)
    requires |payload| > 0
    ensures payload == [v] + payload[1..]
  {
    payload[0]
  }

  /** Decoding looks at the first byte only: trailing bytes are ignored. */
  lemma DecodeIgnoresTrailing(b: uint8, trailing: seq<uint8>)
    ensures Decode([b] + trailing) == b
  {
  }

  /**
   * The buffer `writeCharacteristic` builds: one byte, `MemoryLayout<UInt8>.size`
   * long, holding the value. Decoding it gives the value back.
   */
  function Encode(v: uint8): (payload: seq<uint8>)
    ensures |payload| == 1
    ensures Decode(payload) == v
  {
    [v]
  }

  /** The other direction of the round trip, for the one-byte payloads the device sends. */
  lemma EncodeDecode(payload: seq<uint8>)
    requires |payload| == 1
    ensures Encode(Decode(payload)) == payload
  {
  }

  /** `UInt8(isOn ? 1 : 0)`: the byte written for the operating-state switch. */
  function SwitchByte(on: bool): (b: uint8)
    ensures b <= 1
    ensures b != 0 <==> on
  {
    if on then 1 else 0
  }

  /** `(stateInt as NSNumber).boolValue`: a byte read as a switch position. */
  predicate IsOn(b: uint8)
    ensures IsOn(b) <==> b != SwitchByte(false)
  {
    b != 0
  }

  /** Reading back the byte written for a switch position gives that position. */
  lemma SwitchRoundTrip(on: bool)
    ensures IsOn(SwitchByte(on)) == on
  {
  }

  /** A 0/1 byte survives being read as a switch position and written back. */
  lemma SwitchByteOfIsOn(b: uint8)
    requires b <= 1
    ensures SwitchByte(IsOn(b)) == b
  {
  }

  /** Status text shown for an operating-status notification: 0 is not heating. */
  function OpStatusText(status: uint8): (text: string)
    ensures text == "Ready!" <==> status == 0
    ensures text == "Heating!" <==> status != 0
  {
    if status == 0 then "Ready!" else "Heating!"
  }

  /** Status text shown when the operating-state switch is moved. */
  function SwitchStatusText(on: bool): (text: string)
    ensures text == "Ready!" <==> on
    ensures text == "Standby" <==> !on
  {
    if on then "Ready!" else "Standby"
  }
}
