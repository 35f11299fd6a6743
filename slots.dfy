/**
 * The slot model: the enumerations a badge slot is configured with, the slot
 * record itself and its packed mode byte.
 */
module Slots {
  import opened Bits

  /** Panel brightness; the code sent to the badge grows as the panel dims. */
  datatype Brightness = Brightest | Brighter | Dimmer | Dimmest

  function BrightnessCode(b: Brightness): Byte {
    match b
    case Brightest => 0
    case Brighter => 1
    case Dimmer => 2
    case Dimmest => 3
  }

  /** Scroll speed, SPEED_0 .. SPEED_7. */
  type Speed = s: int | 0 <= s <= 7

  /** How a slot's content is animated; Laser is a flag outside the 3-bit field. */
  datatype Motion = Left | Right | Up | Down | Freeze | Animation | Snow | Curtain | Laser

  function MotionCode(m: Motion): nat {
    match m
    case Left => 0
    case Right => 1
    case Up => 2
    case Down => 3
    case Freeze => 4
    case Animation => 5
    case Snow => 6
    case Curtain => 7
    case Laser => 8
  }

  /**
   * One display region: a packed bitmap of `columns` bytes per row, and its
   * playback attributes.
   */
  datatype Slot = Slot(bitmap: seq<Byte>, columns: nat, border: bool, blink: bool, speed: Speed, motion: Motion)

  /** `Slot()`: the attributes every field defaults to. */
  const DefaultSlot := Slot([], 0, false, false, 4, Left)

  /** The column count of each slot, in order. */
  function Columns(slots: seq<Slot>): seq<nat> {
    seq(|slots|, i requires 0 <= i < |slots| => slots[i].columns)
  }

  function BoolValue(b: bool): nat {
    if b then 1 else 0
  }

  /**
   * `Slot.get_mode`: border in bit 7, speed in bits 6-4, blink in bit 3 and
   * `motion & 0b111` (the motion code modulo 8) in bits 2-0. The sum always
   * fits in a byte because the speed is at most 7.
   */
  function Mode(s: Slot): Byte {
    0x80 * BoolValue(s.border) + 0x10 * s.speed + 0x08 * BoolValue(s.blink) + MotionCode(s.motion) % 8
  }

  /** The fields the badge reads back out of a mode byte. */
  datatype ModeFields = ModeFields(border: bool, speed: Speed, blink: bool, motionBits: nat)

  function DecodeMode(m: Byte): (f: ModeFields)
    ensures f.motionBits < 8
  {
    ModeFields(m / 0x80 == 1, (m / 0x10) % 8, (m / 0x08) % 2 == 1, m % 8)
  }

  /** Decoding the mode byte gives back every attribute it packs. */
  lemma ModeRoundTrip(s: Slot)
    ensures DecodeMode(Mode(s)) == ModeFields(s.border, s.speed, s.blink, MotionCode(s.motion) % 8)
  {
  }

  /**
   * Laser contributes nothing to the 3-bit motion field: its mode byte is the
   * one a Left slot with the same other attributes gets.
   */
  lemma LaserModeIsLeftMode(s: Slot)
    requires s.motion == Laser
    ensures DecodeMode(Mode(s)).motionBits == 0
    ensures Mode(s) == Mode(s.(motion := Left))
  {
    ModeRoundTrip(s);
  }

  /** The mode byte depends on the attributes only, never on the bitmap. */
  lemma ModeIgnoresBitmap(s: Slot, bitmap: seq<Byte>, columns: nat)
    ensures Mode(s.(bitmap := bitmap, columns := columns)) == Mode(s)
  {
  }
}
