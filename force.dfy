/**
 * The force descriptions of joy/protocol.hxx. The C++ `force` is a type tag plus a
 * union of four parameter structs sharing `slot` and `enabled`; here the payload is
 * a tagged variant, and `ParamBytes` gives the union's raw seven parameter bytes for
 * the one encoder (classic set-autocenter) that reads them through the spring view
 * whatever the tag.
 */
module Forces {

  /** FFFB_FORCE_SLOT_*: the logical slot nibbles the wheel assigns. */
  const SLOT_CONSTANT: bv8 := 0x1
  const SLOT_SPRING: bv8 := 0x3
  const SLOT_DAMPER: bv8 := 0x4
  const SLOT_TRAPEZOID: bv8 := 0x8
  const SLOT_AUTOCENTER: bv8 := 0xF

  datatype Effect =
    | ConstantEffect(amplitude: bv8)
    | SpringEffect(deadStart: bv8, deadEnd: bv8, slopeLeft: bv8, slopeRight: bv8,
                   invertLeft: bv8, invertRight: bv8, amplitude: bv8)
    | DamperEffect(slopeLeft: bv8, slopeRight: bv8, invertLeft: bv8, invertRight: bv8)
    | TrapezoidEffect(amplitudeMax: bv8, amplitudeMin: bv8, tAtMax: bv8, tAtMin: bv8,
                      slopeStepX: bv8, slopeStepY: bv8)

  /** `force`: the shared header (slot, enabled) and the typed payload. */
  datatype Force = Force(slot: bv8, enabled: bool, effect: Effect)

  /**
   * The seven bytes of the union's `params` array for each payload; padding is zero,
   * as the wheel value-initialises every force before copying a typed struct in.
   */
  function ParamBytes(e: Effect): (p: seq<bv8>)
    ensures |p| == 7
  {
    match e
    case ConstantEffect(a) => [a, 0, 0, 0, 0, 0, 0]
    case SpringEffect(ds, de, sl, sr, il, ir, a) => [ds, de, sl, sr, il, ir, a]
    case DamperEffect(sl, sr, il, ir) => [sl, sr, il, ir, 0, 0, 0]
    case TrapezoidEffect(hi, lo, th, tl, sx, sy) => [hi, lo, th, tl, sx, sy, 0]
  }

  /** The wheel's initial force parameters (wheel.hxx default_*_f). */
  const DefaultConstant: Force := Force(SLOT_CONSTANT, false, ConstantEffect(128))
  const DefaultSpring: Force := Force(SLOT_SPRING, false, SpringEffect(127, 128, 3, 3, 0, 0, 0))
  const DefaultDamper: Force := Force(SLOT_DAMPER, false, DamperEffect(0, 0, 0, 0))
  const DefaultTrapezoid: Force := Force(SLOT_TRAPEZOID, false, TrapezoidEffect(127, 128, 0, 0, 0, 0))
}
