/**
 * The classic (legacy Logitech) dialect: every command is one 8-byte output report
 * with report id 0, the slot nibble in the high half of byte 0 and a
 * subcommand-specific layout in the remaining bytes (joy/protocol.hxx).
 */
module Classic {
  import opened Bytes
  import opened Reports
  import opened Forces

  /** Length of every classic report. */
  const ClassicLen: nat := 8

  /** `_make_classic_report` followed by `_classic_Nb`: the given leading bytes, zeros after. */
  function ClassicReport(bytes: seq<bv8>): (r: Report)
    requires |bytes| <= ClassicLen
    ensures r.reportId == 0 && r.reportType == Output && r.len == ClassicLen
    ensures forall i :: 0 <= i < |bytes| ==> r.data[i] == bytes[i]
    ensures forall i :: |bytes| <= i < Capacity ==> r.data[i] == 0
  {
    Report(0, Output, ClassicLen, bytes + Zeros(Capacity - |bytes|))
  }

  /** `(slots << 4) | sub` truncated to a byte. */
  function SlotCommand(slots: bv8, sub: bv8): bv8
  {
    (slots << 4) | sub
  }

  /** The command byte keeps the low slot nibble in its high half and the subcommand in its low half. */
  lemma SlotCommandNibbles(slots: bv8, sub: bv8)
    requires sub < 0x10
    ensures SlotCommand(slots, sub) >> 4 == slots & 0x0F
    ensures SlotCommand(slots, sub) & 0x0F == sub
  {
  }

  /** The subcommand byte (byte 1) of each effect download. */
  function Subcommand(e: Effect): bv8
  {
    match e
    case ConstantEffect(_) => 0x00
    case SpringEffect(_, _, _, _, _, _, _) => 0x01
    case DamperEffect(_, _, _, _) => 0x02
    case TrapezoidEffect(_, _, _, _, _, _) => 0x06
  }

  /**
   * The classic download layouts of `_constant_force`, `_spring_force`,
   * `_damper_force` and `_trapezoid_force`.
   */
  function EffectBytes(slot: bv8, e: Effect): (bs: seq<bv8>)
    ensures |bs| == 7
  {
    var command := slot << 4;
    match e
    case ConstantEffect(a) => [command, 0x00, a, a, a, a, 0x00]
    case SpringEffect(ds, de, sl, sr, il, ir, a) =>
      [command, 0x01, ds, de, ((sr & 0x7) << 4) | (sl & 0x7), ((ir & 0x1) << 4) | (il & 0x1), a]
    case DamperEffect(sl, sr, il, ir) =>
      [command, 0x02, sl & 0x7, il & 0x1, sr & 0x7, ir & 0x1, 0x00]
    case TrapezoidEffect(hi, lo, th, tl, sx, sy) =>
      [command, 0x06, hi, lo, th, tl, (sx << 4) | sy]
  }

  /** A classic effect download report. */
  function EncodeEffect(slot: bv8, e: Effect): (r: Report)
    ensures r.reportId == 0 && r.reportType == Output && r.len == ClassicLen
    ensures r.data[0] == slot << 4 && r.data[0] >> 4 == slot & 0x0F && r.data[0] & 0x0F == 0
    ensures r.data[1] == Subcommand(e)
    ensures r.data[7] == 0
    ensures e.ConstantEffect? ==> r.data[2] == r.data[3] == r.data[4] == r.data[5] == e.amplitude
  {
    ClassicReport(EffectBytes(slot, e))
  }

  /**
   * The payload as the wire carries it: slopes cut to three bits, inversion flags
   * to one bit, the trapezoid slope steps folded into one byte.
   */
  function Canonical(e: Effect): Effect
  {
    match e
    case ConstantEffect(a) => e
    case SpringEffect(ds, de, sl, sr, il, ir, a) =>
      SpringEffect(ds, de, sl & 0x7, sr & 0x7, il & 0x1, ir & 0x1, a)
    case DamperEffect(sl, sr, il, ir) => DamperEffect(sl & 0x7, sr & 0x7, il & 0x1, ir & 0x1)
    case TrapezoidEffect(hi, lo, th, tl, sx, sy) =>
      var dxdy := (sx << 4) | sy;
      TrapezoidEffect(hi, lo, th, tl, dxdy >> 4, dxdy & 0x0F)
  }

  /**
   * Reads a classic effect report back: the slot nibble (the low nibble of byte 0,
   * the operation, is ignored) and the payload selected by the subcommand byte.
   */
  function DecodeEffect(r: Report): Option<(bv8, Effect)>
  {
    if r.len != ClassicLen || r.reportId != 0 then None
    else
      var d := r.data;
      var slot := d[0] >> 4;
      if d[1] == 0x00 then Some((slot, ConstantEffect(d[2])))
      else if d[1] == 0x01 then
        Some((slot, SpringEffect(d[2], d[3], d[4] & 0x0F, d[4] >> 4, d[5] & 0x0F, d[5] >> 4, d[6])))
      else if d[1] == 0x02 then Some((slot, DamperEffect(d[2], d[4], d[3], d[5])))
      else if d[1] == 0x06 then
        Some((slot, TrapezoidEffect(d[2], d[3], d[4], d[5], d[6] >> 4, d[6] & 0x0F)))
      else None
  }

  /** Packing two values of at most four bits into one byte and splitting it again. */
  lemma NibblePack(hi: bv8, lo: bv8)
    requires hi < 16 && lo < 16
    ensures ((hi << 4) | lo) >> 4 == hi && ((hi << 4) | lo) & 0x0F == lo
  {
  }

  /** Decoding an encoded effect recovers the slot nibble and the wire form of the payload. */
  lemma DecodeEncode(slot: bv8, e: Effect)
    ensures DecodeEffect(EncodeEffect(slot, e)) == Some((slot & 0x0F, Canonical(e)))
  {
    match e
    case ConstantEffect(_) => DecodeEncodeConstant(slot, e);
    case SpringEffect(_, _, _, _, _, _, _) => DecodeEncodeSpring(slot, e);
    case DamperEffect(_, _, _, _) => DecodeEncodeDamper(slot, e);
    case TrapezoidEffect(_, _, _, _, _, _) => DecodeEncodeTrapezoid(slot, e);
  }

  /** The payload bytes 2..6 of an encoded effect are its layout's bytes. */
  lemma EncodedPayload(slot: bv8, e: Effect)
    ensures var d := EncodeEffect(slot, e).data; var bs := EffectBytes(slot, e);
      d[2] == bs[2] && d[3] == bs[3] && d[4] == bs[4] && d[5] == bs[5] && d[6] == bs[6]
  {
  }

  lemma DecodeEncodeConstant(slot: bv8, e: Effect)
    requires e.ConstantEffect?
    ensures DecodeEffect(EncodeEffect(slot, e)) == Some((slot & 0x0F, Canonical(e)))
  {
    EncodedPayload(slot, e);
  }

  lemma DecodeEncodeSpring(slot: bv8, e: Effect)
    requires e.SpringEffect?
    ensures DecodeEffect(EncodeEffect(slot, e)) == Some((slot & 0x0F, Canonical(e)))
  {
    EncodedPayload(slot, e);
    NibblePack(e.slopeRight & 0x7, e.slopeLeft & 0x7);
    NibblePack(e.invertRight & 0x1, e.invertLeft & 0x1);
  }

  lemma DecodeEncodeDamper(slot: bv8, e: Effect)
    requires e.DamperEffect?
    ensures DecodeEffect(EncodeEffect(slot, e)) == Some((slot & 0x0F, Canonical(e)))
  {
    EncodedPayload(slot, e);
  }

  lemma DecodeEncodeTrapezoid(slot: bv8, e: Effect)
    requires e.TrapezoidEffect?
    ensures DecodeEffect(EncodeEffect(slot, e)) == Some((slot & 0x0F, Canonical(e)))
  {
    EncodedPayload(slot, e);
  }

  /** The wire form carries everything the encoder sends: re-encoding it gives the same report. */
  lemma EncodeCanonical(slot: bv8, e: Effect)
    ensures EncodeEffect(slot, Canonical(e)) == EncodeEffect(slot, e)
  {
    assert EffectBytes(slot, Canonical(e)) == EffectBytes(slot, e) by {
      match e
      case ConstantEffect(a) =>
      case SpringEffect(ds, de, sl, sr, il, ir, a) => MaskIdempotent(sl, sr, il, ir);
      case DamperEffect(sl, sr, il, ir) => MaskIdempotent(sl, sr, il, ir);
      case TrapezoidEffect(hi, lo, th, tl, sx, sy) => NibbleSplit((sx << 4) | sy);
    }
  }

  /** Masking a slope to three bits or a flag to one bit twice is masking it once. */
  lemma MaskIdempotent(sl: bv8, sr: bv8, il: bv8, ir: bv8)
    ensures (sl & 0x7) & 0x7 == sl & 0x7 && (sr & 0x7) & 0x7 == sr & 0x7
    ensures (il & 0x1) & 0x1 == il & 0x1 && (ir & 0x1) & 0x1 == ir & 0x1
  {
  }

  /** A byte is its high nibble shifted back up, or-ed with its low nibble. */
  lemma NibbleSplit(b: bv8)
    ensures ((b >> 4) << 4) | (b & 0x0F) == b
  {
  }

  /** `refresh_force`'s byte-0 rewrite: keep the slot nibble, set the operation to 0xC. */
  function RefreshByte(b: bv8): (c: bv8)
    ensures c >> 4 == b >> 4 && c & 0x0F == 0x0C
  {
    (b & 0xF0) | 0x0C
  }

  /** Refreshing touches byte 0 only. */
  function Refreshed(r: Report): (s: Report)
    ensures s.reportId == r.reportId && s.reportType == r.reportType && s.len == r.len
    ensures s.data[0] >> 4 == r.data[0] >> 4 && s.data[0] & 0x0F == 0x0C
    ensures forall i :: 1 <= i < Capacity ==> s.data[i] == r.data[i]
  {
    r.(data := r.data[0 := RefreshByte(r.data[0])])
  }

  /** A refresh report decodes to the same effect as the download it refreshes. */
  lemma DecodeRefreshed(slot: bv8, e: Effect)
    ensures DecodeEffect(Refreshed(EncodeEffect(slot, e))) == Some((slot & 0x0F, Canonical(e)))
  {
    DecodeEncode(slot, e);
    var r := EncodeEffect(slot, e);
    var s := Refreshed(r);
    assert s.data[0] >> 4 == r.data[0] >> 4;
    assert forall i :: 1 <= i < 7 ==> s.data[i] == r.data[i];
  }

  /** Refreshing twice is refreshing once. */
  lemma RefreshIdempotent(r: Report)
    ensures Refreshed(Refreshed(r)) == Refreshed(r)
  {
    var b := r.data[0];
    assert RefreshByte(RefreshByte(b)) == RefreshByte(b);
    assert Refreshed(Refreshed(r)).data == Refreshed(r).data;
  }

  /** `set_led_pattern`: pattern cut to five bits. */
  function LedReport(pattern: bv8): (r: Report)
    ensures r.len == ClassicLen && r.data[0] == 0xF8 && r.data[1] == 0x12
    ensures r.data[2] < 32 && r.data[2] == pattern & 0x1F && r.data[3] == 0
  {
    ClassicReport([0xF8, 0x12, pattern & 0x1F, 0x00])
  }

  /** Two patterns give the same LED report exactly when they agree on their low five bits. */
  lemma LedReportInjective(p: bv8, q: bv8)
    ensures LedReport(p) == LedReport(q) <==> p & 0x1F == q & 0x1F
  {
    if p & 0x1F == q & 0x1F {
      assert [0xF8 as bv8, 0x12, p & 0x1F, 0x00] == [0xF8 as bv8, 0x12, q & 0x1F, 0x00];
    }
  }

  /**
   * Classic `set_autocenter`: reads slope and amplitude through the union's spring
   * view (parameter bytes 2, 3 and 6), whatever the force's payload.
   */
  function AutocenterReport(f: Force): (r: Report)
    ensures r.len == ClassicLen && r.reportId == 0
    ensures r.data[0] >> 4 == f.slot & 0x0F && r.data[0] & 0x0F == 0x0E
    ensures r.data[2] & 0x7 == 0x7 && r.data[3] & 0x7 == 0x7
    ensures r.data[4] == ParamBytes(f.effect)[6]
  {
    var p := ParamBytes(f.effect);
    ClassicReport([SlotCommand(f.slot, 0x0e), 0x00, p[2] | 0x7, p[3] | 0x7, p[6], 0x00])
  }

  /** The one-byte and two-byte slot commands (autocenter on/off, play, stop). */
  function SlotsReport(slots: bv8, sub: bv8, withZero: bool): (r: Report)
    requires sub < 16
    ensures r.len == ClassicLen && r.reportId == 0
    ensures r.data[0] >> 4 == slots & 0x0F && r.data[0] & 0x0F == sub
    ensures forall i :: 1 <= i < Capacity ==> r.data[i] == 0
  {
    ClassicReport(if withZero then [SlotCommand(slots, sub), 0x00] else [SlotCommand(slots, sub)])
  }

  /** The single init report the G923/G29 classic wheels receive. */
  function InitReport(): (r: Report)
    ensures r.reportId == 0 && r.len == ClassicLen && Writable(r)
    ensures r.data[..5] == [0x30, 0xf8, 0x09, 0x05, 0x01]
    ensures forall i :: 5 <= i < ClassicLen ==> r.data[i] == 0
  {
    ClassicReport([0x30, 0xf8, 0x09, 0x05, 0x01])
  }
}
