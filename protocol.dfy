/**
 * The `protocol` report builders of joy/protocol.hxx: one report (or none) per
 * command, per dialect. An "empty" report (length 0) is what every builder returns
 * for a command its dialect does not implement; callers treat it as a no-op.
 */
module Protocol {
  import opened Bytes
  import opened Reports
  import opened Forces
  import Classic
  import Hidpp

  /** `ffb_protocol`: classic, HID++, or `count` (no supported dialect). */
  datatype Dialect = ClassicDialect | HidppDialect | Unsupported

  /** `command_type`. */
  datatype Command = CmdAutoOn | CmdAutoOff | CmdAutoSet | CmdLedSet | CmdDownload | CmdPlay | CmdRefresh | CmdStop

  const LogitechVendorId: U32 := 0x0000046d
  const G923DeviceId: U32 := 0xc266046d
  const G29DeviceId: U32 := 0xc24f046d

  /** A report of length 0: never sent. */
  predicate Empty(r: Report)
  {
    r.len == 0
  }

  /** `get_supported_protocol`: Logitech G920 product ids speak HID++, other Logitech ids classic. */
  function SupportedProtocol(vendorId: U32, productId: U32): (d: Dialect)
    ensures d == Unsupported <==> vendorId != LogitechVendorId
    ensures d == HidppDialect <==> vendorId == LogitechVendorId && (productId == 0xC261 || productId == 0xC262)
    ensures d == ClassicDialect <==> vendorId == LogitechVendorId && productId != 0xC261 && productId != 0xC262
  {
    if vendorId != LogitechVendorId then Unsupported
    else if productId == 0xC261 || productId == 0xC262 then HidppDialect
    else ClassicDialect
  }

  /** `set_led_pattern`: classic only. */
  function SetLedPattern(d: Dialect, pattern: bv8): (r: Report)
    ensures d == ClassicDialect ==> r == Classic.LedReport(pattern)
    ensures d != ClassicDialect ==> r == DefaultReport()
  {
    if d == ClassicDialect then Classic.LedReport(pattern) else DefaultReport()
  }

  /** `disable_autocenter`: classic slot command 5; HID++ autocenter of magnitude 0. */
  function DisableAutocenter(d: Dialect, ctx: Hidpp.Ctx, slots: bv8): (r: Report)
    ensures d == ClassicDialect ==> r == Classic.SlotsReport(slots, 0x05, false)
    ensures d == HidppDialect ==> r == Hidpp.SetAutocenter(ctx, 0)
    ensures d == Unsupported ==> r == DefaultReport()
  {
    match d
    case ClassicDialect => Classic.SlotsReport(slots, 0x05, false)
    case HidppDialect => Hidpp.SetAutocenter(ctx, 0)
    case Unsupported => DefaultReport()
  }

  /** `enable_autocenter`: classic slot command 4; HID++ autocenter at the baseline magnitude. */
  function EnableAutocenter(d: Dialect, ctx: Hidpp.Ctx, slots: bv8): (r: Report)
    ensures d == ClassicDialect ==> r == Classic.SlotsReport(slots, 0x04, false)
    ensures d == HidppDialect ==> r == Hidpp.SetAutocenter(ctx, Hidpp.BaselineAutocenter)
    ensures d == Unsupported ==> r == DefaultReport()
  {
    match d
    case ClassicDialect => Classic.SlotsReport(slots, 0x04, false)
    case HidppDialect => Hidpp.SetAutocenter(ctx, Hidpp.BaselineAutocenter)
    case Unsupported => DefaultReport()
  }

  /** `set_autocenter` from a force: classic only. */
  function SetAutocenter(d: Dialect, f: Force): (r: Report)
    ensures d == ClassicDialect ==> r == Classic.AutocenterReport(f)
    ensures d != ClassicDialect ==> r == DefaultReport()
  {
    if d == ClassicDialect then Classic.AutocenterReport(f) else DefaultReport()
  }

  /**
   * `download_force` with `_constant_force`, `_spring_force`, `_damper_force` and
   * `_trapezoid_force`: every effect in classic; only the constant force in HID++.
   */
  function DownloadForce(d: Dialect, ctx: Hidpp.Ctx, f: Force): (r: Report)
    ensures d == ClassicDialect ==> r == Classic.EncodeEffect(f.slot, f.effect)
    ensures d == HidppDialect && f.effect.ConstantEffect? ==>
      r == Hidpp.ConstantDownload(ctx, f.slot, f.effect.amplitude)
    ensures d == HidppDialect && !f.effect.ConstantEffect? ==> r == DefaultReport()
    ensures d == Unsupported ==> r == DefaultReport()
  {
    match d
    case ClassicDialect => Classic.EncodeEffect(f.slot, f.effect)
    case HidppDialect =>
      if f.effect.ConstantEffect? then Hidpp.ConstantDownload(ctx, f.slot, f.effect.amplitude)
      else DefaultReport()
    case Unsupported => DefaultReport()
  }

  /** `play_force`: classic slot command 2; HID++ placeholder command once ready. */
  function PlayForce(d: Dialect, ctx: Hidpp.Ctx, slots: bv8): (r: Report)
    ensures d == ClassicDialect ==> r == Classic.SlotsReport(slots, 0x02, true)
    ensures d == HidppDialect ==> r == Hidpp.PlayPlaceholder(ctx, slots)
    ensures d == Unsupported ==> r == DefaultReport()
  {
    match d
    case ClassicDialect => Classic.SlotsReport(slots, 0x02, true)
    case HidppDialect => Hidpp.PlayPlaceholder(ctx, slots)
    case Unsupported => DefaultReport()
  }

  /** `refresh_force`: the download with byte 0's low nibble set to 0xC, in every dialect. */
  function RefreshForce(d: Dialect, ctx: Hidpp.Ctx, f: Force): (r: Report)
    ensures r == Classic.Refreshed(DownloadForce(d, ctx, f))
  {
    Classic.Refreshed(DownloadForce(d, ctx, f))
  }

  /** `stop_force`: classic slot command 3; HID++ RESET_ALL once ready. */
  function StopForce(d: Dialect, ctx: Hidpp.Ctx, slots: bv8): (r: Report)
    ensures d == ClassicDialect ==> r == Classic.SlotsReport(slots, 0x03, true)
    ensures d == HidppDialect ==> r == Hidpp.ResetAll(ctx)
    ensures d == Unsupported ==> r == DefaultReport()
  {
    match d
    case ClassicDialect => Classic.SlotsReport(slots, 0x03, true)
    case HidppDialect => Hidpp.ResetAll(ctx)
    case Unsupported => DefaultReport()
  }

  /** `init_sequence`: one init report for the G923 and G29 in classic mode, otherwise none. */
  function InitSequence(d: Dialect, deviceId: U32): (rs: seq<Report>)
    ensures |rs| <= 1
    ensures |rs| == 1 <==> d == ClassicDialect && (deviceId == G923DeviceId || deviceId == G29DeviceId)
    ensures |rs| == 1 ==> rs[0] == Classic.InitReport()
  {
    if d == ClassicDialect && (deviceId == G923DeviceId || deviceId == G29DeviceId) then [Classic.InitReport()]
    else []
  }

  /** `build_report` with a slot mask: the four slot commands; the others need a force. */
  function BuildSlotsReport(d: Dialect, ctx: Hidpp.Ctx, cmd: Command, slots: bv8): (r: Report)
    ensures cmd == CmdAutoOff ==> r == DisableAutocenter(d, ctx, slots)
    ensures cmd == CmdAutoOn ==> r == EnableAutocenter(d, ctx, slots)
    ensures cmd == CmdPlay ==> r == PlayForce(d, ctx, slots)
    ensures cmd == CmdStop ==> r == StopForce(d, ctx, slots)
    ensures cmd in {CmdAutoSet, CmdLedSet, CmdDownload, CmdRefresh} ==> r == DefaultReport()
  {
    match cmd
    case CmdAutoOff => DisableAutocenter(d, ctx, slots)
    case CmdAutoOn => EnableAutocenter(d, ctx, slots)
    case CmdPlay => PlayForce(d, ctx, slots)
    case CmdStop => StopForce(d, ctx, slots)
    case _ => DefaultReport()
  }

  /** `build_report` with a force: set-autocenter, download and refresh; the others take no force. */
  function BuildForceReport(d: Dialect, ctx: Hidpp.Ctx, cmd: Command, f: Force): (r: Report)
    ensures cmd == CmdAutoSet ==> r == SetAutocenter(d, f)
    ensures cmd == CmdDownload ==> r == DownloadForce(d, ctx, f)
    ensures cmd == CmdRefresh ==> r == RefreshForce(d, ctx, f)
    ensures cmd in {CmdAutoOn, CmdAutoOff, CmdLedSet, CmdPlay, CmdStop} ==> r == DefaultReport()
  {
    match cmd
    case CmdAutoSet => SetAutocenter(d, f)
    case CmdDownload => DownloadForce(d, ctx, f)
    case CmdRefresh => RefreshForce(d, ctx, f)
    case _ => DefaultReport()
  }

  /** No command is served by both overloads; LED_SET by neither. */
  lemma BuildReportOverloadsDisjoint(d: Dialect, ctx: Hidpp.Ctx, cmd: Command, slots: bv8, f: Force)
    ensures Empty(BuildSlotsReport(d, ctx, cmd, slots)) || Empty(BuildForceReport(d, ctx, cmd, f))
    ensures cmd == CmdLedSet ==> Empty(BuildSlotsReport(d, ctx, cmd, slots)) && Empty(BuildForceReport(d, ctx, cmd, f))
  {
  }

  /** Whatever the builders return is either empty (a no-op) or passes the write guard. */
  lemma BuildersEmptyOrWritable(d: Dialect, ctx: Hidpp.Ctx, cmd: Command, slots: bv8, f: Force)
    ensures var r := BuildSlotsReport(d, ctx, cmd, slots); Empty(r) || Writable(r)
    ensures var r := BuildForceReport(d, ctx, cmd, f); Empty(r) || Writable(r)
    ensures var r := SetLedPattern(d, slots); Empty(r) || Writable(r)
  {
  }

  /** A HID++ slot command is empty exactly until the Force Feedback feature is ready. */
  lemma HidppEmptyUntilReady(ctx: Hidpp.Ctx, cmd: Command, slots: bv8)
    requires cmd in {CmdAutoOn, CmdAutoOff, CmdPlay, CmdStop}
    ensures Empty(BuildSlotsReport(HidppDialect, ctx, cmd, slots)) <==> !ctx.ffReady
  {
  }

  /** Without a supported dialect every builder returns the empty report. */
  lemma UnsupportedBuildsNothing(ctx: Hidpp.Ctx, cmd: Command, slots: bv8, f: Force, deviceId: U32)
    ensures BuildSlotsReport(Unsupported, ctx, cmd, slots) == DefaultReport()
    ensures BuildForceReport(Unsupported, ctx, cmd, f) == DefaultReport() || cmd == CmdRefresh
    ensures Empty(BuildForceReport(Unsupported, ctx, cmd, f))
    ensures SetLedPattern(Unsupported, slots) == DefaultReport() && InitSequence(Unsupported, deviceId) == []
  {
  }

  /** A classic download or refresh decodes back to the force's slot nibble and wire payload. */
  lemma ClassicDownloadDecodes(ctx: Hidpp.Ctx, f: Force)
    ensures Classic.DecodeEffect(DownloadForce(ClassicDialect, ctx, f)) == Some((f.slot & 0x0F, Classic.Canonical(f.effect)))
    ensures Classic.DecodeEffect(RefreshForce(ClassicDialect, ctx, f)) == Some((f.slot & 0x0F, Classic.Canonical(f.effect)))
  {
    Classic.DecodeEncode(f.slot, f.effect);
    Classic.DecodeRefreshed(f.slot, f.effect);
  }

  /** The OR of the slot nibbles of the enabled forces (`play_forces`' slot mask). */
  function SlotMask(forces: seq<Force>): bv8
  {
    if forces == [] then 0
    else (if forces[0].enabled then forces[0].slot else 0) | SlotMask(forces[1..])
  }

  /** A bit is set in the mask exactly when some enabled force has it in its slot. */
  lemma {:induction false} SlotMaskBits(forces: seq<Force>, bit: bv8)
    ensures SlotMask(forces) & bit != 0 <==> exists i :: 0 <= i < |forces| && EnabledWithBit(forces[i], bit)
  {
    if forces != [] {
      var rest := forces[1..];
      SlotMaskBits(rest, bit);
      var head: bv8 := if forces[0].enabled then forces[0].slot else 0;
      assert SlotMask(forces) == head | SlotMask(rest);
      OrHasBit(head, SlotMask(rest), bit);
      HeadHasBit(forces[0], bit);
      SomeEnabledWithBit(forces, bit);
    }
  }

  /** The head's share of the mask has the bit exactly when the head is enabled with it. */
  lemma HeadHasBit(f: Force, bit: bv8)
    ensures (if f.enabled then f.slot else 0) & bit != 0 <==> EnabledWithBit(f, bit)
  {
  }

  /** Some force has the bit exactly when the head or some later force does. */
  lemma SomeEnabledWithBit(forces: seq<Force>, bit: bv8)
    requires forces != []
    ensures (exists i :: 0 <= i < |forces| && EnabledWithBit(forces[i], bit))
        <==> EnabledWithBit(forces[0], bit) || exists i :: 0 <= i < |forces[1..]| && EnabledWithBit(forces[1..][i], bit)
  {
    var rest := forces[1..];
    if exists i :: 0 <= i < |rest| && EnabledWithBit(rest[i], bit) {
      var i :| 0 <= i < |rest| && EnabledWithBit(rest[i], bit);
      assert forces[i + 1] == rest[i];
    }
    if exists i :: 0 <= i < |forces| && EnabledWithBit(forces[i], bit) {
      var i :| 0 <= i < |forces| && EnabledWithBit(forces[i], bit);
      if i > 0 {
        assert rest[i - 1] == forces[i];
      }
    }
  }

  predicate EnabledWithBit(f: Force, bit: bv8)
  {
    f.enabled && f.slot & bit != 0
  }

  lemma OrHasBit(a: bv8, b: bv8, bit: bv8)
    ensures (a | b) & bit != 0 <==> a & bit != 0 || b & bit != 0
  {
  }
}
