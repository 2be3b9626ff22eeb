/**
 * The HID++ 2.0 side of joy/protocol.hxx that computes values: the context record
 * learned at runtime, command framing for the Force Feedback feature (0x8123), the
 * amplitude-to-level mapping, the parameter blocks, the ping and root-lookup request
 * layouts and the reply filters.
 */
module Hidpp {
  import opened Bytes
  import opened Reports

  /** Force Feedback feature functions (function nibble | software id 1). */
  const FfGetInfo: bv8 := 0x01
  const FfResetAll: bv8 := 0x11
  const FfDownloadEffect: bv8 := 0x21
  const FfSetEffectState: bv8 := 0x31
  const FfDestroyEffect: bv8 := 0x41

  const EffectConstant: bv8 := 0x00
  const EffectSpring: bv8 := 0x06
  const EffectAutostart: bv8 := 0x80
  const EffectStateStop: bv8 := 0x01
  const EffectStatePlay: bv8 := 0x02

  /** The autocenter magnitude re-applied after a reset. */
  const BaselineAutocenter: bv16 := 0x0C00
  /** HID++ feature id of Force Feedback. */
  const ForceFeedbackFeature: bv16 := 0x8123

  /** Ping constants: software id, its function byte 0x10 | swId, and the echoed tag. */
  const PingSwId: bv8 := 0x0E
  const PingFnSw: bv8 := 0x1E
  const PingByte: bv8 := 0xAA

  /** Number of per-force slot-handle entries (indexed by the slot nibble). */
  const SlotTableSize: nat := 16

  /**
   * `hidpp_ctx_t`: the device index, software id, report framing learned by the ping,
   * the Force Feedback feature index, readiness, and the device-assigned effect handle
   * for each slot nibble (0 = none yet).
   */
  datatype Ctx = Ctx(devIndex: bv8, swId: bv8, reportId: bv8, reportLen: nat,
                     includeIdInPayload: bool, ffFeatIndex: bv8, ffReady: bool,
                     slotByForce: seq<bv8>)

  /** The context before any ping or init. */
  function DefaultCtx(): (c: Ctx)
    ensures c.devIndex == 0xFF && c.swId == 0x0E && c.reportId == 0x12 && c.reportLen == 64
    ensures !c.includeIdInPayload && c.ffFeatIndex == 0 && !c.ffReady
    ensures |c.slotByForce| == SlotTableSize && forall i :: 0 <= i < SlotTableSize ==> c.slotByForce[i] == 0
  {
    Ctx(0xFF, 0x0E, 0x12, 64, false, 0, false, Zeros(SlotTableSize))
  }

  // ---------------------------------------------------------------- framing

  /** `_hidpp_report_len_for_id`: short, long and very long report lengths. */
  function ReportLenForId(rid: bv8): (n: nat)
    ensures rid == 0x10 ==> n == 7
    ensures rid == 0x11 ==> n == 20
    ensures rid != 0x10 && rid != 0x11 ==> n == 64
  {
    if rid == 0x10 then 7 else if rid == 0x11 then 20 else 64
  }

  /** Bytes before the parameters: [report id] device index, feature index, function. */
  function HeaderLen(includeId: bool): nat
  {
    if includeId then 4 else 3
  }

  /** Offset of the device-index byte in a report's data. */
  function Off(includeId: bool): nat
  {
    if includeId then 1 else 0
  }

  /** The framing learned by the ping: its report id (0x12 if none) and its length. */
  function PreferredFrame(ctx: Ctx): (bv8, nat)
  {
    var rid := if ctx.reportId != 0 then ctx.reportId else 0x12;
    var fullLen := if rid == ctx.reportId && ctx.reportLen != 0 then ctx.reportLen else ReportLenForId(rid);
    (rid, fullLen)
  }

  /** `can_fit`: header and parameters fit the frame, and the frame fits a report. */
  predicate CanFit(includeId: bool, paramsLen: nat, fullLen: nat)
  {
    HeaderLen(includeId) + paramsLen <= fullLen <= Capacity
  }

  /**
   * The report id and length a Force Feedback command is sent with: the learned
   * framing when the command fits it, otherwise the very long 0x12 report.
   */
  function FfFrame(ctx: Ctx, paramsLen: nat): (frame: (bv8, nat))
    ensures HeaderLen(ctx.includeIdInPayload) <= frame.1 <= Capacity
    ensures CanFit(ctx.includeIdInPayload, paramsLen, PreferredFrame(ctx).1) ==> frame == PreferredFrame(ctx)
    ensures !CanFit(ctx.includeIdInPayload, paramsLen, PreferredFrame(ctx).1) ==> frame == (0x12, 64)
  {
    var (rid, fullLen) := PreferredFrame(ctx);
    if CanFit(ctx.includeIdInPayload, paramsLen, fullLen) then (rid, fullLen) else (0x12, ReportLenForId(0x12))
  }

  /** The header bytes of a Force Feedback command. */
  function FfHeader(ctx: Ctx, rid: bv8, command: bv8): (h: seq<bv8>)
    ensures |h| == HeaderLen(ctx.includeIdInPayload)
  {
    (if ctx.includeIdInPayload then [rid] else []) + [ctx.devIndex, ctx.ffFeatIndex, command]
  }

  /** How many parameters a command carries: all of them unless the frame is full first. */
  function ParamsSent(ctx: Ctx, paramsLen: nat): (k: nat)
    ensures k <= paramsLen
    ensures HeaderLen(ctx.includeIdInPayload) + k <= FfFrame(ctx, paramsLen).1
    ensures HeaderLen(ctx.includeIdInPayload) + paramsLen <= Capacity ==> k == paramsLen
  {
    Min(paramsLen, FfFrame(ctx, paramsLen).1 - HeaderLen(ctx.includeIdInPayload))
  }

  /**
   * `_hidpp_ff_cmd`: a full-length output report holding the header, the parameters
   * that fit, and zero padding.
   */
  function FfCmd(ctx: Ctx, command: bv8, params: seq<bv8>): (r: Report)
    ensures r.reportType == Output && (r.reportId, r.len) == FfFrame(ctx, |params|)
    ensures Writable(r)
    ensures ctx.includeIdInPayload ==> r.data[0] == r.reportId
    ensures var off := Off(ctx.includeIdInPayload);
      r.data[off] == ctx.devIndex && r.data[off + 1] == ctx.ffFeatIndex && r.data[off + 2] == command
    ensures var h := HeaderLen(ctx.includeIdInPayload);
      forall i :: 0 <= i < ParamsSent(ctx, |params|) ==> r.data[h + i] == params[i]
    ensures forall i :: HeaderLen(ctx.includeIdInPayload) + ParamsSent(ctx, |params|) <= i < Capacity ==> r.data[i] == 0
  {
    var (rid, fullLen) := FfFrame(ctx, |params|);
    var h := FfHeader(ctx, rid, command);
    var k := ParamsSent(ctx, |params|);
    Report(rid, Output, fullLen, h + params[..k] + Zeros(Capacity - |h| - k))
  }

  /** `_hidpp_ff_cmd` as written: fill the header, then copy parameters while the frame has room. */
  method BuildFfCmd(ctx: Ctx, command: bv8, params: seq<bv8>) returns (r: Report)
    ensures r == FfCmd(ctx, command, params)
  {
    var rid, fullLen := FfFrame(ctx, |params|).0, FfFrame(ctx, |params|).1;
    var data, off := WriteHeader(ctx, rid, command);
    ghost var written := FfHeader(ctx, rid, command);
    data := CopyParams(data, off, params, fullLen, written);
    assert Min(|params|, fullLen - off) == ParamsSent(ctx, |params|);
    r := Report(rid, Output, fullLen, data);
  }

  /** The header writes of `_hidpp_ff_cmd` into a zeroed frame: [report id,] device, feature, function. */
  method WriteHeader(ctx: Ctx, rid: bv8, command: bv8) returns (data: seq<bv8>, off: nat)
    ensures off == HeaderLen(ctx.includeIdInPayload)
    ensures data == FfHeader(ctx, rid, command) + Zeros(Capacity - off)
  {
    data, off := Zeros(Capacity), 0;
    ghost var written: seq<bv8> := [];
    assert data == written + Zeros(Capacity);
    if ctx.includeIdInPayload {
      data, off, written := PutNext(data, off, written, rid);
    }
    data, off, written := PutNext(data, off, written, ctx.devIndex);
    data, off, written := PutNext(data, off, written, ctx.ffFeatIndex);
    data, off, written := PutNext(data, off, written, command);
    assert written == FfHeader(ctx, rid, command);
  }

  /** One `data[off++] = x` into a frame whose bytes after the `written` prefix are still zero. */
  method PutNext(data: seq<bv8>, off: nat, ghost written: seq<bv8>, x: bv8)
    returns (data': seq<bv8>, off': nat, ghost written': seq<bv8>)
    requires off == |written| < Capacity && data == written + Zeros(Capacity - off)
    ensures written' == written + [x] && off' == off + 1
    ensures data' == written' + Zeros(Capacity - off')
  {
    PutAfter(written, x, Capacity - off);
    data', off', written' := data[off := x], off + 1, written + [x];
  }

  /**
   * The parameter loop of `_hidpp_ff_cmd`: after the `written` header, copy parameters
   * while any are left and the frame has room.
   */
  method CopyParams(data: seq<bv8>, off: nat, params: seq<bv8>, fullLen: nat, ghost written: seq<bv8>)
    returns (filled: seq<bv8>)
    requires off == |written| <= fullLen <= Capacity && data == written + Zeros(Capacity - off)
    ensures var k := Min(|params|, fullLen - off);
      filled == written + params[..k] + Zeros(Capacity - off - k)
  {
    filled := data;
    var i, o := 0, off;
    assert written + params[..0] == written;
    while i < |params| && o < fullLen
      invariant 0 <= i <= |params| && o == off + i <= fullLen
      invariant filled == written + params[..i] + Zeros(Capacity - o)
    {
      PutAfter(written + params[..i], params[i], Capacity - o);
      assert written + params[..i] + [params[i]] == written + params[..i + 1] by {
        assert params[..i + 1] == params[..i] + [params[i]];
      }
      filled := filled[o := params[i]];
      i, o := i + 1, o + 1;
    }
  }

  /** Writing just past a written prefix of a zeroed frame extends the prefix. */
  lemma PutAfter(a: seq<bv8>, x: bv8, n: nat)
    requires 0 < n
    ensures (a + Zeros(n))[|a| := x] == a + [x] + Zeros(n - 1)
  {
    var l, r := (a + Zeros(n))[|a| := x], a + [x] + Zeros(n - 1);
    assert forall k :: 0 <= k < |l| ==> l[k] == r[k];
  }

  // ------------------------------------------------------- level and params

  /** C++ integer division, truncating toward zero. */
  function TruncDiv(a: int, b: int): (q: int)
    requires b > 0
    ensures a >= 0 ==> q == a / b
    ensures a < 0 ==> q == -((-a) / b)
  {
    if a >= 0 then a / b else -((-a) / b)
  }

  /**
   * Constant-force amplitude (0..255, 128 neutral) to the signed 16-bit level the
   * device expects: the positive half scaled to 0x7fff over 127 steps, the negative
   * half to -0x8000 over 128 steps, then clamped.
   */
  function AmplitudeToLevel(amplitude: bv8): (level: int)
    ensures -0x8000 <= level <= 0x7fff
    ensures amplitude as int >= 128 ==> level == TruncDiv((amplitude as int - 128) * 0x7fff, 127)
    ensures amplitude as int < 128 ==> level == (amplitude as int - 128) * 256
  {
    var delta := amplitude as int - 128;
    var level := if delta >= 0 then TruncDiv(delta * 0x7fff, 127) else TruncDiv(delta * 0x8000, 128);
    if level > 0x7fff then 0x7fff else if level < -0x8000 then -0x8000 else level
  }

  /** 128 is neutral, 255 full positive, 0 full negative; the sign follows the side of 128. */
  lemma LevelEndpoints(amplitude: bv8)
    ensures AmplitudeToLevel(128) == 0
    ensures AmplitudeToLevel(255) == 0x7fff
    ensures AmplitudeToLevel(0) == -0x8000
    ensures AmplitudeToLevel(amplitude) > 0 <==> amplitude as int > 128
    ensures AmplitudeToLevel(amplitude) < 0 <==> amplitude as int < 128
  {
    var d := amplitude as int - 128;
    if d > 0 {
      assert d * 0x7fff >= 127;
    }
  }

  /** A larger amplitude never gives a smaller level. */
  lemma LevelMonotone(a: bv8, b: bv8)
    requires a as int <= b as int
    ensures AmplitudeToLevel(a) <= AmplitudeToLevel(b)
  {
    var la, lb := AmplitudeToLevel(a), AmplitudeToLevel(b);
    assert la == LevelFor(a as int) && lb == LevelFor(b as int);
    LevelForMonotone(a as int, b as int);
  }

  /**
   * The unclamped level of an amplitude 0..255, as the two halves of AmplitudeToLevel
   * compute it. It is already in the signed 16-bit range, so the clamps never apply.
   */
  function LevelFor(x: int): (l: int)
    ensures 0 <= x < 256 ==> -0x8000 <= l <= 0x7fff
    ensures x >= 128 <==> l >= 0
  {
    if x >= 128 then ((x - 128) * 0x7fff) / 127 else (x - 128) * 256
  }

  lemma LevelForMonotone(x: int, y: int)
    requires 0 <= x <= y < 256
    ensures LevelFor(x) <= LevelFor(y)
  {
    if x >= 128 {
      ScaleMonotone(x - 128, y - 128);
    } else if y >= 128 {
      assert LevelFor(y) >= 0;
    }
  }

  lemma ScaleMonotone(x: int, y: int)
    requires 0 <= x <= y
    ensures (x * 0x7fff) / 127 <= (y * 0x7fff) / 127
  {
    var qx, qy := (x * 0x7fff) / 127, (y * 0x7fff) / 127;
    assert qx * 127 <= x * 0x7fff <= y * 0x7fff < qy * 127 + 127;
  }

  /**
   * The 14 DOWNLOAD_EFFECT parameters of a constant force: effect handle (0 asks the
   * device to allocate one), CONSTANT | AUTOSTART, zero duration and delay, the level
   * big-endian, and a zero envelope.
   */
  function ConstantDownloadParams(handle: bv8, level: int): (p: seq<bv8>)
    requires -0x8000 <= level <= 0x7fff
    ensures |p| == 14 && p[0] == handle && p[1] == EffectConstant | EffectAutostart
    ensures FromS16(p[6], p[7]) == level
    ensures forall i :: 2 <= i < 6 || 8 <= i < 14 ==> p[i] == 0
  {
    var lv := S16Bytes(level);
    S16RoundTrip(level);
    [handle, EffectConstant | EffectAutostart, 0, 0, 0, 0, lv[0], lv[1], 0, 0, 0, 0, 0, 0]
  }

  /** Two bytes read as a big-endian 16-bit word. */
  function Be16(hi: bv8, lo: bv8): bv16
  {
    ((hi as bv16) << 8) | (lo as bv16)
  }

  /**
   * `hidpp_ff_set_autocenter`'s 18 DOWNLOAD_EFFECT parameters: an autostarted spring
   * in a fresh slot whose left and right coefficients are magnitude / 2 and whose
   * saturations are magnitude / 8, each big-endian.
   */
  function AutocenterParams(m: bv16): (p: seq<bv8>)
    ensures |p| == 18 && p[0] == 0 && p[1] == EffectSpring | EffectAutostart
    ensures forall i :: 2 <= i < 6 || 10 <= i < 14 ==> p[i] == 0
    ensures p[14] == p[8] && p[15] == p[9] && p[16] == p[6] && p[17] == p[7]
  {
    SpringParams(Low8(m >> 9), Low8((m >> 1) & 0xFF), Low8(m >> 11), Low8((m >> 3) & 0xFF))
  }

  /** An autostarted spring's parameters: coefficient `c1 c0` and saturation `s1 s0`, right side mirroring the left. */
  function SpringParams(c1: bv8, c0: bv8, s1: bv8, s0: bv8): (p: seq<bv8>)
    ensures |p| == 18 && p[0] == 0 && p[1] == EffectSpring | EffectAutostart
    ensures forall i :: 2 <= i < 6 || 10 <= i < 14 ==> p[i] == 0
    ensures p[6] == c1 && p[7] == c0 && p[8] == s1 && p[9] == s0
    ensures p[14] == p[8] && p[15] == p[9] && p[16] == p[6] && p[17] == p[7]
  {
    [0x00, EffectSpring | EffectAutostart, 0, 0, 0, 0, c1, c0, s1, s0, 0, 0, 0, 0, s1, s0, c1, c0]
  }

  /** The spring's coefficients and saturations decode to magnitude / 2 and magnitude / 8. */
  lemma AutocenterParamsMeaning(m: bv16)
    ensures var p := AutocenterParams(m);
      Be16(p[6], p[7]) == m >> 1 && Be16(p[16], p[17]) == m >> 1
      && Be16(p[8], p[9]) == m >> 3 && Be16(p[14], p[15]) == m >> 3
  {
    var p := AutocenterParams(m);
    assert Be16(p[6], p[7]) == m >> 1 by {
      ShiftCompose(m);
      assert p[6] == Low8((m >> 1) >> 8) && p[7] == Low8((m >> 1) & 0xFF);
      Be16Split(m >> 1);
    }
    assert Be16(p[8], p[9]) == m >> 3 by {
      ShiftCompose(m);
      assert p[8] == Low8((m >> 3) >> 8) && p[9] == Low8((m >> 3) & 0xFF);
      Be16Split(m >> 3);
    }
    assert p[16] == p[6] && p[17] == p[7] && p[14] == p[8] && p[15] == p[9];
  }

  lemma ShiftCompose(m: bv16)
    ensures (m >> 1) >> 8 == m >> 9 && (m >> 3) >> 8 == m >> 11
  {
  }

  /** Splitting a word into its two bytes and joining them again. */
  lemma Be16Split(w: bv16)
    ensures Be16(Low8(w >> 8), Low8(w & 0xFF)) == w
  {
  }

  // ------------------------------------------------------------- builders

  /** `hidpp_ff_reset_all`: RESET_ALL with no parameters; empty until the feature is ready. */
  function ResetAll(ctx: Ctx): (r: Report)
    ensures !ctx.ffReady ==> r == DefaultReport()
    ensures ctx.ffReady ==> r == FfCmd(ctx, FfResetAll, [])
  {
    if !ctx.ffReady then DefaultReport() else FfCmd(ctx, FfResetAll, [])
  }

  /** `hidpp_ff_set_autocenter`: an autocenter spring download; empty until ready. */
  function SetAutocenter(ctx: Ctx, magnitude: bv16): (r: Report)
    ensures !ctx.ffReady ==> r == DefaultReport()
    ensures ctx.ffReady ==> r == FfCmd(ctx, FfDownloadEffect, AutocenterParams(magnitude))
  {
    if !ctx.ffReady then DefaultReport() else FfCmd(ctx, FfDownloadEffect, AutocenterParams(magnitude))
  }

  /** The slot-table entry of a force's slot nibble (0 when the table has none). */
  function HandleFor(ctx: Ctx, slot: bv8): bv8
  {
    var i := (slot & 0x0F) as int;
    if i < |ctx.slotByForce| then ctx.slotByForce[i] else 0
  }

  /** The HID++ branch of `_constant_force`: a DOWNLOAD_EFFECT of the mapped level. */
  function ConstantDownload(ctx: Ctx, slot: bv8, amplitude: bv8): (r: Report)
    ensures !ctx.ffReady ==> r == DefaultReport()
    ensures ctx.ffReady ==>
      r == FfCmd(ctx, FfDownloadEffect, ConstantDownloadParams(HandleFor(ctx, slot), AmplitudeToLevel(amplitude)))
  {
    if !ctx.ffReady then DefaultReport()
    else FfCmd(ctx, FfDownloadEffect, ConstantDownloadParams(HandleFor(ctx, slot), AmplitudeToLevel(amplitude)))
  }

  /** The HID++ branch of `play_force`: a GET_INFO-style function 0 carrying the slot mask. */
  function PlayPlaceholder(ctx: Ctx, slots: bv8): (r: Report)
    ensures !ctx.ffReady ==> r == DefaultReport()
    ensures ctx.ffReady ==> r == FfCmd(ctx, ctx.swId & 0x0F, [slots])
  {
    if !ctx.ffReady then DefaultReport() else FfCmd(ctx, ctx.swId & 0x0F, [slots])
  }

  /** A constant-force download carries the level so that it reads back exactly. */
  lemma ConstantDownloadCarriesLevel(ctx: Ctx, slot: bv8, amplitude: bv8)
    requires ctx.ffReady
    ensures var r := ConstantDownload(ctx, slot, amplitude);
      var h := HeaderLen(ctx.includeIdInPayload);
      Writable(r) && r.data[h] == HandleFor(ctx, slot)
      && FromS16(r.data[h + 6], r.data[h + 7]) == AmplitudeToLevel(amplitude)
  {
    var p := ConstantDownloadParams(HandleFor(ctx, slot), AmplitudeToLevel(amplitude));
    assert ParamsSent(ctx, |p|) == 14;
  }

  // -------------------------------------------------------------- replies

  /** A reply whose first data byte repeats its (HID++) report id. */
  predicate IdInPayload(r: Report)
  {
    r.len >= 1 && r.data[0] == r.reportId && (r.reportId == 0x10 || r.reportId == 0x11 || r.reportId == 0x12)
  }

  /**
   * `normalize`: the reply as a HID++ message starting with its report id, whether or
   * not the platform kept the id in the payload. The message buffer has room for
   * Capacity + 1 bytes (see NormalizeWriteEnd for the buffer as written).
   */
  function Normalize(r: Report): (msg: seq<bv8>)
    requires r.len <= Capacity
    ensures IdInPayload(r) ==> msg == r.data[..r.len]
    ensures !IdInPayload(r) ==> |msg| == r.len + 1 && msg[0] == r.reportId && msg[1..] == r.data[..r.len]
    ensures |msg| <= Capacity + 1 && msg != [] ==> msg[0] == r.reportId
  {
    if IdInPayload(r) then r.data[..r.len] else [r.reportId] + r.data[..r.len]
  }

  /**
   * One past the last message byte `normalize` writes into its 64-byte buffer, as
   * written: a reply of 64 bytes without the id in the payload reaches byte 64.
   */
  function NormalizeWriteEnd(r: Report): nat
  {
    if IdInPayload(r) then r.len else r.len + 1
  }

  /** The input that overruns the 64-byte message buffer of `normalize`. */
  lemma NormalizeOverrun()
    ensures var r := Report(0x20, Input, Capacity, Zeros(Capacity));
      r.len <= Capacity && NormalizeWriteEnd(r) == Capacity + 1
  {
    var r := Report(0x20, Input, Capacity, Zeros(Capacity));
    assert !IdInPayload(r);
  }

  /** A HID++ report id: short, long or very long. */
  predicate HidppReportId(b: bv8)
  {
    b == 0x10 || b == 0x11 || b == 0x12
  }

  /**
   * The ping's acceptance test on a normalised message: a HID++ id, the addressed
   * device index or 0xFF/0x00, root feature 0, our function/software-id byte and our tag.
   */
  predicate PingAccepts(devIndex: bv8, msg: seq<bv8>)
  {
    |msg| >= 7 && HidppReportId(msg[0])
    && (msg[1] == devIndex || msg[1] == 0xFF || msg[1] == 0x00)
    && msg[2] == 0x00 && msg[3] == PingFnSw && msg[6] == PingByte
  }

  /** One ping attempt: device index, id-in-payload variant, request report id. */
  datatype PingAttempt = PingAttempt(devIndex: bv8, idInPayload: bool, reportId: bv8)

  /** The device indices the ping tries, in order. */
  const Candidates: seq<bv8> := [0x01, 0x02, 0x03, 0x04, 0x05, 0x06, 0xFF, 0x00]

  /** For each candidate: with the id in the payload, then without; each as 0x10 then 0x11. */
  function AttemptsFor(cands: seq<bv8>): (a: seq<PingAttempt>)
    ensures |a| == 4 * |cands|
  {
    if cands == [] then []
    else
      var c := cands[0];
      [PingAttempt(c, true, 0x10), PingAttempt(c, true, 0x11), PingAttempt(c, false, 0x10), PingAttempt(c, false, 0x11)]
      + AttemptsFor(cands[1..])
  }

  /** Every attempt the ping makes, in the order it makes them. */
  function PingAttempts(): (a: seq<PingAttempt>)
    ensures |a| == 32
  {
    AttemptsFor(Candidates)
  }

  /**
   * Attempt 4q + r addresses candidate q; the first two of its four include the id,
   * and the first and third use report 0x10.
   */
  lemma {:induction false} AttemptsForIndex(cands: seq<bv8>, q: nat, r: nat)
    requires q < |cands| && r < 4
    ensures AttemptsFor(cands)[4 * q + r] ==
      PingAttempt(cands[q], r < 2, if r == 0 || r == 2 then 0x10 else 0x11)
  {
    var c := cands[0];
    var block := [PingAttempt(c, true, 0x10), PingAttempt(c, true, 0x11), PingAttempt(c, false, 0x10), PingAttempt(c, false, 0x11)];
    assert AttemptsFor(cands) == block + AttemptsFor(cands[1..]);
    if q == 0 {
      assert AttemptsFor(cands)[r] == block[r];
    } else {
      AttemptsForIndex(cands[1..], q - 1, r);
      assert AttemptsFor(cands)[4 * q + r] == AttemptsFor(cands[1..])[4 * (q - 1) + r];
      assert cands[1..][q - 1] == cands[q];
    }
  }

  /** The ping request of an attempt: short (7/6 bytes) or long (20/19 bytes). */
  function PingRequest(a: PingAttempt): (r: Report)
    ensures r.reportId == a.reportId && r.reportType == Output && Writable(r)
    ensures a.reportId == 0x10 ==> r.len == (if a.idInPayload then 7 else 6)
    ensures a.reportId != 0x10 ==> r.len == (if a.idInPayload then 20 else 19)
  {
    var body := [a.devIndex, 0x00, PingFnSw, 0x00, 0x00, PingByte];
    var payload := if a.idInPayload then [a.reportId] + body else body;
    var len := if a.reportId == 0x10 then |payload| else |payload| + 13;
    Report(a.reportId, Output, len, payload + Zeros(Capacity - |payload|))
  }

  /** The requests of a run of attempts, in order. */
  function PingRequests(attempts: seq<PingAttempt>): (rs: seq<Report>)
    ensures |rs| == |attempts|
    ensures forall i :: 0 <= i < |attempts| ==> rs[i] == PingRequest(attempts[i])
  {
    if attempts == [] then [] else [PingRequest(attempts[0])] + PingRequests(attempts[1..])
  }

  /**
   * A device that answers by echoing the request with its protocol version in the two
   * bytes after the function byte.
   */
  function PingEcho(a: PingAttempt, major: bv8, minor: bv8): (r: Report)
    ensures r.len == PingRequest(a).len && r.reportId == a.reportId
  {
    var q := PingRequest(a);
    var off := Off(a.idInPayload);
    Report(a.reportId, Input, q.len, q.data[off + 3 := major][off + 4 := minor])
  }

  /** An echo of a request addressed to a non-HID++-id index is accepted and read back. */
  lemma EchoAccepted(a: PingAttempt, major: bv8, minor: bv8)
    requires !HidppReportId(a.devIndex) && HidppReportId(a.reportId)
    ensures var msg := Normalize(PingEcho(a, major, minor));
      PingAccepts(a.devIndex, msg) && msg[4] == major && msg[5] == minor && msg[1] == a.devIndex
  {
    if a.idInPayload {
      EchoAcceptedWithId(a, major, minor);
    } else {
      EchoAcceptedWithoutId(a, major, minor);
    }
  }

  /** EchoAccepted when the request carries its id in the payload: the reply keeps it. */
  lemma EchoAcceptedWithId(a: PingAttempt, major: bv8, minor: bv8)
    requires !HidppReportId(a.devIndex) && HidppReportId(a.reportId) && a.idInPayload
    ensures var msg := Normalize(PingEcho(a, major, minor));
      PingAccepts(a.devIndex, msg) && msg[4] == major && msg[5] == minor && msg[1] == a.devIndex
  {
    var q := PingRequest(a);
    var r := PingEcho(a, major, minor);
    assert q.data[..7] == [a.reportId, a.devIndex, 0x00, PingFnSw, 0x00, 0x00, PingByte];
    assert r.data[..7] == [a.reportId, a.devIndex, 0x00, PingFnSw, major, minor, PingByte];
    assert r.data[0] == r.data[..7][0];
    assert IdInPayload(r);
    var msg := Normalize(r);
    assert msg[..7] == r.data[..7];
    assert msg[0] == a.reportId && msg[1] == a.devIndex && msg[2] == 0x00 && msg[3] == PingFnSw
      && msg[4] == major && msg[5] == minor && msg[6] == PingByte;
  }

  /** EchoAccepted when the request leaves its id out: normalising puts it back in front. */
  lemma EchoAcceptedWithoutId(a: PingAttempt, major: bv8, minor: bv8)
    requires !HidppReportId(a.devIndex) && HidppReportId(a.reportId) && !a.idInPayload
    ensures var msg := Normalize(PingEcho(a, major, minor));
      PingAccepts(a.devIndex, msg) && msg[4] == major && msg[5] == minor && msg[1] == a.devIndex
  {
    var q := PingRequest(a);
    var r := PingEcho(a, major, minor);
    assert q.data[..6] == [a.devIndex, 0x00, PingFnSw, 0x00, 0x00, PingByte];
    assert r.data[..6] == [a.devIndex, 0x00, PingFnSw, major, minor, PingByte];
    assert r.data[0] == r.data[..6][0];
    assert !IdInPayload(r);
    assert Normalize(r)[..7] == [a.reportId] + r.data[..6];
  }

  /** Every attempt's echo is accepted, and yields the version and the addressed index. */
  lemma PingEchoAccepted(i: nat, major: bv8, minor: bv8)
    requires i < |PingAttempts()|
    ensures var a := PingAttempts()[i];
      var msg := Normalize(PingEcho(a, major, minor));
      PingAccepts(a.devIndex, msg) && msg[4] == major && msg[5] == minor && msg[1] == a.devIndex
  {
    var q, r := i / 4, i % 4;
    assert i == 4 * q + r;
    AttemptsForIndex(Candidates, q, r);
    var a := PingAttempts()[i];
    assert a.devIndex == Candidates[q];
    EchoAccepted(a, major, minor);
  }

  /** The framing a successful ping teaches the context. */
  function LearnFraming(ctx: Ctx, reply: Report): (c: Ctx)
    ensures c == ctx.(reportId := reply.reportId, reportLen := reply.len,
                      includeIdInPayload := reply.len >= 1 && reply.data[0] == reply.reportId)
  {
    ctx.(reportId := reply.reportId, reportLen := reply.len,
         includeIdInPayload := reply.len >= 1 && reply.data[0] == reply.reportId)
  }

  /** The report id of root requests: the learned one, 0x12 if none. */
  function RootReportId(ctx: Ctx): bv8
  {
    if ctx.reportId != 0 then ctx.reportId else 0x12
  }

  /** The root GetFeature function byte: function 0 with our software id. */
  function RootFn(ctx: Ctx): bv8
  {
    ctx.swId & 0x0F
  }

  /** `hidpp_root_get_feature`'s request: root index 0, the feature id big-endian, tag 0. */
  function RootRequest(ctx: Ctx, devIndex: bv8, featureId: bv16, includeId: bool): (r: Report)
    ensures r.reportId == RootReportId(ctx) && r.reportType == Output && Writable(r)
    ensures r.len == (if includeId then 7 else 6)
    ensures var off := Off(includeId);
      r.data[off] == devIndex && r.data[off + 1] == 0x00 && r.data[off + 2] == RootFn(ctx)
      && Be16(r.data[off + 3], r.data[off + 4]) == featureId
  {
    var rid := RootReportId(ctx);
    var body := [devIndex, 0x00, RootFn(ctx), Low8(featureId >> 8), Low8(featureId & 0xFF), 0x00];
    Be16Split(featureId);
    var payload := if includeId then [rid] + body else body;
    Report(rid, Output, |payload|, payload + Zeros(Capacity - |payload|))
  }

  /**
   * The root lookup's acceptance test on a normalised message: our device index,
   * root feature, function byte and a HID++ id, and a feature index other than 0x00
   * and 0xFF (which mean "not found").
   */
  predicate RootAccepts(ctx: Ctx, devIndex: bv8, msg: seq<bv8>)
  {
    |msg| >= 7 && msg[1] == devIndex && msg[2] == 0x00 && msg[3] == RootFn(ctx)
    && HidppReportId(msg[0]) && msg[4] != 0x00 && msg[4] != 0xFF
  }

  /** The device's answer to a root request: the request with the feature index and type in place of the id bytes. */
  function RootEcho(ctx: Ctx, devIndex: bv8, featureId: bv16, includeId: bool, featIndex: bv8, featType: bv8): (r: Report)
    ensures r.len == RootRequest(ctx, devIndex, featureId, includeId).len && r.reportId == RootReportId(ctx)
  {
    var q := RootRequest(ctx, devIndex, featureId, includeId);
    var off := Off(includeId);
    Report(q.reportId, Input, q.len, q.data[off + 3 := featIndex][off + 4 := featType])
  }

  /**
   * A found feature echoed in either framing, to a device index that is not itself a
   * HID++ report id, is accepted and read back.
   */
  lemma RootEchoAccepted(ctx: Ctx, devIndex: bv8, featureId: bv16, includeId: bool, featIndex: bv8, featType: bv8)
    requires !HidppReportId(devIndex) && HidppReportId(RootReportId(ctx))
    requires featIndex != 0x00 && featIndex != 0xFF
    ensures var msg := Normalize(RootEcho(ctx, devIndex, featureId, includeId, featIndex, featType));
      RootAccepts(ctx, devIndex, msg) && msg[4] == featIndex && msg[5] == featType
  {
    var q := RootRequest(ctx, devIndex, featureId, includeId);
    var r := RootEcho(ctx, devIndex, featureId, includeId, featIndex, featType);
    var rid := RootReportId(ctx);
    if includeId {
      assert r.data[..7] == [rid, devIndex, 0x00, RootFn(ctx), featIndex, featType, q.data[6]];
      assert IdInPayload(r);
      assert Normalize(r)[..7] == r.data[..7];
    } else {
      assert r.data[..6] == [devIndex, 0x00, RootFn(ctx), featIndex, featType, q.data[5]];
      assert r.data[0] == r.data[..6][0];
      assert !IdInPayload(r);
      assert Normalize(r)[..7] == [rid] + r.data[..6];
    }
  }

  /** A reply naming 0x00 or 0xFF as the feature index means "not found" and is never accepted. */
  lemma RootNotFoundRejected(ctx: Ctx, devIndex: bv8, msg: seq<bv8>)
    requires |msg| >= 7 && (msg[4] == 0x00 || msg[4] == 0xFF)
    ensures !RootAccepts(ctx, devIndex, msg)
  {
  }

  /**
   * `_hidpp_ff_cmd_sync`'s reply filter: long enough for a header, our device index,
   * our Force Feedback index and the command we sent (bit 7 ignored).
   */
  predicate Correlates(ctx: Ctx, command: bv8, r: Report)
  {
    var off := Off(ctx.includeIdInPayload);
    r.len >= off + 3 && off + 3 <= Capacity
    && r.data[off] == ctx.devIndex && r.data[off + 1] == ctx.ffFeatIndex && r.data[off + 2] & 0x7F == command
  }

  /** A device echoing a command's header is recognised as its reply, whatever bit 7 of the function byte. */
  lemma EchoCorrelates(ctx: Ctx, command: bv8, params: seq<bv8>, flag: bool)
    requires command < 0x80
    ensures var q := FfCmd(ctx, command, params);
      var off := Off(ctx.includeIdInPayload);
      var r := q.(reportType := Input, data := q.data[off + 2 := if flag then command | 0x80 else command]);
      Correlates(ctx, command, r)
  {
  }

  /** A reply to another command is never taken for ours, even with bit 7 flipped. */
  lemma OtherCommandRejected(ctx: Ctx, command: bv8, other: bv8, r: Report)
    requires command < 0x80 && other < 0x80 && command != other
    requires Correlates(ctx, other, r)
    ensures !Correlates(ctx, command, r)
  {
  }

  /**
   * Recording a handle the device returned: a non-zero handle replaces the entry of
   * the force's slot nibble; a zero handle changes nothing.
   */
  function StoreHandle(table: seq<bv8>, slot: bv8, returned: bv8): (t: seq<bv8>)
    requires |table| == SlotTableSize
    ensures |t| == SlotTableSize
    ensures returned != 0 ==> t[(slot & 0x0F) as int] == returned
    ensures forall i :: 0 <= i < SlotTableSize && i != (slot & 0x0F) as int ==> t[i] == table[i]
    ensures returned == 0 ==> t == table
  {
    if returned != 0 then table[(slot & 0x0F) as int := returned] else table
  }

  /** Every slot with a known (non-zero) handle in `before` still has one in `after`. */
  predicate KnownKept(before: seq<bv8>, after: seq<bv8>)
  {
    |before| == SlotTableSize && |after| == SlotTableSize
    && forall i :: 0 <= i < SlotTableSize && before[i] != 0 ==> after[i] != 0
  }

  /** A handle once known is never forgotten: a non-zero entry stays non-zero. */
  lemma StoreHandleKeepsKnown(table: seq<bv8>, slot: bv8, returned: bv8)
    requires |table| == SlotTableSize
    ensures KnownKept(table, StoreHandle(table, slot, returned))
  {
  }

  /** Looking up a slot just recorded gives the returned handle, or the old one when 0 came back. */
  lemma HandleForStored(ctx: Ctx, slot: bv8, returned: bv8)
    requires |ctx.slotByForce| == SlotTableSize
    ensures var after := ctx.(slotByForce := StoreHandle(ctx.slotByForce, slot, returned));
      HandleFor(after, slot) == (if returned != 0 then returned else HandleFor(ctx, slot))
  {
  }

  /**
   * `hidpp_build_output` corrected: the header and as many parameters as fit the
   * 64-byte report, in the learned report id. As written it copies every parameter.
   */
  function BuildOutput(ctx: Ctx, devIndex: bv8, featureIndex: bv8, fn: bv8, params: seq<bv8>): (r: Report)
    ensures r.reportId == ctx.reportId && r.reportType == Output && Writable(r)
    ensures r.len == Min(HeaderLen(ctx.includeIdInPayload) + |params|, Capacity)
    ensures ctx.includeIdInPayload ==> r.data[0] == ctx.reportId
    ensures var off := Off(ctx.includeIdInPayload);
      r.data[off] == devIndex && r.data[off + 1] == featureIndex && r.data[off + 2] == fn
    ensures var h := HeaderLen(ctx.includeIdInPayload);
      forall i :: 0 <= i < |params| && h + i < Capacity ==> r.data[h + i] == params[i]
    ensures forall i :: r.len <= i < Capacity ==> r.data[i] == 0
  {
    var h := (if ctx.includeIdInPayload then [ctx.reportId] else []) + [devIndex, featureIndex, fn];
    var k := Min(|params|, Capacity - |h|);
    Report(ctx.reportId, Output, |h| + k, h + params[..k] + Zeros(Capacity - |h| - k))
  }

  /**
   * The bytes `hidpp_build_output` writes from the start of the report's data, as
   * written: the id when it goes in the payload, the device index, feature index and
   * function byte, then every parameter, with no bound.
   */
  function BuildOutputAsWritten(ctx: Ctx, devIndex: bv8, featureIndex: bv8, fn: bv8, params: seq<bv8>): (w: seq<bv8>)
    ensures |w| == HeaderLen(ctx.includeIdInPayload) + |params|
    ensures var h := HeaderLen(ctx.includeIdInPayload);
      forall i :: 0 <= i < |params| ==> w[h + i] == params[i]
  {
    (if ctx.includeIdInPayload then [ctx.reportId] else []) + [devIndex, featureIndex, fn] + params
  }

  /**
   * The corrected builder writes what the source writes wherever the source stays in
   * the buffer: its report holds the same bytes up to its length, and the same length
   * whenever the written bytes fit.
   */
  lemma {:induction false} BuildOutputAgrees(ctx: Ctx, devIndex: bv8, featureIndex: bv8, fn: bv8, params: seq<bv8>)
    ensures var r := BuildOutput(ctx, devIndex, featureIndex, fn, params);
      var w := BuildOutputAsWritten(ctx, devIndex, featureIndex, fn, params);
      r.len <= |w| && r.data[..r.len] == w[..r.len]
      && (|w| <= Capacity ==> r.len == |w|)
  {
    var r := BuildOutput(ctx, devIndex, featureIndex, fn, params);
    var w := BuildOutputAsWritten(ctx, devIndex, featureIndex, fn, params);
    var h := (if ctx.includeIdInPayload then [ctx.reportId] else []) + [devIndex, featureIndex, fn];
    var k := Min(|params|, Capacity - |h|);
    assert r.data == h + params[..k] + Zeros(Capacity - |h| - k);
    assert w == h + params;
    assert r.data[..r.len] == h + params[..k];
    assert w[..r.len] == h + params[..k];
  }

  /**
   * As written, a header with the id in the payload and 61 parameters, or without it
   * and 62, writes past the 64-byte buffer; the corrected builder stops at its end.
   */
  lemma BuildOutputOverrun(ctx: Ctx, devIndex: bv8, featureIndex: bv8, fn: bv8, params: seq<bv8>)
    requires |params| == (if ctx.includeIdInPayload then 61 else 62)
    ensures |BuildOutputAsWritten(ctx, devIndex, featureIndex, fn, params)| == Capacity + 1
    ensures BuildOutput(ctx, devIndex, featureIndex, fn, params).len == Capacity
  {
  }
}
