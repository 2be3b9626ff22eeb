/**
 * The IOKit HID device wrapper of hid/device.hxx. The platform is not modelled; it is
 * replaced by three pieces of state the methods consume or extend:
 *   - `outcomes`: the results the platform will give the next open/close/set-report
 *     calls, in order (once exhausted every call succeeds);
 *   - `incoming`: what each 10 ms run-loop slice brings, `Some` delivery or nothing
 *     (once exhausted no more reports arrive);
 *   - `log`: every platform call made, with the result it had.
 * Time is abstracted: a run-loop slice that delivers a report returns at once and
 * uses no time; a slice that delivers nothing uses its full 10 ms.
 */
module Device {
  import opened Bytes
  import opened Reports

  /**
   * `make_device_id`: product id in the high 16 bits, vendor id in the low 16 bits.
   * On numbers, `& 0xFFFF` is `% 0x10000`, the shift by 16 is `* 0x10000`, and the
   * `|` of the two disjoint halves is their sum.
   */
  function MakeDeviceId(product: U32, vendor: U32): (id: U32)
    ensures id / 0x10000 == product % 0x10000
    ensures id % 0x10000 == vendor % 0x10000
  {
    (product % 0x10000) * 0x10000 + vendor % 0x10000
  }

  /**
   * One input report as the platform hands it to the callback: kind, 32-bit report id,
   * the buffer (None when the platform passes none) and the signed length.
   */
  datatype Delivery = Delivery(reportType: ReportType, reportId: bv32, bytes: Option<Frame>, length: int)

  /** A platform call made by the wrapper, with its result. */
  datatype IoCall = IoOpen(ok: bool) | IoClose(ok: bool) | IoSetReport(report: Report, ok: bool)

  /** The reports handed to the platform, in order. */
  function Requests(calls: seq<IoCall>): (rs: seq<Report>)
    ensures |rs| <= |calls|
    ensures (forall i :: 0 <= i < |calls| ==> calls[i].IoSetReport?) ==>
      |rs| == |calls| && forall i :: 0 <= i < |calls| ==> rs[i] == calls[i].report
    ensures (forall i :: 0 <= i < |calls| ==> !calls[i].IoSetReport?) ==> rs == []
  {
    if calls == [] then [] else RequestOf(calls[0]) + Requests(calls[1..])
  }

  /** The report a single call hands to the platform, if any. */
  function RequestOf(c: IoCall): (rs: seq<Report>)
    ensures |rs| <= 1
  {
    if c.IoSetReport? then [c.report] else []
  }

  lemma {:induction false} RequestsAppend(a: seq<IoCall>, b: seq<IoCall>)
    ensures Requests(a + b) == Requests(a) + Requests(b)
  {
    if a == [] {
      assert a + b == b;
    } else {
      var h := RequestOf(a[0]);
      assert (a + b)[0] == a[0];
      assert (a + b)[1..] == a[1..] + b;
      calc {
        Requests(a + b);
        h + Requests(a[1..] + b);
        { RequestsAppend(a[1..], b); }
        h + (Requests(a[1..]) + Requests(b));
        (h + Requests(a[1..])) + Requests(b);
      }
    }
  }

  /** Every call in the stretch succeeded. */
  predicate NoFailure(calls: seq<IoCall>)
  {
    forall i :: 0 <= i < |calls| ==> calls[i].ok
  }

  /** The callback's clamp of the reported length into 0..64. */
  function ClampLength(length: int): (n: nat)
    ensures n <= Capacity
    ensures 0 <= length <= Capacity ==> n == length
    ensures length < 0 ==> n == 0
    ensures length > Capacity ==> n == Capacity
  {
    if length < 0 then 0 else if length > Capacity then Capacity else length
  }

  /** The last-input buffer after the callback: the first n delivered bytes copied over it. */
  function Captured(lastIn: seq<bv8>, d: Delivery): (c: seq<bv8>)
    requires |lastIn| == Capacity
    ensures |c| == Capacity
    ensures forall i :: ClampLength(d.length) <= i < Capacity ==> c[i] == lastIn[i]
    ensures d.bytes.Some? ==> forall i :: 0 <= i < ClampLength(d.length) ==> c[i] == d.bytes.value[i]
    ensures d.bytes.None? ==> c == lastIn
  {
    var n := ClampLength(d.length);
    if n > 0 && d.bytes.Some? then d.bytes.value[..n] + lastIn[n..] else lastIn
  }

  /** `(uint8_t)reportID`. */
  function Low8of32(x: bv32): (b: bv8)
    ensures b as bv32 == x & 0xFF
  {
    (x & 0xFF) as bv8
  }

  /**
   * `_consume_last_input`: the caller's report takes the last input's kind, id and
   * length, and its first `len` bytes; its later bytes are left as they were.
   */
  function Consumed(out: Report, id: bv8, t: ReportType, len: nat, lastIn: seq<bv8>): (r: Report)
    requires len <= Capacity && |lastIn| == Capacity
    ensures r.reportId == id && r.reportType == t && r.len == len
    ensures forall i :: 0 <= i < len ==> r.data[i] == lastIn[i]
    ensures forall i :: len <= i < Capacity ==> r.data[i] == out.data[i]
  {
    Report(id, t, len, lastIn[..len] + out.data[len..])
  }

  /** What a read returns when delivery `d` is the report consumed. */
  function Delivered(out: Report, lastIn: seq<bv8>, d: Delivery): (r: Report)
    requires |lastIn| == Capacity
    ensures r.reportId == Low8of32(d.reportId) && r.reportType == d.reportType
    ensures r.len == ClampLength(d.length)
    ensures d.bytes.Some? ==> forall i :: 0 <= i < r.len ==> r.data[i] == d.bytes.value[i]
  {
    Consumed(out, Low8of32(d.reportId), d.reportType, ClampLength(d.length), Captured(lastIn, d))
  }

  /** What the callback has captured: kind, id, clamped length and the 64-byte buffer. */
  datatype Capture = Capture(kind: ReportType, id: bv8, len: nat, bytes: seq<bv8>)

  /** The capture after the callback has run for delivery `d`. */
  function AfterCallback(c: Capture, d: Delivery): (a: Capture)
    requires |c.bytes| == Capacity
    ensures a.kind == d.reportType && a.id == Low8of32(d.reportId)
    ensures a.len == ClampLength(d.length) && a.bytes == Captured(c.bytes, d)
  {
    Capture(d.reportType, Low8of32(d.reportId), ClampLength(d.length), Captured(c.bytes, d))
  }

  /**
   * What a reader of the device sees, as one value: whether a captured report is
   * pending, the capture, and the run-loop slices still to come.
   */
  datatype Inbox = Inbox(ready: bool, cap: Capture, rest: seq<Option<Delivery>>)
  {
    predicate Valid()
    {
      |cap.bytes| == Capacity && cap.len <= Capacity
    }
  }

  /**
   * One `read_input(out, t)` on a live device, as values: a pending report is consumed
   * at once; otherwise the first delivery within `budget` empty slices is consumed, or
   * the budget's slices are used up and nothing is returned. Nothing is pending after.
   */
  ghost predicate ReadGave(out: Report, s: Inbox, budget: nat, got: bool, res: Report, s': Inbox)
    requires s.Valid()
  {
    !s'.ready
    && if s.ready then
      got && s'.cap == s.cap && s'.rest == s.rest
      && res == Consumed(out, s.cap.id, s.cap.kind, s.cap.len, s.cap.bytes)
    else match FirstDelivery(s.rest, budget)
      case None =>
        !got && res == out && s'.cap == s.cap && s'.rest == s.rest[Min(budget, |s.rest|)..]
      case Some(k) =>
        got && s'.rest == s.rest[k + 1..]
        && res == Delivered(out, s.cap.bytes, s.rest[k].value)
        && s'.cap == AfterCallback(s.cap, s.rest[k].value)
  }

  /** Number of 10 ms slices `read_input` runs while the deadline lies ahead: ceil(t / 10). */
  function SliceBudget(timeoutMs: int): (b: nat)
    ensures timeoutMs <= 0 ==> b == 0
    ensures timeoutMs > 0 ==> 10 * (b - 1) < timeoutMs <= 10 * b
  {
    if timeoutMs <= 0 then 0 else (timeoutMs + 9) / 10
  }

  /**
   * The index of the slice that delivers the report `read_input` returns, when one
   * arrives before `budget` empty slices have passed.
   */
  function FirstDelivery(incoming: seq<Option<Delivery>>, budget: nat): (k: Option<nat>)
    ensures k.Some? ==> k.value < |incoming| && incoming[k.value].Some?
    ensures k.Some? ==> forall j :: 0 <= j < k.value ==> incoming[j].None?
    ensures k.Some? ==> k.value < budget
    ensures k.None? ==> forall j :: 0 <= j < Min(budget, |incoming|) ==> incoming[j].None?
    decreases budget
  {
    if budget == 0 || incoming == [] then None
    else if incoming[0].Some? then Some(0)
    else
      match FirstDelivery(incoming[1..], budget - 1)
      case None => None
      case Some(j) => Some(j + 1)
  }

  /** `hid_device`: a handle (0 for null) plus the callback and scheduling state. */
  class HidDevice {
    const handle: nat
    const vendorId: U32
    const productId: U32
    const deviceId: U32
    const usagePage: U32
    const usage: U32

    var isOpen: bool
    var inputCbRegistered: bool
    /** The device is scheduled on a run loop. */
    var scheduled: bool
    var inputReady: bool
    /** The last input report captured by the callback. */
    const lastInput: array<bv8>
    var lastInputLen: nat
    var lastInputId: bv8
    var lastInputType: ReportType

    var outcomes: seq<bool>
    var incoming: seq<Option<Delivery>>
    var log: seq<IoCall>

    ghost predicate Valid()
      reads this`lastInputLen
    {
      lastInput.Length == Capacity && lastInputLen <= Capacity
    }

    /** The captured input, as one value. */
    ghost function Latest(): Capture
      reads this`lastInputType, this`lastInputId, this`lastInputLen, lastInput
    {
      Capture(lastInputType, lastInputId, lastInputLen, lastInput[..])
    }

    /** The pending flag, the capture and the slices to come. */
    ghost function Inbound(): (i: Inbox)
      reads this`inputReady, this`incoming, this`lastInputType, this`lastInputId, this`lastInputLen, lastInput
      ensures Valid() ==> i.Valid()
    {
      Inbox(inputReady, Latest(), incoming)
    }

    /** Reports still to be read: those the run loop will deliver, plus a pending one. */
    function Backlog(): nat
      reads this
    {
      |incoming| + (if inputReady then 1 else 0)
    }

    /** The result the platform gives its next call. */
    function NextOk(): bool
      reads this
    {
      outcomes == [] || outcomes[0]
    }

    function LaterOutcomes(): seq<bool>
      reads this
    {
      if outcomes == [] then [] else outcomes[1..]
    }

    constructor (handle: nat, vendorId: U32, productId: U32, usagePage: U32, usage: U32,
                 outcomes: seq<bool>, incoming: seq<Option<Delivery>>)
      ensures Valid() && fresh(lastInput)
      ensures this.handle == handle && this.vendorId == vendorId && this.productId == productId
      ensures this.deviceId == MakeDeviceId(productId, vendorId)
      ensures this.usagePage == usagePage && this.usage == usage
      ensures !isOpen && !inputCbRegistered && !scheduled && !inputReady
      ensures lastInputLen == 0 && lastInputId == 0 && lastInputType == Input
      ensures lastInput[..] == Zeros(Capacity)
      ensures this.outcomes == outcomes && this.incoming == incoming && log == []
    {
      this.handle := handle;
      this.vendorId := vendorId;
      this.productId := productId;
      this.deviceId := MakeDeviceId(productId, vendorId);
      this.usagePage := usagePage;
      this.usage := usage;
      isOpen := false;
      inputCbRegistered := false;
      scheduled := false;
      inputReady := false;
      lastInput := new bv8[Capacity](_ => 0);
      lastInputLen := 0;
      lastInputId := 0;
      lastInputType := Input;
      this.outcomes := outcomes;
      this.incoming := incoming;
      log := [];
    }

    /** One platform call: its result is the next scripted outcome. */
    method PlatformCall() returns (ok: bool)
      modifies this`outcomes
      ensures ok == old(NextOk()) && outcomes == old(LaterOutcomes())
    {
      ok := NextOk();
      outcomes := LaterOutcomes();
    }

    /** `enable_input_reports`: (re)register the callback and schedule on the current run loop. */
    method EnableInputReports() returns (ok: bool)
      modifies this`inputCbRegistered, this`scheduled
      ensures ok <==> handle != 0
      ensures ok ==> inputCbRegistered && scheduled
      ensures !ok ==> inputCbRegistered == old(inputCbRegistered) && scheduled == old(scheduled)
    {
      if handle == 0 {
        return false;
      }
      inputCbRegistered := true;
      scheduled := true;
      return true;
    }

    /** `open`: idempotent; a successful platform open also enables input reports. */
    method Open() returns (ok: bool)
      modifies this`isOpen, this`outcomes, this`log, this`inputCbRegistered, this`scheduled
      ensures handle == 0 ==> !ok && unchanged(this)
      ensures handle != 0 && old(isOpen) ==> ok && unchanged(this)
      ensures handle != 0 && !old(isOpen) ==>
        ok == old(NextOk()) && outcomes == old(LaterOutcomes()) && log == old(log) + [IoOpen(ok)]
        && isOpen == ok
        && (ok ==> inputCbRegistered && scheduled)
        && (!ok ==> inputCbRegistered == old(inputCbRegistered) && scheduled == old(scheduled))
      ensures ok <==> handle != 0 && isOpen
    {
      if handle == 0 {
        return false;
      }
      if isOpen {
        return true;
      }
      ok := PlatformCall();
      log := log + [IoOpen(ok)];
      if ok {
        isOpen := true;
        var _ := EnableInputReports();
      }
    }

    /** `close`: idempotent; unschedules a registered callback and drops a pending input. */
    method Close() returns (ok: bool)
      modifies this`isOpen, this`outcomes, this`log, this`scheduled, this`inputReady
      ensures handle == 0 ==> !ok && unchanged(this)
      ensures handle != 0 && !old(isOpen) ==> ok && unchanged(this)
      ensures handle != 0 && old(isOpen) ==>
        ok == old(NextOk()) && outcomes == old(LaterOutcomes()) && log == old(log) + [IoClose(ok)]
        && isOpen == !ok
        && (old(inputCbRegistered && scheduled) ==> !scheduled && !inputReady)
        && (!old(inputCbRegistered && scheduled) ==> scheduled == old(scheduled) && inputReady == old(inputReady))
      ensures handle != 0 ==> ok == !isOpen
    {
      if handle == 0 {
        return false;
      }
      if !isOpen {
        return true;
      }
      if inputCbRegistered && scheduled {
        scheduled := false;
        inputReady := false;
      }
      ok := PlatformCall();
      log := log + [IoClose(ok)];
      if ok {
        isOpen := false;
      }
    }

    /**
     * `write`: the `write_report` guard, then the platform's set-report call. A null
     * device never reaches the platform.
     */
    method Write(r: Report) returns (ok: bool)
      modifies this`outcomes, this`log
      ensures !Writable(r) || handle == 0 ==> !ok && unchanged(this)
      ensures Writable(r) && handle != 0 ==>
        ok == old(NextOk()) && outcomes == old(LaterOutcomes()) && log == old(log) + [IoSetReport(r, ok)]
      ensures ok ==> Writable(r)
    {
      if r.len == 0 || r.len > Capacity || handle == 0 {
        return false;
      }
      ok := PlatformCall();
      log := log + [IoSetReport(r, ok)];
    }

    /** `_input_report_callback`: record kind, id and clamped length, copy the bytes, mark ready. */
    method InputReportCallback(d: Delivery)
      requires Valid()
      modifies this`lastInputType, this`lastInputId, this`lastInputLen, this`inputReady, lastInput
      ensures Valid() && inputReady && Latest() == AfterCallback(old(Latest()), d)
    {
      ghost var before := Latest();
      var n := ClampLength(d.length);
      if n > 0 && d.bytes.Some? {
        var src := d.bytes.value;
        for i := 0 to n
          invariant forall j :: 0 <= j < i ==> lastInput[j] == src[j]
          invariant forall j :: i <= j < Capacity ==> lastInput[j] == before.bytes[j]
        {
          lastInput[i] := src[i];
        }
      }
      assert lastInput[..] == Captured(before.bytes, d);
      lastInputType := d.reportType;
      lastInputId := Low8of32(d.reportId);
      lastInputLen := n;
      inputReady := true;
    }

    /** `_consume_last_input`: copy the last input into the caller's report, clear the ready flag. */
    method ConsumeLastInput(out: Report) returns (res: Report)
      requires Valid()
      modifies this`inputReady
      ensures !inputReady
      ensures res == Consumed(out, lastInputId, lastInputType, lastInputLen, lastInput[..])
    {
      var data := out.data;
      for i := 0 to lastInputLen
        invariant |data| == Capacity
        invariant data == lastInput[..i] + out.data[i..]
      {
        data := data[i := lastInput[i]];
        assert data == lastInput[..i + 1] + out.data[i + 1..];
      }
      res := Report(lastInputId, lastInputType, lastInputLen, data);
      inputReady := false;
    }

    /**
     * `CFRunLoopRunInMode(mode, 0.01, true)`: one slice. Returns whether a report was
     * delivered (the callback has then run).
     */
    method RunLoopSlice() returns (delivered: bool)
      requires Valid()
      modifies this`incoming, this`lastInputType, this`lastInputId, this`lastInputLen, this`inputReady, lastInput
      ensures Valid()
      ensures SliceRan(old(incoming), old(inputReady), old(Latest()), delivered, incoming, inputReady, Latest())
    {
      if incoming == [] {
        return false;
      }
      var slice := incoming[0];
      incoming := incoming[1..];
      if slice.Some? {
        InputReportCallback(slice.value);
        return true;
      }
      return false;
    }

    /**
     * `read_input`: wait up to `timeoutMs` for an input report. A pending report is
     * returned at once; otherwise the run loop is pumped slice by slice and the first
     * report delivered before the deadline is returned.
     */
    method ReadInput(out: Report, timeoutMs: int) returns (got: bool, res: Report)
      requires Valid()
      modifies this`inputCbRegistered, this`scheduled, this`incoming, this`lastInputType,
               this`lastInputId, this`lastInputLen, this`inputReady, lastInput
      ensures Valid()
      ensures handle == 0 ==> !got && res == out && unchanged(this) && unchanged(lastInput)
      ensures handle != 0 ==> inputCbRegistered && scheduled && !inputReady
      ensures handle != 0 ==> ReadGave(out, old(Inbound()), SliceBudget(timeoutMs), got, res, Inbound())
      ensures Backlog() <= old(Backlog())
      ensures got ==> Backlog() < old(Backlog()) && res.len <= Capacity
    {
      if handle == 0 {
        return false, out;
      }
      var enabled := EnableInputReports();
      if inputReady {
        res := ConsumeLastInput(out);
        return true, res;
      }
      got, res := Poll(out, SliceBudget(timeoutMs));
    }

    /**
     * The pumping loop of `read_input`, entered with nothing pending: `budget` is the
     * number of empty slices that fit before the deadline.
     */
    method Poll(out: Report, budget: nat) returns (got: bool, res: Report)
      requires Valid() && !inputReady
      modifies this`incoming, this`lastInputType, this`lastInputId, this`lastInputLen, this`inputReady, lastInput
      ensures Valid() && !inputReady
      ensures FirstDelivery(old(incoming), budget).None? ==>
        !got && res == out
        && incoming == old(incoming)[Min(budget, |old(incoming)|)..]
        && Latest() == old(Latest())
      ensures FirstDelivery(old(incoming), budget).Some? ==>
        var k := FirstDelivery(old(incoming), budget).value;
        var d := old(incoming)[k].value;
        got && incoming == old(incoming)[k + 1..]
        && res == Delivered(out, old(lastInput[..]), d)
        && Latest() == AfterCallback(old(Latest()), d)
    {
      ghost var start := incoming;
      ghost var startInput := Latest();
      ghost var skipped: nat := 0;
      var remaining := budget;
      while remaining > 0 && !inputReady
        invariant Valid()
        invariant Pumping(start, budget, startInput, skipped, remaining, incoming, inputReady, Latest())
        decreases remaining, |incoming|
      {
        ghost var before := incoming;
        ghost var now := Latest();
        var delivered := RunLoopSlice();
        PumpingStep(start, budget, startInput, skipped, remaining, before, now, delivered, incoming, inputReady, Latest());
        skipped := if before != [] then skipped + 1 else skipped;
        remaining := if delivered then remaining else remaining - 1;
      }
      if inputReady {
        res := ConsumeLastInput(out);
        return true, res;
      }
      TrackingDone(start, budget, skipped, remaining);
      return false, out;
    }

    /** `operator==`: same platform handle, usage page and usage. */
    predicate SameDevice(other: HidDevice)
    {
      handle == other.handle && usagePage == other.usagePage && usage == other.usage
    }
  }

  /**
   * Pumping has consumed `skipped` slices of the script `start` and `remaining` empty
   * slices are left: the first delivery within the whole budget is the first one
   * within what is left, and with none left the script is cut where the budget ends.
   */
  ghost predicate Tracking(start: seq<Option<Delivery>>, budget: nat, skipped: nat, remaining: nat)
    requires skipped <= |start|
  {
    var rest := start[skipped..];
    FirstDelivery(start, budget) == Shifted(FirstDelivery(rest, remaining), skipped)
    && (FirstDelivery(rest, remaining).None? ==>
          start[Min(budget, |start|)..] == rest[Min(remaining, |rest|)..])
  }

  /** One slice of pumping keeps `Tracking`, or finds the first delivery. */
  lemma TrackingStep(start: seq<Option<Delivery>>, budget: nat, skipped: nat, remaining: nat)
    requires skipped <= |start| && 0 < remaining && Tracking(start, budget, skipped, remaining)
    ensures skipped == |start| ==> Tracking(start, budget, skipped, remaining - 1)
    ensures skipped < |start| && start[skipped].Some? ==> FirstDelivery(start, budget) == Some(skipped)
    ensures skipped < |start| && start[skipped].None? ==> Tracking(start, budget, skipped + 1, remaining - 1)
  {
    if skipped == |start| {
      assert start[skipped..] == [];
    } else if start[skipped].Some? {
      TrackingFound(start, budget, skipped, remaining);
    } else {
      TrackingSkip(start, budget, skipped, remaining);
    }
  }

  lemma TrackingFound(start: seq<Option<Delivery>>, budget: nat, skipped: nat, remaining: nat)
    requires skipped < |start| && 0 < remaining && Tracking(start, budget, skipped, remaining)
    requires start[skipped].Some?
    ensures FirstDelivery(start, budget) == Some(skipped)
  {
    var rest := start[skipped..];
    FirstDeliveryStep(rest, remaining);
  }

  lemma TrackingSkip(start: seq<Option<Delivery>>, budget: nat, skipped: nat, remaining: nat)
    requires skipped < |start| && 0 < remaining && Tracking(start, budget, skipped, remaining)
    requires start[skipped].None?
    ensures Tracking(start, budget, skipped + 1, remaining - 1)
  {
    var rest := start[skipped..];
    FirstDeliveryStep(rest, remaining);
    assert rest[1..] == start[skipped + 1..];
    assert rest[Min(remaining, |rest|)..] == rest[1..][Min(remaining - 1, |rest| - 1)..];
  }

  /**
   * The state of `read_input`'s pumping loop, as values: `skipped` slices of the script
   * `start` consumed, `remaining` empty slices left; with nothing pending the capture is
   * as it was, and once the callback has run it holds the first delivery of the budget.
   */
  ghost predicate Pumping(start: seq<Option<Delivery>>, budget: nat, startInput: Capture, skipped: nat,
                          remaining: nat, rest: seq<Option<Delivery>>, ready: bool, now: Capture)
  {
    skipped <= |start| && rest == start[skipped..] && |startInput.bytes| == Capacity
    && (!ready ==> now == startInput && Tracking(start, budget, skipped, remaining))
    && (ready ==>
          0 < skipped && FirstDelivery(start, budget) == Some(skipped - 1)
          && now == AfterCallback(startInput, start[skipped - 1].value))
  }

  /**
   * One run-loop slice: with nothing scripted nothing happens; otherwise the first
   * scripted slice is used up, and a delivery runs the callback.
   */
  ghost predicate SliceRan(rest: seq<Option<Delivery>>, ready: bool, now: Capture, delivered: bool,
                           rest': seq<Option<Delivery>>, ready': bool, now': Capture)
  {
    |now.bytes| == Capacity
    && (rest == [] ==> !delivered && rest' == [] && ready' == ready && now' == now)
    && (rest != [] ==> rest' == rest[1..] && delivered == rest[0].Some?)
    && (rest != [] && rest[0].None? ==> ready' == ready && now' == now)
    && (rest != [] && rest[0].Some? ==> ready' && now' == AfterCallback(now, rest[0].value))
  }

  /** One run-loop slice keeps `Pumping`. */
  lemma PumpingStep(start: seq<Option<Delivery>>, budget: nat, startInput: Capture, skipped: nat,
                    remaining: nat, rest: seq<Option<Delivery>>, now: Capture,
                    delivered: bool, rest': seq<Option<Delivery>>, ready': bool, now': Capture)
    requires Pumping(start, budget, startInput, skipped, remaining, rest, false, now) && 0 < remaining
    requires SliceRan(rest, false, now, delivered, rest', ready', now')
    ensures Pumping(start, budget, startInput, if rest != [] then skipped + 1 else skipped,
                    if delivered then remaining else remaining - 1, rest', ready', now')
  {
    TrackingStep(start, budget, skipped, remaining);
    if rest != [] {
      assert rest' == start[skipped + 1..];
      assert rest[0] == start[skipped];
    }
  }

  /** With the budget spent and nothing delivered, the script is cut where the budget ends. */
  lemma TrackingDone(start: seq<Option<Delivery>>, budget: nat, skipped: nat, remaining: nat)
    requires skipped <= |start| && Tracking(start, budget, skipped, remaining)
    requires remaining == 0
    ensures FirstDelivery(start, budget).None?
    ensures start[Min(budget, |start|)..] == start[skipped..]
  {
  }

  /** Unfolding `FirstDelivery` by one slice. */
  lemma FirstDeliveryStep(incoming: seq<Option<Delivery>>, budget: nat)
    requires budget > 0 && incoming != []
    ensures incoming[0].Some? ==> FirstDelivery(incoming, budget) == Some(0)
    ensures incoming[0].None? ==>
      FirstDelivery(incoming, budget) == Shifted(FirstDelivery(incoming[1..], budget - 1), 1)
  {
  }

  /** The position of a delivery within a longer script. */
  function Shifted(k: Option<nat>, offset: nat): (s: Option<nat>)
    ensures k.None? <==> s.None?
    ensures k.Some? ==> s.value == k.value + offset
  {
    match k
    case None => None
    case Some(j) => Some(j + offset)
  }

  /** Device equality is an equivalence that ignores vendor and product ids. */
  lemma SameDeviceEquivalence(a: HidDevice, b: HidDevice, c: HidDevice)
    ensures a.SameDevice(a)
    ensures a.SameDevice(b) ==> b.SameDevice(a)
    ensures a.SameDevice(b) && b.SameDevice(c) ==> a.SameDevice(c)
  {
  }
}
