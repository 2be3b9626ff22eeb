/**
 * The HID++ exchanges of joy/protocol.hxx that talk to the device: the ping that
 * discovers the device index and report framing, the root GetFeature lookup, init,
 * and the send-and-wait command path with the slot-handle table. The process-wide
 * `hidpp_ctx()` record is the `HidppContext` object every exchange reads and updates.
 */
module Session {
  import opened Bytes
  import opened Reports
  import opened Forces
  import opened Device
  import opened Hidpp
  import Protocol

  /** The context invariant: a full slot table, and a usable feature index once ready. */
  predicate WellFormed(ctx: Ctx)
  {
    |ctx.slotByForce| == SlotTableSize
    && (ctx.ffReady ==> ctx.ffFeatIndex != 0x00 && ctx.ffFeatIndex != 0xFF)
  }

  /** `hidpp_ctx()`: the one HID++ context of the process. */
  class HidppContext {
    var state: Ctx

    constructor ()
      ensures state == DefaultCtx() && WellFormed(state)
    {
      state := DefaultCtx();
    }
  }

  /** The reports handed to the platform since `before` was the log. */
  function SentSince(before: seq<IoCall>, now: seq<IoCall>): seq<Report>
    requires before <= now
  {
    Requests(now[|before|..])
  }

  lemma SentSinceExtend(before: seq<IoCall>, mid: seq<IoCall>, now: seq<IoCall>)
    requires before <= mid <= now
    ensures SentSince(before, now) == SentSince(before, mid) + SentSince(mid, now)
  {
    assert now[|before|..] == mid[|before|..] + now[|mid|..];
    RequestsAppend(mid[|before|..], now[|mid|..]);
  }

  lemma SentSinceNothing(log: seq<IoCall>)
    ensures SentSince(log, log) == []
  {
  }

  // ---------------------------------------------------------------- waiting

  /** The acceptance test a wait applies to each report it reads. */
  datatype Filter =
    | PingReply(devIndex: bv8)              // the ping's checks on the normalised reply
    | RootReply(ctx: Ctx, devIndex: bv8)    // the root lookup's checks on the normalised reply
    | CommandReply(ctx: Ctx, command: bv8)  // `_hidpp_ff_cmd_sync`'s correlation

  predicate Accepts(f: Filter, r: Report)
  {
    r.len <= Capacity
    && match f
       case PingReply(i) => PingAccepts(i, Normalize(r))
       case RootReply(c, i) => RootAccepts(c, i, Normalize(r))
       case CommandReply(c, command) => Correlates(c, command, r)
  }

  /** How a wait ends: the report it accepted, if any, and what is left to read. */
  datatype Waited = Waited(reply: Option<Report>, after: Inbox)

  /** The empty slices a read may use after a report was skipped. */
  function Renewed(left: nat, renew: Option<nat>): nat
  {
    if renew.Some? then renew.value else left
  }

  /**
   * The reference wait: read the reports in the order they come and answer the first
   * one `f` accepts, while `left` empty slices remain before the deadline. Skipping a
   * report uses no time. With `renew == None` one deadline covers every read (the 10 ms
   * reads of the ping and root waits); with `Some(b)` each read waits up to `b` empty
   * slices of its own (`_hidpp_ff_cmd_sync`).
   */
  ghost function Await(f: Filter, s: Inbox, left: nat, renew: Option<nat>): (w: Waited)
    requires s.Valid()
    ensures w.after.Valid()
    ensures w.reply.Some? ==> Accepts(f, w.reply.value) && !w.after.ready
    decreases |s.rest|, if s.ready then 1 else 0
  {
    if renew.None? && left == 0 then Waited(None, s)
    else if s.ready then
      var r := Consumed(DefaultReport(), s.cap.id, s.cap.kind, s.cap.len, s.cap.bytes);
      var s' := s.(ready := false);
      if Accepts(f, r) then Waited(Some(r), s') else Await(f, s', Renewed(left, renew), renew)
    else if left == 0 || s.rest == [] then Waited(None, s)
    else if s.rest[0].None? then Await(f, s.(rest := s.rest[1..]), left - 1, renew)
    else
      var d := s.rest[0].value;
      var r := Delivered(DefaultReport(), s.cap.bytes, d);
      var s' := Inbox(false, AfterCallback(s.cap, d), s.rest[1..]);
      if Accepts(f, r) then Waited(Some(r), s') else Await(f, s', Renewed(left, renew), renew)
  }

  /** Empty slices before any report cost the wait one slice each. */
  lemma {:induction false} AwaitSkips(f: Filter, s: Inbox, left: nat, renew: Option<nat>, k: nat)
    requires s.Valid() && !s.ready && k <= |s.rest| && k <= left
    requires forall j :: 0 <= j < k ==> s.rest[j].None?
    ensures Await(f, s, left, renew) == Await(f, Inbox(false, s.cap, s.rest[k..]), left - k, renew)
    decreases k
  {
    if k == 0 {
      assert Inbox(false, s.cap, s.rest[0..]) == s;
    } else {
      var s1 := Inbox(false, s.cap, s.rest[1..]);
      assert s.rest[0].None?;
      AwaitNext(f, s, left, renew);
      assert forall j :: 0 <= j < k - 1 ==> s1.rest[j] == s.rest[j + 1];
      AwaitSkips(f, s1, left - 1, renew, k - 1);
      assert Inbox(false, s1.cap, s1.rest[k - 1..]) == Inbox(false, s.cap, s.rest[k..]);
    }
  }

  /** One 10 ms read of the ping and root waits is one step of the reference wait. */
  lemma SharedDeadlineStep(f: Filter, s: Inbox, left: nat, got: bool, r: Report, s': Inbox)
    requires s.Valid() && 0 < left && ReadGave(DefaultReport(), s, SliceBudget(10), got, r, s')
    ensures s'.Valid()
    ensures Await(f, s, left, None)
      == if got && Accepts(f, r) then Waited(Some(r), s') else Await(f, s', if got then left else left - 1, None)
  {
    assert SliceBudget(10) == 1;
    if s.ready {
      assert s' == s.(ready := false);
    } else if s.rest == [] {
      assert s' == s;
    } else if s.rest[0].None? {
      FirstDeliveryStep(s.rest, 1);
      assert s' == s.(rest := s.rest[1..]);
    } else {
      FirstDeliveryStep(s.rest, 1);
      assert s' == Inbox(false, AfterCallback(s.cap, s.rest[0].value), s.rest[1..]);
    }
  }

  /** One read of `_hidpp_ff_cmd_sync`, with a budget `b` of its own, is one step of the reference wait. */
  lemma RenewedDeadlineStep(f: Filter, s: Inbox, b: nat, got: bool, r: Report, s': Inbox)
    requires s.Valid() && ReadGave(DefaultReport(), s, b, got, r, s')
    ensures s'.Valid()
    ensures got && Accepts(f, r) ==> Await(f, s, b, Some(b)) == Waited(Some(r), s')
    ensures got && !Accepts(f, r) ==> Await(f, s, b, Some(b)) == Await(f, s', b, Some(b))
    ensures !got ==> Await(f, s, b, Some(b)) == Waited(None, s')
  {
    if !s.ready {
      match FirstDelivery(s.rest, b)
      case None =>
        var m := Min(b, |s.rest|);
        AwaitSkips(f, s, b, Some(b), m);
        assert s.(rest := s.rest[m..]) == s';
      case Some(k) =>
        AwaitSkips(f, s, b, Some(b), k);
        assert s.rest[k..][1..] == s.rest[k + 1..];
    }
  }

  /**
   * The wait of the ping and of the root lookup after a request went out: 10 ms reads
   * until `timeoutMs` of empty reads have passed; a report the filter rejects is
   * skipped without using time. It finds a reply exactly when the reference wait over
   * the device's inbox does, finds the same one, and leaves the inbox where it does.
   */
  method AwaitReply(dev: HidDevice, f: Filter, timeoutMs: int) returns (found: bool, reply: Report)
    requires dev.Valid() && dev.handle != 0
    modifies dev, dev.lastInput
    ensures dev.Valid() && dev.log == old(dev.log) && dev.outcomes == old(dev.outcomes) && dev.isOpen == old(dev.isOpen)
    ensures var w := Await(f, old(dev.Inbound()), SliceBudget(timeoutMs), None);
      found == w.reply.Some? && (found ==> reply == w.reply.value) && dev.Inbound() == w.after
  {
    ghost var left := SliceBudget(timeoutMs);
    ghost var w := Await(f, dev.Inbound(), left, None);
    var waited := 0;
    while waited < timeoutMs
      invariant dev.Valid() && dev.log == old(dev.log) && dev.outcomes == old(dev.outcomes) && dev.isOpen == old(dev.isOpen)
      invariant if waited < timeoutMs then 10 * (left - 1) < timeoutMs - waited <= 10 * left else left == 0
      invariant Await(f, dev.Inbound(), left, None) == w
      decreases timeoutMs - waited, dev.Backlog()
    {
      var got, r := ReadSlice(dev, f, left);
      if !got {
        waited, left := waited + 10, left - 1;
        continue;
      }
      if Accepts(f, r) {
        return true, r;
      }
    }
    return false, DefaultReport();
  }

  /** One 10 ms `read_input` of the ping and root waits, seen as a step of the reference wait. */
  method ReadSlice(dev: HidDevice, ghost f: Filter, ghost left: nat) returns (got: bool, r: Report)
    requires dev.Valid() && dev.handle != 0 && 0 < left
    modifies dev`inputCbRegistered, dev`scheduled, dev`incoming, dev`lastInputType, dev`lastInputId,
             dev`lastInputLen, dev`inputReady, dev.lastInput
    ensures dev.Valid() && dev.Backlog() <= old(dev.Backlog()) && (got ==> dev.Backlog() < old(dev.Backlog()))
    ensures Await(f, old(dev.Inbound()), left, None)
      == if got && Accepts(f, r) then Waited(Some(r), dev.Inbound()) else Await(f, dev.Inbound(), if got then left else left - 1, None)
  {
    ghost var s := dev.Inbound();
    got, r := dev.ReadInput(DefaultReport(), 10);
    SharedDeadlineStep(f, s, left, got, r, dev.Inbound());
  }

  /** One `read_input` of `_hidpp_ff_cmd_sync`, with a budget of its own, seen as a step of the reference wait. */
  method ReadRenewed(dev: HidDevice, ghost f: Filter, timeoutMs: int) returns (got: bool, r: Report)
    requires dev.Valid() && dev.handle != 0
    modifies dev`inputCbRegistered, dev`scheduled, dev`incoming, dev`lastInputType, dev`lastInputId,
             dev`lastInputLen, dev`inputReady, dev.lastInput
    ensures dev.Valid() && dev.Backlog() <= old(dev.Backlog()) && (got ==> dev.Backlog() < old(dev.Backlog()))
    ensures got ==> r.len <= Capacity
    ensures var b := SliceBudget(timeoutMs);
      Await(f, old(dev.Inbound()), b, Some(b))
        == if !got then Waited(None, dev.Inbound())
           else if Accepts(f, r) then Waited(Some(r), dev.Inbound())
           else Await(f, dev.Inbound(), b, Some(b))
  {
    ghost var s := dev.Inbound();
    got, r := dev.ReadInput(DefaultReport(), timeoutMs);
    RenewedDeadlineStep(f, s, SliceBudget(timeoutMs), got, r, dev.Inbound());
  }

  /** A report read with its bytes, from a zeroed capture buffer. */
  function Arrived(d: Delivery): (r: Report)
    ensures r.len <= Capacity
  {
    Delivered(DefaultReport(), Zeros(Capacity), d)
  }

  /** A delivery that carries its bytes reads the same whatever the capture buffer held. */
  lemma ArrivedAnyBuffer(c: seq<bv8>, d: Delivery)
    requires |c| == Capacity && d.bytes.Some?
    ensures Delivered(DefaultReport(), c, d) == Arrived(d)
  {
    var n := ClampLength(d.length);
    assert Captured(c, d)[..n] == d.bytes.value[..n] == Captured(Zeros(Capacity), d)[..n];
  }

  /**
   * The slices `slices` all begin before the deadline and so does the one after them:
   * with `left` empty slices to go, each empty slice uses one and each report the
   * wait skips renews the budget when reads have budgets of their own.
   */
  ghost predicate InTime(slices: seq<Option<Delivery>>, left: nat, renew: Option<nat>)
    decreases |slices|
  {
    0 < left
    && (slices != [] ==>
          InTime(slices[1..], if slices[0].None? then left - 1 else Renewed(left, renew), renew))
  }

  /** The empty slices of a stretch of the script. */
  function Empties(slices: seq<Option<Delivery>>): (n: nat)
    ensures n <= |slices|
  {
    if slices == [] then 0 else (if slices[0].None? then 1 else 0) + Empties(slices[1..])
  }

  /** With one deadline for every read, a reply is in time when fewer empty slices than the budget come before it. */
  lemma {:induction false} SharedInTime(slices: seq<Option<Delivery>>, left: nat)
    requires Empties(slices) < left
    ensures InTime(slices, left, None)
  {
    if slices != [] {
      SharedInTime(slices[1..], if slices[0].None? then left - 1 else left);
    }
  }

  /** Dropping the first element of a concatenation drops it from the left part. */
  lemma DropFirst<T>(a: seq<T>, b: seq<T>)
    requires a != []
    ensures (a + b)[1..] == a[1..] + b
  {
  }

  /**
   * Correlation robustness: any number of reports the filter rejects, and empty slices,
   * followed in time by one it accepts, end the wait with that reply. The first
   * accepted report wins: nothing after it is read.
   */
  lemma {:induction false} ReplyAfterNoise(f: Filter, s: Inbox, left: nat, renew: Option<nat>,
                                           noise: seq<Option<Delivery>>, d: Delivery, later: seq<Option<Delivery>>)
    requires s.Valid() && !s.ready && s.rest == noise + [Some(d)] + later
    requires InTime(noise, left, renew)
    requires forall j :: 0 <= j < |noise| && noise[j].Some? ==>
      noise[j].value.bytes.Some? && !Accepts(f, Arrived(noise[j].value))
    requires d.bytes.Some? && Accepts(f, Arrived(d))
    ensures Await(f, s, left, renew).reply == Some(Arrived(d))
    ensures Await(f, s, left, renew).after.rest == later
    decreases |noise|
  {
    assert 0 < left;
    AwaitNext(f, s, left, renew);
    if noise == [] {
      ArrivedAnyBuffer(s.cap.bytes, d);
      assert s.rest[0] == Some(d) && s.rest[1..] == later;
    } else {
      var s', left' := SkipNoise(f, s, left, renew, noise, d, later);
      assert forall j :: 0 <= j < |noise| - 1 ==> noise[1..][j] == noise[j + 1];
      ReplyAfterNoise(f, s', left', renew, noise[1..], d, later);
    }
  }

  /** The first slice of the noise before an accepted report: the wait goes on from the next slice. */
  lemma SkipNoise(f: Filter, s: Inbox, left: nat, renew: Option<nat>,
                  noise: seq<Option<Delivery>>, d: Delivery, later: seq<Option<Delivery>>) returns (s': Inbox, left': nat)
    requires s.Valid() && !s.ready && s.rest == noise + [Some(d)] + later && noise != []
    requires InTime(noise, left, renew)
    requires noise[0].Some? ==> noise[0].value.bytes.Some? && !Accepts(f, Arrived(noise[0].value))
    ensures s'.Valid() && !s'.ready && s'.rest == noise[1..] + [Some(d)] + later
    ensures InTime(noise[1..], left', renew)
    ensures Await(f, s, left, renew) == Await(f, s', left', renew)
  {
    AwaitNext(f, s, left, renew);
    assert s.rest[0] == noise[0];
    DropFirst(noise + [Some(d)], later);
    DropFirst(noise, [Some(d)]);
    if noise[0].None? {
      s', left' := s.(rest := s.rest[1..]), left - 1;
    } else {
      var e := noise[0].value;
      ArrivedAnyBuffer(s.cap.bytes, e);
      s', left' := Inbox(false, AfterCallback(s.cap, e), s.rest[1..]), Renewed(left, renew);
    }
  }

  /** The wait over one more slice of the script, before the deadline. */
  lemma AwaitNext(f: Filter, s: Inbox, left: nat, renew: Option<nat>)
    requires s.Valid() && !s.ready && s.rest != [] && 0 < left
    ensures s.rest[0].None? ==> Await(f, s, left, renew) == Await(f, s.(rest := s.rest[1..]), left - 1, renew)
    ensures s.rest[0].Some? ==>
      var d := s.rest[0].value;
      var r := Delivered(DefaultReport(), s.cap.bytes, d);
      var s' := Inbox(false, AfterCallback(s.cap, d), s.rest[1..]);
      Await(f, s, left, renew) == if Accepts(f, r) then Waited(Some(r), s') else Await(f, s', Renewed(left, renew), renew)
  {
  }

  // -------------------------------------------------------------- exchanges

  /** One request and the filter its reply must pass. */
  datatype Exchange = Exchange(request: Report, filter: Filter)

  /** After one exchange: the accepted reply, if any, the platform results left and the inbox. */
  datatype Step = Step(reply: Option<Report>, outcomes: seq<bool>, inbox: Inbox)

  /**
   * One exchange on a live device: the write guard refuses the request without a
   * platform call; a set-report call takes the next platform result; only a request the
   * platform took is waited for, with one deadline of `budget` empty slices.
   */
  ghost function Attempt(x: Exchange, outcomes: seq<bool>, s: Inbox, budget: nat): (st: Step)
    requires s.Valid()
    ensures st.inbox.Valid()
    ensures st.reply.Some? ==> Accepts(x.filter, st.reply.value)
  {
    if !Writable(x.request) then Step(None, outcomes, s)
    else if outcomes != [] && !outcomes[0] then Step(None, outcomes[1..], s)
    else
      var w := Await(x.filter, s, budget, None);
      Step(w.reply, if outcomes == [] then [] else outcomes[1..], w.after)
  }

  /** How a run of exchanges ends: how many were tried, the reply, the platform results left and the inbox. */
  datatype Answer = Answer(tried: nat, reply: Option<Report>, outcomes: seq<bool>, inbox: Inbox)

  /**
   * The reference run of exchanges, in order: the first one answered ends the run; one
   * whose request failed or whose wait timed out passes to the next.
   */
  ghost function FirstAnswered(xs: seq<Exchange>, outcomes: seq<bool>, s: Inbox, budget: nat): (a: Answer)
    requires s.Valid()
    ensures a.inbox.Valid() && a.tried <= |xs|
    ensures a.reply.Some? ==> 0 < a.tried && Accepts(xs[a.tried - 1].filter, a.reply.value)
    ensures a.reply.None? ==> a.tried == |xs|
    decreases |xs|
  {
    if xs == [] then Answer(0, None, outcomes, s)
    else
      var st := Attempt(xs[0], outcomes, s, budget);
      if st.reply.Some? then Answer(1, st.reply, st.outcomes, st.inbox)
      else
        var a := FirstAnswered(xs[1..], st.outcomes, st.inbox, budget);
        a.(tried := a.tried + 1)
  }

  /**
   * The first answered exchange wins: every exchange before it went unanswered, and
   * the run's reply, platform results and inbox are those of its own attempt, made
   * from where the earlier ones left off.
   */
  lemma {:induction false} AnsweredLast(xs: seq<Exchange>, outcomes: seq<bool>, s: Inbox, budget: nat)
    requires s.Valid()
    ensures var a := FirstAnswered(xs, outcomes, s, budget);
      a.reply.Some? ==>
        var p := FirstAnswered(xs[..a.tried - 1], outcomes, s, budget);
        p.reply.None? && Attempt(xs[a.tried - 1], p.outcomes, p.inbox, budget) == Step(a.reply, a.outcomes, a.inbox)
    decreases |xs|
  {
    var a := FirstAnswered(xs, outcomes, s, budget);
    if a.reply.Some? {
      var st := Attempt(xs[0], outcomes, s, budget);
      if st.reply.Some? {
        assert xs[..0] == [];
      } else {
        var a' := FirstAnswered(xs[1..], st.outcomes, st.inbox, budget);
        AnsweredLast(xs[1..], st.outcomes, st.inbox, budget);
        var prefix := xs[..a.tried - 1];
        assert prefix[0] == xs[0] && prefix[1..] == xs[1..][..a'.tried - 1];
        assert xs[1..][a'.tried - 1] == xs[a.tried - 1];
      }
    }
  }

  /** One more exchange of a run: its attempt either answers the run or passes it on. */
  lemma FirstAnsweredStep(xs: seq<Exchange>, k: nat, outcomes: seq<bool>, s: Inbox, budget: nat)
    requires s.Valid() && k < |xs|
    ensures var st := Attempt(xs[k], outcomes, s, budget);
      FirstAnswered(xs[k..], outcomes, s, budget)
        == if st.reply.Some? then Answer(1, st.reply, st.outcomes, st.inbox)
           else var c := FirstAnswered(xs[k + 1..], st.outcomes, st.inbox, budget); c.(tried := c.tried + 1)
  {
    assert xs[k..][0] == xs[k] && xs[k..][1..] == xs[k + 1..];
  }

  /** The ping's exchanges: each attempt's request, answered by a ping reply to its index. */
  function PingExchanges(attempts: seq<PingAttempt>): (xs: seq<Exchange>)
    ensures |xs| == |attempts|
    ensures forall i :: 0 <= i < |xs| ==>
      Writable(xs[i].request) && xs[i].request.reportId == attempts[i].reportId
  {
    seq(|attempts|, i requires 0 <= i < |attempts| => Exchange(PingRequest(attempts[i]), PingReply(attempts[i].devIndex)))
  }

  /** `hidpp_root_get_feature`'s reply timeout. */
  const RootTimeoutMs: int := 250

  /** The root lookup's exchanges: the id-in-payload request, then the other. */
  function RootExchanges(ctx: Ctx, devIndex: bv8, featureId: bv16): (xs: seq<Exchange>)
    ensures |xs| == 2 && xs[0].filter == xs[1].filter
    ensures Writable(xs[0].request) && Writable(xs[1].request)
    ensures xs[0].request.len == 7 && xs[1].request.len == 6
  {
    [Exchange(RootRequest(ctx, devIndex, featureId, true), RootReply(ctx, devIndex)),
     Exchange(RootRequest(ctx, devIndex, featureId, false), RootReply(ctx, devIndex))]
  }

  /**
   * One `try_ping` or `try_once`: write the request; if the platform took it, wait for
   * a reply the exchange's filter accepts. On a live device this is the reference
   * attempt over the device's platform results and inbox.
   */
  method TryExchange(dev: HidDevice, x: Exchange, timeoutMs: int) returns (found: bool, reply: Report)
    requires dev.Valid()
    modifies dev, dev.lastInput
    ensures dev.Valid() && old(dev.log) <= dev.log && dev.isOpen == old(dev.isOpen)
    ensures SentSince(old(dev.log), dev.log) == (if dev.handle != 0 && Writable(x.request) then [x.request] else [])
    ensures dev.handle == 0 ==> !found && dev.outcomes == old(dev.outcomes) && dev.Inbound() == old(dev.Inbound())
    ensures dev.handle != 0 ==>
      var st := Attempt(x, old(dev.outcomes), old(dev.Inbound()), SliceBudget(timeoutMs));
      found == st.reply.Some? && (found ==> reply == st.reply.value)
      && dev.outcomes == st.outcomes && dev.Inbound() == st.inbox
  {
    ghost var log0 := dev.log;
    var written := dev.Write(x.request);
    assert SentSince(log0, dev.log) == (if dev.handle != 0 && Writable(x.request) then [x.request] else []) by {
      if dev.handle != 0 && Writable(x.request) {
        assert dev.log[|log0|..] == [IoSetReport(x.request, written)];
      }
    }
    found, reply := false, DefaultReport();
    if written {
      found, reply := AwaitReply(dev, x.filter, timeoutMs);
    }
  }

  /**
   * Exchange `k` of a run: send it and wait for its reply, which either answers the
   * run or leaves the rest of the run to the exchanges after it.
   */
  method NextExchange(dev: HidDevice, ghost xs: seq<Exchange>, k: nat, x: Exchange, timeoutMs: int)
    returns (found: bool, reply: Report)
    requires dev.Valid() && k < |xs| && x == xs[k]
    modifies dev, dev.lastInput
    ensures dev.Valid() && old(dev.log) <= dev.log && dev.isOpen == old(dev.isOpen)
    ensures SentSince(old(dev.log), dev.log) == (if dev.handle != 0 && Writable(x.request) then [x.request] else [])
    ensures dev.handle == 0 ==> !found
    ensures found ==> Accepts(x.filter, reply)
    ensures dev.handle != 0 ==>
      var b := FirstAnswered(xs[k..], old(dev.outcomes), old(dev.Inbound()), SliceBudget(timeoutMs));
      if found then b == Answer(1, Some(reply), dev.outcomes, dev.Inbound())
      else var c := FirstAnswered(xs[k + 1..], dev.outcomes, dev.Inbound(), SliceBudget(timeoutMs));
        b == c.(tried := c.tried + 1)
  {
    FirstAnsweredStep(xs, k, dev.outcomes, dev.Inbound(), SliceBudget(timeoutMs));
    found, reply := TryExchange(dev, x, timeoutMs);
  }

  /**
   * `hidpp_ping`: open the device, then try every attempt in order (candidate index,
   * id-in-payload variant, short then long request) until a reply passes the
   * acceptance test. On success the context learns the reply's framing.
   */
  method Ping(hc: HidppContext, dev: HidDevice, timeoutMs: int)
    returns (ok: bool, major: bv8, minor: bv8, replied: bv8, ghost tried: nat, ghost reply: Report)
    requires dev.Valid() && WellFormed(hc.state)
    modifies hc, dev, dev.lastInput
    ensures dev.Valid() && WellFormed(hc.state)
    ensures old(dev.log) <= dev.log && tried <= |PingAttempts()|
    ensures SentSince(old(dev.log), dev.log) == PingRequests(PingAttempts()[..tried])
    ensures !(dev.handle != 0 && (old(dev.isOpen) || old(dev.NextOk()))) ==> !ok && tried == 0
    ensures dev.handle != 0 && (old(dev.isOpen) || old(dev.NextOk())) ==>
      dev.isOpen
      && var a := FirstAnswered(PingExchanges(PingAttempts()),
                                if old(dev.isOpen) then old(dev.outcomes) else old(dev.LaterOutcomes()),
                                old(dev.Inbound()), SliceBudget(timeoutMs));
         ok == a.reply.Some? && tried == a.tried && (ok ==> reply == a.reply.value)
         && dev.outcomes == a.outcomes && dev.Inbound() == a.inbox
    ensures ok ==>
      0 < tried && reply.len <= Capacity
      && var a := PingAttempts()[tried - 1];
         var msg := Normalize(reply);
         PingAccepts(a.devIndex, msg) && major == msg[4] && minor == msg[5] && replied == msg[1]
         && hc.state == LearnFraming(old(hc.state), reply)
    ensures !ok ==> hc.state == old(hc.state)
    ensures !ok && dev.handle != 0 && (old(dev.isOpen) || old(dev.NextOk())) ==> tried == |PingAttempts()|
  {
    ok, major, minor, replied, tried, reply := false, 0, 0, 0, 0, DefaultReport();
    ghost var log0 := dev.log;
    var isOpen := OpenAndListen(dev);
    if !isOpen {
      return;
    }
    ghost var log1 := dev.log;
    ok, major, minor, replied, tried, reply := PingAll(hc, dev, PingAttempts(), timeoutMs);
    SentSinceExtend(log0, log1, dev.log);
  }

  /** The start of `hidpp_ping`: open the device and enable input reports; nothing is sent or read. */
  method OpenAndListen(dev: HidDevice) returns (isOpen: bool)
    requires dev.Valid()
    modifies dev
    ensures dev.Valid() && old(dev.log) <= dev.log && SentSince(old(dev.log), dev.log) == []
    ensures dev.Inbound() == old(dev.Inbound())
    ensures isOpen <==> dev.handle != 0 && (old(dev.isOpen) || old(dev.NextOk()))
    ensures isOpen ==> dev.isOpen && dev.outcomes == (if old(dev.isOpen) then old(dev.outcomes) else old(dev.LaterOutcomes()))
  {
    ghost var log0 := dev.log;
    isOpen := dev.Open();
    assert dev.log == log0 || dev.log == log0 + [IoOpen(isOpen)];
    assert SentSince(log0, dev.log) == [] by {
      assert dev.log[|log0|..] == [] || dev.log[|log0|..] == [IoOpen(isOpen)];
    }
    if isOpen {
      var _ := dev.EnableInputReports();
    }
  }

  /**
   * The candidate loop of `hidpp_ping` on an open device, over its attempts in order
   * (`Ping` passes `PingAttempts()`).
   */
  method PingAll(hc: HidppContext, dev: HidDevice, attempts: seq<PingAttempt>, timeoutMs: int)
    returns (ok: bool, major: bv8, minor: bv8, replied: bv8, ghost tried: nat, ghost reply: Report)
    requires dev.Valid() && dev.handle != 0 && WellFormed(hc.state)
    modifies hc, dev, dev.lastInput
    ensures dev.Valid() && WellFormed(hc.state) && dev.isOpen == old(dev.isOpen)
    ensures old(dev.log) <= dev.log && tried <= |attempts|
    ensures SentSince(old(dev.log), dev.log) == PingRequests(attempts[..tried])
    ensures var a := FirstAnswered(PingExchanges(attempts), old(dev.outcomes), old(dev.Inbound()), SliceBudget(timeoutMs));
      ok == a.reply.Some? && tried == a.tried && (ok ==> reply == a.reply.value)
      && dev.outcomes == a.outcomes && dev.Inbound() == a.inbox
    ensures ok ==>
      0 < tried && reply.len <= Capacity
      && var a := attempts[tried - 1];
         var msg := Normalize(reply);
         PingAccepts(a.devIndex, msg) && major == msg[4] && minor == msg[5] && replied == msg[1]
         && hc.state == LearnFraming(old(hc.state), reply)
    ensures !ok ==> hc.state == old(hc.state) && tried == |attempts|
  {
    ok, major, minor, replied, reply := false, 0, 0, 0, DefaultReport();
    ghost var log0 := dev.log;
    ghost var xs := PingExchanges(attempts);
    ghost var a0 := FirstAnswered(xs, dev.outcomes, dev.Inbound(), SliceBudget(timeoutMs));
    var k := 0;
    SentSinceNothing(log0);
    assert xs[k..] == xs;
    while k < |attempts|
      invariant 0 <= k <= |attempts| && dev.Valid() && dev.isOpen == old(dev.isOpen)
      invariant hc.state == old(hc.state)
      invariant log0 <= dev.log && SentSince(log0, dev.log) == PingRequests(attempts[..k])
      invariant var b := FirstAnswered(xs[k..], dev.outcomes, dev.Inbound(), SliceBudget(timeoutMs));
        a0 == b.(tried := b.tried + k)
    {
      ghost var log1 := dev.log;
      var found, maj, min, ridx, r := TryPing(hc, dev, xs, k, attempts[k], timeoutMs);
      PingSentStep(log0, log1, dev.log, attempts, k);
      if found {
        assert a0 == Answer(k + 1, Some(r), dev.outcomes, dev.Inbound());
        return true, maj, min, ridx, k + 1, r;
      }
      ghost var c := FirstAnswered(xs[k + 1..], dev.outcomes, dev.Inbound(), SliceBudget(timeoutMs));
      assert a0 == c.(tried := c.tried + k + 1);
      k := k + 1;
    }
    tried := k;
  }

  /**
   * `try_ping`, attempt `k` of the run: on a reply that passes the acceptance test the
   * context learns the reply's framing, and the version and the replying index are
   * read from it.
   */
  method TryPing(hc: HidppContext, dev: HidDevice, ghost xs: seq<Exchange>, k: nat, a: PingAttempt, timeoutMs: int)
    returns (found: bool, major: bv8, minor: bv8, replied: bv8, reply: Report)
    requires dev.Valid() && dev.handle != 0 && WellFormed(hc.state)
    requires k < |xs| && xs[k] == Exchange(PingRequest(a), PingReply(a.devIndex))
    modifies hc, dev, dev.lastInput
    ensures dev.Valid() && WellFormed(hc.state) && old(dev.log) <= dev.log && dev.isOpen == old(dev.isOpen)
    ensures SentSince(old(dev.log), dev.log) == [PingRequest(a)]
    ensures var b := FirstAnswered(xs[k..], old(dev.outcomes), old(dev.Inbound()), SliceBudget(timeoutMs));
      if found then b == Answer(1, Some(reply), dev.outcomes, dev.Inbound())
      else var c := FirstAnswered(xs[k + 1..], dev.outcomes, dev.Inbound(), SliceBudget(timeoutMs));
        b == c.(tried := c.tried + 1)
    ensures found ==>
      reply.len <= Capacity
      && var msg := Normalize(reply);
         PingAccepts(a.devIndex, msg) && major == msg[4] && minor == msg[5] && replied == msg[1]
         && hc.state == LearnFraming(old(hc.state), reply)
    ensures !found ==> hc.state == old(hc.state)
  {
    major, minor, replied := 0, 0, 0;
    found, reply := NextExchange(dev, xs, k, Exchange(PingRequest(a), PingReply(a.devIndex)), timeoutMs);
    if found {
      var msg := Normalize(reply);
      hc.state := LearnFraming(hc.state, reply);
      major, minor, replied := msg[4], msg[5], msg[1];
    }
  }

  /** One more attempt sent extends the run of ping requests by its request. */
  lemma PingSentStep(log0: seq<IoCall>, log1: seq<IoCall>, log2: seq<IoCall>, attempts: seq<PingAttempt>, k: nat)
    requires log0 <= log1 <= log2 && k < |attempts|
    requires SentSince(log0, log1) == PingRequests(attempts[..k])
    requires SentSince(log1, log2) == [PingRequest(attempts[k])]
    ensures SentSince(log0, log2) == PingRequests(attempts[..k + 1])
  {
    SentSinceExtend(log0, log1, log2);
    SliceNext(attempts, k);
    var rs := PingRequests(attempts[..k + 1]);
    assert |rs| == k + 1;
    assert rs == PingRequests(attempts[..k]) + [PingRequest(attempts[k])];
  }

  /**
   * `hidpp_root_get_feature`: ask the root feature for `featureId`'s index, first with
   * the report id in the payload, then without; answer the index and type of the
   * first reply that passes the root acceptance test.
   */
  method RootGetFeature(hc: HidppContext, dev: HidDevice, devIndex: bv8, featureId: bv16)
    returns (ok: bool, featIndex: bv8, featType: bv8, ghost reply: Report)
    requires dev.Valid()
    modifies dev, dev.lastInput
    ensures dev.Valid() && old(dev.log) <= dev.log && dev.isOpen == old(dev.isOpen)
    ensures var sent := SentSince(old(dev.log), dev.log);
      sent <= [RootRequest(hc.state, devIndex, featureId, true), RootRequest(hc.state, devIndex, featureId, false)]
    ensures !ok && dev.handle != 0 ==>
      SentSince(old(dev.log), dev.log)
        == [RootRequest(hc.state, devIndex, featureId, true), RootRequest(hc.state, devIndex, featureId, false)]
    ensures dev.handle == 0 ==> !ok
    ensures dev.handle != 0 ==>
      var a := FirstAnswered(RootExchanges(hc.state, devIndex, featureId), old(dev.outcomes), old(dev.Inbound()),
                             SliceBudget(RootTimeoutMs));
      ok == a.reply.Some? && (ok ==> reply == a.reply.value)
      && dev.outcomes == a.outcomes && dev.Inbound() == a.inbox
    ensures ok ==>
      reply.len <= Capacity
      && var msg := Normalize(reply);
         RootAccepts(hc.state, devIndex, msg) && featIndex == msg[4] && featType == msg[5]
    ensures ok ==> featIndex != 0x00 && featIndex != 0xFF
  {
    ok, featIndex, featType, reply := false, 0, 0, DefaultReport();
    ghost var log0 := dev.log;
    ghost var xs := RootExchanges(hc.state, devIndex, featureId);
    ghost var both := [xs[0].request, xs[1].request];
    ghost var a0 := FirstAnswered(xs, dev.outcomes, dev.Inbound(), SliceBudget(RootTimeoutMs));
    SentSinceNothing(log0);
    var variant := 0;
    while variant < 2
      invariant 0 <= variant <= 2 && dev.Valid() && log0 <= dev.log && dev.isOpen == old(dev.isOpen)
      invariant SentSince(log0, dev.log) == (if dev.handle != 0 then both[..variant] else [])
      invariant dev.handle != 0 ==>
        var b := FirstAnswered(xs[variant..], dev.outcomes, dev.Inbound(), SliceBudget(RootTimeoutMs));
        a0 == b.(tried := b.tried + variant)
    {
      ghost var log1 := dev.log;
      var found, index, kind, r := TryRoot(hc, dev, xs, variant, devIndex, featureId);
      RootSentStep(log0, log1, dev.log, both, variant, dev.handle != 0);
      if found {
        return true, index, kind, r;
      }
      variant := variant + 1;
    }
  }

  /**
   * `try_once`, variant `k` of the root lookup: send the request, wait for a reply that
   * passes the root acceptance test, and read the feature's index and type from it.
   */
  method TryRoot(hc: HidppContext, dev: HidDevice, ghost xs: seq<Exchange>, k: nat, devIndex: bv8, featureId: bv16)
    returns (found: bool, featIndex: bv8, featType: bv8, reply: Report)
    requires dev.Valid() && k < |xs|
    requires xs[k] == Exchange(RootRequest(hc.state, devIndex, featureId, k == 0), RootReply(hc.state, devIndex))
    modifies dev, dev.lastInput
    ensures dev.Valid() && old(dev.log) <= dev.log && dev.isOpen == old(dev.isOpen)
    ensures SentSince(old(dev.log), dev.log) == (if dev.handle != 0 then [xs[k].request] else [])
    ensures dev.handle == 0 ==> !found
    ensures dev.handle != 0 ==>
      var b := FirstAnswered(xs[k..], old(dev.outcomes), old(dev.Inbound()), SliceBudget(RootTimeoutMs));
      if found then b == Answer(1, Some(reply), dev.outcomes, dev.Inbound())
      else var c := FirstAnswered(xs[k + 1..], dev.outcomes, dev.Inbound(), SliceBudget(RootTimeoutMs));
        b == c.(tried := c.tried + 1)
    ensures found ==>
      reply.len <= Capacity
      && var msg := Normalize(reply);
         RootAccepts(hc.state, devIndex, msg) && featIndex == msg[4] && featType == msg[5]
         && featIndex != 0x00 && featIndex != 0xFF
  {
    featIndex, featType := 0, 0;
    found, reply := NextExchange(dev, xs, k,
      Exchange(RootRequest(hc.state, devIndex, featureId, k == 0), RootReply(hc.state, devIndex)), RootTimeoutMs);
    if found {
      var msg := Normalize(reply);
      featIndex, featType := msg[4], msg[5];
    }
  }

  /** One more variant tried extends the requests sent by its request, on a real device. */
  lemma RootSentStep(log0: seq<IoCall>, log1: seq<IoCall>, log2: seq<IoCall>, both: seq<Report>, k: nat, live: bool)
    requires log0 <= log1 <= log2 && k < |both|
    requires SentSince(log0, log1) == (if live then both[..k] else [])
    requires SentSince(log1, log2) == (if live then [both[k]] else [])
    ensures SentSince(log0, log2) == (if live then both[..k + 1] else [])
  {
    SentSinceExtend(log0, log1, log2);
    if live {
      SliceNext(both, k);
    }
  }

  /** A prefix one longer is the shorter prefix and the next element. */
  lemma SliceNext<T>(s: seq<T>, k: nat)
    requires k < |s|
    ensures s[..k + 1] == s[..k] + [s[k]]
  {
  }

  /**
   * `hidpp_init`: record the device index, then look up the Force Feedback feature;
   * on success record its index and mark the feature ready.
   */
  method Init(hc: HidppContext, dev: HidDevice, devIndex: bv8) returns (ok: bool, ghost reply: Report)
    requires dev.Valid() && WellFormed(hc.state)
    modifies hc, dev, dev.lastInput
    ensures dev.Valid() && WellFormed(hc.state) && old(dev.log) <= dev.log && dev.isOpen == old(dev.isOpen)
    ensures hc.state.devIndex == devIndex
    ensures var ctx := old(hc.state).(devIndex := devIndex);
      var both := [RootRequest(ctx, devIndex, ForceFeedbackFeature, true), RootRequest(ctx, devIndex, ForceFeedbackFeature, false)];
      SentSince(old(dev.log), dev.log) <= both
      && (!ok && dev.handle != 0 ==> SentSince(old(dev.log), dev.log) == both)
    ensures dev.handle != 0 ==>
      var a := FirstAnswered(RootExchanges(old(hc.state).(devIndex := devIndex), devIndex, ForceFeedbackFeature),
                             old(dev.outcomes), old(dev.Inbound()), SliceBudget(RootTimeoutMs));
      ok == a.reply.Some? && (ok ==> reply == a.reply.value)
      && dev.outcomes == a.outcomes && dev.Inbound() == a.inbox
    ensures !ok ==> hc.state == old(hc.state).(devIndex := devIndex)
    ensures ok ==>
      reply.len <= Capacity
      && RootAccepts(old(hc.state).(devIndex := devIndex), devIndex, Normalize(reply))
      && hc.state == old(hc.state).(devIndex := devIndex, ffFeatIndex := Normalize(reply)[4], ffReady := true)
  {
    hc.state := hc.state.(devIndex := devIndex);
    var found, index, kind;
    found, index, kind, reply := RootGetFeature(hc, dev, devIndex, ForceFeedbackFeature);
    if !found {
      return false, reply;
    }
    hc.state := hc.state.(ffFeatIndex := index, ffReady := true);
    return true, reply;
  }

  /**
   * `_hidpp_ff_cmd_sync`: send one Force Feedback command, then read input reports,
   * each read waiting up to `timeoutMs`, until one correlates with the command
   * (answered) or a read times out (failure). Once the platform took the command, the
   * answer is the reference wait's, with a budget renewed for every read.
   */
  method FfCmdSync(hc: HidppContext, dev: HidDevice, command: bv8, params: seq<bv8>, timeoutMs: int)
    returns (ok: bool, resp: Report)
    requires dev.Valid()
    modifies dev, dev.lastInput
    ensures dev.Valid() && old(dev.log) <= dev.log && dev.isOpen == old(dev.isOpen)
    ensures SentSince(old(dev.log), dev.log) == (if dev.handle != 0 then [FfCmd(hc.state, command, params)] else [])
    ensures dev.outcomes == (if dev.handle != 0 then old(dev.LaterOutcomes()) else old(dev.outcomes))
    ensures dev.handle != 0 && old(dev.NextOk()) ==>
      var b := SliceBudget(timeoutMs);
      var w := Await(CommandReply(hc.state, command), old(dev.Inbound()), b, Some(b));
      ok == w.reply.Some? && (ok ==> resp == w.reply.value) && dev.Inbound() == w.after
    ensures !(dev.handle != 0 && old(dev.NextOk())) ==> !ok && dev.Inbound() == old(dev.Inbound())
    ensures ok ==> Correlates(hc.state, command, resp) && resp.len <= Capacity
  {
    var out := BuildFfCmd(hc.state, command, params);
    ghost var log0 := dev.log;
    ghost var f := CommandReply(hc.state, command);
    ghost var b := SliceBudget(timeoutMs);
    ghost var w := Await(f, dev.Inbound(), b, Some(b));
    var written := dev.Write(out);
    assert dev.log[|log0|..] == (if dev.handle != 0 then [IoSetReport(out, written)] else []);
    if !written {
      return false, DefaultReport();
    }
    while true
      invariant dev.Valid() && dev.handle != 0 && dev.log == log0 + [IoSetReport(out, true)]
      invariant dev.isOpen == old(dev.isOpen) && dev.outcomes == old(dev.LaterOutcomes())
      invariant Await(f, dev.Inbound(), b, Some(b)) == w
      decreases dev.Backlog()
    {
      var got, r := ReadRenewed(dev, f, timeoutMs);
      if !got {
        return false, DefaultReport();
      }
      if Correlates(hc.state, command, r) {
        return true, r;
      }
    }
  }

  /**
   * The end of `hidpp_download_force_sync(f)` on a live device, from the context `ctx`,
   * the next platform result `nextOk` and the inbox `s`: without a ready feature, for
   * a force other than the constant one, or when the platform refuses the download,
   * it fails and the context stays; otherwise it succeeds exactly when the wait finds
   * a correlated reply long enough to hold the handle, and success stores that handle
   * for the force's slot.
   */
  ghost predicate DownloadResult(ctx: Ctx, f: Force, nextOk: bool, s: Inbox, ok: bool, reply: Report, ctx': Ctx)
    requires s.Valid() && WellFormed(ctx)
    ensures DownloadResult(ctx, f, nextOk, s, ok, reply, ctx') ==>
      WellFormed(ctx') && (ok ==> ctx.ffReady && f.effect.ConstantEffect? && nextOk)
      && ctx'.(slotByForce := ctx.slotByForce) == ctx
  {
    if !ctx.ffReady || !f.effect.ConstantEffect? || !nextOk then !ok && ctx' == ctx
    else
      var w := Await(CommandReply(ctx, FfDownloadEffect), s, SliceBudget(50), Some(SliceBudget(50)));
      var off := Off(ctx.includeIdInPayload);
      ok == (w.reply.Some? && w.reply.value.len >= off + 4)
      && (ok ==> reply == w.reply.value && off + 4 <= Capacity
                 && ctx' == ctx.(slotByForce := StoreHandle(ctx.slotByForce, f.slot, reply.data[off + 3])))
      && (!ok ==> ctx' == ctx)
  }

  /**
   * `hidpp_download_force_sync`: download a constant force and wait for the reply;
   * a non-zero handle in the reply is stored for the force's slot nibble. Only the
   * constant force has a HID++ download, and nothing is sent before the feature is ready.
   */
  method DownloadForceSync(hc: HidppContext, dev: HidDevice, f: Force)
    returns (ok: bool, ghost reply: Report)
    requires dev.Valid() && WellFormed(hc.state)
    modifies hc, dev, dev.lastInput
    ensures dev.Valid() && WellFormed(hc.state) && old(dev.log) <= dev.log
    ensures !old(hc.state.ffReady) || !f.effect.ConstantEffect? ==>
      !ok && hc.state == old(hc.state) && dev.log == old(dev.log)
    ensures old(hc.state.ffReady) && f.effect.ConstantEffect? && dev.handle != 0 ==>
      SentSince(old(dev.log), dev.log) == [Protocol.DownloadForce(Protocol.HidppDialect, old(hc.state), f)]
    ensures old(hc.state.ffReady) && f.effect.ConstantEffect? && dev.handle != 0 && old(dev.NextOk()) ==>
      var w := Await(CommandReply(old(hc.state), FfDownloadEffect), old(dev.Inbound()), SliceBudget(50), Some(SliceBudget(50)));
      ok == (w.reply.Some? && w.reply.value.len >= Off(old(hc.state).includeIdInPayload) + 4)
      && (w.reply.Some? ==> reply == w.reply.value)
    ensures !(dev.handle != 0 && old(dev.NextOk())) ==> !ok
    ensures ok ==>
      Correlates(old(hc.state), FfDownloadEffect, reply)
      && var off := Off(old(hc.state).includeIdInPayload);
         reply.len >= off + 4 && off + 4 <= Capacity
         && hc.state == old(hc.state).(slotByForce := StoreHandle(old(hc.state).slotByForce, f.slot, reply.data[off + 3]))
    ensures !ok ==> hc.state == old(hc.state)
    ensures KnownKept(old(hc.state).slotByForce, hc.state.slotByForce)
    ensures dev.handle != 0 ==> DownloadResult(old(hc.state), f, old(dev.NextOk()), old(dev.Inbound()), ok, reply, hc.state)
  {
    reply := DefaultReport();
    if !hc.state.ffReady {
      return false, reply;
    }
    var out := Protocol.DownloadForce(Protocol.HidppDialect, hc.state, f);
    if out.len == 0 {
      return false, reply;
    }
    ok, reply := DownloadConstantSync(hc, dev, f);
  }

  /**
   * The constant-force part of `hidpp_download_force_sync`: send the download with the
   * slot's current handle and the mapped level, and store a non-zero returned handle.
   */
  method DownloadConstantSync(hc: HidppContext, dev: HidDevice, f: Force) returns (ok: bool, ghost reply: Report)
    requires dev.Valid() && WellFormed(hc.state) && hc.state.ffReady && f.effect.ConstantEffect?
    modifies hc, dev, dev.lastInput
    ensures dev.Valid() && WellFormed(hc.state) && old(dev.log) <= dev.log
    ensures SentSince(old(dev.log), dev.log)
      == (if dev.handle != 0 then [ConstantDownload(old(hc.state), f.slot, f.effect.amplitude)] else [])
    ensures dev.handle != 0 && old(dev.NextOk()) ==>
      var w := Await(CommandReply(old(hc.state), FfDownloadEffect), old(dev.Inbound()), SliceBudget(50), Some(SliceBudget(50)));
      ok == (w.reply.Some? && w.reply.value.len >= Off(old(hc.state).includeIdInPayload) + 4)
      && (w.reply.Some? ==> reply == w.reply.value)
    ensures !(dev.handle != 0 && old(dev.NextOk())) ==> !ok
    ensures ok ==>
      Correlates(old(hc.state), FfDownloadEffect, reply)
      && var off := Off(old(hc.state).includeIdInPayload);
         reply.len >= off + 4 && off + 4 <= Capacity
         && hc.state == old(hc.state).(slotByForce := StoreHandle(old(hc.state).slotByForce, f.slot, reply.data[off + 3]))
    ensures !ok ==> hc.state == old(hc.state)
    ensures KnownKept(old(hc.state).slotByForce, hc.state.slotByForce)
  {
    var answered, resp := SendDownload(hc, dev, f);
    reply := resp;
    var off := Off(hc.state.includeIdInPayload);
    if !answered || resp.len < off + 4 {
      return false, reply;
    }
    RecordHandle(hc, f.slot, resp.data[off + 3]);
    return true, reply;
  }

  /** The exchange of `hidpp_download_force_sync`: the slot's current handle (0 asks for a new one) and the level. */
  method SendDownload(hc: HidppContext, dev: HidDevice, f: Force) returns (answered: bool, resp: Report)
    requires dev.Valid() && hc.state.ffReady && f.effect.ConstantEffect?
    modifies dev, dev.lastInput
    ensures dev.Valid() && old(dev.log) <= dev.log
    ensures SentSince(old(dev.log), dev.log)
      == (if dev.handle != 0 then [ConstantDownload(hc.state, f.slot, f.effect.amplitude)] else [])
    ensures dev.handle != 0 && old(dev.NextOk()) ==>
      var w := Await(CommandReply(hc.state, FfDownloadEffect), old(dev.Inbound()), SliceBudget(50), Some(SliceBudget(50)));
      answered == w.reply.Some? && (answered ==> resp == w.reply.value)
    ensures !(dev.handle != 0 && old(dev.NextOk())) ==> !answered
    ensures answered ==> Correlates(hc.state, FfDownloadEffect, resp) && resp.len <= Capacity
  {
    var params := ConstantDownloadParams(HandleFor(hc.state, f.slot), AmplitudeToLevel(f.effect.amplitude));
    answered, resp := FfCmdSync(hc, dev, FfDownloadEffect, params, 50);
  }

  /** `slot_ref = returned_slot` unless the device returned 0. */
  method RecordHandle(hc: HidppContext, slot: bv8, returned: bv8)
    requires WellFormed(hc.state)
    modifies hc
    ensures WellFormed(hc.state) && KnownKept(old(hc.state).slotByForce, hc.state.slotByForce)
    ensures hc.state == old(hc.state).(slotByForce := StoreHandle(old(hc.state).slotByForce, slot, returned))
  {
    StoreHandleKeepsKnown(hc.state.slotByForce, slot, returned);
    hc.state := hc.state.(slotByForce := StoreHandle(hc.state.slotByForce, slot, returned));
  }

  /** `hidpp_set_effect_state_sync`: start or stop a device effect; handle 0 is a no-op. */
  method SetEffectStateSync(hc: HidppContext, dev: HidDevice, handle: bv8, effectState: bv8)
    returns (ok: bool)
    requires dev.Valid()
    modifies dev, dev.lastInput
    ensures dev.Valid() && old(dev.log) <= dev.log
    ensures handle == 0 ==> ok && dev.log == old(dev.log)
    ensures handle != 0 && dev.handle != 0 ==>
      SentSince(old(dev.log), dev.log) == [FfCmd(hc.state, FfSetEffectState, [handle, effectState])]
    ensures handle != 0 && dev.handle != 0 && old(dev.NextOk()) ==>
      var w := Await(CommandReply(hc.state, FfSetEffectState), old(dev.Inbound()), SliceBudget(50), Some(SliceBudget(50)));
      ok == w.reply.Some? && dev.Inbound() == w.after
    ensures handle != 0 && !(dev.handle != 0 && old(dev.NextOk())) ==> !ok
  {
    if handle == 0 {
      return true;
    }
    var resp;
    ok, resp := FfCmdSync(hc, dev, FfSetEffectState, [handle, effectState], 50);
  }

  /** `hidpp_destroy_effect_sync`: free a device effect; handle 0 is a no-op. */
  method DestroyEffectSync(hc: HidppContext, dev: HidDevice, handle: bv8) returns (ok: bool)
    requires dev.Valid()
    modifies dev, dev.lastInput
    ensures dev.Valid() && old(dev.log) <= dev.log
    ensures handle == 0 ==> ok && dev.log == old(dev.log)
    ensures handle != 0 && dev.handle != 0 ==>
      SentSince(old(dev.log), dev.log) == [FfCmd(hc.state, FfDestroyEffect, [handle])]
    ensures handle != 0 && dev.handle != 0 && old(dev.NextOk()) ==>
      var w := Await(CommandReply(hc.state, FfDestroyEffect), old(dev.Inbound()), SliceBudget(50), Some(SliceBudget(50)));
      ok == w.reply.Some? && dev.Inbound() == w.after
    ensures handle != 0 && !(dev.handle != 0 && old(dev.NextOk())) ==> !ok
  {
    if handle == 0 {
      return true;
    }
    var resp;
    ok, resp := FfCmdSync(hc, dev, FfDestroyEffect, [handle], 50);
  }
}
