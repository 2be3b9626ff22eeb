/**
 * The `wheel` object of joy/wheel.hxx: the four force parameter sets, the `playing`
 * flag and the queue of reports waiting for `flush_reports`, over one device and the
 * process-wide HID++ context. Immediate operations build a report and write it in an
 * open/write/close exchange; queued operations only append to the queue.
 */
module Wheel {
  import opened Bytes
  import opened Reports
  import opened Forces
  import opened Device
  import opened Hidpp
  import opened Session
  import Protocol
  import Classic

  // ------------------------------------------------------------ specification

  /** The force if it is enabled, else nothing. */
  function Keep(f: Force): (k: seq<Force>)
    ensures f.enabled <==> k == [f]
    ensures !f.enabled <==> k == []
  {
    if f.enabled then [f] else []
  }

  /** The enabled forces, in their order. */
  function Enabled(fs: seq<Force>): (es: seq<Force>)
    ensures |es| <= |fs|
  {
    if fs == [] then [] else Keep(fs[0]) + Enabled(fs[1..])
  }

  /** `Enabled` keeps exactly the enabled forces. */
  lemma {:induction false} EnabledExactly(fs: seq<Force>)
    ensures forall f :: f in Enabled(fs) <==> f in fs && f.enabled
  {
    if fs != [] {
      EnabledExactly(fs[1..]);
      assert fs == [fs[0]] + fs[1..];
    }
  }

  /** Filtering four forces is keeping each in turn. */
  lemma EnabledFour(a: Force, b: Force, c: Force, d: Force)
    ensures Enabled([a, b, c, d]) == Keep(a) + Keep(b) + Keep(c) + Keep(d)
  {
    assert [a, b, c, d][1..] == [b, c, d];
    assert [b, c, d][1..] == [c, d];
    assert [c, d][1..] == [d];
    assert [d][1..] == [];
    assert Enabled([d]) == Keep(d);
    assert Enabled([c, d]) == Keep(c) + Keep(d);
    assert Enabled([b, c, d]) == Keep(b) + (Keep(c) + Keep(d));
  }

  /**
   * The bookkeeping of a chain of short-circuited downloads over the forces `done`: the downloads
   * `tried` are a prefix of them, every result but the last is a success, a failure
   * is the last result (or nothing was tried), and success means every force was
   * tried, every download succeeded and every tried force is a constant force.
   */
  ghost predicate Bookkept(ok: bool, done: seq<Force>, tried: seq<Force>, results: seq<bool>)
  {
    tried <= done && |results| == |tried|
    && (forall i :: 0 <= i < |results| - 1 ==> results[i])
    && (!ok && results != [] ==> !results[|results| - 1])
    && (ok ==> forall i :: 0 <= i < |results| ==> results[i])
    && (ok ==> tried == done && forall g :: g in tried ==> g.effect.ConstantEffect?)
  }

  /** The result the platform gives next: an exhausted script succeeds. */
  function NextResult(outcomes: seq<bool>): bool
  {
    outcomes == [] || outcomes[0]
  }

  /** The platform results left once the next call has taken its result. */
  function LaterResults(outcomes: seq<bool>): seq<bool>
  {
    if outcomes == [] then [] else outcomes[1..]
  }

  /**
   * The open/write/close exchange of `_write_reports`, as a relation between the log
   * before (`log0`) and after (`log`): when the device has a handle and is open or
   * opens (`live`), it is opened unless it was (`wasOpen`), the reports are written
   * as WriteRun says from the platform results `outcomes`, and the device is closed
   * only when every write succeeded; `ok` holds exactly when the writes and the close
   * all succeeded. Otherwise nothing is written: at most the failed open is logged.
   */
  ghost predicate Exchanged(rs: seq<Report>, live: bool, wasOpen: bool, outcomes: seq<bool>, ok: bool,
                            log0: seq<IoCall>, log: seq<IoCall>)
    ensures Exchanged(rs, live, wasOpen, outcomes, ok, log0, log) ==>
      log0 <= log
      && (ok ==> live && |log0| < |log| && log[|log| - 1] == IoClose(true))
      && (!live ==> !ok && |log| <= |log0| + 1)
  {
    var w := WriteRun(rs, outcomes);
    ok == (live && w.ok && NextResult(w.outcomes))
    && (live ==> log == log0 + (if wasOpen then [] else [IoOpen(true)]) + w.calls + (if w.ok then [IoClose(ok)] else []))
    && (!live ==> log == log0 || log == log0 + [IoOpen(false)])
  }

  /**
   * Two `_write_report` exchanges chained by `ok = ok && ...`: the first writes `a` from
   * the state given by `live`, `wasOpen` and `outcomes` and answers `firstOk` by `mid`;
   * the second writes `b` only after the first succeeded, on the device the first one
   * closed, with the platform results the first one left.
   */
  ghost predicate ExchangedTwice(a: Report, b: Report, live: bool, wasOpen: bool, outcomes: seq<bool>,
                                 firstOk: bool, ok: bool, log0: seq<IoCall>, mid: seq<IoCall>, log: seq<IoCall>)
  {
    Exchanged([a], live, wasOpen, outcomes, firstOk, log0, mid)
    && (!firstOk ==> !ok && log == mid)
    && (firstOk ==>
          var left := LaterResults(WriteRun([a], outcomes).outcomes);
          Exchanged([b], NextResult(left), false, LaterResults(left), ok, mid, log))
  }

  /**
   * The ping of the init run from context `ctx`: `ok` holds exactly when the first-match
   * run over the candidate attempts finds a reply, `outcomes'` and `s'` are what that run
   * leaves, and on success the reply is accepted for the attempt that found it, `index`
   * is the index it carries and the context has learned its framing; on failure the
   * context is unchanged.
   */
  ghost predicate PingRun(ctx: Ctx, outcomes: seq<bool>, s: Inbox, ok: bool, index: bv8, tried: nat, reply: Report,
                          ctx': Ctx, outcomes': seq<bool>, s': Inbox)
    requires s.Valid()
    ensures PingRun(ctx, outcomes, s, ok, index, tried, reply, ctx', outcomes', s') ==>
      tried <= |PingAttempts()|
      && (!ok ==> tried == |PingAttempts()| && ctx' == ctx)
      && (ok ==> ctx'.ffReady == ctx.ffReady && ctx'.slotByForce == ctx.slotByForce && ctx'.devIndex == ctx.devIndex)
  {
    var a := FirstAnswered(PingExchanges(PingAttempts()), outcomes, s, SliceBudget(250));
    ok == a.reply.Some? && tried == a.tried && outcomes' == a.outcomes && s' == a.inbox
    && (ok ==>
          reply == a.reply.value && 0 < tried && reply.len <= Capacity
          && PingAccepts(PingAttempts()[tried - 1].devIndex, Normalize(reply)) && index == Normalize(reply)[1]
          && ctx' == LearnFraming(ctx, reply))
    && (!ok ==> ctx' == ctx)
  }

  /**
   * The ping and the feature lookup of the HID++ initialisation, as a relation, on an
   * open device whose platform results are `outcomes` and whose input is `s`. The
   * ping runs its attempts in order until one is answered (`pinged`, after `tried`
   * attempts, with `pingReply`); the context then learns the reply's framing and the
   * index the device replied with, and the ROOT lookup of the Force Feedback feature
   * runs on what is left, sending `rootSent`. `ok` holds exactly when the lookup is
   * answered, and `ctx'` is the context afterwards.
   */
  ghost predicate HidppInitRun(ctx: Ctx, outcomes: seq<bool>, s: Inbox, ok: bool, pinged: bool, tried: nat,
                               pingReply: Report, rootReply: Report, rootSent: seq<Report>, ctx': Ctx)
    requires s.Valid()
    ensures HidppInitRun(ctx, outcomes, s, ok, pinged, tried, pingReply, rootReply, rootSent, ctx') ==>
      tried <= |PingAttempts()| && (!pinged ==> tried == |PingAttempts()|) && (ok ==> pinged && ctx'.ffReady)
  {
    var ping := FirstAnswered(PingExchanges(PingAttempts()), outcomes, s, SliceBudget(250));
    pinged == ping.reply.Some? && tried == ping.tried
    && (!pinged ==> !ok && rootSent == [] && ctx' == ctx)
    && (pinged ==>
          pingReply == ping.reply.value && 0 < tried && pingReply.len <= Capacity
          && PingAccepts(PingAttempts()[tried - 1].devIndex, Normalize(pingReply))
          && RootRun(LearnFraming(ctx, pingReply).(devIndex := Normalize(pingReply)[1]), Normalize(pingReply)[1],
                     ping.outcomes, ping.inbox, ok, rootReply, rootSent, ctx'))
  }

  /**
   * The ROOT lookup of the Force Feedback feature for device `idx` from context `c`,
   * as a relation: `ok` holds exactly when one of the two requests is answered, the
   * requests sent are a prefix of both, and on success the context records the
   * feature index the reply carries and marks the feature ready.
   */
  ghost predicate RootRun(c: Ctx, idx: bv8, outcomes: seq<bool>, s: Inbox, ok: bool, rootReply: Report,
                          rootSent: seq<Report>, ctx': Ctx)
    requires s.Valid()
    ensures RootRun(c, idx, outcomes, s, ok, rootReply, rootSent, ctx') ==>
      |rootSent| <= 2 && (ok ==> ctx'.ffReady) && (WellFormed(c) ==> WellFormed(ctx'))
  {
    var root := FirstAnswered(RootExchanges(c, idx, ForceFeedbackFeature), outcomes, s, SliceBudget(RootTimeoutMs));
    ok == root.reply.Some?
    && rootSent <= [RootRequest(c, idx, ForceFeedbackFeature, true), RootRequest(c, idx, ForceFeedbackFeature, false)]
    && (!ok ==> |rootSent| == 2 && ctx' == c)
    && (ok ==> rootReply == root.reply.value && rootReply.len <= Capacity
               && RootAccepts(c, idx, Normalize(rootReply))
               && ctx' == c.(ffFeatIndex := Normalize(rootReply)[4], ffReady := true))
  }

  /** The log grew past `log0` and its last call is a close. */
  predicate EndsClosed(log0: seq<IoCall>, log: seq<IoCall>)
  {
    |log0| < |log| && log[|log| - 1].IoClose?
  }
  /** The last two reports sent are RESET_ALL and the baseline autocenter. */
  predicate EndsWithReset(sent: seq<Report>, ctx: Ctx)
  {
    |sent| >= 2 && sent[|sent| - 2..] == [ResetAll(ctx), SetAutocenter(ctx, BaselineAutocenter)]
  }

  /**
   * What the HID++ init run sends on the open device: the pings it tried, its root
   * requests and, on success, RESET_ALL and the baseline autocenter; and it closes the
   * device last.
   */
  ghost predicate InitSent(log0: seq<IoCall>, log: seq<IoCall>, tried: nat, rootSent: seq<Report>, ok: bool, ctx: Ctx)
    ensures InitSent(log0, log, tried, rootSent, ok, ctx) ==>
      log0 <= log && |SentSince(log0, log)| == tried + |rootSent| + (if ok then 2 else 0)
  {
    log0 <= log && tried <= |PingAttempts()|
    && SentSince(log0, log)
       == PingRequests(PingAttempts()[..tried]) + rootSent
          + (if ok then [ResetAll(ctx), SetAutocenter(ctx, BaselineAutocenter)] else [])
    && EndsClosed(log0, log)
  }


  /** A run of set-report calls: the calls made, whether all succeeded, and the platform results left. */
  datatype Run = Run(calls: seq<IoCall>, ok: bool, outcomes: seq<bool>)

  /**
   * The loop of `_write_reports` on an open device whose set-report calls take their
   * results from `outcomes` (an exhausted script succeeds): each report in order, up to
   * the first one the write guard refuses or the platform fails.
   */
  function WriteRun(rs: seq<Report>, outcomes: seq<bool>): (w: Run)
    ensures |w.calls| <= |rs|
  {
    if rs == [] then Run([], true, outcomes)
    else if !Writable(rs[0]) then Run([], false, outcomes)
    else if outcomes != [] && !outcomes[0] then Run([IoSetReport(rs[0], false)], false, outcomes[1..])
    else
      var w := WriteRun(rs[1..], if outcomes == [] then [] else outcomes[1..]);
      w.(calls := [IoSetReport(rs[0], true)] + w.calls)
  }

  /** The run succeeds exactly when every report passes the guard and every platform call succeeds. */
  lemma {:induction false} WriteRunSucceeds(rs: seq<Report>, outcomes: seq<bool>)
    ensures WriteRun(rs, outcomes).ok
      <==> forall i :: 0 <= i < |rs| ==> Writable(rs[i]) && (i < |outcomes| ==> outcomes[i])
  {
    if rs != [] && Writable(rs[0]) && !(outcomes != [] && !outcomes[0]) {
      var later := if outcomes == [] then [] else outcomes[1..];
      WriteRunSucceeds(rs[1..], later);
      if WriteRun(rs[1..], later).ok {
        forall i | 0 <= i < |rs|
          ensures Writable(rs[i]) && (i < |outcomes| ==> outcomes[i])
        {
          if i > 0 {
            assert rs[1..][i - 1] == rs[i];
            if i < |outcomes| {
              assert later[i - 1] == outcomes[i];
            }
          }
        }
      } else {
        var j :| 0 <= j < |rs| - 1 && !(Writable(rs[1..][j]) && (j < |later| ==> later[j]));
        assert rs[1..][j] == rs[j + 1];
        if j < |later| {
          assert later[j] == outcomes[j + 1];
        }
      }
    }
  }

  /** The calls of a run hand over the reports in order, one call per report. */
  lemma {:induction false} WriteRunCalls(rs: seq<Report>, outcomes: seq<bool>)
    ensures var w := WriteRun(rs, outcomes);
      forall i :: 0 <= i < |w.calls| ==> w.calls[i] == IoSetReport(rs[i], w.calls[i].ok)
  {
    if rs != [] && Writable(rs[0]) && !(outcomes != [] && !outcomes[0]) {
      var later := if outcomes == [] then [] else outcomes[1..];
      WriteRunCalls(rs[1..], later);
      var v := WriteRun(rs[1..], later);
      var w := WriteRun(rs, outcomes);
      assert w.calls == [IoSetReport(rs[0], true)] + v.calls;
      forall i | 0 < i < |w.calls|
        ensures w.calls[i] == v.calls[i - 1] && rs[i] == rs[1..][i - 1]
      {
      }
    }
  }

  /** Every call of a run but the last one succeeded. */
  lemma {:induction false} WriteRunPrefixOk(rs: seq<Report>, outcomes: seq<bool>)
    ensures forall i :: 0 <= i < |WriteRun(rs, outcomes).calls| - 1 ==> WriteRun(rs, outcomes).calls[i].ok
  {
    if rs != [] && Writable(rs[0]) && !(outcomes != [] && !outcomes[0]) {
      var later := if outcomes == [] then [] else outcomes[1..];
      WriteRunPrefixOk(rs[1..], later);
      var v := WriteRun(rs[1..], later);
      var w := WriteRun(rs, outcomes);
      assert w.calls == [IoSetReport(rs[0], true)] + v.calls;
      forall i | 0 <= i < |w.calls| - 1
        ensures w.calls[i].ok
      {
        if i > 0 {
          assert w.calls[i] == v.calls[i - 1];
        }
      }
    }
  }

  /**
   * Where a run ends: a run that succeeds made one call per report, the last one
   * successful; a run that fails stopped at the first refusal, either because the
   * guard refused the report after its calls, the last of which succeeded, or because
   * its last call failed.
   */
  lemma {:induction false} WriteRunStops(rs: seq<Report>, outcomes: seq<bool>)
    ensures var w := WriteRun(rs, outcomes);
      var n := |w.calls|;
      (w.ok ==> n == |rs| && (0 < n ==> w.calls[n - 1].ok))
      && (!w.ok ==>
            (n < |rs| && !Writable(rs[n]) && (0 < n ==> w.calls[n - 1].ok))
            || (0 < n && !w.calls[n - 1].ok))
  {
    if rs != [] && Writable(rs[0]) && !(outcomes != [] && !outcomes[0]) {
      var later := if outcomes == [] then [] else outcomes[1..];
      WriteRunStops(rs[1..], later);
      var v := WriteRun(rs[1..], later);
      var w := WriteRun(rs, outcomes);
      assert w.calls == [IoSetReport(rs[0], true)] + v.calls;
      assert 0 < |v.calls| ==> w.calls[|w.calls| - 1] == v.calls[|v.calls| - 1];
      assert |v.calls| < |rs| - 1 ==> rs[1..][|v.calls|] == rs[|w.calls|];
    }
  }

  /** For a single report the loop is one guarded write. */
  lemma WriteRunOne(r: Report, outcomes: seq<bool>)
    ensures WriteRun([r], outcomes)
      == if !Writable(r) then Run([], false, outcomes)
         else Run([IoSetReport(r, NextResult(outcomes))], NextResult(outcomes), LaterResults(outcomes))
  {
    assert [r][1..] == [];
  }

  /** A run that continues after the calls `done`. */
  function Resumed(done: seq<IoCall>, w: Run): Run
  {
    w.(calls := done + w.calls)
  }

  /** One more report of a run resumed after `done`: the run ends with it or resumes after it. */
  lemma WriteRunStep(run: Run, rs: seq<Report>, i: nat, outcomes: seq<bool>, done: seq<IoCall>)
    requires i < |rs| && run == Resumed(done, WriteRun(rs[i..], outcomes))
    ensures var ok := Writable(rs[i]) && (outcomes == [] || outcomes[0]);
      var later := if !Writable(rs[i]) then outcomes else if outcomes == [] then [] else outcomes[1..];
      var done' := done + (if Writable(rs[i]) then [IoSetReport(rs[i], ok)] else []);
      run == if ok then Resumed(done', WriteRun(rs[i + 1..], later)) else Run(done', false, later)
  {
    WriteRunAt(rs, i, outcomes);
  }

  /**
   * One write of `_write_reports`' loop after the successful calls `done`: the log,
   * the reports handed over, the absence of failures and the run all advance by it.
   */
  lemma WriteEachStep(log0: seq<IoCall>, log1: seq<IoCall>, log2: seq<IoCall>, done: seq<IoCall>,
                      rs: seq<Report>, i: nat, w: bool, run: Run, outcomes: seq<bool>)
    requires i < |rs| && log1 == log0 + done
    requires Requests(done) == rs[..i] && NoFailure(done) && forall j :: 0 <= j < i ==> Writable(rs[j])
    requires run == Resumed(done, WriteRun(rs[i..], outcomes))
    requires log2 == log1 + (if Writable(rs[i]) then [IoSetReport(rs[i], w)] else [])
    requires Writable(rs[i]) ==> w == (outcomes == [] || outcomes[0])
    requires w ==> Writable(rs[i])
    ensures var c := if Writable(rs[i]) then [IoSetReport(rs[i], w)] else [];
      var sent := if Writable(rs[i]) then i + 1 else i;
      var later := if !Writable(rs[i]) then outcomes else if outcomes == [] then [] else outcomes[1..];
      log2 == log0 + (done + c)
      && Requests(done + c) == rs[..sent] && (forall j :: 0 <= j < sent ==> Writable(rs[j]))
      && (w ==> sent == i + 1 && NoFailure(done + c) && run == Resumed(done + c, WriteRun(rs[i + 1..], later)))
      && (!w ==> run == Run(done + c, false, later))
  {
    WriteRunStep(run, rs, i, outcomes, done);
    RequestsStep(done, rs, i, w);
    if w {
      NoFailureStep(done, IoSetReport(rs[i], w));
    }
  }

  /** The reports handed over grow by the one written, when the guard lets it through. */
  lemma RequestsStep(done: seq<IoCall>, rs: seq<Report>, i: nat, w: bool)
    requires i < |rs| && Requests(done) == rs[..i]
    ensures Requests(done + (if Writable(rs[i]) then [IoSetReport(rs[i], w)] else []))
      == rs[..if Writable(rs[i]) then i + 1 else i]
  {
    var c: seq<IoCall> := if Writable(rs[i]) then [IoSetReport(rs[i], w)] else [];
    RequestsAppend(done, c);
    assert Requests(c) == if Writable(rs[i]) then [rs[i]] else [];
    SliceNext(rs, i);
  }

  /** A successful call after calls that all succeeded keeps them all successful. */
  lemma NoFailureStep(done: seq<IoCall>, x: IoCall)
    requires NoFailure(done) && x.ok
    ensures NoFailure(done + [x])
  {
    assert forall j :: 0 <= j < |done + [x]| ==> (done + [x])[j] == if j < |done| then done[j] else x;
  }

  /** The run from report `i` on, one report at a time. */
  lemma WriteRunAt(rs: seq<Report>, i: nat, outcomes: seq<bool>)
    requires i < |rs|
    ensures WriteRun(rs[i..], outcomes) ==
      if !Writable(rs[i]) then Run([], false, outcomes)
      else if outcomes != [] && !outcomes[0] then Run([IoSetReport(rs[i], false)], false, outcomes[1..])
      else
        var w := WriteRun(rs[i + 1..], if outcomes == [] then [] else outcomes[1..]);
        w.(calls := [IoSetReport(rs[i], true)] + w.calls)
  {
    assert rs[i..][0] == rs[i] && rs[i..][1..] == rs[i + 1..];
  }

  /** The report `g` builds for each force, in order. */
  function Each(g: Force -> Report, fs: seq<Force>): (rs: seq<Report>)
    ensures |rs| == |fs|
  {
    if fs == [] then [] else [g(fs[0])] + Each(g, fs[1..])
  }

  /** The i-th report is the one built for the i-th force. */
  lemma {:induction false} EachAt(g: Force -> Report, fs: seq<Force>, i: nat)
    requires i < |fs|
    ensures Each(g, fs)[i] == g(fs[i])
  {
    if i > 0 {
      EachAt(g, fs[1..], i - 1);
    }
  }

  /** Building for a concatenation concatenates the builds. */
  lemma {:induction false} EachAppend(g: Force -> Report, a: seq<Force>, b: seq<Force>)
    ensures Each(g, a + b) == Each(g, a) + Each(g, b)
  {
    if a == [] {
      assert a + b == b;
    } else {
      assert (a + b)[0] == a[0] && (a + b)[1..] == a[1..] + b;
      EachAppend(g, a[1..], b);
    }
  }

  /** The download report of each force, in order. */
  function Downloads(d: Protocol.Dialect, ctx: Ctx, fs: seq<Force>): (rs: seq<Report>)
    ensures |rs| == |fs|
  {
    Each(f => Protocol.DownloadForce(d, ctx, f), fs)
  }

  /** The refresh report of each force, in order. */
  function Refreshes(d: Protocol.Dialect, ctx: Ctx, fs: seq<Force>): (rs: seq<Report>)
    ensures |rs| == |fs|
  {
    Each(f => Protocol.RefreshForce(d, ctx, f), fs)
  }

  /** The downloads of four forces' enabled ones are those of each force kept in turn. */
  lemma DownloadsOfFour(d: Protocol.Dialect, ctx: Ctx, a: Force, b: Force, c: Force, e: Force)
    ensures Downloads(d, ctx, Enabled([a, b, c, e]))
      == Downloads(d, ctx, Keep(a)) + Downloads(d, ctx, Keep(b)) + Downloads(d, ctx, Keep(c)) + Downloads(d, ctx, Keep(e))
  {
    var g := f => Protocol.DownloadForce(d, ctx, f);
    EnabledFour(a, b, c, e);
    EachAppend(g, Keep(a), Keep(b));
    EachAppend(g, Keep(a) + Keep(b), Keep(c));
    EachAppend(g, Keep(a) + Keep(b) + Keep(c), Keep(e));
  }

  /** The refreshes of four forces' enabled ones are those of each force kept in turn. */
  lemma RefreshesOfFour(d: Protocol.Dialect, ctx: Ctx, a: Force, b: Force, c: Force, e: Force)
    ensures Refreshes(d, ctx, Enabled([a, b, c, e]))
      == Refreshes(d, ctx, Keep(a)) + Refreshes(d, ctx, Keep(b)) + Refreshes(d, ctx, Keep(c)) + Refreshes(d, ctx, Keep(e))
  {
    var g := f => Protocol.RefreshForce(d, ctx, f);
    EnabledFour(a, b, c, e);
    EachAppend(g, Keep(a), Keep(b));
    EachAppend(g, Keep(a) + Keep(b), Keep(c));
    EachAppend(g, Keep(a) + Keep(b) + Keep(c), Keep(e));
  }

  /** The batch `refresh_forces` means to write: one refresh per enabled force. */
  function RefreshBatch(d: Protocol.Dialect, ctx: Ctx, fs: seq<Force>): (rs: seq<Report>)
    ensures |rs| == |Enabled(fs)|
  {
    Refreshes(d, ctx, Enabled(fs))
  }

  /**
   * The batch `refresh_forces` writes as written: the vector is constructed with four
   * value-initialised (empty) reports before the refreshes are appended.
   */
  function RefreshBatchAsWritten(d: Protocol.Dialect, ctx: Ctx, fs: seq<Force>): (rs: seq<Report>)
    ensures |rs| == 4 + |Enabled(fs)|
    ensures rs[..4] == [DefaultReport(), DefaultReport(), DefaultReport(), DefaultReport()]
    ensures rs[4..] == RefreshBatch(d, ctx, fs)
  {
    [DefaultReport(), DefaultReport(), DefaultReport(), DefaultReport()] + RefreshBatch(d, ctx, fs)
  }

  /** As written, the first report of the refresh batch fails the write guard. */
  lemma RefreshAsWrittenBlocked(d: Protocol.Dialect, ctx: Ctx, fs: seq<Force>)
    ensures var rs := RefreshBatchAsWritten(d, ctx, fs); |rs| > 0 && !Writable(rs[0])
  {
    DefaultReportNotWritable();
  }

  /** In the classic dialect every report of the corrected refresh batch passes the write guard. */
  lemma RefreshBatchWritable(ctx: Ctx, fs: seq<Force>)
    ensures var rs := RefreshBatch(Protocol.ClassicDialect, ctx, fs);
      forall i :: 0 <= i < |rs| ==> Writable(rs[i])
  {
    var rs := RefreshBatch(Protocol.ClassicDialect, ctx, fs);
    forall i | 0 <= i < |rs|
      ensures Writable(rs[i])
    {
      var f := Enabled(fs)[i];
      EachAt(f => Protocol.RefreshForce(Protocol.ClassicDialect, ctx, f), Enabled(fs), i);
      assert rs[i] == Classic.Refreshed(Classic.EncodeEffect(f.slot, f.effect));
    }
  }

  /** In the classic dialect every download report of a batch passes the write guard. */
  lemma DownloadsWritable(ctx: Ctx, fs: seq<Force>)
    ensures var rs := Downloads(Protocol.ClassicDialect, ctx, fs);
      forall i :: 0 <= i < |rs| ==> Writable(rs[i])
  {
    var rs := Downloads(Protocol.ClassicDialect, ctx, fs);
    forall i | 0 <= i < |rs|
      ensures Writable(rs[i])
    {
      EachAt(f => Protocol.DownloadForce(Protocol.ClassicDialect, ctx, f), fs, i);
    }
  }

  // ------------------------------------------------------------------- wheel

  /** `wheel`: one device, its dialect, the HID++ context, four forces, `playing_` and `reports_`. */
  class Wheel {
    const device: HidDevice
    const protocol: Protocol.Dialect
    const session: HidppContext
    var constant: Force
    var spring: Force
    var damper: Force
    var trapezoid: Force
    var playing: bool
    var reports: seq<Report>

    /** The device and the context are well formed, and each force holds its own kind of effect. */
    ghost predicate Valid()
      reads this`constant, this`spring, this`damper, this`trapezoid, device`lastInputLen, session`state
    {
      device.Valid() && WellFormed(session.state)
      && constant.effect.ConstantEffect? && spring.effect.SpringEffect?
      && damper.effect.DamperEffect? && trapezoid.effect.TrapezoidEffect?
    }

    /** The device has a handle and is open or will open: an exchange gets past its open. */
    ghost function Live(): bool
      reads device
    {
      device.handle != 0 && (device.isOpen || device.NextOk())
    }

    /** The platform results an exchange's writes take: those after the open, if it opens the device. */
    ghost function Script(): seq<bool>
      reads device
    {
      if device.isOpen then device.outcomes else device.LaterOutcomes()
    }

    /** The forces in the order every batch lists them. */
    function Forces(): seq<Force>
      reads this
    {
      [constant, spring, damper, trapezoid]
    }

    /**
     * The wheel once a device has been chosen, before `_init_protocol`: default forces,
     * not playing, nothing queued. The probing that chooses the device is not modelled.
     */
    constructor (device: HidDevice, protocol: Protocol.Dialect, session: HidppContext)
      requires device.Valid() && WellFormed(session.state)
      ensures Valid()
      ensures this.device == device && this.protocol == protocol && this.session == session
      ensures constant == DefaultConstant && spring == DefaultSpring
      ensures damper == DefaultDamper && trapezoid == DefaultTrapezoid
      ensures !playing && reports == []
    {
      this.device := device;
      this.protocol := protocol;
      this.session := session;
      constant := DefaultConstant;
      spring := DefaultSpring;
      damper := DefaultDamper;
      trapezoid := DefaultTrapezoid;
      playing := false;
      reports := [];
    }

    // --------------------------------------------------------------- writing

    /**
     * `_write_report`: open, write, close; false at the first failing step. Only `r`
     * can reach the platform, and a success means it did and the device was closed.
     */
    method WriteReport(r: Report) returns (ok: bool)
      requires device.Valid()
      modifies device
      ensures device.Valid() && old(device.log) <= device.log
      ensures SentSince(old(device.log), device.log) <= [r]
      ensures ok ==> SentSince(old(device.log), device.log) == [r] && !device.isOpen
      ensures !ok && old(Live()) ==> device.isOpen
      ensures Exchanged([r], old(Live()), old(device.isOpen), old(Script()), ok, old(device.log), device.log)
      ensures ok ==> device.outcomes == LaterResults(WriteRun([r], old(Script())).outcomes)
    {
      ghost var log0, live, wasOpen, script := device.log, Live(), device.isOpen, Script();
      ghost var log1, log2, w := log0, log0, false;
      ok := device.Open();
      NothingSent(log0, device.log, IoOpen(ok));
      if ok {
        log1 := device.log;
        SentSinceNothing(log1);
        ok := WriteOne(r);
        log2, w := device.log, ok;
        WriteStep(log1, log1, log2, [r], 0, ok);
        SentSinceExtend(log0, log1, log2);
        if ok {
          ok := device.Close();
          NothingSent(log2, device.log, IoClose(ok));
          SentSinceExtend(log0, log2, device.log);
        }
      }
      OneExchange(r, live, wasOpen, script, log1, w, log2, ok, log0, device.log);
    }

    /**
     * `_write_reports`: open, write each report in order, close. A failed write ends the
     * exchange at once, without closing: exactly the first `sent` reports reached the
     * platform, all of them passed the write guard, and a device that was opened is
     * left open after any failure.
     */
    method WriteReports(rs: seq<Report>) returns (ok: bool, ghost sent: nat)
      requires device.Valid()
      modifies device
      ensures device.Valid() && old(device.log) <= device.log
      ensures sent <= |rs| && SentSince(old(device.log), device.log) == rs[..sent]
      ensures forall i :: 0 <= i < sent ==> Writable(rs[i])
      ensures ok ==> sent == |rs| && !device.isOpen && NoFailure(device.log[|old(device.log)|..])
      ensures !ok && old(Live()) ==> device.isOpen
      ensures Exchanged(rs, old(Live()), old(device.isOpen), old(Script()), ok, old(device.log), device.log)
    {
      ghost var log0 := device.log;
      ghost var outcomes := if device.isOpen then device.outcomes else device.LaterOutcomes();
      ghost var opening: seq<IoCall> := if device.isOpen then [] else [IoOpen(true)];
      sent := 0;
      ok := device.Open();
      NothingSent(log0, device.log, IoOpen(ok));
      if !ok {
        return;
      }
      Succeeded(log0, device.log, IoOpen(ok));
      ghost var log1 := device.log;
      assert log1 == log0 + opening && device.outcomes == outcomes;
      ok, sent := WriteAndClose(rs);
      SentSinceExtend(log0, log1, device.log);
      if ok {
        NoFailureExtend(log0, log1, device.log);
      }
    }

    /** The loop and the close of `_write_reports`, once the device is open. */
    method WriteAndClose(rs: seq<Report>) returns (ok: bool, ghost sent: nat)
      requires device.Valid() && device.isOpen && device.handle != 0
      modifies device
      ensures device.Valid() && old(device.log) <= device.log
      ensures sent <= |rs| && SentSince(old(device.log), device.log) == rs[..sent]
      ensures forall i :: 0 <= i < sent ==> Writable(rs[i])
      ensures ok ==> sent == |rs| && !device.isOpen && NoFailure(device.log[|old(device.log)|..])
      ensures !ok ==> device.isOpen
      ensures var w := WriteRun(rs, old(device.outcomes));
        ok == (w.ok && NextResult(w.outcomes))
        && device.log == old(device.log) + w.calls + (if w.ok then [IoClose(ok)] else [])
    {
      ghost var log1 := device.log;
      ghost var w := WriteRun(rs, device.outcomes);
      ok, sent := WriteEach(rs);
      ghost var log2 := device.log;
      if !ok {
        return;
      }
      ok := device.Close();
      assert device.log == log2 + [IoClose(ok)] && ok == NextResult(w.outcomes);
      NothingSent(log2, device.log, IoClose(ok));
      SentSinceExtend(log1, log2, device.log);
      if ok {
        Succeeded(log2, device.log, IoClose(ok));
        NoFailureExtend(log1, log2, device.log);
      }
    }

    /** The loop of `_write_reports` on an open device. */
    method WriteEach(rs: seq<Report>) returns (ok: bool, ghost sent: nat)
      requires device.Valid() && device.isOpen && device.handle != 0
      modifies device
      ensures device.Valid() && device.isOpen && old(device.log) <= device.log
      ensures sent <= |rs| && SentSince(old(device.log), device.log) == rs[..sent]
      ensures forall i :: 0 <= i < sent ==> Writable(rs[i])
      ensures ok ==> sent == |rs| && NoFailure(device.log[|old(device.log)|..])
      ensures var w := WriteRun(rs, old(device.outcomes));
        ok == w.ok && device.log == old(device.log) + w.calls && device.outcomes == w.outcomes
    {
      ghost var log0 := device.log;
      ghost var run := WriteRun(rs, device.outcomes);
      ghost var done: seq<IoCall> := [];
      ok, sent := true, 0;
      var i := 0;
      assert rs[i..] == rs && device.log == log0 + done;
      while i < |rs| && ok
        invariant i <= |rs| && device.Valid() && device.isOpen && device.log == log0 + done
        invariant sent <= i && Requests(done) == rs[..sent] && forall j :: 0 <= j < sent ==> Writable(rs[j])
        invariant ok ==> sent == i && NoFailure(done) && run == Resumed(done, WriteRun(rs[i..], device.outcomes))
        invariant !ok ==> run == Run(done, false, device.outcomes)
        decreases |rs| - i
      {
        ghost var log1, o1 := device.log, device.outcomes;
        ok := WriteOne(rs[i]);
        WriteEachStep(log0, log1, device.log, done, rs, i, ok, run, o1);
        done := done + (if Writable(rs[i]) then [IoSetReport(rs[i], ok)] else []);
        sent := if Writable(rs[i]) then i + 1 else i;
        i := i + 1;
      }
      assert device.log[|log0|..] == done;
    }

    /** One `dev.write` on an open device. */
    method WriteOne(r: Report) returns (w: bool)
      requires device.Valid() && device.isOpen && device.handle != 0
      modifies device
      ensures device.Valid() && device.isOpen
      ensures device.log == old(device.log) + (if Writable(r) then [IoSetReport(r, w)] else [])
      ensures w ==> Writable(r)
      ensures Writable(r) ==> w == old(device.NextOk()) && device.outcomes == old(device.LaterOutcomes())
      ensures !Writable(r) ==> device.outcomes == old(device.outcomes)
    {
      w := device.Write(r);
    }

    // ---------------------------------------------------- immediate commands

    /** The wrappers' no-op rule: an empty report is success without any I/O; otherwise `_write_report`. */
    method WriteUnlessEmpty(r: Report) returns (ok: bool)
      requires device.Valid()
      modifies device
      ensures device.Valid() && old(device.log) <= device.log
      ensures r.len == 0 ==> ok && device.log == old(device.log)
      ensures r.len != 0 ==> SentSince(old(device.log), device.log) <= [r]
      ensures r.len != 0 && ok ==> SentSince(old(device.log), device.log) == [r]
      ensures r.len != 0 ==> Exchanged([r], old(Live()), old(device.isOpen), old(Script()), ok, old(device.log), device.log)
    {
      if r.len == 0 {
        return true;
      }
      ok := WriteReport(r);
    }

    /** `disable_autocenter`: all slots (0x0F); a no-op where the dialect has no such report. */
    method DisableAutocenter() returns (ok: bool)
      requires Valid()
      modifies device
      ensures Valid() && old(device.log) <= device.log
      ensures var r := Protocol.DisableAutocenter(protocol, session.state, 0x0F);
        (r.len == 0 ==> ok && device.log == old(device.log))
        && (r.len != 0 ==> SentSince(old(device.log), device.log) <= [r])
        && (r.len != 0 && ok ==> SentSince(old(device.log), device.log) == [r])
        && (r.len != 0 ==> Exchanged([r], old(Live()), old(device.isOpen), old(Script()), ok, old(device.log), device.log))
    {
      ok := WriteUnlessEmpty(Protocol.DisableAutocenter(protocol, session.state, 0x0F));
    }

    /** `enable_autocenter`: all slots (0x0F); a no-op where the dialect has no such report. */
    method EnableAutocenter() returns (ok: bool)
      requires Valid()
      modifies device
      ensures Valid() && old(device.log) <= device.log
      ensures var r := Protocol.EnableAutocenter(protocol, session.state, 0x0F);
        (r.len == 0 ==> ok && device.log == old(device.log))
        && (r.len != 0 ==> SentSince(old(device.log), device.log) <= [r])
        && (r.len != 0 && ok ==> SentSince(old(device.log), device.log) == [r])
        && (r.len != 0 ==> Exchanged([r], old(Live()), old(device.isOpen), old(Script()), ok, old(device.log), device.log))
    {
      ok := WriteUnlessEmpty(Protocol.EnableAutocenter(protocol, session.state, 0x0F));
    }

    /** `set_led_pattern`: classic only; a no-op in the other dialects. */
    method SetLedPattern(pattern: bv8) returns (ok: bool)
      requires Valid()
      modifies device
      ensures Valid() && old(device.log) <= device.log
      ensures protocol != Protocol.ClassicDialect ==> ok && device.log == old(device.log)
      ensures protocol == Protocol.ClassicDialect ==>
        var r := Protocol.SetLedPattern(protocol, pattern);
        SentSince(old(device.log), device.log) <= [r]
        && (ok ==> SentSince(old(device.log), device.log) == [r])
        && Exchanged([r], old(Live()), old(device.isOpen), old(Script()), ok, old(device.log), device.log)
    {
      ok := WriteUnlessEmpty(Protocol.SetLedPattern(protocol, pattern));
    }

    /**
     * `play_forces`: set `playing`, then play the slots of the enabled forces, their
     * `slot` fields or-ed together; a no-op report counts as success.
     */
    method PlayForces() returns (ok: bool)
      requires Valid()
      modifies this`playing, device
      ensures Valid() && playing && old(device.log) <= device.log
      ensures var r := Protocol.PlayForce(protocol, session.state, Protocol.SlotMask(Forces()));
        (r.len == 0 ==> ok && device.log == old(device.log))
        && (r.len != 0 ==> SentSince(old(device.log), device.log) <= [r])
        && (r.len != 0 && ok ==> SentSince(old(device.log), device.log) == [r])
        && (r.len != 0 ==> Exchanged([r], old(Live()), old(device.isOpen), old(Script()), ok, old(device.log), device.log))
    {
      playing := true;
      var slots := Protocol.SlotMask(Forces());
      ok := WriteUnlessEmpty(Protocol.PlayForce(protocol, session.state, slots));
    }

    /**
     * `stop_forces`: clear `playing`. HID++: RESET_ALL, then the baseline autocenter,
     * the second only after the first succeeded. Classic: stop all slots (0x0F).
     */
    method StopForces() returns (ok: bool, ghost firstOk: bool, ghost mid: seq<IoCall>)
      requires Valid()
      modifies this`playing, device
      ensures Valid() && !playing && old(device.log) <= device.log
      ensures protocol == Protocol.HidppDialect ==>
        var both := [ResetAll(session.state), SetAutocenter(session.state, BaselineAutocenter)];
        SentSince(old(device.log), device.log) <= both
        && (!firstOk ==> !ok && SentSince(old(device.log), device.log) <= both[..1])
        && (ok ==> firstOk && SentSince(old(device.log), device.log) == both)
        && ExchangedTwice(both[0], both[1], old(Live()), old(device.isOpen), old(Script()), firstOk, ok,
                          old(device.log), mid, device.log)
      ensures protocol != Protocol.HidppDialect ==>
        var r := Protocol.StopForce(protocol, session.state, 0x0F);
        (r.len == 0 ==> ok && device.log == old(device.log))
        && (r.len != 0 ==> SentSince(old(device.log), device.log) <= [r])
        && (r.len != 0 && ok ==> SentSince(old(device.log), device.log) == [r])
        && (r.len != 0 ==> Exchanged([r], old(Live()), old(device.isOpen), old(Script()), ok, old(device.log), device.log))
    {
      playing := false;
      if protocol == Protocol.HidppDialect {
        ok, firstOk, mid := ResetThenBaseline();
        return;
      }
      firstOk, mid := true, device.log;
      ok := WriteUnlessEmpty(Protocol.StopForce(protocol, session.state, 0x0F));
    }

    /** The HID++ branch of `stop_forces`: each `_write_report` only if the previous one succeeded. */
    method ResetThenBaseline() returns (ok: bool, ghost firstOk: bool, ghost mid: seq<IoCall>)
      requires device.Valid()
      modifies device
      ensures device.Valid() && old(device.log) <= device.log
      ensures var a, b := ResetAll(session.state), SetAutocenter(session.state, BaselineAutocenter);
        SentSince(old(device.log), device.log) <= [a, b]
        && (!firstOk ==> !ok && SentSince(old(device.log), device.log) <= [a, b][..1])
        && (ok ==> firstOk && SentSince(old(device.log), device.log) == [a, b])
        && ExchangedTwice(a, b, old(Live()), old(device.isOpen), old(Script()), firstOk, ok, old(device.log), mid, device.log)
    {
      ghost var log0, live, wasOpen, script := device.log, Live(), device.isOpen, Script();
      var a, b := ResetAll(session.state), SetAutocenter(session.state, BaselineAutocenter);
      ok := WriteReport(a);
      firstOk, mid := ok, device.log;
      ghost var live', wasOpen', script' := Live(), device.isOpen, Script();
      if ok {
        ok := WriteReport(b);
      }
      ChainedWrites(a, b, live, wasOpen, script, firstOk, live', wasOpen', script', ok, log0, mid, device.log);
    }

    /**
     * `refresh_forces`, corrected: start playing if not yet playing; otherwise write one
     * refresh report per enabled force.
     */
    method RefreshForces() returns (ok: bool, ghost sent: nat)
      requires Valid()
      modifies this`playing, device
      ensures Valid() && playing && old(device.log) <= device.log
      ensures !old(playing) ==>
        var r := Protocol.PlayForce(protocol, session.state, Protocol.SlotMask(Forces()));
        (r.len == 0 ==> ok && device.log == old(device.log))
        && (r.len != 0 ==> SentSince(old(device.log), device.log) <= [r])
        && (r.len != 0 && ok ==> SentSince(old(device.log), device.log) == [r])
        && (r.len != 0 ==> Exchanged([r], old(Live()), old(device.isOpen), old(Script()), ok, old(device.log), device.log))
      ensures old(playing) ==>
        var batch := RefreshBatch(protocol, session.state, Forces());
        sent <= |batch| && SentSince(old(device.log), device.log) == batch[..sent]
        && (ok ==> sent == |batch|)
        && Exchanged(batch, old(Live()), old(device.isOpen), old(Script()), ok,
                     old(device.log), device.log)
    {
      sent := 0;
      if !playing {
        ok := PlayForces();
        return;
      }
      ok, sent := WriteReports(RefreshBatch(protocol, session.state, Forces()));
    }

    /**
     * `refresh_forces` as written: while playing, the batch starts with four empty
     * reports, so the exchange fails at its first write, nothing reaches the platform,
     * and a device that was opened is left open.
     */
    method RefreshForcesAsWritten() returns (ok: bool)
      requires Valid()
      modifies this`playing, device
      ensures Valid() && playing && old(device.log) <= device.log
      ensures old(playing) ==> !ok && SentSince(old(device.log), device.log) == []
      ensures old(playing) && old(Live()) ==> device.isOpen
    {
      if !playing {
        ok := PlayForces();
        return;
      }
      var batch := RefreshBatchAsWritten(protocol, session.state, Forces());
      RefreshAsWrittenBlocked(protocol, session.state, Forces());
      ghost var sent;
      ok, sent := WriteReports(batch);
    }

    // ------------------------------------------------------------- downloads

    /**
     * `download_forces`. HID++: open and enable input reports, then one synchronous
     * download per enabled force with `ok = ok && ...`, so none is tried after the
     * first failure; close and answer `ok`. Only the constant force can be sent: the
     * synchronous download refuses the other kinds without I/O. Classic: write one
     * download report per enabled force in one exchange.
     */
    method DownloadForces() returns (ok: bool, ghost tried: seq<Force>, ghost results: seq<bool>, ghost sent: nat,
                                     ghost first: bool, ghost reply: Report)
      requires Valid()
      modifies session, device, device.lastInput
      ensures Valid() && old(device.log) <= device.log
      ensures KnownKept(old(session.state).slotByForce, session.state.slotByForce)
      ensures protocol == Protocol.HidppDialect ==>
        Bookkept(ok, Enabled(Forces()), tried, results)
        && SentSince(old(device.log), device.log) <= [Protocol.DownloadForce(protocol, old(session.state), constant)]
      ensures protocol == Protocol.HidppDialect ==>
        var live := old(Live());
        ok == (live && (!constant.enabled || first) && !spring.enabled && !damper.enabled && !trapezoid.enabled)
        && (constant.enabled && live ==>
              DownloadResult(old(session.state), constant,
                             NextResult(old(Script())),
                             old(device.Inbound()), first, reply, session.state))
        && (!(constant.enabled && live) ==>
              session.state == old(session.state) && SentSince(old(device.log), device.log) == [])
      ensures protocol == Protocol.HidppDialect && ok && constant.enabled ==>
        SentSince(old(device.log), device.log) == [Protocol.DownloadForce(protocol, old(session.state), constant)]
        && session.state == old(session.state).(slotByForce := StoreHandle(old(session.state).slotByForce, constant.slot,
                                                                           reply.data[Off(old(session.state).includeIdInPayload) + 3]))
      ensures protocol != Protocol.HidppDialect ==>
        session.state == old(session.state)
        && var batch := Downloads(protocol, session.state, Enabled(Forces()));
           sent <= |batch| && SentSince(old(device.log), device.log) == batch[..sent]
           && (ok ==> sent == |batch|)
           && Exchanged(batch, old(Live()), old(device.isOpen), old(Script()), ok,
                        old(device.log), device.log)
    {
      tried, results, sent, first, reply := [], [], 0, false, DefaultReport();
      if protocol == Protocol.HidppDialect {
        ok, tried, results, first, reply := DownloadSync();
        return;
      }
      ok, sent := WriteReports(Downloads(protocol, session.state, Enabled(Forces())));
    }

    /** The HID++ branch of `download_forces`. */
    method DownloadSync() returns (ok: bool, ghost tried: seq<Force>, ghost results: seq<bool>,
                                   ghost first: bool, ghost reply: Report)
      requires Valid() && protocol == Protocol.HidppDialect
      modifies session, device, device.lastInput
      ensures Valid() && old(device.log) <= device.log
      ensures KnownKept(old(session.state).slotByForce, session.state.slotByForce)
      ensures Bookkept(ok, Enabled(Forces()), tried, results)
      ensures SentSince(old(device.log), device.log) <= [Protocol.DownloadForce(protocol, old(session.state), constant)]
      ensures var live := old(Live());
        ok == (live && (!constant.enabled || first) && !spring.enabled && !damper.enabled && !trapezoid.enabled)
      ensures var live := old(Live());
        constant.enabled && live ==>
          DownloadResult(old(session.state), constant,
                         NextResult(old(Script())),
                         old(device.Inbound()), first, reply, session.state)
      ensures var live := old(Live());
        !(constant.enabled && live) ==>
          session.state == old(session.state) && SentSince(old(device.log), device.log) == []
      ensures ok && constant.enabled ==>
        SentSince(old(device.log), device.log) == [Protocol.DownloadForce(protocol, old(session.state), constant)]
        && session.state == old(session.state).(slotByForce := StoreHandle(old(session.state).slotByForce, constant.slot,
                                                                           reply.data[Off(old(session.state).includeIdInPayload) + 3]))
    {
      tried, results, first, reply := [], [], false, DefaultReport();
      ghost var log0, ctx0 := device.log, session.state;
      ghost var next := NextResult(if device.isOpen then device.outcomes else device.LaterOutcomes());
      ghost var inbox := device.Inbound();
      ok := OpenAndListen(device);
      if !ok {
        return;
      }
      assert device.NextOk() == next && device.Inbound() == inbox;
      ghost var log1 := device.log;
      ok, tried, results, first, reply := DownloadAll();
      ghost var log2, ctx2 := device.log, session.state;
      CloseQuietly();
      assert session.state == ctx2;
      Bracketed(log0, log1, log2, device.log);
    }

    /**
     * The four guarded downloads of the HID++ branch, on an open device. Only the
     * constant force has a HID++ download: the chain succeeds exactly when the constant
     * download, if enabled, succeeds and no other force is enabled, and only the
     * constant download reaches the device or changes the context.
     */
    method DownloadAll() returns (ok: bool, ghost tried: seq<Force>, ghost results: seq<bool>,
                                  ghost first: bool, ghost reply: Report)
      requires Valid() && device.handle != 0
      modifies session, device, device.lastInput
      ensures Valid() && old(device.log) <= device.log
      ensures KnownKept(old(session.state).slotByForce, session.state.slotByForce)
      ensures Bookkept(ok, Enabled(Forces()), tried, results)
      ensures SentSince(old(device.log), device.log) <= [Protocol.DownloadForce(Protocol.HidppDialect, old(session.state), constant)]
      ensures ok == ((!constant.enabled || first) && !spring.enabled && !damper.enabled && !trapezoid.enabled)
      ensures constant.enabled ==>
        tried != [] && tried[0] == constant && results[0] == first
        && DownloadResult(old(session.state), constant, old(device.NextOk()), old(device.Inbound()), first, reply, session.state)
      ensures constant.enabled && old(session.state).ffReady ==>
        SentSince(old(device.log), device.log) == [Protocol.DownloadForce(Protocol.HidppDialect, old(session.state), constant)]
      ensures !constant.enabled ==> session.state == old(session.state) && device.log == old(device.log)
    {
      ok, tried, results, reply := DownloadStep(constant, true, [], [], []);
      first := ok;
      assert [] + Keep(constant) == Keep(constant);
      ghost var tried1, results1 := tried, results;
      ok, tried, results := DownloadOthers(ok, Keep(constant), tried, results);
      assert constant.enabled ==> tried1 == [constant] && tried1 <= tried && results1 <= results;
      EnabledFour(constant, spring, damper, trapezoid);
    }

    /**
     * The guarded downloads of the spring, damper and trapezoid forces: none of them
     * has a HID++ download, so the chain fails if any is enabled, and nothing reaches
     * the device or changes the context.
     */
    method DownloadOthers(ok: bool, ghost done: seq<Force>, ghost tried: seq<Force>, ghost results: seq<bool>)
      returns (ok': bool, ghost tried': seq<Force>, ghost results': seq<bool>)
      requires Valid() && device.handle != 0 && Bookkept(ok, done, tried, results)
      modifies session, device, device.lastInput
      ensures Valid() && device.log == old(device.log) && session.state == old(session.state)
      ensures Bookkept(ok', done + Keep(spring) + Keep(damper) + Keep(trapezoid), tried', results')
      ensures ok' == (ok && !spring.enabled && !damper.enabled && !trapezoid.enabled)
      ensures tried <= tried' && results <= results'
    {
      ghost var r;
      ok', tried', results', r := DownloadStep(spring, ok, done, tried, results);
      ok', tried', results', r := DownloadStep(damper, ok', done + Keep(spring), tried', results');
      ok', tried', results', r := DownloadStep(trapezoid, ok', done + Keep(spring) + Keep(damper), tried', results');
    }

    /**
     * One guarded download: an enabled force is downloaded synchronously while every
     * earlier download succeeded, and `ok` becomes its result; otherwise nothing
     * happens. `done` lists the forces considered so far, `tried` those whose download
     * was attempted, with their results.
     */
    method DownloadStep(f: Force, ok: bool, ghost done: seq<Force>, ghost tried: seq<Force>, ghost results: seq<bool>)
      returns (ok': bool, ghost tried': seq<Force>, ghost results': seq<bool>, ghost reply: Report)
      requires Valid() && device.handle != 0 && Bookkept(ok, done, tried, results)
      modifies session, device, device.lastInput
      ensures Valid() && old(device.log) <= device.log
      ensures KnownKept(old(session.state).slotByForce, session.state.slotByForce)
      ensures Bookkept(ok', done + Keep(f), tried', results')
      ensures !(f.enabled && ok) ==>
        ok' == ok && tried' == tried && results' == results
        && device.log == old(device.log) && session.state == old(session.state)
      ensures f.enabled && ok ==>
        tried' == tried + [f] && results' == results + [ok']
        && DownloadResult(old(session.state), f, old(device.NextOk()), old(device.Inbound()), ok', reply, session.state)
      ensures f.enabled && ok && old(session.state).ffReady && f.effect.ConstantEffect? ==>
        SentSince(old(device.log), device.log) == [Protocol.DownloadForce(Protocol.HidppDialect, old(session.state), f)]
      ensures !f.effect.ConstantEffect? ==>
        device.log == old(device.log) && session.state == old(session.state) && (f.enabled && ok ==> !ok')
      ensures SentSince(old(device.log), device.log) <= [Protocol.DownloadForce(Protocol.HidppDialect, old(session.state), f)]
    {
      ghost var log0 := device.log;
      ok', tried', results', reply := ok, tried, results, DefaultReport();
      if f.enabled && ok {
        var r;
        r, reply := DownloadForceSync(session, device, f);
        ok', tried', results' := r, tried + [f], results + [r];
        BookkeptTry(done, tried, results, f, r);
      } else {
        SentSinceNothing(log0);
        BookkeptSkip(ok, done, tried, results, f);
      }
    }

    // --------------------------------------------------------------- queueing

    /** `q_disable_autocenter`. */
    method QDisableAutocenter()
      modifies this`reports
      ensures reports == old(reports) + [Protocol.DisableAutocenter(protocol, session.state, 0x0F)]
    {
      reports := reports + [Protocol.DisableAutocenter(protocol, session.state, 0x0F)];
    }

    /** `q_enable_autocenter`. */
    method QEnableAutocenter()
      modifies this`reports
      ensures reports == old(reports) + [Protocol.EnableAutocenter(protocol, session.state, 0x0F)]
    {
      reports := reports + [Protocol.EnableAutocenter(protocol, session.state, 0x0F)];
    }

    /**
     * `q_set_autocenter`: HID++ queues an autocenter of the given magnitude; the other
     * dialects queue disable for magnitude 0 and enable otherwise.
     */
    method QSetAutocenter(magnitude: bv16)
      modifies this`reports
      ensures protocol == Protocol.HidppDialect ==>
        reports == old(reports) + [SetAutocenter(session.state, magnitude)]
      ensures protocol != Protocol.HidppDialect && magnitude == 0 ==>
        reports == old(reports) + [Protocol.DisableAutocenter(protocol, session.state, 0x0F)]
      ensures protocol != Protocol.HidppDialect && magnitude != 0 ==>
        reports == old(reports) + [Protocol.EnableAutocenter(protocol, session.state, 0x0F)]
    {
      if protocol == Protocol.HidppDialect {
        reports := reports + [SetAutocenter(session.state, magnitude)];
        return;
      }
      if magnitude == 0 {
        QDisableAutocenter();
      } else {
        QEnableAutocenter();
      }
    }

    /** `q_download_forces`: one download report per enabled force, in order. */
    method QDownloadForces()
      modifies this`reports
      ensures reports == old(reports) + Downloads(protocol, session.state, Enabled(Forces()))
    {
      ghost var r0, ctx := reports, session.state;
      QueueDownload(constant);
      QueueDownload(spring);
      QueueDownload(damper);
      QueueDownload(trapezoid);
      Regroup(r0, Downloads(protocol, ctx, Keep(constant)), Downloads(protocol, ctx, Keep(spring)),
        Downloads(protocol, ctx, Keep(damper)), Downloads(protocol, ctx, Keep(trapezoid)));
      DownloadsOfFour(protocol, session.state, constant, spring, damper, trapezoid);
    }

    /** Queue the download report of `f` when it is enabled. */
    method QueueDownload(f: Force)
      modifies this`reports
      ensures reports == old(reports) + Downloads(protocol, session.state, Keep(f))
    {
      if f.enabled {
        reports := reports + [Protocol.DownloadForce(protocol, session.state, f)];
      }
    }

    /** `q_play_forces`: set `playing` and queue the play report of the enabled slots. */
    method QPlayForces()
      modifies this`playing, this`reports
      ensures playing
      ensures reports == old(reports) + [Protocol.PlayForce(protocol, session.state, Protocol.SlotMask(Forces()))]
    {
      playing := true;
      var slots := Protocol.SlotMask(Forces());
      reports := reports + [Protocol.PlayForce(protocol, session.state, slots)];
    }

    /** `q_stop_forces`: clear `playing` and queue the stop report for all slots. */
    method QStopForces()
      modifies this`playing, this`reports
      ensures !playing
      ensures reports == old(reports) + [Protocol.StopForce(protocol, session.state, 0x0F)]
    {
      playing := false;
      reports := reports + [Protocol.StopForce(protocol, session.state, 0x0F)];
    }

    /** `q_refresh_forces`: queue play first when not playing, then one refresh per enabled force. */
    method QRefreshForces()
      modifies this`playing, this`reports
      ensures playing
      ensures old(playing) ==> reports == old(reports) + RefreshBatch(protocol, session.state, Forces())
      ensures !old(playing) ==>
        reports == old(reports) + [Protocol.PlayForce(protocol, session.state, Protocol.SlotMask(Forces()))]
          + RefreshBatch(protocol, session.state, Forces())
    {
      if !playing {
        QPlayForces();
      }
      QueueRefreshes();
    }

    /** The refresh reports of `q_refresh_forces`, one per enabled force. */
    method QueueRefreshes()
      modifies this`reports
      ensures reports == old(reports) + RefreshBatch(protocol, session.state, Forces())
    {
      ghost var r0, ctx := reports, session.state;
      QueueRefresh(constant);
      QueueRefresh(spring);
      QueueRefresh(damper);
      QueueRefresh(trapezoid);
      Regroup(r0, Refreshes(protocol, ctx, Keep(constant)), Refreshes(protocol, ctx, Keep(spring)),
        Refreshes(protocol, ctx, Keep(damper)), Refreshes(protocol, ctx, Keep(trapezoid)));
      RefreshesOfFour(protocol, session.state, constant, spring, damper, trapezoid);
    }

    /** Queue the refresh report of `f` when it is enabled. */
    method QueueRefresh(f: Force)
      modifies this`reports
      ensures reports == old(reports) + Refreshes(protocol, session.state, Keep(f))
    {
      if f.enabled {
        reports := reports + [Protocol.RefreshForce(protocol, session.state, f)];
      }
    }

    /** `q_set_led_pattern`. */
    method QSetLedPattern(pattern: bv8)
      modifies this`reports
      ensures reports == old(reports) + [Protocol.SetLedPattern(protocol, pattern)]
    {
      reports := reports + [Protocol.SetLedPattern(protocol, pattern)];
    }

    /**
     * `flush_reports`: write the queue in one exchange and empty it, whatever the
     * outcome; on success every queued report reached the platform, in order.
     */
    method FlushReports() returns (ok: bool, ghost sent: nat)
      requires Valid()
      modifies this`reports, device
      ensures Valid() && reports == [] && old(device.log) <= device.log
      ensures sent <= |old(reports)| && SentSince(old(device.log), device.log) == old(reports)[..sent]
      ensures ok ==> SentSince(old(device.log), device.log) == old(reports)
      ensures Exchanged(old(reports), old(Live()), old(device.isOpen), old(Script()), ok,
                        old(device.log), device.log)
    {
      ok, sent := WriteReports(reports);
      reports := [];
    }

    // ------------------------------------------------------------------ init

    /**
     * `_init_protocol`. HID++: open, enable input reports, ping, init with the replied
     * index (each failure closes and answers false); then RESET_ALL and the baseline
     * autocenter on the open device, their failures ignored, close, true. Classic: the
     * init sequence of the device id, if any, in one exchange.
     */
    method InitProtocol() returns (ok: bool, ghost pinged: bool, ghost tried: nat, ghost pingReply: Report,
                                   ghost rootReply: Report, ghost rootSent: seq<Report>)
      requires Valid()
      modifies session, device, device.lastInput
      ensures Valid() && old(device.log) <= device.log
      ensures protocol == Protocol.HidppDialect && ok ==>
        session.state.ffReady
        && EndsWithReset(SentSince(old(device.log), device.log), session.state)
      ensures protocol == Protocol.HidppDialect ==>
        var live := old(Live());
        (!live ==> !ok && session.state == old(session.state) && SentSince(old(device.log), device.log) == [])
        && (live ==>
              HidppInitRun(old(session.state), old(Script()),
                           old(device.Inbound()), ok, pinged, tried, pingReply, rootReply, rootSent, session.state)
              && InitSent(old(device.log), device.log, tried, rootSent, ok, session.state))
      ensures protocol != Protocol.HidppDialect ==>
        session.state == old(session.state)
        && var init := Protocol.InitSequence(protocol, device.deviceId);
           (init == [] ==> ok && device.log == old(device.log))
           && (ok ==> SentSince(old(device.log), device.log) == init)
           && (init != [] ==>
                 Exchanged(init, old(Live()), old(device.isOpen), old(Script()), ok,
                           old(device.log), device.log))
    {
      pinged, tried, pingReply, rootReply, rootSent := false, 0, DefaultReport(), DefaultReport(), [];
      if protocol == Protocol.HidppDialect {
        ok, pinged, tried, pingReply, rootReply, rootSent := InitHidpp();
        return;
      }
      ok := InitClassic();
    }

    /** The classic branch of `_init_protocol`: the init sequence of the device id, if any, in one exchange. */
    method InitClassic() returns (ok: bool)
      requires Valid()
      modifies device
      ensures Valid() && old(device.log) <= device.log
      ensures var init := Protocol.InitSequence(protocol, device.deviceId);
        (init == [] ==> ok && device.log == old(device.log))
        && (ok ==> SentSince(old(device.log), device.log) == init)
        && (init != [] ==>
              Exchanged(init, old(Live()), old(device.isOpen), old(Script()), ok,
                        old(device.log), device.log))
    {
      var init := Protocol.InitSequence(protocol, device.deviceId);
      if init == [] {
        ok := true;
        return;
      }
      ghost var sent;
      ok, sent := WriteReports(init);
    }

    /**
     * The HID++ branch of `_init_protocol`: open and enable input reports, ping, look
     * up the Force Feedback feature, then send RESET_ALL and the baseline autocenter;
     * the device is closed after every step that fails once it is open, and at the end.
     */
    method InitHidpp() returns (ok: bool, ghost pinged: bool, ghost tried: nat, ghost pingReply: Report,
                                ghost rootReply: Report, ghost rootSent: seq<Report>)
      requires Valid()
      modifies session, device, device.lastInput
      ensures Valid() && old(device.log) <= device.log
      ensures ok ==>
        session.state.ffReady
        && EndsWithReset(SentSince(old(device.log), device.log), session.state)
      ensures var live := old(Live());
        !live ==> !ok && session.state == old(session.state) && SentSince(old(device.log), device.log) == []
      ensures var live := old(Live());
        live ==>
          HidppInitRun(old(session.state), old(Script()),
                       old(device.Inbound()), ok, pinged, tried, pingReply, rootReply, rootSent, session.state)
          && InitSent(old(device.log), device.log, tried, rootSent, ok, session.state)
    {
      pinged, tried, pingReply, rootReply, rootSent := false, 0, DefaultReport(), DefaultReport(), [];
      ghost var outcomes := if device.isOpen then device.outcomes else device.LaterOutcomes();
      ghost var inbox, ctx0 := device.Inbound(), session.state;
      ok := OpenAndListen(device);
      if !ok {
        return;
      }
      assert device.outcomes == outcomes && device.Inbound() == inbox && session.state == ctx0;
      ghost var log1 := device.log;
      ok, pinged, tried, pingReply, rootReply, rootSent := PingAndInit();
      FinishInit(ok, log1, tried, rootSent);
      AfterOpen(old(device.log), log1, device.log, tried, rootSent, ok, session.state);
    }

    /**
     * The end of `_init_protocol` on the open device: after a failed step only the
     * close; after success RESET_ALL and the baseline autocenter, then the close. What
     * the run sent since `log0` stays in front.
     */
    method FinishInit(ok: bool, ghost log0: seq<IoCall>, ghost tried: nat, ghost rootSent: seq<Report>)
      requires Valid() && device.handle != 0 && device.isOpen && (ok ==> session.state.ffReady)
      requires log0 <= device.log && tried <= |PingAttempts()|
      requires SentSince(log0, device.log) == PingRequests(PingAttempts()[..tried]) + rootSent
      modifies device
      ensures Valid() && old(device.log) <= device.log
      ensures InitSent(log0, device.log, tried, rootSent, ok, session.state)
    {
      ghost var log2 := device.log;
      if !ok {
        CloseQuietly();
      } else {
        ResetAndBaseline();
      }
      InitSentStep(log0, log2, device.log, tried, rootSent, ok, session.state);
    }

    /**
     * The ping and the feature lookup of `_init_protocol`, on an open device: the run
     * HidppInitRun describes, and the requests it sends.
     */
    method PingAndInit() returns (ok: bool, ghost pinged: bool, ghost tried: nat, ghost pingReply: Report,
                                  ghost rootReply: Report, ghost rootSent: seq<Report>)
      requires Valid() && device.handle != 0 && device.isOpen
      modifies session, device, device.lastInput
      ensures Valid() && old(device.log) <= device.log && device.isOpen
      ensures HidppInitRun(old(session.state), old(device.outcomes), old(device.Inbound()),
                           ok, pinged, tried, pingReply, rootReply, rootSent, session.state)
      ensures SentSince(old(device.log), device.log) == PingRequests(PingAttempts()[..tried]) + rootSent
    {
      rootReply, rootSent := DefaultReport(), [];
      ghost var log0, ctx0 := device.log, session.state;
      var index;
      ok, index, tried, pingReply := PingDevice();
      pinged := ok;
      if !ok {
        UnansweredRun(ctx0, old(device.outcomes), old(device.Inbound()), index, tried, pingReply, session.state,
                      device.outcomes, device.Inbound());
        return;
      }
      ghost var log1, ctx1, outcomes1, inbox1 := device.log, session.state, device.outcomes, device.Inbound();
      ok, rootReply, rootSent := LookUpFeature(index);
      SentSinceExtend(log0, log1, device.log);
      PingedRun(ctx0, old(device.outcomes), old(device.Inbound()), index, tried, pingReply, ctx1, outcomes1, inbox1,
                ok, rootReply, rootSent, session.state);
    }

    /**
     * `hidpp_init` for the index the ping replied with, then `dev_index` set again as
     * `_init_protocol` does: the lookup RootRun describes, and the requests it sends.
     */
    method LookUpFeature(index: bv8) returns (ok: bool, ghost rootReply: Report, ghost rootSent: seq<Report>)
      requires Valid() && device.handle != 0 && device.isOpen
      modifies session, device, device.lastInput
      ensures Valid() && old(device.log) <= device.log && device.isOpen
      ensures RootRun(old(session.state).(devIndex := index), index, old(device.outcomes), old(device.Inbound()),
                      ok, rootReply, rootSent, session.state)
      ensures SentSince(old(device.log), device.log) == rootSent
    {
      ghost var log0 := device.log;
      ok, rootReply := Init(session, device, index);
      rootSent := SentSince(log0, device.log);
      if ok {
        session.state := session.state.(devIndex := index);
      }
    }

    /** `hidpp_ping` with its default 250 ms timeout; on success, the index the device replied with. */
    method PingDevice() returns (ok: bool, index: bv8, ghost tried: nat, ghost reply: Report)
      requires Valid() && device.handle != 0 && device.isOpen
      modifies session, device, device.lastInput
      ensures Valid() && old(device.log) <= device.log && device.isOpen && tried <= |PingAttempts()|
      ensures SentSince(old(device.log), device.log) == PingRequests(PingAttempts()[..tried])
      ensures PingRun(old(session.state), old(device.outcomes), old(device.Inbound()), ok, index, tried, reply,
                      session.state, device.outcomes, device.Inbound())
    {
      var major, minor;
      ok, major, minor, index, tried, reply := Ping(session, device, 250);
    }

    /**
     * The end of `_init_protocol` once the Force Feedback feature is ready: RESET_ALL
     * and the baseline autocenter on the open device, their failures ignored, then close.
     */
    method ResetAndBaseline()
      requires Valid() && device.handle != 0 && session.state.ffReady
      modifies device
      ensures Valid() && old(device.log) <= device.log
      ensures SentSince(old(device.log), device.log)
        == [ResetAll(session.state), SetAutocenter(session.state, BaselineAutocenter)]
      ensures old(device.isOpen) ==> EndsClosed(old(device.log), device.log)
    {
      ghost var log0 := device.log;
      var a, b := ResetAll(session.state), SetAutocenter(session.state, BaselineAutocenter);
      WriteOpen(a);
      ghost var log1 := device.log;
      WriteOpen(b);
      ghost var log2 := device.log;
      CloseQuietly();
      TwoThenClose(log0, log1, log2, device.log, a, b);
    }

    /** A close whose result is ignored: it sends no report. */
    method CloseQuietly()
      requires Valid()
      modifies device
      ensures Valid() && old(device.log) <= device.log && SentSince(old(device.log), device.log) == []
      ensures device.log == old(device.log)
        + (if device.handle != 0 && old(device.isOpen) then [IoClose(old(device.NextOk()))] else [])
      ensures device.handle != 0 ==> device.isOpen == (old(device.isOpen) && !old(device.NextOk()))
    {
      ghost var log0 := device.log;
      var closed := device.Close();
      NothingSent(log0, device.log, IoClose(closed));
    }

    /** A write whose result is ignored, for a report from a ready context. */
    method WriteOpen(r: Report)
      requires device.Valid() && device.handle != 0 && Writable(r)
      modifies device
      ensures device.Valid() && old(device.log) <= device.log
      ensures SentSince(old(device.log), device.log) == [r]
      ensures device.isOpen == old(device.isOpen)
    {
      ghost var log0 := device.log;
      var w := device.Write(r);
      assert device.log[|log0|..] == [IoSetReport(r, w)];
    }
  }

  /**
   * An open that sent nothing, followed by the init run on the open device: what the
   * run sent is all that was sent, it ends with a close, and on success with RESET_ALL
   * and the baseline autocenter.
   */
  lemma AfterOpen(log0: seq<IoCall>, log1: seq<IoCall>, log: seq<IoCall>, tried: nat, rootSent: seq<Report>,
                  ok: bool, ctx: Ctx)
    requires log0 <= log1 && SentSince(log0, log1) == [] && InitSent(log1, log, tried, rootSent, ok, ctx)
    ensures InitSent(log0, log, tried, rootSent, ok, ctx)
    ensures ok ==> EndsWithReset(SentSince(log0, log), ctx)
  {
    SentSinceExtend(log0, log1, log);
    EndsWithTwo(PingRequests(PingAttempts()[..tried]) + rootSent, ResetAll(ctx), SetAutocenter(ctx, BaselineAutocenter));
  }


  /** A ping that found no reply ends the init run with nothing else sent and the context unchanged. */
  lemma UnansweredRun(ctx: Ctx, outcomes: seq<bool>, s: Inbox, index: bv8, tried: nat, pingReply: Report, ctx': Ctx,
                      outcomes': seq<bool>, s': Inbox)
    requires s.Valid() && PingRun(ctx, outcomes, s, false, index, tried, pingReply, ctx', outcomes', s')
    ensures HidppInitRun(ctx, outcomes, s, false, false, tried, pingReply, DefaultReport(), [], ctx')
  {
  }

  /** A ping that found a reply, followed by the root lookup on the replied index, is the init run. */
  lemma PingedRun(ctx: Ctx, outcomes: seq<bool>, s: Inbox, index: bv8, tried: nat, pingReply: Report, ctx1: Ctx,
                  outcomes1: seq<bool>, s1: Inbox, ok: bool, rootReply: Report, rootSent: seq<Report>, ctx': Ctx)
    requires s.Valid() && PingRun(ctx, outcomes, s, true, index, tried, pingReply, ctx1, outcomes1, s1)
    requires s1.Valid() && RootRun(ctx1.(devIndex := index), index, outcomes1, s1, ok, rootReply, rootSent, ctx')
    ensures HidppInitRun(ctx, outcomes, s, ok, true, tried, pingReply, rootReply, rootSent, ctx')
  {
  }

  /** The init run's pings and lookup, then RESET_ALL and the baseline autocenter on success, and a close. */
  lemma InitSentStep(log0: seq<IoCall>, log2: seq<IoCall>, log: seq<IoCall>, tried: nat, rootSent: seq<Report>,
                     ok: bool, ctx: Ctx)
    requires log0 <= log2 <= log && tried <= |PingAttempts()|
    requires SentSince(log0, log2) == PingRequests(PingAttempts()[..tried]) + rootSent
    requires SentSince(log2, log) == (if ok then [ResetAll(ctx), SetAutocenter(ctx, BaselineAutocenter)] else [])
    requires EndsClosed(log2, log)
    ensures InitSent(log0, log, tried, rootSent, ok, ctx)
  {
    SentSinceExtend(log0, log2, log);
  }

  /**
   * Two `_write_report` exchanges chained by `ok = ok && ...`, each with what WriteReport
   * promises: together they are ExchangedTwice, and what they send is a prefix of the
   * two reports, the first alone after a first failure and both on success.
   */
  lemma ChainedWrites(a: Report, b: Report, live: bool, wasOpen: bool, outcomes: seq<bool>, firstOk: bool,
                      live': bool, wasOpen': bool, outcomes': seq<bool>, ok: bool,
                      log0: seq<IoCall>, mid: seq<IoCall>, log: seq<IoCall>)
    requires log0 <= mid <= log
    requires SentSince(log0, mid) <= [a] && (firstOk ==> SentSince(log0, mid) == [a])
    requires Exchanged([a], live, wasOpen, outcomes, firstOk, log0, mid)
    requires !firstOk ==> ok == firstOk && log == mid
    requires firstOk ==>
      var left := LaterResults(WriteRun([a], outcomes).outcomes);
      live' == NextResult(left) && !wasOpen' && outcomes' == LaterResults(left)
      && SentSince(mid, log) <= [b] && (ok ==> SentSince(mid, log) == [b])
      && Exchanged([b], live', wasOpen', outcomes', ok, mid, log)
    ensures SentSince(log0, log) <= [a, b]
    ensures !firstOk ==> !ok && SentSince(log0, log) <= [a, b][..1]
    ensures ok ==> firstOk && SentSince(log0, log) == [a, b]
    ensures ExchangedTwice(a, b, live, wasOpen, outcomes, firstOk, ok, log0, mid, log)
  {
    if !firstOk {
      PrefixOfPair(SentSince(log0, mid), a, b);
    } else {
      SentSinceExtend(log0, mid, log);
      PairPrefix(SentSince(log0, mid), SentSince(mid, log), a, b);
    }
  }

  /**
   * The steps of `_write_report` make up the write exchange of its one report: the open
   * (`log1`, when the device is live), the guarded write answering `w` (`log2`), and the
   * close after a successful write.
   */
  lemma OneExchange(r: Report, live: bool, wasOpen: bool, outcomes: seq<bool>, log1: seq<IoCall>, w: bool,
                    log2: seq<IoCall>, ok: bool, log0: seq<IoCall>, log: seq<IoCall>)
    requires !live ==> !ok && (log == log0 || log == log0 + [IoOpen(false)])
    requires live ==> log1 == log0 + (if wasOpen then [] else [IoOpen(true)])
    requires live ==>
      log2 == log1 + (if Writable(r) then [IoSetReport(r, w)] else [])
      && (w ==> Writable(r)) && (Writable(r) ==> w == NextResult(outcomes))
    requires live && !w ==> !ok && log == log2
    requires live && w ==> ok == NextResult(LaterResults(outcomes)) && log == log2 + [IoClose(ok)]
    ensures Exchanged([r], live, wasOpen, outcomes, ok, log0, log)
    ensures live && w ==> LaterResults(WriteRun([r], outcomes).outcomes) == LaterResults(LaterResults(outcomes))
  {
    WriteRunOne(r, outcomes);
  }

  /** A prefix of `[a]` is a prefix of `[a, b]` and of its first element. */
  lemma PrefixOfPair<T>(x: seq<T>, a: T, b: T)
    requires x <= [a]
    ensures x <= [a, b] && x <= [a, b][..1]
  {
  }

  /** `[a]` followed by a prefix of `[b]` is a prefix of `[a, b]`. */
  lemma PairPrefix<T>(x: seq<T>, y: seq<T>, a: T, b: T)
    requires x == [a] && y <= [b]
    ensures x + y <= [a, b]
  {
  }

  /** A sequence that ends with two given elements ends with them. */
  lemma EndsWithTwo<T>(a: seq<T>, x: T, y: T)
    ensures var s := a + [x, y]; |s| >= 2 && s[|s| - 2..] == [x, y]
  {
    var s := a + [x, y];
    assert s[|s| - 2..] == [s[|a|], s[|a| + 1]];
  }

  /** An open or a close hands no report to the platform. */
  lemma NothingSent(before: seq<IoCall>, after: seq<IoCall>, c: IoCall)
    requires !c.IoSetReport? && (after == before || after == before + [c])
    ensures before <= after && SentSince(before, after) == []
  {
    assert after[|before|..] == [] || after[|before|..] == [c];
  }

  /** A download tried after successes extends the bookkeeping by its force and result. */
  lemma BookkeptTry(done: seq<Force>, tried: seq<Force>, results: seq<bool>, f: Force, r: bool)
    requires Bookkept(true, done, tried, results) && f.enabled && (r ==> f.effect.ConstantEffect?)
    ensures Bookkept(r, done + Keep(f), tried + [f], results + [r])
  {
    var rs := results + [r];
    assert rs[|results|] == r;
    assert forall i :: 0 <= i < |results| ==> rs[i] == results[i];
  }

  /** A disabled force, or any force after a failure, leaves the bookkeeping as it was. */
  lemma BookkeptSkip(ok: bool, done: seq<Force>, tried: seq<Force>, results: seq<bool>, f: Force)
    requires Bookkept(ok, done, tried, results) && !(ok && f.enabled)
    ensures Bookkept(ok, done + Keep(f), tried, results)
  {
    if ok {
      assert done + Keep(f) == done;
    }
  }

  /** Four appends to a queue append their concatenation. */
  lemma Regroup<T>(q: seq<T>, a: seq<T>, b: seq<T>, c: seq<T>, d: seq<T>)
    ensures q + a + b + c + d == q + (a + b + c + d)
  {
  }

  /** Two writes sending `a` and `b`, then a close that sends nothing, send exactly `[a, b]`. */
  lemma TwoThenClose(log0: seq<IoCall>, log1: seq<IoCall>, log2: seq<IoCall>, log: seq<IoCall>, a: Report, b: Report)
    requires log0 <= log1 <= log2 <= log
    requires SentSince(log0, log1) == [a] && SentSince(log1, log2) == [b] && SentSince(log2, log) == []
    ensures SentSince(log0, log) == [a, b]
  {
    SentSinceExtend(log0, log1, log2);
    SentSinceExtend(log0, log2, log);
    assert [a] + [b] + [] == [a, b];
  }

  /** An exchange whose opening and closing calls send nothing sends what its middle sends. */
  lemma Bracketed(log0: seq<IoCall>, log1: seq<IoCall>, log2: seq<IoCall>, log3: seq<IoCall>)
    requires log0 <= log1 <= log2 <= log3
    requires SentSince(log0, log1) == [] && SentSince(log2, log3) == []
    ensures SentSince(log0, log3) == SentSince(log1, log2)
  {
    SentSinceExtend(log0, log1, log2);
    SentSinceExtend(log0, log2, log3);
    assert [] + SentSince(log1, log2) == SentSince(log1, log2);
    assert SentSince(log1, log2) + [] == SentSince(log1, log2);
  }

  /** A call that succeeded, or no call at all, adds no failure to the log. */
  lemma Succeeded(before: seq<IoCall>, after: seq<IoCall>, c: IoCall)
    requires c.ok && (after == before || after == before + [c])
    ensures before <= after && NoFailure(after[|before|..])
  {
    assert after[|before|..] == [] || after[|before|..] == [c];
  }

  /** Two stretches without failure make one. */
  lemma NoFailureExtend(log0: seq<IoCall>, log1: seq<IoCall>, log2: seq<IoCall>)
    requires log0 <= log1 <= log2
    requires NoFailure(log1[|log0|..]) && NoFailure(log2[|log1|..])
    ensures NoFailure(log2[|log0|..])
  {
    var a, b := log1[|log0|..], log2[|log1|..];
    var ab: seq<IoCall> := a + b;
    assert log2[|log0|..] == ab;
    forall i | 0 <= i < |ab|
      ensures ab[i].ok
    {
      if i < |a| {
        assert ab[i] == a[i];
      } else {
        assert ab[i] == b[i - |a|];
      }
    }
  }

  /** One more write: the report reaches the platform exactly when it passes the guard. */
  lemma WriteStep(log0: seq<IoCall>, log1: seq<IoCall>, log2: seq<IoCall>, rs: seq<Report>, i: nat, w: bool)
    requires log0 <= log1 && i < |rs| && SentSince(log0, log1) == rs[..i]
    requires log2 == log1 + (if Writable(rs[i]) then [IoSetReport(rs[i], w)] else [])
    ensures log0 <= log2
    ensures SentSince(log0, log2) == if Writable(rs[i]) then rs[..i + 1] else rs[..i]
  {
    assert log2[|log1|..] == (if Writable(rs[i]) then [IoSetReport(rs[i], w)] else []);
    SentSinceExtend(log0, log1, log2);
    assert rs[..i + 1] == rs[..i] + [rs[i]];
  }
}
