# fffb force-feedback engine: a Dafny model

This project models the force-feedback core of fffb. fffb drives Logitech racing
wheels (G920, G923, G29) on macOS. The model covers four parts:

- **The HID report record and its guards** (`hid/report.hxx`). A report has an id, a
  kind, a length and a 64-byte buffer. Writing refuses empty and oversized reports.
  Reading clamps the returned length at zero.
- **The device wrapper** (`hid/device.hxx`), as the class `Device.HidDevice`.
  - open and close are idempotent. A successful open registers the input callback.
  - The input callback clamps the length, copies the bytes and marks an input ready.
  - `read_input` pumps the run loop in 10 ms slices until a report arrives or the
    deadline passes.
  - IOKit itself is replaced by a script of call outcomes, a script of run-loop
    deliveries and a log of the calls made.
- **The protocol** (`joy/protocol.hxx`). It has two dialects.
  - The classic Logitech dialect uses 8-byte reports that carry a slot nibble and a
    subcommand.
  - The HID++ 2.0 dialect is used by the G920. Its parts are:
    - the process-wide context `hidpp_ctx()`, modelled as the class
      `Session.HidppContext`;
    - the ping that finds the device index and report framing;
    - the root GetFeature lookup of the Force Feedback feature (0x8123);
    - the Force Feedback command framing;
    - the amplitude-to-level mapping;
    - the synchronous download that records the effect handle the device assigns.
  - The report builders return an empty report for a command the dialect does not
    implement.
- **The `wheel` object** (`joy/wheel.hxx`), as the class `Wheel.Wheel`.
  - It holds four force parameter sets, the `playing` flag and a queue of reports.
  - Immediate commands open the device, write and close it.
  - Queued commands append to the queue, and `flush_reports` writes the queue.
  - Downloads are synchronous per force in HID++ and batched in classic.
  - `_init_protocol` pings and initialises a HID++ wheel, or sends the classic init
    sequence.

The modules are `Bytes`, `Reports`, `Forces`, `Classic`, `Hidpp`, `Protocol`,
`Device`, `Session` and `Wheel`. Every file imports only these.

The main properties proved:

- **What reaches the platform.** Each wheel operation states exactly which reports
  were handed to the platform, and in which order. Examples:
  - `flush_reports` sends a prefix of the queue, and on success the whole queue.
  - `stop_forces` in HID++ sends RESET_ALL, then the baseline autocenter only after
    the reset succeeded.
  - The HID++ `download_forces` tries the downloads in order, stops at the first
    failure, and can only succeed when every enabled force is a constant force.
- **Round trips.** A classic effect download decodes back to its slot nibble and the
  wire form of its payload, and so does its refresh. The two bytes of a HID++ level
  decode back to the level.
- **The ping.** Every one of the 32 ping attempts, answered by an echo, is accepted.
  The device index and the protocol version are read back from the echo.
- **The slot-handle table.** It never forgets a handle once the handle is known.
- **The amplitude-to-level mapping.** It is monotone, maps 128 to 0, and reaches the
  16-bit extremes at 0 and 255.
- **Reads.** `read_input` returns the first report delivered within its budget of
  ⌈timeout / 10⌉ empty slices, or nothing if none arrives.

## Model

| member | source | states |
|---|---|---|
| Bytes.S16RoundTrip | include/fffb/joy/protocol.hxx:1186-1202 | the two big-endian bytes written for a signed 16-bit level decode back to that level |
| Reports.DefaultReport | include/fffb/hid/report.hxx:23-40 | a value-initialised report has id 0, kind output, length 0 and an all-zero buffer |
| Reports.DefaultReportNotWritable | include/fffb/hid/report.hxx:43-50 | the write guard refuses the value-initialised (empty) report |
| Reports.Writable | include/fffb/hid/report.hxx:46 | defines write_report's length guard: a report is written only when its length is 1 to 64 |
| Reports.ReadReport | include/fffb/hid/report.hxx:67-87 | a failed platform read leaves the report untouched; a successful one gives the reported length clamped at 0 and the filled buffer, and keeps the id and kind |
| Forces.ParamBytes | include/fffb/joy/protocol.hxx:79-145 | every payload occupies exactly the seven parameter bytes of the force union |
| Classic.ClassicReport | include/fffb/joy/protocol.hxx:237-297 | a classic report is an 8-byte output report with id 0: the given leading bytes, then zeros |
| Classic.EncodeEffect | include/fffb/joy/protocol.hxx:1120-1331 | a classic download puts the slot nibble in the high half of byte 0 with operation 0, the subcommand of the effect kind in byte 1 and zero in byte 7, and repeats a constant's amplitude in bytes 2-5 |
| Classic.EffectBytes | include/fffb/joy/protocol.hxx:1120-1331 | each classic effect layout is seven bytes |
| Classic.DecodeEncode | include/fffb/joy/protocol.hxx:1120-1331 | decoding an encoded effect gives back its slot nibble and the wire form of its payload (slopes cut to 3 bits, inversion flags to 1 bit) |
| Classic.EncodeCanonical | include/fffb/joy/protocol.hxx:1214-1331 | encoding the wire form of a payload gives the same report as encoding the payload: the wire form loses nothing the encoder sends |
| Classic.RefreshByte | include/fffb/joy/protocol.hxx:1016-1024 | the refresh rewrite keeps the slot nibble and sets the operation nibble to 0xC |
| Classic.Refreshed | include/fffb/joy/protocol.hxx:1016-1024 | a refresh keeps id, kind, length and bytes 1-63 of the download, and changes only byte 0's operation nibble to 0xC |
| Classic.DecodeRefreshed | include/fffb/joy/protocol.hxx:1016-1024 | a classic refresh decodes to the same slot and wire payload as the download it refreshes |
| Classic.RefreshIdempotent | include/fffb/joy/protocol.hxx:1016-1024 | refreshing a report twice is refreshing it once |
| Classic.LedReport | include/fffb/joy/protocol.hxx:893-907 | the LED report is 0xF8 0x12 followed by the pattern cut to five bits |
| Classic.LedReportInjective | include/fffb/joy/protocol.hxx:893-907 | two patterns give the same LED report exactly when their low five bits agree |
| Classic.AutocenterReport | include/fffb/joy/protocol.hxx:946-964 | classic set-autocenter carries the slot nibble with operation 0xE, forces the low three bits of both slope bytes on, and reads the amplitude from parameter byte 6 whatever the payload kind |
| Classic.SlotsReport | include/fffb/joy/protocol.hxx:910-944 | a slot command has the slot mask in the high nibble and the subcommand in the low nibble of byte 0, and zeros elsewhere |
| Classic.SlotCommand | include/fffb/joy/protocol.hxx:912 | defines the `(slots << 4) \| sub` command byte, truncated to eight bits |
| Classic.SlotCommandNibbles | include/fffb/joy/protocol.hxx:912 | the command byte's high nibble is the low slot nibble and its low nibble the subcommand |
| Classic.InitReport | include/fffb/joy/protocol.hxx:1099-1118 | the G923/G29 init report: an 8-byte, id-0 report that passes the write guard, bytes 30 F8 09 05 01 and then zeros |
| Hidpp.DefaultCtx | include/fffb/joy/protocol.hxx:31-47 | the initial context: index 0xFF, software id 0x0E, report 0x12 of 64 bytes, id not in payload, feature index 0, not ready, 16 empty slot handles |
| Hidpp.ReportLenForId | include/fffb/joy/protocol.hxx:663-672 | report 0x10 is 7 bytes, 0x11 is 20, every other id 64 |
| Hidpp.FfFrame | include/fffb/joy/protocol.hxx:674-719 | a command uses the learned framing when header and parameters fit it, else the 64-byte report 0x12; the frame always holds the header and fits a report |
| Hidpp.ParamsSent | include/fffb/joy/protocol.hxx:674-719 | the number of parameters copied never exceeds what was given or what the frame holds, and is all of them whenever they fit 64 bytes |
| Hidpp.FfCmd | include/fffb/joy/protocol.hxx:674-719 | a Force Feedback command is a writable output report in its frame: optional id byte, device index, feature index, function, the parameters that fit, then zeros |
| Hidpp.WriteHeader | include/fffb/joy/protocol.hxx:705-712 | the framing step of `_hidpp_ff_cmd` leaves the cursor after the header and the buffer holding the header followed by zeros |
| Hidpp.PutNext | include/fffb/joy/protocol.hxx:714-715 | each parameter copy appends one byte at the cursor and keeps the rest of the buffer zero |
| Hidpp.BuildFfCmd | include/fffb/joy/protocol.hxx:674-719 | the byte-by-byte construction (header writes, then the copy loop bounded by the frame) builds exactly FfCmd |
| Hidpp.CopyParams | include/fffb/joy/protocol.hxx:715-716 | the copy loop writes the first min(count, room) parameters after the header and leaves the rest zero |
| Hidpp.TruncDiv | include/fffb/joy/protocol.hxx:1186-1202 | C++ division truncates toward zero for negative dividends |
| Hidpp.AmplitudeToLevel | include/fffb/joy/protocol.hxx:1186-1202 | the level is in the signed 16-bit range: the upper half is scaled by 0x7FFF/127 (truncated), the lower half by 256 |
| Hidpp.LevelEndpoints | include/fffb/joy/protocol.hxx:1186-1202 | 128 maps to 0, 255 to 0x7FFF and 0 to -0x8000; the level's sign is the side of 128 the amplitude lies on |
| Hidpp.LevelMonotone | include/fffb/joy/protocol.hxx:1186-1202 | a larger amplitude never gives a smaller level |
| Hidpp.LevelFor | include/fffb/joy/protocol.hxx:1186-1202 | the unclamped level of every amplitude 0..255 already lies in the signed 16-bit range, so the clamps never apply, and it is non-negative exactly from 128 up |
| Hidpp.LevelForMonotone | include/fffb/joy/protocol.hxx:1186-1202 | the unclamped level never decreases as the amplitude grows, across the two halves of the mapping |
| Hidpp.ConstantDownloadParams | include/fffb/joy/protocol.hxx:1186-1205 | the 14 download parameters: the handle, CONSTANT or AUTOSTART, the level big-endian at bytes 6-7 (decoding back to the level), zeros elsewhere |
| Hidpp.AutocenterParams | include/fffb/joy/protocol.hxx:1045-1067 | the 18 autocenter parameters: handle 0, SPRING or AUTOSTART, zero duration and delay, the right-side pair mirroring the left |
| Hidpp.AutocenterParamsMeaning | include/fffb/joy/protocol.hxx:1045-1067 | both coefficients read back as magnitude / 2 and both saturations as magnitude / 8 |
| Hidpp.ResetAll | include/fffb/joy/protocol.hxx:1038-1043 | RESET_ALL with no parameters once the feature is ready, the empty report before |
| Hidpp.SetAutocenter | include/fffb/joy/protocol.hxx:1045-1067 | an autocenter spring download once ready, the empty report before |
| Hidpp.ConstantDownload | include/fffb/joy/protocol.hxx:1120-1212 | the HID++ constant download: DOWNLOAD_EFFECT of the slot's handle and the mapped level once ready, empty before |
| Hidpp.PlayPlaceholder | include/fffb/joy/protocol.hxx:982-1014 | the HID++ play report is function 0 carrying the slot mask once ready, empty before |
| Hidpp.ConstantDownloadCarriesLevel | include/fffb/joy/protocol.hxx:1120-1212 | a ready constant download is writable and carries the slot's handle and the level, which reads back exactly |
| Hidpp.Normalize | include/fffb/joy/protocol.hxx:365-384 | a reply becomes a message starting with its report id: as is when the id is in the payload, otherwise the id followed by the payload |
| Hidpp.NormalizeOverrun | include/fffb/joy/protocol.hxx:365-384 | a 64-byte reply without its id in the payload makes normalize write 65 bytes into its 64-byte buffer (the root lookup's copy at protocol.hxx:612-619 does the same) |
| Hidpp.AttemptsFor | include/fffb/joy/protocol.hxx:510-533 | four attempts per candidate index |
| Hidpp.PingAttempts | include/fffb/joy/protocol.hxx:325-533 | the ping makes 32 attempts: 8 candidate indices × id in payload or not × short or long request |
| Hidpp.AttemptsForIndex | include/fffb/joy/protocol.hxx:386-533 | attempt 4q+r addresses candidate q, includes the id for r < 2, and uses report 0x10 for r = 0 or 2 |
| Hidpp.PingRequest | include/fffb/joy/protocol.hxx:390-450 | a ping request is writable, with length 7/6 (short) or 20/19 (long) depending on whether the id is in the payload |
| Hidpp.PingRequests | include/fffb/joy/protocol.hxx:386-533 | the requests of a run of attempts, one per attempt, in order |
| Hidpp.PingEcho | include/fffb/joy/protocol.hxx:472-503 | an echoing device replies with the request's id and length |
| Hidpp.EchoAccepted | include/fffb/joy/protocol.hxx:472-503 | an echoed request passes the acceptance test, and the version bytes and the addressed index are read back from it |
| Hidpp.PingAccepts | include/fffb/joy/protocol.hxx:472-491 | defines the ping reply filter: at least 7 bytes, a HID++ report id, the addressed index or 0xFF/0x00, root feature 0, our function byte and our ping tag |
| Hidpp.PingEchoAccepted | include/fffb/joy/protocol.hxx:472-533 | for every one of the 32 attempts, an echo is accepted and yields the version and the addressed index |
| Hidpp.LearnFraming | include/fffb/joy/protocol.hxx:494-499 | an accepted ping teaches the context the reply's report id, its length and whether its id is in the payload, and nothing else |
| Hidpp.RootRequest | include/fffb/joy/protocol.hxx:546-586 | the root request uses the learned report id (0x12 if none), is 7 or 6 bytes, and carries the device index, root index 0, the function byte and the feature id big-endian |
| Hidpp.RootAccepts | include/fffb/joy/protocol.hxx:622-632 | defines the root reply filter: at least 7 bytes, our device index, root feature 0, our function byte, a HID++ report id, and a feature index other than 0x00 and 0xFF |
| Hidpp.RootEcho | include/fffb/joy/protocol.hxx:622-634 | a device's answer to a root request: the request's length and report id, with the feature index and type in bytes 3 and 4 after the device index |
| Hidpp.RootEchoAccepted | include/fffb/joy/protocol.hxx:600-634 | an answer naming a found feature, in either framing, passes the root filter and yields that feature index and type |
| Hidpp.RootNotFoundRejected | include/fffb/joy/protocol.hxx:632 | a reply naming 0x00 or 0xFF as the feature index is never accepted |
| Hidpp.EchoCorrelates | include/fffb/joy/protocol.hxx:721-757 | a reply echoing a command's header is recognised as its reply, whatever bit 7 of the function byte |
| Hidpp.OtherCommandRejected | include/fffb/joy/protocol.hxx:721-757 | a reply to another command is never taken for this one |
| Hidpp.Correlates | include/fffb/joy/protocol.hxx:743-755 | defines the command reply filter: long enough for the header, our device index and Force Feedback index, and our command with bit 7 ignored |
| Hidpp.StoreHandle | include/fffb/joy/protocol.hxx:759-800 | a non-zero returned handle replaces the entry of the force's slot nibble, every other entry is kept, and a zero handle changes nothing |
| Hidpp.StoreHandleKeepsKnown | include/fffb/joy/protocol.hxx:759-800 | a known (non-zero) handle is never forgotten |
| Hidpp.HandleFor | include/fffb/joy/protocol.hxx:775 | defines the lookup of a force's slot-table entry by its slot nibble |
| Hidpp.HandleForStored | include/fffb/joy/protocol.hxx:775-797 | looking up a slot right after recording a handle gives that handle, or the old entry when the device returned 0 |
| Hidpp.BuildOutput | include/fffb/joy/protocol.hxx:819-847 | corrected: an output report in the learned report id, always writable; the id first when it goes in the payload, then the device index, feature index and function byte, then as many parameters as fit, and zeros from the length to the end |
| Hidpp.BuildOutputOverrun | include/fffb/joy/protocol.hxx:819-847 | as written, 61 parameters with the id in the payload (62 without) make BuildOutputAsWritten 65 bytes long, past the 64-byte buffer, where the corrected builder stops at 64 |
| Hidpp.BuildOutputAsWritten | include/fffb/joy/protocol.hxx:819-847 | as written: the optional id, the three header bytes and then every parameter, each parameter right after the header, with no bound |
| Hidpp.BuildOutputAgrees | include/fffb/joy/protocol.hxx:819-847 | the corrected report holds the as-written bytes up to its length, and all of them whenever they fit in 64 bytes |
| Protocol.SupportedProtocol | include/fffb/joy/protocol.hxx:1335-1350 | non-Logitech vendors are unsupported; Logitech products 0xC261/0xC262 speak HID++, every other Logitech product classic (each as an iff) |
| Protocol.SetLedPattern | include/fffb/joy/protocol.hxx:893-907 | the LED report in classic, the empty report otherwise |
| Protocol.DisableAutocenter | include/fffb/joy/protocol.hxx:910-927 | classic slot command 5; HID++ autocenter of magnitude 0; empty when unsupported |
| Protocol.EnableAutocenter | include/fffb/joy/protocol.hxx:930-944 | classic slot command 4; HID++ autocenter at the baseline 0x0C00; empty when unsupported |
| Protocol.SetAutocenter | include/fffb/joy/protocol.hxx:946-964 | the classic autocenter report, empty in the other dialects |
| Protocol.DownloadForce | include/fffb/joy/protocol.hxx:966-978 | classic encodes every effect; HID++ downloads only a constant force; everything else is empty |
| Protocol.PlayForce | include/fffb/joy/protocol.hxx:982-1014 | classic slot command 2; the HID++ placeholder; empty when unsupported |
| Protocol.RefreshForce | include/fffb/joy/protocol.hxx:1016-1024 | a refresh is the download with byte 0's operation nibble set to 0xC |
| Protocol.StopForce | include/fffb/joy/protocol.hxx:1070-1097 | classic slot command 3; HID++ RESET_ALL; empty when unsupported |
| Protocol.InitSequence | include/fffb/joy/protocol.hxx:1099-1118 | exactly one init report, for the G923 and G29 ids in classic mode, and none otherwise |
| Protocol.BuildSlotsReport | include/fffb/joy/protocol.hxx:855-872 | the slot overload dispatches the four slot commands and returns the empty report for the rest |
| Protocol.BuildForceReport | include/fffb/joy/protocol.hxx:874-891 | the force overload dispatches set-autocenter, download and refresh, and returns the empty report for the rest |
| Protocol.BuildReportOverloadsDisjoint | include/fffb/joy/protocol.hxx:855-891 | no command is served by both overloads, and LED_SET by neither |
| Protocol.BuildersEmptyOrWritable | include/fffb/joy/protocol.hxx:855-1097 | every built report is either empty (a no-op) or passes the write guard |
| Protocol.HidppEmptyUntilReady | include/fffb/joy/protocol.hxx:910-1097 | a HID++ slot command is empty exactly while the Force Feedback feature is not ready |
| Protocol.UnsupportedBuildsNothing | include/fffb/joy/protocol.hxx:855-1118 | without a supported dialect every builder yields an empty report and the init sequence is empty |
| Protocol.ClassicDownloadDecodes | include/fffb/joy/protocol.hxx:966-1024 | a classic download and its refresh both decode to the force's slot nibble and wire payload |
| Protocol.SlotMaskBits | include/fffb/joy/wheel.hxx:375-386 | a bit is set in the play mask exactly when some enabled force has it in its slot |
| Protocol.SlotMask | include/fffb/joy/wheel.hxx:379-384 | defines play_forces' mask: the OR of the slots of the enabled forces |
| Device.MakeDeviceId | include/fffb/hid/device.hxx:390-393 | the device id holds the low 16 bits of the product id above the low 16 bits of the vendor id |
| Device.Requests | include/fffb/hid/device.hxx:107-110 | one report per set-report call, in order, and nothing for other calls: a log of set-report calls yields exactly their reports, and a log of other calls yields none |
| Device.RequestsAppend | include/fffb/hid/device.hxx:107-110 | the reports sent by two stretches of calls are those of each, in order |
| Device.ClampLength | include/fffb/hid/device.hxx:283-287 | the callback's length is clamped into 0..64: negative becomes 0, too long becomes 64, anything else is kept |
| Device.Captured | include/fffb/hid/device.hxx:293-294 | the callback copies the first n delivered bytes, leaves the rest, and copies nothing for a null buffer |
| Device.Low8of32 | include/fffb/hid/device.hxx:290 | the stored report id is the low byte of the 32-bit id |
| Device.Consumed | include/fffb/hid/device.hxx:299-309 | the caller's report takes the last input's kind, id and length and its first len bytes; later bytes stay as they were |
| Device.Delivered | include/fffb/hid/device.hxx:270-309 | a delivered report is returned with its low-byte id, kind, clamped length and bytes |
| Device.AfterCallback | include/fffb/hid/device.hxx:270-297 | after the callback the capture holds the delivery's kind, low-byte id, clamped length and copied bytes |
| Device.SliceBudget | include/fffb/hid/device.hxx:176-207 | the number of 10 ms slices before the deadline is ⌈timeout / 10⌉, and 0 for a non-positive timeout |
| Device.FirstDelivery | include/fffb/hid/device.hxx:176-207 | the slice returned is within the budget, delivers a report, and every slice before it is empty; with none, no slice within the budget delivers |
| Device.HidDevice.constructor | include/fffb/hid/device.hxx:51-57 | a wrapped device records handle, ids and usage, derives the device id, and starts closed with nothing captured |
| Device.HidDevice.EnableInputReports | include/fffb/hid/device.hxx:143-172 | succeeds exactly on a real device, and then the callback is registered and scheduled |
| Device.HidDevice.Open | include/fffb/hid/device.hxx:64-80 | fails on a null device, is a no-op on an open one, otherwise takes the platform's result and logs it, enabling input on success; succeeds iff the device ends open |
| Device.HidDevice.Close | include/fffb/hid/device.hxx:82-103 | fails on a null device, is a no-op on a closed one, otherwise unschedules and drops a pending input and logs the platform's result; on a real device succeeds iff it ends closed |
| Device.HidDevice.Write | include/fffb/hid/device.hxx:107-110 | a report failing the write guard (empty or longer than 64 bytes) never reaches the platform; on an open handle a writable report is logged with the platform's result, which is the call's result |
| Device.HidDevice.InputReportCallback | include/fffb/hid/device.hxx:270-297 | the capture becomes AfterCallback of the delivery and an input is ready |
| Device.HidDevice.ConsumeLastInput | include/fffb/hid/device.hxx:299-309 | returns Consumed of the captured input and clears the ready flag |
| Device.HidDevice.RunLoopSlice | include/fffb/hid/device.hxx:203 | one slice uses up one scripted slice and runs the callback exactly when it delivers |
| Device.HidDevice.ReadInput | include/fffb/hid/device.hxx:176-207 | a pending input is returned at once; otherwise the first delivery within the slice budget is returned and the script is consumed up to it, or nothing is returned and the budget's slices are consumed; the backlog shrinks on every success |
| Device.HidDevice.Poll | include/fffb/hid/device.hxx:190-206 | the pumping loop returns exactly FirstDelivery of the script within the budget |
| Device.PumpingStep | include/fffb/hid/device.hxx:193-204 | one run-loop slice keeps the pumping loop's invariant |
| Device.SameDeviceEquivalence | include/fffb/hid/device.hxx:236-242 | device equality is reflexive, symmetric and transitive, and ignores the vendor and product ids |
| Device.HidDevice.SameDevice | include/fffb/hid/device.hxx:236-241 | defines `operator==`: same platform handle, usage page and usage |
| Session.HidppContext.constructor | include/fffb/joy/protocol.hxx:49-53 | the process-wide context starts as the default context |
| Session.SentSinceExtend | include/fffb/hid/device.hxx:107-110 | the reports sent over two consecutive stretches are those of each, in order |
| Session.Await | include/fffb/joy/protocol.hxx:452-506 | defines the reply wait over scripted run-loop slices: an empty slice costs one slice of the budget, a delivered report that the filter refuses does not, and with a renewing timeout the budget starts again after each report; a found reply passes the filter and has been consumed |
| Session.SharedDeadlineStep | include/fffb/joy/protocol.hxx:455-462 | one read of the shared-deadline wait: an accepted report ends the wait, a refused one continues with the same budget, and an empty read continues with one slice less |
| Session.RenewedDeadlineStep | include/fffb/joy/protocol.hxx:737-756 | one read of the renewing wait: an accepted report ends the wait, a refused one starts the wait again with the full timeout, and an empty read ends it without a reply |
| Session.AwaitReply | include/fffb/joy/protocol.hxx:452-506 | the loop of the ping and root waits returns exactly what Await gives for the timeout, consumes the input up to that point, and sends nothing and uses no platform result |
| Session.ReadSlice | include/fffb/hid/device.hxx:176-207 | one 10 ms read relates the wait before it to the wait after it as SharedDeadlineStep states, and a report read shrinks the backlog |
| Session.ReadRenewed | include/fffb/hid/device.hxx:176-207 | one read with the full timeout relates the renewing wait before it to the one after it as RenewedDeadlineStep states, and a report read shrinks the backlog |
| Session.Arrived | include/fffb/hid/device.hxx:270-309 | a report delivered by the platform is at most 64 bytes long |
| Session.ArrivedAnyBuffer | include/fffb/hid/device.hxx:270-309 | what the caller receives from a delivery does not depend on what the capture buffer held before |
| Session.AwaitSkips | include/fffb/joy/protocol.hxx:455-462 | a stretch of empty slices shorter than the budget only uses up budget |
| Session.AwaitNext | include/fffb/joy/protocol.hxx:452-506 | the wait takes the next scripted slice: an empty one costs a slice, a delivered report ends the wait when the filter accepts it and otherwise the wait continues after it |
| Session.SharedInTime | include/fffb/joy/protocol.hxx:452-506 | noise with fewer empty slices than the budget arrives before the shared deadline |
| Session.ReplyAfterNoise | include/fffb/joy/protocol.hxx:452-506 | any number of refused reports followed by an accepted one, arriving in time, make the wait return the accepted one |
| Session.Attempt | include/fffb/joy/protocol.hxx:386-506 | defines one request-and-wait exchange: a found reply passes the exchange's filter |
| Session.FirstAnswered | include/fffb/joy/protocol.hxx:510-533 | defines the first-match run over a list of exchanges: it stops at the first exchange that finds a reply, which passes that exchange's filter, and a run without a reply tried all of them |
| Session.PingExchanges | include/fffb/joy/protocol.hxx:510-533 | one exchange per ping attempt, in order, each request passing the write guard with the attempt's report id |
| Session.RootExchanges | include/fffb/joy/protocol.hxx:641-642 | the two root variants, the 7-byte id-in-payload request and then the 6-byte one, both passing the write guard and waiting for the same reply |
| Session.AnsweredLast | include/fffb/joy/protocol.hxx:510-533 | when the run finds a reply, no earlier exchange found one and the last exchange tried produced that reply |
| Session.FirstAnsweredStep | include/fffb/joy/protocol.hxx:510-533 | the run over the exchanges from k on is the k-th exchange's answer when it has one, and otherwise the run over the exchanges after it, one more tried |
| Session.TryExchange | include/fffb/joy/protocol.hxx:386-506 | one exchange sends exactly its request when writable on a real device and returns exactly Attempt's reply, results and input; a null handle finds nothing and consumes nothing |
| Session.NextExchange | include/fffb/joy/protocol.hxx:510-533 | the k-th exchange of a run: found means the run ends here with this reply; otherwise the run continues with the next exchange |
| Session.Ping | include/fffb/joy/protocol.hxx:306-534 | on a device that is or can be opened, success holds exactly when the first-match run over the 32 candidate attempts with a 250 ms wait each finds a reply, and the attempts tried, the reply, the platform results and the input left are that run's; exactly the requests of the attempts tried are sent, in order; a reply passes the acceptance test of the attempt that drew it, yields the version and replied index and teaches the context its framing; failure leaves the context and means every attempt was tried; a device that cannot be opened fails with nothing sent |
| Session.OpenAndListen | include/fffb/joy/protocol.hxx:327-332 | opening and enabling input sends no report and reads nothing; it succeeds exactly on a real device that was open or whose open the platform accepts, and then the device is open and the platform results left are those after the open |
| Session.PingAll | include/fffb/joy/protocol.hxx:510-533 | the candidate loop on an open device: success holds exactly when the first-match run over the attempts finds a reply, the loop consumes that run's results and input, sends exactly the requests of the attempts tried, and learns the framing of the accepted reply; failure tries every attempt and leaves the context |
| Session.TryPing | include/fffb/joy/protocol.hxx:386-506 | one attempt sends exactly its request; it finds a reply exactly when the first-match run over the remaining attempts ends with this one, and otherwise that run is the run over the later attempts; a found reply passes the ping acceptance test and teaches the context its framing, and a miss leaves the context |
| Session.RootGetFeature | include/fffb/joy/protocol.hxx:536-644 | sends the id-in-payload request and then, only if needed, the other, both when it fails on a real device; on a real device success holds exactly when the first-match run over the two variants with a 250 ms wait finds a reply, and the results and input consumed are that run's; the feature index and type come from the accepted reply and the index is neither 0x00 nor 0xFF; a null handle fails |
| Session.TryRoot | include/fffb/joy/protocol.hxx:554-636 | one variant sends exactly its request on a real device; it finds a reply exactly when the first-match run over the remaining variants ends with this one, and otherwise that run is the run over the later variant; a found reply passes the root acceptance test and names neither 0x00 nor 0xFF |
| Session.Init | include/fffb/joy/protocol.hxx:646-660 | the device index is recorded in every case; at most the two root requests for the Force Feedback feature are sent, both when it fails on a real device; on a real device success holds exactly when the first-match run over the two variants finds a reply; success means that reply passed the root acceptance test, its byte 4 becomes the feature index, the feature is ready and nothing else in the context changes |
| Session.FfCmdSync | include/fffb/joy/protocol.hxx:721-757 | sends exactly the framed command on a real device, using one platform result; when that write succeeds, success holds exactly when the wait that renews its timeout on every read finds a correlated reply, which is returned with the input left after it; a refused write or a null handle fails without reading |
| Session.DownloadForceSync | include/fffb/joy/protocol.hxx:759-800 | nothing is sent before the feature is ready or for a non-constant force, and then it fails; otherwise exactly the HID++ download is sent, and when the write succeeds, success holds exactly when the 50 ms renewing wait finds a correlated reply long enough to carry the handle; success stores that handle for the slot nibble, failure leaves the context, known handles are kept |
| Session.DownloadConstantSync | include/fffb/joy/protocol.hxx:766-800 | sends the constant download with the slot's current handle and, on a long enough correlated reply, stores the handle at byte 3 of the reply |
| Session.DownloadResult | include/fffb/joy/protocol.hxx:766-800 | defines the end of `hidpp_download_force_sync` on a live device: failure without a ready feature, for another force or when the platform refuses; otherwise success exactly when the correlated reply holds the handle, which is stored; only the handle table can change, and the context stays well formed |
| Session.SendDownload | include/fffb/joy/protocol.hxx:775-789 | sends exactly the constant download carrying the slot's current handle and the mapped level (on a real device), and an answer correlates with DOWNLOAD_EFFECT |
| Session.RecordHandle | include/fffb/joy/protocol.hxx:795-797 | the context's slot table becomes StoreHandle of the returned handle; known handles are kept |
| Session.SetEffectStateSync | include/fffb/joy/protocol.hxx:802-808 | handle 0 succeeds without I/O; otherwise exactly SET_EFFECT_STATE with the handle and state is sent, and on a device that has a handle and takes the write, success holds exactly when the renewing wait (Session.Await, 50 ms) finds a correlated reply; otherwise it fails |
| Session.DestroyEffectSync | include/fffb/joy/protocol.hxx:810-816 | handle 0 succeeds without I/O; otherwise exactly DESTROY_EFFECT with the handle is sent, and on a device that has a handle and takes the write, success holds exactly when the renewing wait (Session.Await, 50 ms) finds a correlated reply; otherwise it fails |
| Wheel.Enabled | include/fffb/joy/wheel.hxx:343-371 | the enabled forces, in order, never more than given |
| Wheel.EnabledExactly | include/fffb/joy/wheel.hxx:343-371 | a force is kept exactly when it was given and is enabled |
| Wheel.EnabledFour | include/fffb/joy/wheel.hxx:343-371 | the four enabled checks keep each force in turn |
| Wheel.Downloads | include/fffb/joy/wheel.hxx:331-340 | one download report per force, in order |
| Wheel.DownloadsOfFour | include/fffb/joy/wheel.hxx:343-371 | the four guarded appends build the downloads of the enabled forces |
| Wheel.RefreshesOfFour | include/fffb/joy/wheel.hxx:527-557 | the four guarded appends build the refreshes of the enabled forces |
| Wheel.RefreshBatch | include/fffb/joy/wheel.hxx:492-525 | corrected: one refresh per enabled force |
| Wheel.RefreshBatchAsWritten | include/fffb/joy/wheel.hxx:506-524 | as written: four empty reports, then the refreshes |
| Wheel.RefreshAsWrittenBlocked | include/fffb/joy/wheel.hxx:506 | the first report of the batch as written fails the write guard |
| Wheel.RefreshBatchWritable | include/fffb/joy/wheel.hxx:492-525 | in classic every report of the corrected refresh batch passes the write guard |
| Wheel.DownloadsWritable | include/fffb/joy/wheel.hxx:331-340 | in classic every download report passes the write guard |
| Wheel.Wheel.constructor | include/fffb/joy/wheel.hxx:25-85 | a wheel starts with the default forces, not playing and with an empty queue |
| Wheel.Wheel.WriteReport | include/fffb/joy/wheel.hxx:585-603 | the write exchange of the one report: on a device that is or can be opened, the open (when it was closed), the guarded write and, only after a successful write, the close; success holds exactly when the open, the write and the close all succeed; a device that cannot be opened gets nothing written; on success the platform results left are those after the close; a failure after a successful open leaves the device open |
| Wheel.Wheel.WriteReports | include/fffb/joy/wheel.hxx:607-628 | on a device that is or can be opened, the log is the open (when it was closed), then exactly the calls of WriteRun (each report in order up to the first one the guard refuses or the platform fails), then a close only after a run that succeeded; success holds exactly when the run and the close succeed; a device that cannot be opened fails with at most the failed open logged and nothing written; a prefix of the reports is sent, all on success |
| Wheel.Wheel.WriteAndClose | include/fffb/joy/wheel.hxx:614-627 | on the open device, exactly WriteRun's calls and then, only after a run that succeeded, a close; success holds exactly when the run and the close succeed, and a failure leaves the device open |
| Wheel.Wheel.WriteEach | include/fffb/joy/wheel.hxx:614-621 | the write loop on the open device appends exactly the calls of WriteRun and leaves its platform results, so it stops at the first refused or failed write; success holds exactly when the run succeeds |
| Wheel.Wheel.WriteOne | include/fffb/joy/wheel.hxx:616 | one `dev.write` on the open device: a refused report is not logged; a writable one is logged with the next platform result, which is the result |
| Wheel.Wheel.WriteUnlessEmpty | include/fffb/joy/wheel.hxx:216-220 | an empty report is success without I/O; otherwise the write exchange (Wheel.Exchanged) of that one report, so success holds exactly when the open, the write and the close succeed |
| Wheel.Wheel.DisableAutocenter | include/fffb/joy/wheel.hxx:216-220 | the disable report for all slots goes through the write exchange (Wheel.Exchanged) of that one report, success exactly when the open, the write and the close succeed; success without I/O when the dialect has none |
| Wheel.Wheel.EnableAutocenter | include/fffb/joy/wheel.hxx:238-242 | the enable report for all slots goes through the write exchange (Wheel.Exchanged) of that one report, success exactly when the open, the write and the close succeed; success without I/O when the dialect has none |
| Wheel.Wheel.SetLedPattern | include/fffb/joy/wheel.hxx:561-566 | outside classic, success without I/O; in classic the LED report goes through the write exchange (Wheel.Exchanged) of that one report, success exactly when the open, the write and the close succeed |
| Wheel.Wheel.PlayForces | include/fffb/joy/wheel.hxx:375-388 | sets playing; the play report of the enabled slots' mask goes through the write exchange (Wheel.Exchanged) of that one report, success exactly when the open, the write and the close succeed; success without I/O when the report is empty |
| Wheel.Wheel.StopForces | include/fffb/joy/wheel.hxx:452-481 | clears playing; HID++: RESET_ALL's exchange answers the first result, and the baseline autocenter's exchange runs only after it succeeded, from the device it closed and the platform results it left, and answers the result (Wheel.ExchangedTwice); classic: the stop report for all slots goes through the write exchange (Wheel.Exchanged), success without I/O when it is empty |
| Wheel.Wheel.ResetThenBaseline | include/fffb/joy/wheel.hxx:458-476 | the short-circuited pair as Wheel.ExchangedTwice: the first result is RESET_ALL's exchange, the second exchange runs only after it succeeded, and the result is the second exchange's; at most the two reports are sent, both on success |
| Wheel.Wheel.RefreshForces | include/fffb/joy/wheel.hxx:492-525 | corrected: when not playing it plays, with play_forces' guarantee (the play report's exchange, success exactly when the open, the write and the close succeed; an empty play report is success without I/O); when playing, the corrected refresh batch goes through the write exchange (Wheel.Exchanged), stopping at the first refused or failed write, a prefix sent and all of it on success, nothing written when the device cannot be opened |
| Wheel.Wheel.RefreshForcesAsWritten | include/fffb/joy/wheel.hxx:492-525 | as written, while playing it always fails, sends nothing and leaves an opened device open |
| Wheel.Wheel.DownloadForces | include/fffb/joy/wheel.hxx:289-341 | HID++: success holds exactly when the device is or can be opened, the constant download succeeds if the constant force is enabled, and no other force is enabled (they have no HID++ download); the constant download is DownloadResult of the old context, and nothing else is sent or changed; success with the constant force enabled sent exactly its download and stored its handle; classic: the batch of enabled downloads goes through the write exchange (Wheel.Exchanged), nothing written when the device cannot be opened |
| Wheel.Wheel.DownloadSync | include/fffb/joy/wheel.hxx:302-329 | the HID++ branch: open, guarded downloads, close, with the same guarantees as the HID++ half of DownloadForces |
| Wheel.Wheel.DownloadAll | include/fffb/joy/wheel.hxx:313-325 | the four guarded downloads on the open device: success holds exactly when the constant download, if enabled, succeeds and no other force is enabled; only the constant download reaches the device |
| Wheel.Wheel.DownloadOthers | include/fffb/joy/wheel.hxx:318-325 | the spring, damper and trapezoid steps: the chain stays successful exactly when none of them is enabled, and nothing is sent or changed |
| Wheel.Wheel.DownloadStep | include/fffb/joy/wheel.hxx:315-325 | one `ok = ok && download` step: tried only when enabled and all earlier ones succeeded, with DownloadResult as its outcome; a non-constant force causes no I/O and, when tried, fails |
| Wheel.Wheel.QDisableAutocenter | include/fffb/joy/wheel.hxx:244-247 | appends the disable report for all slots to the queue |
| Wheel.Wheel.QEnableAutocenter | include/fffb/joy/wheel.hxx:249-252 | appends the enable report for all slots to the queue |
| Wheel.Wheel.QSetAutocenter | include/fffb/joy/wheel.hxx:222-235 | HID++ queues the autocenter of the magnitude; the others queue disable for 0 and enable otherwise |
| Wheel.Wheel.QDownloadForces | include/fffb/joy/wheel.hxx:343-371 | appends the downloads of the enabled forces, in order |
| Wheel.Wheel.QueueDownload | include/fffb/joy/wheel.hxx:335-338 | one guarded append: the download of the force when it is enabled, nothing otherwise |
| Wheel.Wheel.QPlayForces | include/fffb/joy/wheel.hxx:390-402 | sets playing and appends the play report of the enabled slots' mask |
| Wheel.Wheel.QStopForces | include/fffb/joy/wheel.hxx:483-488 | clears playing and appends the stop report for all slots |
| Wheel.Wheel.QRefreshForces | include/fffb/joy/wheel.hxx:527-557 | sets playing; appends the play report first when not playing, then one refresh per enabled force |
| Wheel.Wheel.QueueRefreshes | include/fffb/joy/wheel.hxx:540-555 | the four guarded appends queue the refresh batch of the enabled forces |
| Wheel.Wheel.QueueRefresh | include/fffb/joy/wheel.hxx:540-555 | one guarded append: the refresh of the force when it is enabled, nothing otherwise |
| Wheel.Wheel.QSetLedPattern | include/fffb/joy/wheel.hxx:568-571 | appends the LED report |
| Wheel.Wheel.FlushReports | include/fffb/joy/wheel.hxx:575-581 | empties the queue whatever happens; the queue goes through the write exchange (Wheel.Exchanged), stopping at the first refused or failed write; a prefix of the queue reached the platform, and all of it on success; nothing is written when the device cannot be opened |
| Wheel.Wheel.InitProtocol | include/fffb/joy/wheel.hxx:633-685 | HID++: a device that cannot be opened fails with nothing sent; otherwise the ping and root lookup run as HidppInitRun states (a ping failure leaves the context and sends no lookup; the lookup uses the index the ping replied with and records the feature index from its reply), the reports sent are the pings tried, the lookup requests and, on success, RESET_ALL and the baseline autocenter, and the device is closed last on every path; classic sends the init sequence through the write exchange (Wheel.Exchanged) (nothing written when the device cannot be opened) and succeeds without I/O when it is empty |
| Wheel.Wheel.InitHidpp | include/fffb/joy/wheel.hxx:635-680 | the HID++ branch of init, with the same guarantees |
| Wheel.Wheel.InitClassic | include/fffb/joy/wheel.hxx:682-684 | the classic branch of init: an empty init sequence succeeds without I/O; otherwise the sequence goes through the write exchange (Wheel.Exchanged), and success means exactly it was sent |
| Wheel.Wheel.PingAndInit | include/fffb/joy/wheel.hxx:651-669 | on the open device, ping and then the feature lookup on the index the ping replied with, as HidppInitRun states; exactly the pings tried and the lookup requests are sent |
| Wheel.Wheel.FinishInit | include/fffb/joy/wheel.hxx:651-679 | the end of the HID++ init on the open device: after a failed ping or lookup only the close, after success RESET_ALL and the baseline autocenter and then the close; the reports sent are those of the earlier steps followed by those two (InitSent) |
| Wheel.Wheel.LookUpFeature | include/fffb/joy/wheel.hxx:663-669 | `hidpp_init` on the replied index, then the index recorded again: the lookup RootRun describes, sending exactly its requests |
| Wheel.Wheel.PingDevice | include/fffb/joy/wheel.hxx:651 | `hidpp_ping` with its 250 ms default on the open device, stated through `Wheel.PingRun`: success holds exactly when the first-match run over the candidate attempts finds a reply, the platform results and input left are that run's, the context learns the reply's framing, exactly the requests of the attempts tried are sent, and the returned index is the replied one; failure leaves the context |
| Wheel.Wheel.ResetAndBaseline | include/fffb/joy/wheel.hxx:671-679 | exactly RESET_ALL and the baseline autocenter are sent, their results ignored, and an open device ends with a close |
| Wheel.Wheel.CloseQuietly | include/fffb/joy/wheel.hxx:647 | a close whose result is ignored sends no report; on a real open device it logs one close with the platform's result and stays open only when that fails |
| Wheel.Wheel.WriteOpen | include/fffb/joy/wheel.hxx:672-676 | a write whose result is ignored sends exactly its report and leaves the device open or closed as it was |
| Wheel.Bracketed | include/fffb/joy/wheel.hxx:607-628 | an exchange whose open and close send nothing sends exactly what its middle sends |
| Wheel.Exchanged | include/fffb/joy/wheel.hxx:607-628 | defines the `_write_reports` exchange: on a device that is or can be opened, the open when it was closed, the WriteRun calls and a close only after a run that succeeded, success exactly when the run and the close succeed; otherwise failure with at most the failed open logged; it only appends to the log, and success ends with a successful close |
| Wheel.ExchangedTwice | include/fffb/joy/wheel.hxx:458-476 | defines two `_write_report` exchanges chained by `ok = ok && ...`: the second runs only after the first succeeded, on the closed device, with the platform results the first left; the chain fails with nothing more logged after a first failure |
| Wheel.WriteRunOne | include/fffb/joy/wheel.hxx:592-596 | for one report the write loop is the single guarded write: nothing when the guard refuses it, otherwise one call taking the next platform result |
| Wheel.PingRun | include/fffb/joy/protocol.hxx:494-533 | defines `hidpp_ping` on the open device: success exactly when the first-match run over the candidate attempts finds a reply, which the attempt's filter accepts, the index it carries returned and its framing learned; a failure tried all 32 attempts and leaves the context; learning the framing keeps the feature state, the handles and the device index |
| Wheel.HidppInitRun | include/fffb/joy/wheel.hxx:651-668 | defines the ping and lookup of `_init_protocol`: a ping failure tried all attempts, fails and leaves the context; otherwise RootRun on the replied index with the learned framing; success means the ping was answered and the feature is ready |
| Wheel.RootRun | include/fffb/joy/protocol.hxx:536-660 | defines `hidpp_init`'s lookup: success exactly when one of the two variants is answered, at most those two requests sent, the feature index from the reply recorded and the feature marked ready; a well-formed context stays well formed (the index is never 0x00 or 0xFF) |
| Wheel.InitSent | include/fffb/joy/wheel.hxx:651-679 | defines what the HID++ init sends on the open device: the pings tried, the lookup requests and, on success, RESET_ALL and the baseline autocenter, with a close last; the count is the attempts tried plus the lookup requests plus two on success |
| Wheel.WriteRun | include/fffb/joy/wheel.hxx:614-621 | defines the write loop on an open device: each report in order, up to the first one the guard refuses or the platform fails; never more calls than reports |
| Wheel.WriteRunSucceeds | include/fffb/joy/wheel.hxx:614-621 | the run succeeds exactly when every report passes the guard and every platform result is a success |
| Wheel.WriteRunCalls | include/fffb/joy/wheel.hxx:614-621 | the run hands the reports to the platform in order, one call per report |
| Wheel.WriteRunPrefixOk | include/fffb/joy/wheel.hxx:614-621 | every call of the run but the last succeeded |
| Wheel.WriteRunStops | include/fffb/joy/wheel.hxx:614-621 | a successful run made one call per report; a failed run stopped at the first report the guard refused or at its last call, which failed |

## Left out

- IOKit and CoreFoundation are not modelled. Platform results come from a script of
  outcomes (an exhausted script means success). Run-loop deliveries come from a
  script of slices. Every platform call is recorded in a log with its result.
- Wall-clock time is not modelled. It is counted in 10 ms run-loop slices, and a
  slice that delivers a report takes no time.
- The asynchronous callback is not modelled as asynchronous. It runs only inside a
  run-loop slice, as an explicit delivery.
- Device enumeration, the property getters and the HID manager are not modelled.
  They are platform queries. The model's device takes its ids and usage as
  constructor arguments.
- The probing in the wheel constructor, `calibrate` and the destructor are not
  modelled. They are sequences of the modelled operations, and the constructor
  depends on enumeration.
- Logging, the dump helpers and the scope strings are not modelled. They have no
  effect on state.
- The failure branches of `enable_input_reports` are not modelled as failures. After
  a successful open they cannot be reached, because the model's device is always
  schedulable. OpenAndListen ignores its result as `hidpp_ping` does.
- U32 ids are modelled as numbers in 0..2^32-1, because they are only masked,
  shifted and compared. `report_id` is a `bv32` in the callback, where it is
  truncated to a byte.
- The device's `read` is not modelled. No core operation calls it.
- The commented-out earlier versions of `stop_forces` and `download_forces` are not
  modelled.
- Hidpp.BuildOutput is the corrected, bounded builder. Nothing in the source calls
  `hidpp_build_output`, so no other member uses it.
- Session.Await: every wait ends, because the slice script is finite. In the source
  the ping and root waits (include/fffb/joy/protocol.hxx:455-462 and 591-598) use up
  their budget only on empty reads, and `_hidpp_ff_cmd_sync` (protocol.hxx:737)
  starts a fresh timeout after every report. An endless stream of unrelated reports
  therefore keeps them waiting forever; the model does not capture that.
- Device.HidDevice.Write: with a null handle the source still calls the platform's
  set-report function, and what the platform does with it is unknown. The model
  refuses that call and logs nothing. Every core caller opens the device first, so
  no core path reaches it.

## Findings

| source | as written | input that shows it | evidently intended | confidence | as-written member | corrected member |
|---|---|---|---|---|---|---|
| include/fffb/joy/wheel.hxx:506 | the refresh batch is created with four value-initialised reports, and the refreshes are appended after them | any call while playing: the first write meets a length-0 report, which the write guard refuses, so nothing is sent, the call fails and the opened device stays open | one refresh per enabled force, as the download batch does (it reserves instead) | high, not executed | Wheel.RefreshAsWrittenBlocked | Wheel.Wheel.RefreshForces |
| include/fffb/joy/protocol.hxx:365-384 | normalize copies a reply without its id into `msg + 1` of a 64-byte buffer; the root lookup repeats the same copy at protocol.hxx:612-619 | a 64-byte reply whose first byte is not its HID++ report id: the last byte lands at index 64 | a message buffer with room for the id and 64 payload bytes | high, not executed | Hidpp.NormalizeOverrun | Hidpp.Normalize |
| include/fffb/joy/protocol.hxx:819-847 | build_output copies every parameter with no bound | 61 parameters with the id in the payload, or 62 without: writes past the 64-byte buffer | copy only the parameters that fit, as `_hidpp_ff_cmd` does | high, not executed | Hidpp.BuildOutputOverrun | Hidpp.BuildOutput |
