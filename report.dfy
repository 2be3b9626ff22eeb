/** The HID report record of hid/report.hxx and its length guards. */
module Reports {
  import opened Bytes

  /** FFFB_REPORT_MAX_LEN: the byte capacity of every report buffer. */
  const Capacity: nat := 64

  /** The fixed 64-byte data buffer of a report. */
  type Frame = s: seq<bv8> | |s| == Capacity witness Zeros(Capacity)

  datatype ReportType = Output | Input | Feature

  /** `report`: id (0 if none), kind, number of meaningful bytes, 64-byte buffer. */
  datatype Report = Report(reportId: bv8, reportType: ReportType, len: nat, data: Frame)

  /** A value-initialised `report{}`: the "empty" report every builder returns on failure. */
  function DefaultReport(): (r: Report)
    ensures r.reportId == 0 && r.reportType == Output && r.len == 0
    ensures forall i :: 0 <= i < Capacity ==> r.data[i] == 0
  {
    Report(0, Output, 0, Zeros(Capacity))
  }

  /** The guard of `write_report`: empty and oversized reports never reach the transport. */
  predicate Writable(r: Report)
  {
    0 < r.len <= Capacity
  }

  lemma DefaultReportNotWritable()
    ensures !Writable(DefaultReport())
  {
  }

  /**
   * `read_report`: the platform's get-report call is abstracted by its result
   * `platformOk`, the length `n` it reports and the buffer content `filled` it leaves.
   * On failure the report is untouched; on success its length is `n` clamped at zero.
   */
  method ReadReport(rep: Report, platformOk: bool, n: int, filled: Frame) returns (ok: bool, result: Report)
    ensures ok == platformOk
    ensures !ok ==> result == rep
    ensures ok ==> result.len == (if n < 0 then 0 else n) && result.data == filled
    ensures ok ==> result.reportId == rep.reportId && result.reportType == rep.reportType
  {
    if !platformOk {
      return false, rep;
    }
    var m := n;
    if m < 0 {
      m := 0;
    }
    result := rep.(len := m, data := filled);
    ok := true;
  }
}
