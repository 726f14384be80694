// The Report-ID convention every backend follows at its transport boundary.
// The first byte of every buffer passed to write, read or a feature call is
// the Report ID; 0 means the device does not use numbered reports, and such a
// byte is not put on the wire. Control transfers address a report through
// the class requests of section 7.2 of the USB Device Class Definition for
// HID 1.11: Get_Report (7.2.1) and Set_Report (7.2.2), whose wValue carries
// the report type in its high byte and the Report ID in its low byte.
module ReportFraming {
  import opened HidTypes

  /** bRequest of the HID class requests (HID 1.11, section 7.2). */
  const GET_REPORT: byte := 0x01
  const SET_REPORT: byte := 0x09

  /** Report types, the high byte of wValue (HID 1.11, section 7.2.1). */
  const REPORT_TYPE_INPUT: byte := 1
  const REPORT_TYPE_OUTPUT: byte := 2
  const REPORT_TYPE_FEATURE: byte := 3

  /** bmRequestType: class request, recipient interface, host-to-device
      (0x21) or device-to-host (0xA1). */
  const REQUEST_TYPE_CLASS_INTERFACE_OUT: byte := 0x21
  const REQUEST_TYPE_CLASS_INTERFACE_IN: byte := 0xA1

  /** wValue of Get_Report / Set_Report, `(type << 8) | id`: the report type
      in the high byte, the Report ID in the low byte. */
  function ReportValue(reportType: byte, reportId: byte): (w: u16)
    ensures w / 0x100 == reportType
    ensures w % 0x100 == reportId
  {
    reportType * 0x100 + reportId
  }

  /** True when the buffer starts with Report ID 0, the byte that is not sent. */
  predicate SkipsReportId(data: seq<byte>)
  {
    |data| > 0 && data[0] == 0
  }

  /** The bytes that go on the wire for a buffer whose first byte is the
      Report ID: a leading 0 is dropped, any other Report ID is kept. The
      Windows read path applies the same rule to what it received, to remove
      the 0 that the OS puts in front of unnumbered reports. */
  function WithoutZeroReportId(data: seq<byte>): (wire: seq<byte>)
    ensures SkipsReportId(data) ==> data == [0] + wire
    ensures !SkipsReportId(data) ==> wire == data
  {
    if SkipsReportId(data) then data[1..] else data
  }

  /** The count handed back to the caller for `transferred` bytes on the
      wire: one more when the Report ID byte was stripped, so that the caller
      always sees a count that includes the Report ID. A complete transfer of
      the wire bytes therefore reports the caller's whole length, whether or
      not the device uses numbered reports. */
  function CountWithReportId(data: seq<byte>, transferred: nat): (n: nat)
    ensures n == transferred || n == transferred + 1
    ensures n == transferred + 1 <==> SkipsReportId(data)
    ensures transferred == |WithoutZeroReportId(data)| ==> n == |data|
  {
    if SkipsReportId(data) then transferred + 1 else transferred
  }
}
