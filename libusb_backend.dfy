// The libusb backend (linux/hid-libusb.c). A device handle is a heap object
// whose fields the calls update in place. A background thread drives
// libusb's event loop; each completed interrupt-IN transfer reaches
// read_callback, which appends a copy of the report to the handle's queue.
// Here the callback and the reads are ordinary sequential method calls, and
// every libusb call is replaced by its outcome, passed in as a parameter.
module LibusbBackend {
  import opened HidTypes
  import opened ReportFraming
  import opened UsbEndpoints
  import opened DeviceSelection
  import UsbPath
  import ReportQueue

  /** libusb_transfer_status, as read_callback receives it. */
  datatype TransferStatus = Completed | Error | TimedOut | Cancelled | Stall | NoDevice | Overflow

  /** What a synchronous libusb transfer returned: a negative error code, or
      the number of bytes it moved (never more than it was asked to move). */
  datatype TransferResult = TransferFailed | Transferred(count: nat)

  /** What a device-to-host control transfer returned: an error, or the bytes
      the device sent back. */
  datatype ControlInResult = ControlInFailed | ControlInReceived(reply: seq<byte>)

  /** A transfer handed to libusb. A control transfer's data stage is
      wLength bytes long. */
  datatype UsbRequest =
    | ControlOut(bmRequestType: byte, bRequest: byte, wValue: u16, wIndex: int, data: seq<byte>)
    | ControlIn(bmRequestType: byte, bRequest: byte, wValue: u16, wIndex: int, wLength: u16)
    | InterruptTransfer(endpoint: int, data: seq<byte>)

  /** The `size_t` length passed as libusb_control_transfer's 16-bit
      wLength: it wraps modulo 0x10000. */
  function WLength(length: nat): u16
  {
    length % 0x10000
  }

  /** The data stage of a host-to-device control transfer for `payload`:
      the first WLength(|payload|) bytes. A payload shorter than 0x10000
      bytes goes out whole; a longer one is cut to its length modulo
      0x10000. */
  function ControlData(payload: seq<byte>): (sent: seq<byte>)
    ensures |sent| == |payload| % 0x10000
    ensures sent <= payload
    ensures |payload| < 0x10000 ==> sent == payload
  {
    payload[..WLength(|payload|)]
  }

  /** struct hid_device_. */
  class LibusbDevice {
    var inputEndpoint: int
    var outputEndpoint: int
    var inputEpMaxPacketSize: int
    var interfaceNumber: int
    var blocking: bool
    var shutdownThread: bool
    var inputReports: seq<Report>

    /** new_hid_device: endpoints and interface 0, NON-blocking, no shutdown
        requested, empty queue. */
    constructor ()
      ensures inputEndpoint == 0 && outputEndpoint == 0 && inputEpMaxPacketSize == 0
      ensures interfaceNumber == 0
      ensures !blocking && !shutdownThread
      ensures inputReports == []
    {
      inputEndpoint := 0;
      outputEndpoint := 0;
      inputEpMaxPacketSize := 0;
      interfaceNumber := 0;
      blocking := false;
      shutdownThread := false;
      inputReports := [];
    }

    /** The endpoint scan of hid_open_path on the claimed interface: the
        first interrupt IN endpoint becomes the input endpoint (with its
        maximum packet size), the first interrupt OUT endpoint the output
        endpoint; later candidates are ignored. */
    method SelectEndpoints(eps: seq<EndpointDescriptor>)
      requires inputEndpoint == 0 && outputEndpoint == 0 && inputEpMaxPacketSize == 0
      modifies this`inputEndpoint, this`outputEndpoint, this`inputEpMaxPacketSize
      ensures InputSelected(eps, inputEndpoint, inputEpMaxPacketSize)
      ensures OutputSelected(eps, outputEndpoint)
    {
      for i := 0 to |eps|
        invariant InputSelected(eps[..i], inputEndpoint, inputEpMaxPacketSize)
        invariant OutputSelected(eps[..i], outputEndpoint)
      {
        var ep := eps[i];
        ghost var input, maxPacket, output := inputEndpoint, inputEpMaxPacketSize, outputEndpoint;
        var isInterrupt := IsInterrupt(ep);
        var isOutput := IsOutput(ep);
        var isInput := IsInput(ep);
        if inputEndpoint == 0 && isInterrupt && isInput {
          inputEndpoint := ep.bEndpointAddress;
          inputEpMaxPacketSize := ep.wMaxPacketSize;
        }
        if outputEndpoint == 0 && isInterrupt && isOutput {
          outputEndpoint := ep.bEndpointAddress;
        }
        InputSelectedStep(eps, i, input, maxPacket, inputEndpoint, inputEpMaxPacketSize);
        OutputSelectedStep(eps, i, output, outputEndpoint);
      }
      assert eps[..|eps|] == eps;
    }

    /** read_callback. A completed transfer appends a copy of its
        `actualLength` bytes at the tail of the queue and signals a waiting
        reader only when the queue was empty; a cancelled transfer or a
        vanished device asks the event thread to stop and is not resubmitted;
        every other status (error, time-out, stall, overflow) just resubmits
        the transfer. */
    method ReadCallback(status: TransferStatus, buffer: seq<byte>, actualLength: nat)
      returns (signalled: bool, resubmitted: bool)
      requires actualLength <= |buffer|
      modifies this`inputReports, this`shutdownThread
      ensures inputReports == if status == Completed then old(inputReports) + [buffer[..actualLength]] else old(inputReports)
      ensures status == Completed ==>
        inputReports == ReportQueue.Step(old(inputReports), ReportQueue.Delivered(buffer[..actualLength]))
      ensures signalled <==> status == Completed && old(inputReports) == []
      ensures shutdownThread == (old(shutdownThread) || status == Cancelled || status == NoDevice)
      ensures resubmitted <==> status != Cancelled && status != NoDevice
    {
      signalled, resubmitted := false, false;
      if status == Completed {
        var rpt := buffer[..actualLength];
        if inputReports == [] {
          inputReports := [rpt];
          signalled := true;
        } else {
          inputReports := inputReports + [rpt];
        }
      } else if status == Cancelled {
        shutdownThread := true;
        return;
      } else if status == NoDevice {
        shutdownThread := true;
        return;
      }
      resubmitted := true;
    }

    /** return_data: takes the head report off the queue and copies
        `min(length, its length)` bytes of it into the caller's buffer. */
    method ReturnData(data: array<byte>, length: nat) returns (n: nat)
      requires inputReports != []
      requires length <= data.Length
      modifies this`inputReports, data
      ensures n == Min(length, |old(inputReports[0])|)
      ensures data[..n] == old(inputReports[0])[..n]
      ensures data[n..] == old(data[n..])
      ensures inputReports == old(inputReports[1..])
      ensures inputReports == ReportQueue.Step(old(inputReports), ReportQueue.Consumed)
    {
      var rpt := inputReports[0];
      n := ReportQueue.CopyOut(data, rpt, length);
      inputReports := inputReports[1..];
    }

    /** hid_read. A queued report is returned at once, whatever the mode. On
        an empty queue a non-blocking read returns 0 and changes nothing; a
        blocking read waits on the condition variable and then takes the
        head WITHOUT checking the queue again, so the model asks that the
        wait ends only after the event thread has queued `arrivals`, at
        least one report. */
    method Read(data: array<byte>, length: nat, arrivals: seq<Report>) returns (bytesRead: int)
      requires length <= data.Length
      requires blocking && inputReports == [] ==> arrivals != []
      modifies this`inputReports, data
      ensures old(inputReports) == [] && !blocking ==>
        bytesRead == 0 && inputReports == [] && data[..] == old(data[..])
      ensures old(inputReports) != [] || blocking ==>
        var q := if old(inputReports) != [] then old(inputReports) else arrivals;
        && bytesRead == Min(length, |q[0]|)
        && data[..bytesRead] == q[0][..bytesRead]
        && data[bytesRead..] == old(data[bytesRead..])
        && inputReports == q[1..]
    {
      if inputReports != [] {
        bytesRead := ReturnData(data, length);
        return;
      }
      if blocking {
        inputReports := inputReports + arrivals;
        assert inputReports == arrivals;
        bytesRead := ReturnData(data, length);
      } else {
        bytesRead := 0;
      }
    }

    /** hid_set_nonblocking: sets the mode, and returns -1 although the call
        succeeded. */
    method SetNonblocking(nonblock: int) returns (r: int)
      modifies this`blocking
      ensures blocking <==> nonblock == 0
      ensures r == -1
    {
      blocking := nonblock == 0;
      r := -1;
    }

    /** hid_write. A Report ID of 0 is not sent. Without an interrupt OUT
        endpoint the report goes out as a Set_Report(Output) control transfer
        on the claimed interface (cut to the 16-bit wLength) and the caller's
        whole length is returned;
        otherwise it goes to the OUT endpoint and the returned count is what
        libusb moved, plus the stripped Report ID byte. Any failure is -1. */
    method Write(data: seq<byte>, result: TransferResult) returns (request: UsbRequest, r: int)
      requires |data| >= 1
      requires result.Transferred? ==> result.count <= |WithoutZeroReportId(data)|
      ensures outputEndpoint <= 0 ==>
        request == ControlOut(REQUEST_TYPE_CLASS_INTERFACE_OUT, SET_REPORT,
                              ReportValue(REPORT_TYPE_OUTPUT, data[0]), interfaceNumber,
                              ControlData(WithoutZeroReportId(data)))
      ensures outputEndpoint > 0 ==> request == InterruptTransfer(outputEndpoint, WithoutZeroReportId(data))
      ensures result.TransferFailed? <==> r == -1
      ensures result.Transferred? && outputEndpoint <= 0 ==> r == |data|
      ensures result.Transferred? && outputEndpoint > 0 ==> r == CountWithReportId(data, result.count)
      ensures r <= |data|
    {
      var reportNumber := data[0];
      var payload, length, skippedReportId := data, |data|, false;
      if reportNumber == 0 {
        payload, length, skippedReportId := payload[1..], length - 1, true;
      }
      if outputEndpoint <= 0 {
        request := ControlOut(REQUEST_TYPE_CLASS_INTERFACE_OUT, SET_REPORT,
                              ReportValue(REPORT_TYPE_OUTPUT, reportNumber), interfaceNumber,
                              payload[..WLength(length)]);
        if result.TransferFailed? {
          return request, -1;
        }
        if skippedReportId {
          length := length + 1;
        }
        r := length;
      } else {
        request := InterruptTransfer(outputEndpoint, payload);
        if result.TransferFailed? {
          return request, -1;
        }
        var actualLength := result.count;
        if skippedReportId {
          actualLength := actualLength + 1;
        }
        r := actualLength;
      }
    }

    /** hid_send_feature_report: a Set_Report(Feature) control transfer
        without a Report ID of 0, cut to the 16-bit wLength; returns the
        caller's whole length, or -1. */
    method SendFeatureReport(data: seq<byte>, result: TransferResult) returns (request: UsbRequest, r: int)
      requires |data| >= 1
      ensures request == ControlOut(REQUEST_TYPE_CLASS_INTERFACE_OUT, SET_REPORT,
                                    ReportValue(REPORT_TYPE_FEATURE, data[0]), interfaceNumber,
                                    ControlData(WithoutZeroReportId(data)))
      ensures r == if result.TransferFailed? then -1 else |data|
    {
      var reportNumber := data[0];
      var payload, length, skippedReportId := data, |data|, false;
      if reportNumber == 0 {
        payload, length, skippedReportId := payload[1..], length - 1, true;
      }
      request := ControlOut(REQUEST_TYPE_CLASS_INTERFACE_OUT, SET_REPORT,
                            ReportValue(REPORT_TYPE_FEATURE, reportNumber), interfaceNumber,
                            payload[..WLength(length)]);
      if result.TransferFailed? {
        return request, -1;
      }
      if skippedReportId {
        length := length + 1;
      }
      r := length;
    }

    /** hid_get_feature_report: a Get_Report(Feature) control transfer for
        the Report ID in data[0]. With Report ID 0 the reply is received one
        byte into the buffer, so data[0] still holds the Report ID, and the
        count returned includes that byte. The length asked for is the
        buffer's length less that byte, wrapped to the 16-bit wLength; libusb
        never returns more. */
    method GetFeatureReport(data: array<byte>, length: nat, result: ControlInResult)
      returns (request: UsbRequest, r: int)
      requires 1 <= length <= data.Length
      requires result.ControlInReceived? ==>
        |result.reply| <= WLength(length - (if data[0] == 0 then 1 else 0))
      modifies data
      ensures var offset := if old(data[0]) == 0 then 1 else 0;
        request == ControlIn(REQUEST_TYPE_CLASS_INTERFACE_IN, GET_REPORT,
                             ReportValue(REPORT_TYPE_FEATURE, old(data[0])), interfaceNumber,
                             WLength(length - offset))
      ensures result.ControlInFailed? ==> r == -1 && data[..] == old(data[..])
      ensures result.ControlInReceived? ==>
        var offset := if old(data[0]) == 0 then 1 else 0;
        var reply := result.reply;
        && r == offset + |reply|
        && data[..offset] == old(data[..offset])
        && data[offset..offset + |reply|] == reply
        && data[offset + |reply|..] == old(data[offset + |reply|..])
    {
      var reportNumber := data[0];
      var offset, len, skippedReportId := 0, length, false;
      if reportNumber == 0 {
        offset, len, skippedReportId := 1, len - 1, true;
      }
      request := ControlIn(REQUEST_TYPE_CLASS_INTERFACE_IN, GET_REPORT,
                           ReportValue(REPORT_TYPE_FEATURE, reportNumber), interfaceNumber, WLength(len));
      if result.ControlInFailed? {
        return request, -1;
      }
      var reply := result.reply;
      // libusb writes the reply into the buffer at data + offset.
      forall i | 0 <= i < |reply| {
        data[offset + i] := reply[i];
      }
      var res := |reply|;
      if skippedReportId {
        res := res + 1;
      }
      r := res;
    }
  }

  /** libusb device classes (USB 2.0, section 9.6.1; HID 1.11, section 4.1). */
  const CLASS_PER_INTERFACE: byte := 0
  const CLASS_HID: byte := 3

  /** One alternate setting of one interface of the active configuration. */
  datatype InterfaceDescriptor = InterfaceDescriptor(
    bInterfaceNumber: byte,
    bInterfaceClass: byte,
    endpoints: seq<EndpointDescriptor>)

  /** A USB device as hid_enumerate sees it. `altsettings` lists every
      alternate setting of every interface, in the order the nested loops
      visit them; the strings are what the device returned for its string
      indexes (None where the index is 0 or the device could not be opened). */
  datatype UsbDevice = UsbDevice(
    busNumber: byte,
    deviceAddress: byte,
    bDeviceClass: byte,
    idVendor: u16,
    idProduct: u16,
    altsettings: seq<InterfaceDescriptor>,
    serialNumber: Option<string>,
    manufacturerString: Option<string>,
    productString: Option<string>)

  /** The interface number hid_enumerate records: the loop overwrites it at
      every HID alternate setting, so it is the LAST one's. */
  function HidInterfaceNumber(alts: seq<InterfaceDescriptor>): (n: Option<byte>)
    ensures n.None? <==> forall i :: 0 <= i < |alts| ==> alts[i].bInterfaceClass != CLASS_HID
    ensures n.Some? ==>
      exists i ::
        && 0 <= i < |alts|
        && alts[i].bInterfaceClass == CLASS_HID
        && alts[i].bInterfaceNumber == n.value
        && forall j :: i < j < |alts| ==> alts[j].bInterfaceClass != CLASS_HID
  {
    if alts == [] then None
    else if alts[|alts| - 1].bInterfaceClass == CLASS_HID then Some(alts[|alts| - 1].bInterfaceNumber)
    else HidInterfaceNumber(alts[..|alts| - 1])
  }

  /** The record hid_enumerate makes for a device, if it makes one: only
      devices whose class is defined per interface and that have a HID
      interface are listed, under the path make_path gives that interface. */
  function EnumerationRecord(d: UsbDevice): (r: Option<DeviceInfo>)
    ensures r.Some? <==> d.bDeviceClass == CLASS_PER_INTERFACE && HidInterfaceNumber(d.altsettings).Some?
    ensures r.Some? ==>
      && UsbPath.ParsePath(r.value.path)
         == Some(UsbPath.PathFields(d.busNumber, d.deviceAddress, HidInterfaceNumber(d.altsettings).value))
      && r.value.vendorId == d.idVendor
      && r.value.productId == d.idProduct
      && r.value.serialNumber == d.serialNumber
  {
    if d.bDeviceClass != CLASS_PER_INTERFACE then None
    else
      match HidInterfaceNumber(d.altsettings)
      case None => None
      case Some(n) =>
        UsbPath.MakePathRoundTrip(d.busNumber, d.deviceAddress, n);
        Some(DeviceInfo(UsbPath.MakePath(d.busNumber, d.deviceAddress, n), d.idVendor, d.idProduct,
                        d.serialNumber, d.manufacturerString, d.productString))
  }

  /** The devices hid_enumerate considers, before its VID/PID filter: the
      records the devices of libusb's list make, in list order. */
  function HidDevices(devs: seq<UsbDevice>): seq<DeviceInfo>
  {
    Present(seq(|devs|, i requires 0 <= i < |devs| => EnumerationRecord(devs[i])))
  }

  /** A record is listed exactly when some device of the list makes it. */
  lemma HidDevicesMembers(devs: seq<UsbDevice>, r: DeviceInfo)
    ensures r in HidDevices(devs) <==> exists i :: 0 <= i < |devs| && EnumerationRecord(devs[i]) == Some(r)
  {
    var records := seq(|devs|, i requires 0 <= i < |devs| => EnumerationRecord(devs[i]));
    assert |records| == |devs|;
    assert forall i :: 0 <= i < |devs| ==> records[i] == EnumerationRecord(devs[i]);
    PresentMembers(records, r);
  }

  /** The records of a concatenation are those of each part, in order:
      hid_enumerate keeps the order of libusb's device list. */
  lemma HidDevicesAppend(a: seq<UsbDevice>, b: seq<UsbDevice>)
    ensures HidDevices(a + b) == HidDevices(a) + HidDevices(b)
  {
    var ra := seq(|a|, i requires 0 <= i < |a| => EnumerationRecord(a[i]));
    var rb := seq(|b|, i requires 0 <= i < |b| => EnumerationRecord(b[i]));
    var rab := seq(|a + b|, i requires 0 <= i < |a + b| => EnumerationRecord((a + b)[i]));
    assert rab == ra + rb;
    PresentAppend(ra, rb);
  }

  /** hid_enumerate: the VID/PID filter over the HID devices, in libusb's
      list order. */
  method Enumerate(vendorId: u16, productId: u16, devs: seq<UsbDevice>) returns (list: seq<DeviceInfo>)
    ensures list == Enumerated(vendorId, productId, HidDevices(devs))
  {
    list := DeviceSelection.Enumerate(vendorId, productId, HidDevices(devs));
  }

  /** hid_open's choice of the path to hand to hid_open_path. */
  method OpenSelection(vendorId: u16, productId: u16, serial: Option<string>, devs: seq<UsbDevice>)
    returns (path: Option<string>)
    ensures var all := HidDevices(devs);
      var k := FirstOpenable(vendorId, productId, serial, all);
      path == if k < |all| then Some(all[k].path) else None
  {
    var list := Enumerate(vendorId, productId, devs);
    path := SelectPath(vendorId, productId, serial, list);
    SelectionSeesThroughEnumeration(vendorId, productId, serial, HidDevices(devs));
  }
}
