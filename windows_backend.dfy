// The Windows backend (hidapi/hid.cpp). A device handle is a heap object
// holding the OS handle, the blocking flag and the last error message. Reads
// and writes are overlapped file I/O made synchronous by waiting for the
// result. Every Win32 call is replaced by its outcome, passed in as a
// parameter; an error's message is what FormatMessage made of GetLastError().
module WindowsBackend {
  import opened HidTypes
  import opened ReportFraming
  import opened DeviceSelection

  /** How ReadFile or WriteFile returned: TRUE, FALSE with ERROR_IO_PENDING
      (the transfer goes on in the background), or FALSE with another error. */
  datatype IoStart = StartedDone | StartedPending | StartFailed(message: Option<string>)

  /** GetOverlappedResult for a write: the count written, or a failure. */
  datatype WriteCompletion = Written(count: nat) | WriteFailed(message: Option<string>)

  /** GetOverlappedResult for a read: the bytes ReadFile put at the front of
      the caller's buffer (their number is the count it reports), or a
      failure. */
  datatype ReadCompletion = Received(bytes: seq<byte>) | ReadFailed(message: Option<string>)

  /** A HidD_* call that returns a BOOLEAN. */
  datatype CallResult = Succeeded | CallFailed(message: Option<string>)

  /** struct hid_device_, without the OS handle (which the model does not
      use). */
  class WinDevice {
    var blocking: bool
    var lastError: Option<string>

    /** new_hid_device: blocking, and no error recorded. */
    constructor ()
      ensures blocking && lastError == None
    {
      blocking := true;
      lastError := None;
    }

    /** register_error: the new message replaces the previous one. */
    method RegisterError(message: Option<string>)
      modifies this`lastError
      ensures Error() == message
    {
      lastError := message;
    }

    /** hid_error: the message of the latest failure, or None. */
    function Error(): Option<string>
      reads this
    {
      lastError
    }

    /** hid_write: WriteFile is handed the caller's whole buffer, Report ID
        byte included even when it is 0 (`sent`); the result is the count the
        OS reports written, or -1 with the error recorded when WriteFile fails
        outright or its result does. */
    method Write(data: seq<byte>, start: IoStart, completion: WriteCompletion) returns (sent: seq<byte>, r: int)
      modifies this`lastError
      ensures sent == data
      ensures start.StartFailed? ==> r == -1 && Error() == start.message
      ensures !start.StartFailed? && completion.WriteFailed? ==> r == -1 && Error() == completion.message
      ensures !start.StartFailed? && completion.Written? ==> r == completion.count && Error() == old(Error())
    {
      sent := data;
      if start.StartFailed? {
        RegisterError(start.message);
        return sent, -1;
      }
      if completion.WriteFailed? {
        RegisterError(completion.message);
        return sent, -1;
      }
      r := completion.count;
    }

    /** hid_read. A ReadFile error other than pending, or a failed result,
        is recorded and gives -1. A non-blocking read whose event is not yet
        signalled cancels the I/O and returns 0. Otherwise the received bytes
        are in the buffer; when there are some and the first is 0 (the Report
        ID Windows puts in front of unnumbered reports) the rest is moved down
        one byte and the count is one less. */
    method Read(data: array<byte>, length: nat, start: IoStart, signalled: bool, completion: ReadCompletion)
      returns (r: int)
      requires length <= data.Length
      requires completion.Received? ==> |completion.bytes| <= length
      modifies this`lastError, data
      ensures start.StartFailed? ==> r == -1 && Error() == start.message && data[..] == old(data[..])
      ensures !start.StartFailed? && !blocking && !signalled ==>
        r == 0 && Error() == old(Error()) && data[..] == old(data[..])
      ensures !start.StartFailed? && (blocking || signalled) && completion.ReadFailed? ==>
        r == -1 && Error() == completion.message && data[..] == old(data[..])
      ensures !start.StartFailed? && (blocking || signalled) && completion.Received? ==>
        var received := completion.bytes;
        var report := WithoutZeroReportId(received);
        && r == |report|
        && data[..|report|] == report
        && data[|report|..|received|] == received[|report|..]
        && data[|received|..] == old(data[|received|..])
        && Error() == old(Error())
    {
      if start.StartFailed? {
        RegisterError(start.message);
        return -1;
      }
      if !blocking && !signalled {
        return 0;
      }
      if completion.ReadFailed? {
        RegisterError(completion.message);
        return -1;
      }
      var received := completion.bytes;
      // ReadFile has written the report into the caller's buffer.
      forall i | 0 <= i < |received| {
        data[i] := received[i];
      }
      var bytesRead := |received|;
      if bytesRead > 0 && data[0] == 0 {
        bytesRead := bytesRead - 1;
        MoveDown(data, bytesRead);
      }
      r := bytesRead;
    }

    /** hid_set_nonblocking: always succeeds. */
    method SetNonblocking(nonblock: int) returns (r: int)
      modifies this`blocking
      ensures blocking <==> nonblock == 0
      ensures r == 0
    {
      blocking := nonblock == 0;
      r := 0;
    }

    /** hid_send_feature_report: the whole buffer, Report ID included, goes
        to HidD_SetFeature (`sent`); the caller's length comes back, or -1
        with the error recorded. */
    method SendFeatureReport(data: seq<byte>, result: CallResult) returns (sent: seq<byte>, r: int)
      modifies this`lastError
      ensures sent == data
      ensures result.Succeeded? ==> r == |data| && Error() == old(Error())
      ensures result.CallFailed? ==> r == -1 && Error() == result.message
    {
      sent := data;
      if result.CallFailed? {
        RegisterError(result.message);
        return sent, -1;
      }
      r := |data|;
    }

    /** hid_get_feature_report: HidD_GetFeature fills the buffer; the call
        returns 0 on success, since Windows reports no length, or -1 with the
        error recorded. */
    method GetFeatureReport(data: array<byte>, length: nat, result: ReadCompletion) returns (r: int)
      requires length <= data.Length
      requires result.Received? ==> |result.bytes| <= length
      modifies this`lastError, data
      ensures result.Received? ==>
        && r == 0
        && data[..|result.bytes|] == result.bytes
        && data[|result.bytes|..] == old(data[|result.bytes|..])
        && Error() == old(Error())
      ensures result.ReadFailed? ==> r == -1 && Error() == result.message && data[..] == old(data[..])
    {
      if result.ReadFailed? {
        RegisterError(result.message);
        return -1;
      }
      var reply := result.bytes;
      forall i | 0 <= i < |reply| {
        data[i] := reply[i];
      }
      r := 0;
    }
  }

  /** memmove(data, data + 1, n): the n bytes after the first move down by
      one; byte n and those after it keep their values. */
  method MoveDown(data: array<byte>, n: nat)
    requires n < data.Length
    modifies data
    ensures data[..n] == old(data[1..n + 1])
    ensures data[n..] == old(data[n..])
  {
    for i := 0 to n
      invariant data[..i] == old(data[1..i + 1])
      invariant data[i..] == old(data[i..])
    {
      data[i] := data[i + 1];
    }
  }

  /** hid_open_path: a fresh device for the path when CreateFile succeeds,
      NULL otherwise. */
  method OpenPath(path: string, createSucceeds: bool) returns (dev: WinDevice?)
    ensures createSucceeds ==> dev != null && fresh(dev) && dev.blocking && dev.Error() == None
    ensures !createSucceeds ==> dev == null
  {
    if !createSucceeds {
      return null;
    }
    dev := new WinDevice();
  }

  /** One interface of the HID device class, as hid_enumerate finds it:
      whether SetupDiGetDeviceInterfaceDetail gives its detail data, whether
      CreateFile opens it, and the record made from its path, attributes and
      strings. */
  datatype HidInterface = HidInterface(detailOk: bool, opens: bool, info: DeviceInfo)

  /** The interfaces whose VID/PID hid_enumerate can read: those whose detail
      data and handle both could be obtained, in enumeration order. */
  function Candidates(interfaces: seq<HidInterface>): (records: seq<DeviceInfo>)
    ensures |records| <= |interfaces|
    ensures forall d :: d in records <==> exists i :: 0 <= i < |interfaces| && interfaces[i].detailOk && interfaces[i].opens && interfaces[i].info == d
  {
    if interfaces == [] then []
    else
      var rest := Candidates(interfaces[1..]);
      assert forall i :: 1 <= i < |interfaces| ==> interfaces[i] == interfaces[1..][i - 1];
      var first := interfaces[0];
      (if first.detailOk && first.opens then [first.info] else []) + rest
  }

  /** The candidates of a concatenation are those of each part, in order:
      hid_enumerate keeps the order in which SetupAPI lists the interfaces. */
  lemma {:induction false} CandidatesAppend(a: seq<HidInterface>, b: seq<HidInterface>)
    ensures Candidates(a + b) == Candidates(a) + Candidates(b)
    decreases |a|
  {
    if a != [] {
      CandidatesAppend(a[1..], b);
      assert (a + b)[1..] == a[1..] + b;
      assert (a + b)[0] == a[0];
    } else {
      assert a + b == b;
    }
  }

  /** hid_enumerate: every interface whose detail data and handle could be
      obtained and whose VID/PID pass the filter, in enumeration order. */
  method Enumerate(vendorId: u16, productId: u16, interfaces: seq<HidInterface>) returns (list: seq<DeviceInfo>)
    ensures list == Enumerated(vendorId, productId, Candidates(interfaces))
  {
    list := DeviceSelection.Enumerate(vendorId, productId, Candidates(interfaces));
  }

  /** hid_open: the path of the first matching enumerated record is opened;
      when there is none, nothing is opened and NULL is returned. */
  method Open(vendorId: u16, productId: u16, serial: Option<string>, interfaces: seq<HidInterface>, createSucceeds: bool)
    returns (path: Option<string>, dev: WinDevice?)
    ensures var all := Candidates(interfaces);
      var k := FirstOpenable(vendorId, productId, serial, all);
      path == if k < |all| then Some(all[k].path) else None
    ensures dev != null <==> path.Some? && createSucceeds
    ensures dev != null ==> fresh(dev) && dev.blocking && dev.Error() == None
  {
    var list := Enumerate(vendorId, productId, interfaces);
    path := SelectPath(vendorId, productId, serial, list);
    SelectionSeesThroughEnumeration(vendorId, productId, serial, Candidates(interfaces));
    dev := null;
    if path.Some? {
      dev := OpenPath(path.value, createSucceeds);
    }
  }
}
