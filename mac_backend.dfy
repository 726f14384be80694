// The IOKit backend (mac/hid.c). Open devices live in a static table of
// MAX_DEVICES slots and are named by their index. IOKit delivers input
// reports through hid_report_callback while the current thread runs its run
// loop; hid_read runs that loop itself. Every IOKit call is replaced by its
// outcome, passed in as a parameter: the devices the HID manager lists, the
// result of opening or of a report transfer, and the turns of the run loop.
module MacBackend {
  import opened HidTypes
  import opened HandleTable
  import opened ReportFraming
  import opened DeviceSelection
  import ReportQueue

  /** struct Device, without the IOKit objects it also holds (the run-loop
      mode string and the receive buffer). `deviceHandle` is None for NULL
      and otherwise the position of the opened device in the HID manager's
      device list. */
  datatype Slot = Slot(
    valid: bool,
    deviceHandle: Option<nat>,
    blocking: bool,
    usesNumberedReports: bool,
    inputReports: seq<Report>)

  /** A slot of the zero-initialised static table. */
  const ZERO_SLOT := Slot(false, None, false, false, [])

  /** What the first hid_open_path writes into every slot: not valid, no OS
      device, blocking, no queued reports. */
  const INITIAL_SLOT := Slot(false, None, true, false, [])

  /** A device in the HID manager's list: the record hid_enumerate makes for
      it (its path is what make_path prints for it) and whether
      IOHIDDeviceOpen succeeds on it. */
  datatype OsDevice = OsDevice(info: DeviceInfo, opens: bool)

  /** IOHIDReportType. */
  datatype ReportKind = InputKind | OutputKind | FeatureKind

  /** IOHIDDeviceSetReport's arguments: the report type, the Report ID, and
      the bytes sent. */
  datatype SetReportCall = SetReportCall(kind: ReportKind, reportId: byte, sent: seq<byte>)

  /** IOHIDDeviceGetReport's outcome: failure, or success with the bytes it
      wrote to the front of the caller's buffer. */
  datatype GetReportResult = GetReportFailed | GetReportFilled(reply: seq<byte>)

  /** What CFRunLoopRunInMode returns. */
  datatype RunLoopResult = Finished | Stopped | TimedOut | HandledSource

  /** One run of the run loop: the reports IOKit handed to
      hid_report_callback during it, and the code it returned. */
  datatype RunLoopTurn = RunLoopTurn(delivered: seq<Report>, code: RunLoopResult)

  /** The codes after which the blocking read runs the loop again. */
  predicate KeepsWaiting(code: RunLoopResult)
  {
    code == TimedOut || code == HandledSource
  }

  /** The turn on which hid_read's blocking loop breaks: the first that
      delivers something or returns a code other than timed-out or
      handled-source. */
  function WaitEnds(turns: seq<RunLoopTurn>): nat
  {
    FirstIndex(turns, (t: RunLoopTurn) => t.delivered != [] || !KeepsWaiting(t.code))
  }

  /** The slot hid_open_path's search claims: the lowest-index one that is
      not valid, or MAX_DEVICES when every slot is valid. */
  function FirstFree(slots: seq<Slot>): (k: nat)
    ensures k <= |slots|
    ensures k < |slots| ==> !slots[k].valid
    ensures forall j :: 0 <= j < k ==> slots[j].valid
  {
    FirstIndex(slots, (s: Slot) => !s.valid)
  }

  /** The device hid_open_path's search stops at: the first whose path is
      the requested one. */
  function FirstPathMatch(path: string, os: seq<OsDevice>): (m: nat)
    ensures m <= |os|
    ensures m < |os| ==> os[m].info.path == path
    ensures forall j :: 0 <= j < m ==> os[j].info.path != path
  {
    FirstIndex(os, (d: OsDevice) => d.info.path == path)
  }

  /** The table as hid_open_path finds it after its one-time initialisation. */
  function Initialized(slots: seq<Slot>, initialized: bool): seq<Slot>
  {
    if initialized then slots else seq(|slots|, _ => INITIAL_SLOT)
  }

  /** The records hid_enumerate can make, one per device of the HID manager. */
  function Records(os: seq<OsDevice>): (records: seq<DeviceInfo>)
    ensures |records| == |os|
    ensures forall i :: 0 <= i < |os| ==> records[i] == os[i].info
  {
    seq(|os|, i requires 0 <= i < |os| => os[i].info)
  }

  datatype OpenOutcome = OpenOutcome(slots: seq<Slot>, handle: int)

  /** hid_open_path on an initialised table. The lowest free slot is claimed
      and reset (valid, blocking, no numbered reports, empty queue); when
      every slot is valid the call fails with nothing changed. When the
      first device with the requested path opens, the claimed slot keeps it
      and its index is returned; when no device has that path or the first
      one fails to open, the slot is marked free again and the call fails. */
  function OpenPathEffect(slots: seq<Slot>, path: string, os: seq<OsDevice>): (o: OpenOutcome)
    ensures |o.slots| == |slots|
    ensures -1 <= o.handle < |slots|
    ensures o.handle >= 0 ==>
      && o.handle == FirstFree(slots)
      && FirstPathMatch(path, os) < |os|
      && o.slots[o.handle] == Slot(true, Some(FirstPathMatch(path, os)), true, false, [])
    ensures o.handle == -1 <==>
      FirstFree(slots) == |slots| || FirstPathMatch(path, os) == |os| || !os[FirstPathMatch(path, os)].opens
    ensures o.handle == -1 && FirstFree(slots) < |slots| ==> o.slots[FirstFree(slots)] == INITIAL_SLOT
    ensures forall j :: 0 <= j < |slots| && j != FirstFree(slots) ==> o.slots[j] == slots[j]
    ensures forall j :: 0 <= j < |slots| && j != o.handle ==> o.slots[j].valid == slots[j].valid
  {
    var k := FirstFree(slots);
    if k == |slots| then OpenOutcome(slots, -1)
    else
      var m := FirstPathMatch(path, os);
      if m < |os| && os[m].opens
      then OpenOutcome(slots[k := Slot(true, Some(m), true, false, [])], k)
      else OpenOutcome(slots[k := INITIAL_SLOT], -1)
  }

  /** hid_close on a handle: a valid slot in range is marked free and its
      queued reports are released; any other handle changes nothing. */
  function CloseEffect(slots: seq<Slot>, h: int): (after: seq<Slot>)
    ensures |after| == |slots|
    ensures 0 <= h < |slots| && slots[h].valid ==>
      && !after[h].valid
      && after[h].inputReports == []
      && forall j :: 0 <= j < |slots| && j != h ==> after[j] == slots[j]
    ensures !(0 <= h < |slots| && slots[h].valid) ==> after == slots
  {
    if 0 <= h < |slots| && slots[h].valid
    then slots[h := slots[h].(valid := false, inputReports := [])]
    else slots
  }

  /** Opening and then closing the handle that was returned gives back a
      table in which exactly the same slots are valid as before. */
  lemma CloseUndoesOpen(slots: seq<Slot>, path: string, os: seq<OsDevice>)
    ensures var o := OpenPathEffect(slots, path, os);
      var after := CloseEffect(o.slots, o.handle);
      forall j :: 0 <= j < |slots| ==> after[j].valid == slots[j].valid
  {
  }

  /** A handle that was returned is open, and no other open handle shares
      its slot: opening never hands out a slot that was already valid. */
  lemma OpenReturnsFreshHandle(slots: seq<Slot>, path: string, os: seq<OsDevice>)
    requires OpenPathEffect(slots, path, os).handle >= 0
    ensures var h := OpenPathEffect(slots, path, os).handle;
      !slots[h].valid && OpenPathEffect(slots, path, os).slots[h].valid
  {
  }

  /** With every slot taken, opening fails whatever the devices. */
  lemma FullTableRejectsOpen(slots: seq<Slot>, path: string, os: seq<OsDevice>)
    requires forall j :: 0 <= j < |slots| ==> slots[j].valid
    ensures OpenPathEffect(slots, path, os) == OpenOutcome(slots, -1)
  {
  }

  /** The IOKit backend's global state: the device table and the flag for
      its one-time initialisation. */
  class MacHid {
    var devicesInitialized: bool
    const devices: array<Slot>

    /** The table has its MAX_DEVICES slots. */
    predicate Valid()
      reads this
    {
      devices.Length == MAX_DEVICES
    }

    /** The test every entry point starts with. */
    predicate IsOpen(h: int)
      reads this, devices
    {
      Valid() && InRange(h) && devices[h].valid
    }

    /** The static storage at program start: every slot zero, not initialised. */
    constructor ()
      ensures Valid() && fresh(devices)
      ensures !devicesInitialized
      ensures forall i :: 0 <= i < MAX_DEVICES ==> devices[i] == ZERO_SLOT
    {
      devicesInitialized := false;
      devices := new Slot[MAX_DEVICES](_ => ZERO_SLOT);
    }

    /** The one-time initialisation at the top of hid_open_path. */
    method InitializeDevices()
      requires Valid()
      modifies this`devicesInitialized, devices
      ensures devicesInitialized
      ensures devices[..] == Initialized(old(devices[..]), old(devicesInitialized))
    {
      if !devicesInitialized {
        for i := 0 to MAX_DEVICES
          invariant forall j :: 0 <= j < i ==> devices[j] == INITIAL_SLOT
        {
          devices[i] := INITIAL_SLOT;
        }
        devicesInitialized := true;
      }
    }

    /** hid_open_path. */
    method OpenPath(path: string, os: seq<OsDevice>) returns (handle: int)
      requires Valid()
      modifies this`devicesInitialized, devices
      ensures devicesInitialized
      ensures var o := OpenPathEffect(Initialized(old(devices[..]), old(devicesInitialized)), path, os);
        devices[..] == o.slots && handle == o.handle
    {
      InitializeDevices();
      ghost var start := devices[..];
      handle := -1;
      var i := 0;
      while i < MAX_DEVICES
        invariant 0 <= i <= MAX_DEVICES
        invariant devices[..] == start
        invariant forall j :: 0 <= j < i ==> start[j].valid
      {
        if !devices[i].valid {
          devices[i] := Slot(true, None, true, false, []);
          handle := i;
          break;
        }
        i := i + 1;
      }
      FirstIndexUnique(start, (s: Slot) => !s.valid, i);
      if handle < 0 {
        return -1;
      }
      var k := handle;
      i := 0;
      while i < |os|
        invariant 0 <= i <= |os|
        invariant forall j :: 0 <= j < i ==> os[j].info.path != path
        invariant devices[..] == start[k := Slot(true, None, true, false, [])]
      {
        if os[i].info.path == path {
          FirstIndexUnique(os, (d: OsDevice) => d.info.path == path, i);
          if os[i].opens {
            devices[k] := devices[k].(deviceHandle := Some(i));
            return k;
          }
          break;
        }
        i := i + 1;
      }
      FirstIndexUnique(os, (d: OsDevice) => d.info.path == path, i);
      devices[k] := devices[k].(valid := false);
      handle := -1;
    }

    /** hid_open: the first record of hid_enumerate's list for this VID/PID
        that matches (and has the serial number, when one is given) is opened
        by its path; with no such record nothing is opened and nothing
        changes. */
    method Open(vendorId: u16, productId: u16, serial: Option<string>, os: seq<OsDevice>) returns (handle: int)
      requires Valid()
      modifies this`devicesInitialized, devices
      ensures var records := Records(os);
        var k := FirstOpenable(vendorId, productId, serial, records);
        if k < |records|
        then
          var o := OpenPathEffect(Initialized(old(devices[..]), old(devicesInitialized)), records[k].path, os);
          devicesInitialized && devices[..] == o.slots && handle == o.handle
        else
          handle == -1 && devicesInitialized == old(devicesInitialized) && devices[..] == old(devices[..])
    {
      var list := DeviceSelection.Enumerate(vendorId, productId, Records(os));
      var path := SelectPath(vendorId, productId, serial, list);
      SelectionSeesThroughEnumeration(vendorId, productId, serial, Records(os));
      if path.Some? {
        handle := OpenPath(path.value, os);
      } else {
        handle := -1;
      }
    }

    /** hid_report_callback: a copy of the report is attached at the tail of
        the device's queue; the rest of the table is untouched. */
    method ReportCallback(h: nat, report: Report)
      requires Valid() && InRange(h)
      modifies devices
      ensures devices[..] == old(devices[..])[h := old(devices[h]).(inputReports := old(devices[h].inputReports) + [report])]
      ensures devices[h].inputReports == ReportQueue.Step(old(devices[h].inputReports), ReportQueue.Delivered(report))
    {
      var slot := devices[h];
      if slot.inputReports == [] {
        assert slot.inputReports + [report] == [report];
        devices[h] := slot.(inputReports := [report]);
      } else {
        devices[h] := slot.(inputReports := slot.inputReports + [report]);
      }
    }

    /** One run of the run loop in which IOKit calls hid_report_callback for
        each of `reports`, in order. */
    method RunCallbacks(h: nat, reports: seq<Report>)
      requires Valid() && InRange(h)
      modifies devices
      ensures devices[..] == old(devices[..])[h := old(devices[h]).(inputReports := old(devices[h].inputReports) + reports)]
    {
      ghost var start := devices[..];
      assert start[h].inputReports + reports[..0] == start[h].inputReports;
      assert start[h := start[h].(inputReports := start[h].inputReports)] == start;
      for i := 0 to |reports|
        invariant devices[..] == start[h := start[h].(inputReports := start[h].inputReports + reports[..i])]
      {
        ReportCallback(h, reports[i]);
        assert reports[..i + 1] == reports[..i] + [reports[i]];
        assert start[h].inputReports + reports[..i + 1] == start[h].inputReports + reports[..i] + [reports[i]];
      }
      assert reports[..|reports|] == reports;
    }

    /** return_data: the head report leaves the queue and
        `min(length, its length)` bytes of it are copied to the buffer. */
    method ReturnData(h: nat, data: array<byte>, length: nat) returns (n: nat)
      requires Valid() && InRange(h) && devices[h].inputReports != []
      requires length <= data.Length
      modifies devices, data
      ensures var q := old(devices[h].inputReports);
        && n == Min(length, |q[0]|)
        && data[..n] == q[0][..n]
        && data[n..] == old(data[n..])
        && devices[..] == old(devices[..])[h := old(devices[h]).(inputReports := q[1..])]
      ensures devices[h].inputReports == ReportQueue.Step(old(devices[h].inputReports), ReportQueue.Consumed)
    {
      var slot := devices[h];
      n := ReportQueue.CopyOut(data, slot.inputReports[0], length);
      devices[h] := slot.(inputReports := slot.inputReports[1..]);
    }

    /** hid_read. A bad handle gives -1. A queued report is returned at once,
        whatever the mode. Otherwise a blocking read runs the loop until a
        turn delivers reports or returns a code other than timed-out or
        handled-source (the model asks that such a turn comes), and a
        non-blocking read runs it once with a zero timeout; the head of what
        was delivered is returned, or, when nothing was, -1 (blocking) or 0
        (non-blocking) with the queue still empty. */
    method Read(h: int, data: array<byte>, length: nat, turns: seq<RunLoopTurn>) returns (bytesRead: int)
      requires Valid() && length <= data.Length
      requires IsOpen(h) && devices[h].inputReports == [] && devices[h].blocking ==> WaitEnds(turns) < |turns|
      requires IsOpen(h) && devices[h].inputReports == [] && !devices[h].blocking ==> turns != []
      modifies devices, data
      ensures !old(IsOpen(h)) ==> bytesRead == -1 && devices[..] == old(devices[..]) && data[..] == old(data[..])
      ensures old(IsOpen(h)) ==>
        var slot := old(devices[h]);
        var q :=
          if slot.inputReports != [] then slot.inputReports
          else if slot.blocking then turns[WaitEnds(turns)].delivered
          else turns[0].delivered;
        if q == [] then
          && bytesRead == (if slot.blocking then -1 else 0)
          && devices[..] == old(devices[..])
          && data[..] == old(data[..])
        else
          && bytesRead == Min(length, |q[0]|)
          && data[..bytesRead] == q[0][..bytesRead]
          && data[bytesRead..] == old(data[bytesRead..])
          && devices[..] == old(devices[..])[h := slot.(inputReports := q[1..])]
    {
      if h < 0 || h >= MAX_DEVICES {
        return -1;
      }
      if !devices[h].valid {
        return -1;
      }
      if devices[h].inputReports != [] {
        var n := ReturnData(h, data, length);
        return n;
      }
      ghost var start := devices[..];
      if devices[h].blocking {
        var i := 0;
        while true
          invariant 0 <= i <= WaitEnds(turns)
          invariant devices[..] == start
          invariant data[..] == old(data[..])
          decreases WaitEnds(turns) - i
        {
          var turn := turns[i];
          RunCallbacks(h, turn.delivered);
          assert start[h].inputReports + turn.delivered == turn.delivered;
          if devices[h].inputReports != [] {
            FirstIndexUnique(turns, (t: RunLoopTurn) => t.delivered != [] || !KeepsWaiting(t.code), i);
            break;
          }
          if turn.code != TimedOut && turn.code != HandledSource {
            FirstIndexUnique(turns, (t: RunLoopTurn) => t.delivered != [] || !KeepsWaiting(t.code), i);
            break;
          }
          i := i + 1;
        }
        if devices[h].inputReports != [] {
          var n := ReturnData(h, data, length);
          return n;
        } else {
          return -1;
        }
      } else {
        RunCallbacks(h, turns[0].delivered);
        assert start[h].inputReports + turns[0].delivered == turns[0].delivered;
        if devices[h].inputReports != [] {
          var n := ReturnData(h, data, length);
          return n;
        } else {
          return 0;
        }
      }
    }

    /** set_report on an open slot: a Report ID of 0 is not sent; the
        caller's whole length comes back on success, -1 on failure. */
    method SetReport(kind: ReportKind, data: seq<byte>, success: bool) returns (call: SetReportCall, r: int)
      requires |data| >= 1
      ensures call == SetReportCall(kind, data[0], WithoutZeroReportId(data))
      ensures r == if success then |data| else -1
    {
      var dataToSend, lengthToSend := data, |data|;
      if data[0] == 0 {
        dataToSend, lengthToSend := data[1..], |data| - 1;
      }
      call := SetReportCall(kind, data[0], dataToSend[..lengthToSend]);
      r := if success then |data| else -1;
    }

    /** hid_write: -1 for a bad handle (and no report is set); otherwise an
        Output report through set_report. */
    method Write(h: int, data: seq<byte>, success: bool) returns (call: Option<SetReportCall>, r: int)
      requires Valid() && |data| >= 1
      ensures !IsOpen(h) ==> call == None && r == -1
      ensures IsOpen(h) ==>
        && call == Some(SetReportCall(OutputKind, data[0], WithoutZeroReportId(data)))
        && r == if success then |data| else -1
    {
      if h < 0 || h >= MAX_DEVICES || !devices[h].valid {
        return None, -1;
      }
      var c;
      c, r := SetReport(OutputKind, data, success);
      call := Some(c);
    }

    /** hid_send_feature_report: like hid_write, with a Feature report. */
    method SendFeatureReport(h: int, data: seq<byte>, success: bool) returns (call: Option<SetReportCall>, r: int)
      requires Valid() && |data| >= 1
      ensures !IsOpen(h) ==> call == None && r == -1
      ensures IsOpen(h) ==>
        && call == Some(SetReportCall(FeatureKind, data[0], WithoutZeroReportId(data)))
        && r == if success then |data| else -1
    {
      if h < 0 || h >= MAX_DEVICES || !devices[h].valid {
        return None, -1;
      }
      var c;
      c, r := SetReport(FeatureKind, data, success);
      call := Some(c);
    }

    /** hid_get_feature_report: asks IOKit for the Feature report named by
        data[0] into the whole buffer; on success returns the caller's
        length, not the size IOKit reports, and -1 on failure or for a bad
        handle. */
    method GetFeatureReport(h: int, data: array<byte>, length: nat, result: GetReportResult) returns (r: int)
      requires Valid() && 1 <= length <= data.Length
      requires result.GetReportFilled? ==> |result.reply| <= length
      modifies data
      ensures !old(IsOpen(h)) || result.GetReportFailed? ==> r == -1 && data[..] == old(data[..])
      ensures old(IsOpen(h)) && result.GetReportFilled? ==>
        && r == length
        && data[..|result.reply|] == result.reply
        && data[|result.reply|..] == old(data[|result.reply|..])
    {
      if h < 0 || h >= MAX_DEVICES || !devices[h].valid {
        return -1;
      }
      if result.GetReportFailed? {
        return -1;
      }
      var reply := result.reply;
      forall i | 0 <= i < |reply| {
        data[i] := reply[i];
      }
      r := length;
    }

    /** hid_set_nonblocking: -1 for a bad handle, otherwise the slot's mode
        becomes blocking exactly when `nonblock` is 0, and 0 is returned. */
    method SetNonblocking(h: int, nonblock: int) returns (r: int)
      requires Valid()
      modifies devices
      ensures !old(IsOpen(h)) ==> r == -1 && devices[..] == old(devices[..])
      ensures old(IsOpen(h)) ==>
        r == 0 && devices[..] == old(devices[..])[h := old(devices[h]).(blocking := nonblock == 0)]
    {
      if h < 0 || h >= MAX_DEVICES || !devices[h].valid {
        return -1;
      }
      devices[h] := devices[h].(blocking := nonblock == 0);
      r := 0;
    }

    /** hid_get_manufacturer_string, hid_get_product_string,
        hid_get_serial_number_string and hid_get_indexed_string: after the
        handle check they return 0 without writing a string. */
    method GetString(h: int) returns (r: int)
      requires Valid()
      ensures r == if IsOpen(h) then 0 else -1
    {
      if h < 0 || h >= MAX_DEVICES || !devices[h].valid {
        return -1;
      }
      r := 0;
    }

    /** hid_close. */
    method Close(h: int)
      requires Valid()
      modifies devices
      ensures devices[..] == CloseEffect(old(devices[..]), h)
    {
      if h < 0 || h >= MAX_DEVICES || !devices[h].valid {
        return;
      }
      // The queued reports are freed one by one; the slot then no longer
      // holds any.
      devices[h] := devices[h].(valid := false, inputReports := []);
    }
  }
}
