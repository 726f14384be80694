# hidapi core, modelled in Dafny

This project models the bookkeeping that the early HIDAPI library (Signal 11
Software) performs around the operating system in each of its backends, and
proves what that bookkeeping guarantees. The backends are:

- the IOKit backend for Mac OS X (`mac/hid.c`);
- the libusb backend for Linux (`linux/hid-libusb.c`);
- the Windows backend (`hidapi/hid.cpp`);
- the unfinished hidraw backend for Linux (`linux/hid.c`).

Each native call (IOKit, libusb, Win32, udev) is replaced by its outcome,
which the model takes as a parameter. Outcomes include a status code, a byte
count, the bytes the OS put in a buffer, or the turns of a run loop.

The model covers:

- **The input-report queue.** The IOKit and libusb completion callbacks append
  a copy of each report at the tail of a per-device list. `return_data` takes
  the head out and copies `min(length, len)` bytes to the caller. `hid_read`
  returns the head at once, or pumps or waits (blocking mode), or returns 0
  (non-blocking mode). The backends keep the list as a `seq<Report>` field
  that their methods reassign. `ReportQueue` proves that any interleaving of
  deliveries and reads is a FIFO without loss or duplication.
- **Report-ID framing.** A leading Report ID of 0 is not sent on the wire, and
  the count handed back still includes that byte. Control transfers use HID
  class requests Get_Report (0x01) and Set_Report (0x09), with the report type
  in the high byte of wValue and the Report ID in the low byte (USB Device
  Class Definition for HID 1.11, sections 7.2.1 and 7.2.2). On Windows,
  `hid_read` drops the 0 byte that the OS puts in front of unnumbered reports.
- **The 64-slot handle table** of the IOKit and hidraw backends:
  - a one-time initialisation;
  - `hid_open_path` / `hid_open` claim the lowest free slot;
  - `hid_close` frees the slot;
  - every entry point first checks the handle.

  Both are classes over an `array` of slot records, updated in place.
- **Device selection.** `hid_enumerate` keeps a device when both IDs asked for
  are 0 or both match, in enumeration order. `hid_open` opens the path of the
  first record with the requested VID/PID and, when a serial number is given,
  an equal serial number.
- **libusb helpers.**
  - `make_path` prints bus, address and interface as `%04x:%04x:%02x`.
  - Endpoint selection keeps the first interrupt-IN endpoint and the first
    interrupt-OUT endpoint. Transfer type and direction are decoded as in
    section 9.6.6 of the USB 2.0 specification.

The source's quirks are modelled as written:

- The libusb `hid_set_nonblocking` returns -1.
- libusb devices start non-blocking, while IOKit and Windows devices start
  blocking.
- The IOKit `hid_get_feature_report` returns the caller's length, while the
  Windows one returns 0.
- The hidraw `hid_open` can never succeed. The model proves this from the
  table invariant instead of assuming it.
- Only an interrupt-OUT endpoint with a non-zero address sticks as the libusb
  output endpoint, because the selection loop tests the recorded address
  against 0.

Files:

| file | module | contents |
|---|---|---|
| `hid_types.dfy` | `HidTypes` | bytes, IDs, reports, `Option`, the first-match scan |
| `handle_table.dfy` | `HandleTable` | `MAX_DEVICES` and the range check |
| `report_queue.dfy` | `ReportQueue` | copy-out of a report, FIFO theorem |
| `report_framing.dfy` | `ReportFraming` | Report-ID stripping, wValue, HID request constants |
| `device_selection.dfy` | `DeviceSelection` | enumeration filter, `hid_open` choice |
| `usb_path.dfy` | `UsbPath` | libusb `make_path` and its parser |
| `usb_endpoints.dfy` | `UsbEndpoints` | endpoint descriptor decoding |
| `mac_backend.dfy` | `MacBackend` | IOKit backend |
| `libusb_backend.dfy` | `LibusbBackend` | libusb backend |
| `windows_backend.dfy` | `WindowsBackend` | Windows backend |
| `hidraw_backend.dfy` | `HidrawBackend` | hidraw backend |

## Model

| member | source | states |
|---|---|---|
| ReportQueue.CopyOut | mac/hid.c:533-534 | exactly `min(length, len)` bytes of the report reach the front of the buffer, the rest of the buffer is unchanged, and that count is returned |
| ReportQueue.FifoNoLossNoDuplication | mac/hid.c:362-379 | for any interleaving of deliveries and reads, the reports handed out followed by those still queued equal the initial queue followed by every delivery in order: FIFO, nothing lost, nothing duplicated |
| ReportQueue.DrainedQueueReturnsDeliveries | mac/hid.c:528-539 | once an initially empty queue is drained, the reads returned exactly the delivered reports, in delivery order |
| ReportFraming.ReportValue | linux/hid-libusb.c:571 | wValue, the report type shifted left by 8 combined with the Report ID, holds the report type in its high byte and the Report ID in its low byte |
| ReportFraming.WithoutZeroReportId | mac/hid.c:487-498 | the wire bytes are the buffer minus a leading 0 Report ID (buffer == [0] + wire), and the whole buffer for any other Report ID |
| ReportFraming.CountWithReportId | linux/hid-libusb.c:596-599 | the returned count is the wire count plus one exactly when the Report ID was stripped, so a complete transfer reports the caller's whole length |
| DeviceSelection.Enumerated | mac/hid.c:257-259 | a record is in the enumeration list iff the device is listed and both IDs asked for are 0 or both match; the list is no longer than the device list |
| DeviceSelection.EnumeratedAppend | mac/hid.c:245-292 | enumeration keeps OS order: enumerating two runs of devices gives their two lists one after the other |
| DeviceSelection.EnumerateAll | hidapi/hid.cpp:222-223 | with VID and PID both 0 every device is listed, in order |
| DeviceSelection.Enumerate | hidapi/hid.cpp:222-277 | the enumeration loop's list is the filtered device list |
| DeviceSelection.SelectPath | mac/hid.c:324-339 | no path iff no record matches; otherwise the path of the first record with the requested VID/PID and, when a serial is given, that serial |
| DeviceSelection.SelectionSeesThroughEnumeration | linux/hid-libusb.c:307-324 | walking `hid_enumerate`'s list finds a record iff walking the raw device list does, and finds the same record |
| UsbPath.HexPad | linux/hid-libusb.c:174 | `%0<w>x` of a value below 16^w is w lowercase hex digits |
| UsbPath.HexRoundTrip | linux/hid-libusb.c:174 | reading the digits back gives the value |
| UsbPath.MakePath | linux/hid-libusb.c:171-181 | a path is 12 characters with `:` at positions 4 and 9 |
| UsbPath.MakePathRoundTrip | linux/hid-libusb.c:171-181 | bus, address and interface number can be read back from the path |
| UsbPath.MakePathInjective | linux/hid-libusb.c:467-468 | two interfaces share a path only if bus, address and interface number are all equal, so comparing paths finds the enumerated interface |
| UsbEndpoints.MasksAgree | linux/hid-libusb.c:503-511 | the model's transfer-type and direction tests (bits 1..0 equal to 3, bit 7 set or clear) hold exactly when the source's `&` mask tests do |
| UsbEndpoints.FirstInterruptIn | linux/hid-libusb.c:514-519 | the scan stops at an interrupt IN endpoint, with none before it |
| UsbEndpoints.FirstInterruptOut | linux/hid-libusb.c:520-524 | the scan stops at an interrupt OUT endpoint with a non-zero address, with none before it |
| UsbEndpoints.InputSelectedStep | linux/hid-libusb.c:514-519 | one loop turn keeps the recorded input endpoint equal to the first interrupt IN endpoint seen so far (0 and 0 while there is none) |
| UsbEndpoints.OutputSelectedStep | linux/hid-libusb.c:520-524 | one loop turn keeps the recorded output endpoint equal to the first interrupt OUT endpoint with a non-zero address seen so far (0 while there is none) |
| LibusbBackend.LibusbDevice.constructor | linux/hid-libusb.c:65-82 | a new device has endpoints and interface 0, is non-blocking, has no shutdown request and an empty queue |
| LibusbBackend.LibusbDevice.SelectEndpoints | linux/hid-libusb.c:497-525 | the input endpoint (with its max packet size) is the first interrupt IN endpoint and the output endpoint the first interrupt OUT one with a non-zero address; later ones are ignored, and 0 is kept when there is none |
| LibusbBackend.LibusbDevice.ReadCallback | linux/hid-libusb.c:336-384 | a completed transfer appends a copy of `actual_length` bytes at the tail, signalling only when the queue was empty; cancelled or no-device sets `shutdown_thread` without resubmitting; every other status resubmits |
| LibusbBackend.LibusbDevice.ReturnData | linux/hid-libusb.c:605-616 | the head leaves the queue, `min(length, len)` bytes of it are copied and returned, and the rest of the queue is the old tail |
| LibusbBackend.LibusbDevice.Read | linux/hid-libusb.c:619-651 | a queued head is returned whatever the mode; an empty non-blocking read returns 0 and changes nothing; a blocking read returns the head of what arrived |
| LibusbBackend.LibusbDevice.SetNonblocking | linux/hid-libusb.c:653-658 | blocking iff `nonblock == 0`, and -1 is returned |
| LibusbBackend.ControlData | linux/hid-libusb.c:573 | the data stage of a control transfer is a prefix of the payload whose length is the payload's length modulo 0x10000, so a payload shorter than 0x10000 bytes goes out whole |
| LibusbBackend.LibusbDevice.Write | linux/hid-libusb.c:553-601 | without an OUT endpoint a Set_Report(Output) control transfer with wValue type 2 and the Report ID, on the interface, whose data stage is the payload cut to the 16-bit wLength, otherwise an interrupt transfer; a 0 Report ID is not sent; -1 on failure, else the caller's length (control) or the moved count plus the stripped byte (interrupt) |
| LibusbBackend.LibusbDevice.SendFeatureReport | linux/hid-libusb.c:661-689 | a Set_Report(Feature) control transfer without a 0 Report ID, its data stage cut to the 16-bit wLength; the caller's full length on success, -1 on failure |
| LibusbBackend.LibusbDevice.GetFeatureReport | linux/hid-libusb.c:691-719 | a Get_Report(Feature) control transfer asking for the buffer's length (less the kept Report ID byte) modulo 0x10000; with Report ID 0 the reply lands one byte in, keeping byte 0, and the count includes it; -1 on failure, with the buffer as the failed transfer outcome leaves it (the model's failure outcomes write nothing) |
| LibusbBackend.HidInterfaceNumber | linux/hid-libusb.c:220-231 | none iff no alternate setting is HID; otherwise the number of the last HID alternate setting |
| LibusbBackend.EnumerationRecord | linux/hid-libusb.c:213-278 | a device makes a record iff its class is per-interface and it has a HID interface; its path reads back as bus, address and that interface, and it carries the device's VID/PID and serial |
| LibusbBackend.HidDevicesMembers | linux/hid-libusb.c:201-285 | a record is considered exactly when some device of the list makes it |
| LibusbBackend.HidDevicesAppend | linux/hid-libusb.c:201-285 | the records of a concatenation of device lists are those of each part, in the same order |
| LibusbBackend.Enumerate | linux/hid-libusb.c:201-285 | the list is the VID/PID filter over the listed HID devices, in libusb's list order |
| LibusbBackend.OpenSelection | linux/hid-libusb.c:301-334 | the path `hid_open` passes on is that of the first matching HID device, or none |
| MacBackend.FirstFree | mac/hid.c:406-418 | the claimed slot is not valid and every lower slot is valid; MAX_DEVICES when all are valid |
| MacBackend.FirstPathMatch | mac/hid.c:433-439 | the search stops at the first device with the requested path |
| MacBackend.OpenPathEffect | mac/hid.c:406-479 | the returned handle is the lowest free slot, now valid, blocking, with an empty queue and the device; -1 iff the table is full, no device has the path, or the first one fails to open, and then a claimed slot is back to its initial free state; no other slot changes and no other slot changes validity |
| MacBackend.CloseEffect | mac/hid.c:653-681 | closing a valid handle frees its slot and empties its queue; any other handle changes nothing |
| MacBackend.CloseUndoesOpen | mac/hid.c:474-478 | after an open and a close of its result, the same slots are valid as before |
| MacBackend.OpenReturnsFreshHandle | mac/hid.c:407-416 | a returned handle was free before and is valid after |
| MacBackend.FullTableRejectsOpen | mac/hid.c:420-422 | with all 64 slots valid, opening fails and changes nothing |
| MacBackend.MacHid.constructor | mac/hid.c:36-38 | the static table starts zeroed and not initialised |
| MacBackend.MacHid.InitializeDevices | mac/hid.c:393-404 | the first call sets every slot to not valid, blocking, no device, empty queue; later calls change nothing |
| MacBackend.MacHid.OpenPath | mac/hid.c:386-479 | the table and the result are those of `OpenPathEffect` on the initialised table |
| MacBackend.MacHid.Open | mac/hid.c:315-349 | the first matching enumerated record's path is opened as by `OpenPathEffect`; with none, -1 and nothing changes |
| MacBackend.MacHid.ReportCallback | mac/hid.c:354-384 | the report is appended at the tail of that slot's queue; earlier entries and all other slots are unchanged |
| MacBackend.MacHid.RunCallbacks | mac/hid.c:565-569 | a run-loop turn appends its delivered reports to the queue in order |
| MacBackend.MacHid.ReturnData | mac/hid.c:528-539 | the head leaves the queue and `min(length, len)` bytes of it are copied and returned |
| MacBackend.MacHid.Read | mac/hid.c:541-596 | -1 for a bad handle; a queued head is returned at once; otherwise the head of what the run loop delivered, or -1 (blocking, loop stopped with nothing) / 0 (non-blocking) with nothing changed |
| MacBackend.MacHid.SetReport | mac/hid.c:481-511 | the bytes sent are the buffer minus a leading 0 Report ID; the caller's length on success, -1 on failure |
| MacBackend.MacHid.Write | mac/hid.c:513-525 | -1 and no transfer for a bad handle; otherwise an Output report through `set_report` |
| MacBackend.MacHid.SendFeatureReport | mac/hid.c:615-627 | -1 and no transfer for a bad handle; otherwise a Feature report through `set_report` |
| MacBackend.MacHid.GetFeatureReport | mac/hid.c:629-650 | -1 with the buffer untouched for a bad handle, or for a failure (the model's failure outcome writes nothing); otherwise the reply is in the buffer and the caller's length is returned |
| MacBackend.MacHid.GetString | mac/hid.c:683-749 | -1 for a handle out of range or not open, 0 otherwise, in all four string getters |
| MacBackend.MacHid.SetNonblocking | mac/hid.c:598-613 | -1 and nothing changed for a bad handle; otherwise the slot is blocking iff `nonblock == 0` and 0 is returned |
| MacBackend.MacHid.Close | mac/hid.c:653-681 | the table becomes `CloseEffect` of the old table |
| WindowsBackend.WinDevice.constructor | hidapi/hid.cpp:70-79 | a new device is blocking with no error recorded |
| WindowsBackend.WinDevice.RegisterError | hidapi/hid.cpp:82-98 | `hid_error` then returns the new message, replacing the previous one |
| WindowsBackend.WinDevice.Error | hidapi/hid.cpp:567-570 | the message of the latest failure, or None when nothing has failed |
| WindowsBackend.WinDevice.Write | hidapi/hid.cpp:381-413 | WriteFile is given the caller's buffer unchanged, Report ID byte included even when it is 0; the count written, or -1 with the error recorded when WriteFile fails other than pending or its result fails |
| WindowsBackend.WinDevice.Read | hidapi/hid.cpp:416-476 | -1 with the error recorded on a non-pending ReadFile failure or a failed result; 0 and no change for a non-blocking read not yet signalled; otherwise the received bytes without a leading 0, with the count adjusted to match |
| WindowsBackend.WinDevice.SetNonblocking | hidapi/hid.cpp:478-482 | blocking iff `nonblock == 0`, and 0 is returned |
| WindowsBackend.WinDevice.SendFeatureReport | hidapi/hid.cpp:484-493 | HidD_SetFeature is given the caller's buffer unchanged, Report ID byte included; the caller's length on success; -1 with the error recorded on failure |
| WindowsBackend.WinDevice.GetFeatureReport | hidapi/hid.cpp:496-505 | 0 with the reply in the buffer on success; -1 with the error recorded on failure |
| WindowsBackend.MoveDown | hidapi/hid.cpp:466 | bytes 1..n move to 0..n-1; byte n and later keep their values |
| WindowsBackend.OpenPath | hidapi/hid.cpp:348-379 | a fresh blocking device with no error when CreateFile succeeds, NULL otherwise |
| WindowsBackend.Candidates | hidapi/hid.cpp:150-211 | exactly the interfaces whose detail data and handle could be obtained are considered |
| WindowsBackend.CandidatesAppend | hidapi/hid.cpp:150-211 | the candidates of a concatenation are those of each part, in the same order |
| WindowsBackend.Enumerate | hidapi/hid.cpp:120-294 | the list is the VID/PID filter over those interfaces, in order |
| WindowsBackend.Open | hidapi/hid.cpp:312-346 | the path of the first matching record is opened; with none, nothing is opened and NULL is returned |
| HidrawBackend.HidrawTable.constructor | linux/hid.c:31-33 | the static table starts zeroed and not initialised |
| HidrawBackend.HidrawTable.Open | linux/hid.c:155-195 | the first call initialises every slot to not valid, descriptor -1, blocking; every call then returns -1 and leaves the table as initialised, since no slot ever holds a descriptor above 0 |
| HidrawBackend.HidrawTable.SetNonblocking | linux/hid.c:230-243 | -1 and nothing changed for a bad handle; otherwise blocking iff `nonblock == 0` and 0 |
| HidrawBackend.HidrawTable.Close | linux/hid.c:245-257 | a valid handle's slot loses only `valid`; any other handle changes nothing |
| HidrawBackend.HidrawTable.GetString | linux/hid.c:259-320 | the string getters return -1 for a bad handle and 0 otherwise |

## Left out

- Concurrency is not modelled. This covers the libusb `read_thread` with its
  mutex and condition variable, and the IOKit run loop as an event source.
  Callbacks and reads are sequential method calls, and the events they would
  have waited for are parameters.
- Native calls are not modelled: IOKit, libusb transfers and descriptor
  queries, SetupAPI, `CreateFile`, `ReadFile`, `WriteFile`, the `HidD_*`
  functions and udev. Their outcomes are inputs. A failed native read is
  taken to write nothing into the caller's buffer; whether libusb or IOKit
  write part of a reply before failing is not captured.
- String conversion is not modelled: iconv, the `CFString` wrappers, and
  wide-string duplication. Strings are given as values.
- The IOKit `make_path` is not modelled, because it prints a pointer value.
  A device's path is given with its record.
- The hidraw `hid_enumerate`, `hid_read` and `hid_write` are not modelled.
  They are udev calls or return uninitialised locals.
- The libusb string getters are not modelled: they return the constant -1.
  `hid_error` in the IOKit, libusb and hidraw backends is not modelled
  either: it returns the constant NULL.
- Memory ownership is not modelled: `malloc`/`free` and
  `hid_free_enumeration`.
- The libusb `hid_close` is not modelled. It cancels the transfer, joins the
  thread and frees the device.
- The libusb `hid_open_path` is modelled only as far as its endpoint
  selection. Device matching, the kernel-driver detach and the interface
  claim are not part of this model.
- Parsing of report descriptors for Report IDs is not part of this model;
  the library has no such code.
- The linked-list tail walk of the callbacks is not modelled: a report is
  appended to the `seq` directly, and the walk's effect is the same.
- DeviceSelection.SelectPath: when a serial number is asked for and a record
  has none, the source passes NULL to `wcscmp`. The model treats that record
  as not matching.
- LibusbBackend.LibusbDevice.Read: the blocking read takes the head right
  after `pthread_cond_wait` without looking at the queue again. The model
  therefore requires that the wait ends with at least one report queued.
- MacBackend.MacHid.Read: the blocking loop runs the run loop until it
  delivers or stops. The model requires that such a turn comes, and does not
  model a wait that never ends.
- LibusbBackend.LibusbDevice.Write, LibusbBackend.LibusbDevice.SendFeatureReport
  and LibusbBackend.LibusbDevice.GetFeatureReport: the 16-bit wLength wrap
  is modelled, but the `size_t` length returned as `int` is not: the model
  returns the caller's length as an unbounded integer, and lengths of 2^31
  or more (also the `int` length of the interrupt transfer) are not given
  their C conversion.
- The libusb `printf` diagnostics in `read_callback` and `hid_open_path`
  are not modelled; they change no state.
- MacBackend.MacHid.Close: the queued reports are freed but the list pointer
  is not reset. The model empties the queue; `hid_open_path` resets it before
  the slot is used again.
- MacBackend.MacHid.GetFeatureReport: the size that IOKit writes back is not
  modelled, since the source ignores it.
- WindowsBackend.WinDevice.Read: when `GetOverlappedResult` fails, the source
  may still shift the buffer by a byte count that is then undefined. The model
  leaves the buffer unchanged and records the error.
- WindowsBackend.WinDevice.Read: a non-blocking read that is cancelled is
  modelled as leaving the buffer unchanged.
