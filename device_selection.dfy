// Device selection, the same in every backend: hid_enumerate keeps the
// devices whose VID/PID match its arguments (both 0 matches everything) and
// links their records in enumeration order; hid_open walks that list and
// takes the path of the first record with the requested VID/PID and, when a
// serial number is given, an equal serial number.
module DeviceSelection {
  import opened HidTypes

  /** struct hid_device_info, without its `next` link (the list is a seq).
      A string the backend could not read is None (a NULL pointer). */
  datatype DeviceInfo = DeviceInfo(
    path: string,
    vendorId: u16,
    productId: u16,
    serialNumber: Option<string>,
    manufacturerString: Option<string>,
    productString: Option<string>)

  /** hid_enumerate's filter. */
  predicate Wanted(vendorId: u16, productId: u16, d: DeviceInfo)
  {
    (vendorId == 0 && productId == 0) || (vendorId == d.vendorId && productId == d.productId)
  }

  /** The enumeration list: the wanted devices, in the order the OS lists them. */
  function Enumerated(vendorId: u16, productId: u16, devices: seq<DeviceInfo>): (list: seq<DeviceInfo>)
    ensures |list| <= |devices|
    ensures forall d :: d in list <==> d in devices && Wanted(vendorId, productId, d)
  {
    if devices == [] then []
    else
      (if Wanted(vendorId, productId, devices[0]) then [devices[0]] else [])
      + Enumerated(vendorId, productId, devices[1..])
  }

  /** Enumeration keeps order: listing two runs of devices one after the
      other gives the two lists one after the other. */
  lemma {:induction false} EnumeratedAppend(vendorId: u16, productId: u16, a: seq<DeviceInfo>, b: seq<DeviceInfo>)
    ensures Enumerated(vendorId, productId, a + b)
         == Enumerated(vendorId, productId, a) + Enumerated(vendorId, productId, b)
    decreases |a|
  {
    if a != [] {
      assert (a + b)[1..] == a[1..] + b;
      EnumeratedAppend(vendorId, productId, a[1..], b);
    } else {
      assert a + b == b;
    }
  }

  /** With both IDs 0 the list is every device, unchanged. */
  lemma {:induction false} EnumerateAll(devices: seq<DeviceInfo>)
    ensures Enumerated(0, 0, devices) == devices
    decreases |devices|
  {
    if devices != [] {
      EnumerateAll(devices[1..]);
      assert [devices[0]] + devices[1..] == devices;
    }
  }

  /** The enumeration loop: one record appended at the tail of the list for
      every device that passes the VID/PID filter. */
  method Enumerate(vendorId: u16, productId: u16, devices: seq<DeviceInfo>) returns (list: seq<DeviceInfo>)
    ensures list == Enumerated(vendorId, productId, devices)
  {
    list := [];
    var i := 0;
    while i < |devices|
      invariant 0 <= i <= |devices|
      invariant list == Enumerated(vendorId, productId, devices[..i])
    {
      var dev := devices[i];
      assert devices[..i + 1] == devices[..i] + [dev];
      EnumeratedAppend(vendorId, productId, devices[..i], [dev]);
      assert Enumerated(vendorId, productId, [dev]) == if Wanted(vendorId, productId, dev) then [dev] else [] by {
        assert [dev][1..] == [];
      }
      if (vendorId == 0 && productId == 0) || (vendorId == dev.vendorId && productId == dev.productId) {
        list := list + [dev];
      }
      i := i + 1;
    }
    assert devices[..i] == devices;
  }

  /** hid_open's test on one record: equal VID and PID and, when a serial
      number was asked for, an equal serial number. */
  predicate Openable(vendorId: u16, productId: u16, serial: Option<string>, d: DeviceInfo)
  {
    && d.vendorId == vendorId
    && d.productId == productId
    && (serial.Some? ==> d.serialNumber == serial)
  }

  /** Where hid_open's walk over `list` stops. */
  function FirstOpenable(vendorId: u16, productId: u16, serial: Option<string>, list: seq<DeviceInfo>): nat
  {
    FirstIndex(list, (d: DeviceInfo) => Openable(vendorId, productId, serial, d))
  }

  /** The walk of hid_open over the enumeration list: the path of the first
      openable record, or None (so that nothing is opened). */
  method SelectPath(vendorId: u16, productId: u16, serial: Option<string>, list: seq<DeviceInfo>)
    returns (path: Option<string>)
    ensures path.None? <==> forall i :: 0 <= i < |list| ==> !Openable(vendorId, productId, serial, list[i])
    ensures path.Some? ==>
      exists k ::
        && 0 <= k < |list|
        && Openable(vendorId, productId, serial, list[k])
        && path.value == list[k].path
        && forall j :: 0 <= j < k ==> !Openable(vendorId, productId, serial, list[j])
    ensures var k := FirstOpenable(vendorId, productId, serial, list);
      path == if k < |list| then Some(list[k].path) else None
  {
    path := None;
    var i := 0;
    while i < |list|
      invariant 0 <= i <= |list|
      invariant forall j :: 0 <= j < i ==> !Openable(vendorId, productId, serial, list[j])
    {
      var cur := list[i];
      if cur.vendorId == vendorId && cur.productId == productId {
        if serial.Some? {
          if cur.serialNumber == serial {
            path := Some(cur.path);
            return;
          }
        } else {
          path := Some(cur.path);
          return;
        }
      }
      i := i + 1;
    }
  }

  /** The walk looks at the first record, then at the rest. */
  lemma FirstOpenableCons(vendorId: u16, productId: u16, serial: Option<string>, list: seq<DeviceInfo>)
    requires list != []
    ensures FirstOpenable(vendorId, productId, serial, list)
         == if Openable(vendorId, productId, serial, list[0]) then 0
            else 1 + FirstOpenable(vendorId, productId, serial, list[1..])
  {
  }

  /** hid_open walks the list hid_enumerate made for the same VID/PID; since
      every openable record passes that filter, it lands on the record it
      would have found in the unfiltered device list. */
  lemma {:induction false} SelectionSeesThroughEnumeration(
    vendorId: u16, productId: u16, serial: Option<string>, devices: seq<DeviceInfo>)
    ensures var list := Enumerated(vendorId, productId, devices);
      var k := FirstOpenable(vendorId, productId, serial, devices);
      var k' := FirstOpenable(vendorId, productId, serial, list);
      (k < |devices| <==> k' < |list|) && (k < |devices| ==> list[k'] == devices[k])
    decreases |devices|
  {
    if devices != [] {
      var d, tail := devices[0], devices[1..];
      var rest := Enumerated(vendorId, productId, tail);
      var list := Enumerated(vendorId, productId, devices);
      SelectionSeesThroughEnumeration(vendorId, productId, serial, tail);
      FirstOpenableCons(vendorId, productId, serial, devices);
      if Wanted(vendorId, productId, d) {
        assert list == [d] + rest;
        FirstOpenableCons(vendorId, productId, serial, list);
        assert list[0] == d && list[1..] == rest;
      } else {
        assert list == rest;
        assert !Openable(vendorId, productId, serial, d);
      }
    }
  }
}
