// The hidraw backend (linux/hid.c), an unfinished port: its table of
// MAX_DEVICES slots, its handle checks and its open/close bookkeeping are in
// place, but nothing ever stores an OS handle in a slot.
module HidrawBackend {
  import opened HidTypes
  import opened HandleTable

  /** struct Device. `deviceHandle` is the file descriptor, -1 for none. */
  datatype Slot = Slot(valid: bool, deviceHandle: int, blocking: bool)

  /** A slot of the zero-initialised static table. */
  const ZERO_SLOT := Slot(false, 0, false)

  /** What the first hid_open writes into every slot: not valid, no file
      descriptor, blocking. */
  const INITIAL_SLOT := Slot(false, -1, true)

  /** The table as hid_open finds it after its one-time initialisation. */
  function Initialized(slots: seq<Slot>, initialized: bool): seq<Slot>
  {
    if initialized then slots else seq(|slots|, _ => INITIAL_SLOT)
  }

  /** The backend's global state: the device table and its initialisation
      flag. */
  class HidrawTable {
    var devicesInitialized: bool
    const devices: array<Slot>

    /** The table has its MAX_DEVICES slots, and once initialised no slot
        holds a file descriptor: only the initialisation writes
        `deviceHandle`. */
    predicate Valid()
      reads this, devices
    {
      && devices.Length == MAX_DEVICES
      && (devicesInitialized ==> forall i :: 0 <= i < MAX_DEVICES ==> devices[i].deviceHandle == -1)
    }

    /** The test every entry point starts with. */
    predicate IsOpen(h: int)
      reads this, devices
    {
      devices.Length == MAX_DEVICES && InRange(h) && devices[h].valid
    }

    /** The static storage at program start. */
    constructor ()
      ensures Valid() && fresh(devices) && !devicesInitialized
      ensures forall i :: 0 <= i < MAX_DEVICES ==> devices[i] == ZERO_SLOT
    {
      devicesInitialized := false;
      devices := new Slot[MAX_DEVICES](_ => ZERO_SLOT);
    }

    /** hid_open. After the one-time initialisation it claims the lowest free
        slot, or fails when all are valid. The claimed slot keeps the file
        descriptor it had, -1, so the test for a descriptor above 0 always
        fails, the slot is released again and -1 is returned: every call
        fails and leaves the table as the initialisation made it. */
    method Open(vendorId: u16, productId: u16, serial: Option<string>) returns (handle: int)
      requires Valid()
      modifies this`devicesInitialized, devices
      ensures Valid() && devicesInitialized
      ensures handle == -1
      ensures devices[..] == Initialized(old(devices[..]), old(devicesInitialized))
    {
      if !devicesInitialized {
        for i := 0 to MAX_DEVICES
          invariant forall j :: 0 <= j < i ==> devices[j] == INITIAL_SLOT
        {
          devices[i] := INITIAL_SLOT;
        }
        devicesInitialized := true;
      }
      ghost var start := devices[..];
      handle := -1;
      var i := 0;
      while i < MAX_DEVICES
        invariant 0 <= i <= MAX_DEVICES
        invariant devices[..] == start
        invariant handle == -1
      {
        if !devices[i].valid {
          devices[i] := devices[i].(valid := true);
          handle := i;
          break;
        }
        i := i + 1;
      }
      if handle < 0 {
        return -1;
      }
      if devices[handle].deviceHandle > 0 {
        return handle;
      } else {
        devices[handle] := devices[handle].(valid := false);
        assert devices[..] == start;
        return -1;
      }
    }

    /** hid_set_nonblocking: -1 for a bad handle with nothing changed;
        otherwise the slot becomes blocking exactly when `nonblock` is 0, and
        0 is returned. */
    method SetNonblocking(h: int, nonblock: int) returns (r: int)
      requires Valid()
      modifies devices
      ensures Valid()
      ensures !old(IsOpen(h)) ==> r == -1 && devices[..] == old(devices[..])
      ensures old(IsOpen(h)) ==>
        r == 0 && devices[..] == old(devices[..])[h := old(devices[h]).(blocking := nonblock == 0)]
    {
      if h < 0 || h >= MAX_DEVICES {
        return -1;
      }
      if !devices[h].valid {
        return -1;
      }
      devices[h] := devices[h].(blocking := nonblock == 0);
      r := 0;
    }

    /** hid_close: a valid slot in range is marked free and nothing else
        changes; any other handle is ignored. */
    method Close(h: int)
      requires Valid()
      modifies devices
      ensures Valid()
      ensures !old(IsOpen(h)) ==> devices[..] == old(devices[..])
      ensures old(IsOpen(h)) ==> devices[..] == old(devices[..])[h := old(devices[h]).(valid := false)]
    {
      if h < 0 || h >= MAX_DEVICES {
        return;
      }
      if !devices[h].valid {
        return;
      }
      devices[h] := devices[h].(valid := false);
    }

    /** hid_get_manufacturer_string, hid_get_product_string,
        hid_get_serial_number_string and hid_get_indexed_string: after the
        handle check they return 0 without writing a string. */
    method GetString(h: int) returns (r: int)
      requires Valid()
      ensures r == if IsOpen(h) then 0 else -1
    {
      if h < 0 || h >= MAX_DEVICES {
        return -1;
      }
      if !devices[h].valid {
        return -1;
      }
      r := 0;
    }
  }
}
