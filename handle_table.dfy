// The IOKit and hidraw backends name an open device by an int handle: an
// index into a static table of MAX_DEVICES slots. Every entry point first
// rejects a handle that is out of range or whose slot is not valid.
module HandleTable {

  /** mac/hid.c and linux/hid.c both define MAX_DEVICES as 64. */
  const MAX_DEVICES: nat := 64

  /** The range check every entry point makes before it looks at the slot. */
  predicate InRange(h: int)
  {
    0 <= h < MAX_DEVICES
  }
}
