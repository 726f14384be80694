// The libusb backend's device path: bus number, device address and HID
// interface number printed with "%04x:%04x:%02x". hid_open_path finds a
// device again by comparing this string, so it has to name one interface of
// one device unambiguously.
module UsbPath {
  import opened HidTypes

  function Pow16(w: nat): (p: nat)
    ensures p >= 1
  {
    if w == 0 then 1 else 16 * Pow16(w - 1)
  }

  /** One lowercase hexadecimal digit, as printf's %x writes it. */
  function HexDigit(d: nat): (c: char)
    requires d < 16
  {
    if d < 10 then ('0' as int + d) as char else ('a' as int + d - 10) as char
  }

  predicate IsHexDigit(c: char)
  {
    '0' <= c <= '9' || 'a' <= c <= 'f'
  }

  predicate AllHex(s: string)
  {
    forall i :: 0 <= i < |s| ==> IsHexDigit(s[i])
  }

  function DigitValue(c: char): (d: nat)
    requires IsHexDigit(c)
    ensures d < 16
  {
    if '0' <= c <= '9' then c as int - '0' as int else c as int - 'a' as int + 10
  }

  /** printf's "%0<width>x" for a value that fits in `width` digits. */
  function HexPad(n: nat, width: nat): (s: string)
    requires n < Pow16(width)
    ensures |s| == width
    ensures AllHex(s)
  {
    if width == 0 then ""
    else HexPad(n / 16, width - 1) + [HexDigit(n % 16)]
  }

  /** The value of a string of hexadecimal digits. */
  function ParseHex(s: string): nat
    requires AllHex(s)
  {
    if s == [] then 0 else ParseHex(s[..|s| - 1]) * 16 + DigitValue(s[|s| - 1])
  }

  lemma {:induction false} HexRoundTrip(n: nat, width: nat)
    requires n < Pow16(width)
    ensures ParseHex(HexPad(n, width)) == n
    decreases width
  {
    if width > 0 {
      var prefix := HexPad(n / 16, width - 1);
      var s := HexPad(n, width);
      assert s[..|s| - 1] == prefix;
      HexRoundTrip(n / 16, width - 1);
      var d := n % 16;
      assert DigitValue(HexDigit(d)) == d;
    }
  }

  /** make_path: "%04x:%04x:%02x" of bus number, device address and
      interface number (each a one-byte value in libusb). */
  function MakePath(bus: byte, address: byte, interfaceNumber: byte): (path: string)
    ensures |path| == 12 && path[4] == ':' && path[9] == ':'
  {
    assert Pow16(2) == 256 && Pow16(4) == 65536;
    HexPad(bus, 4) + ":" + HexPad(address, 4) + ":" + HexPad(interfaceNumber, 2)
  }

  datatype PathFields = PathFields(bus: nat, address: nat, interfaceNumber: nat)

  /** Reads a path of the shape make_path writes back into its three numbers. */
  function ParsePath(path: string): Option<PathFields>
  {
    if |path| == 12 && path[4] == ':' && path[9] == ':'
       && AllHex(path[0..4]) && AllHex(path[5..9]) && AllHex(path[10..12])
    then Some(PathFields(ParseHex(path[0..4]), ParseHex(path[5..9]), ParseHex(path[10..12])))
    else None
  }

  /** A path assembled from three runs of hex digits parses to their values. */
  lemma ParseAssembledPath(a: string, b: string, c: string)
    requires |a| == 4 && |b| == 4 && |c| == 2
    requires AllHex(a) && AllHex(b) && AllHex(c)
    ensures ParsePath(a + ":" + b + ":" + c) == Some(PathFields(ParseHex(a), ParseHex(b), ParseHex(c)))
  {
    var path := a + ":" + b + ":" + c;
    assert path[0..4] == a && path[5..9] == b && path[10..12] == c;
    assert |path| == 12 && path[4] == ':' && path[9] == ':';
    assert ParsePath(path) == Some(PathFields(ParseHex(path[0..4]), ParseHex(path[5..9]), ParseHex(path[10..12])));
  }

  /** The three numbers can be read back from the path. */
  lemma MakePathRoundTrip(bus: byte, address: byte, interfaceNumber: byte)
    ensures ParsePath(MakePath(bus, address, interfaceNumber))
         == Some(PathFields(bus, address, interfaceNumber))
  {
    var x, y, z := bus, address, interfaceNumber;
    assert Pow16(2) == 256 && Pow16(4) == 65536;
    HexRoundTrip(x, 4);
    HexRoundTrip(y, 4);
    HexRoundTrip(z, 2);
    ParseAssembledPath(HexPad(x, 4), HexPad(y, 4), HexPad(z, 2));
  }

  /** Two interfaces get the same path only if they are the same interface
      of the device at the same bus and address. */
  lemma MakePathInjective(b1: byte, a1: byte, i1: byte, b2: byte, a2: byte, i2: byte)
    requires MakePath(b1, a1, i1) == MakePath(b2, a2, i2)
    ensures b1 == b2 && a1 == a2 && i1 == i2
  {
    MakePathRoundTrip(b1, a1, i1);
    MakePathRoundTrip(b2, a2, i2);
    var f1 := PathFields(b1, a1, i1);
    var f2 := PathFields(b2, a2, i2);
    assert Some(f1) == Some(f2);
    assert b1 == b2 && a1 == a2 && i1 == i2;
  }
}
