// Endpoint descriptors as the libusb backend reads them when it opens a HID
// interface. The transfer type and direction are decoded as section 9.6.6 of
// the USB 2.0 specification lays them out: bits 1..0 of bmAttributes are the
// transfer type (3 = interrupt), bit 7 of bEndpointAddress the direction
// (1 = IN, device to host).
module UsbEndpoints {
  import opened HidTypes

  /** The masks and values the open loop tests with `&`. */
  const TRANSFER_TYPE_MASK: bv8 := 0x03
  const TRANSFER_TYPE_INTERRUPT: bv8 := 0x03
  const ENDPOINT_DIR_MASK: bv8 := 0x80
  const ENDPOINT_IN: bv8 := 0x80
  const ENDPOINT_OUT: bv8 := 0x00

  datatype EndpointDescriptor = EndpointDescriptor(
    bEndpointAddress: byte,
    bmAttributes: byte,
    wMaxPacketSize: u16)

  /** Transfer type 3 (interrupt) in bits 1..0 of bmAttributes. */
  predicate IsInterrupt(ep: EndpointDescriptor)
  {
    ep.bmAttributes % 4 == 3
  }

  /** Bit 7 of bEndpointAddress set: device to host. */
  predicate IsInput(ep: EndpointDescriptor)
  {
    ep.bEndpointAddress / 0x80 == 1
  }

  /** Bit 7 of bEndpointAddress clear: host to device. */
  predicate IsOutput(ep: EndpointDescriptor)
  {
    ep.bEndpointAddress / 0x80 == 0
  }

  /** The three tests above are the source's mask tests. */
  lemma MasksAgree(ep: EndpointDescriptor)
    ensures IsInterrupt(ep) <==> (ep.bmAttributes as bv8 & TRANSFER_TYPE_MASK) == TRANSFER_TYPE_INTERRUPT
    ensures IsInput(ep) <==> (ep.bEndpointAddress as bv8 & ENDPOINT_DIR_MASK) == ENDPOINT_IN
    ensures IsOutput(ep) <==> (ep.bEndpointAddress as bv8 & ENDPOINT_DIR_MASK) == ENDPOINT_OUT
  {
    var a := ep.bEndpointAddress as bv8;
    var t := ep.bmAttributes as bv8;
    ByteRoundTrip(ep.bEndpointAddress);
    ByteRoundTrip(ep.bmAttributes);
    DirectionBit(a);
    TypeBits(t);
  }

  lemma ByteRoundTrip(x: byte)
    ensures (x as bv8) as int == x
  {
  }

  /** Bit 7 of a byte is set exactly when its value is at least 0x80. */
  lemma DirectionBit(b: bv8)
    ensures (b & 0x80 == 0x80) <==> b as int >= 0x80
    ensures (b & 0x80 == 0x00) <==> b as int < 0x80
  {
    assert (b >= 0x80) <==> b as int >= 0x80;
  }

  /** Bits 1..0 of a byte are its value modulo 4. */
  lemma TypeBits(b: bv8)
    ensures (b & 0x03) as int == (b as int) % 4
  {
    assert b & 0x03 == b % 4;
    assert (b % 4) as int == (b as int) % 4;
  }

  /** An endpoint the open loop would take for input: interrupt and IN. */
  predicate InterruptIn(ep: EndpointDescriptor)
  {
    IsInterrupt(ep) && IsInput(ep)
  }

  /** An endpoint the open loop would take for output. The loop only takes
      one while the recorded output endpoint is still 0, and taking one whose
      address is 0 leaves it 0, so the endpoint that sticks is the first
      interrupt OUT endpoint with a non-zero address. */
  predicate InterruptOut(ep: EndpointDescriptor)
  {
    IsInterrupt(ep) && IsOutput(ep) && ep.bEndpointAddress != 0
  }

  /** Where the open loop's search for an input endpoint stops. */
  function FirstInterruptIn(eps: seq<EndpointDescriptor>): (k: nat)
    ensures k <= |eps|
    ensures k < |eps| ==> InterruptIn(eps[k])
    ensures forall j :: 0 <= j < k ==> !InterruptIn(eps[j])
  {
    FirstIndex(eps, (ep: EndpointDescriptor) => InterruptIn(ep))
  }

  /** Where the open loop's search for an output endpoint stops. */
  function FirstInterruptOut(eps: seq<EndpointDescriptor>): (k: nat)
    ensures k <= |eps|
    ensures k < |eps| ==> InterruptOut(eps[k])
    ensures forall j :: 0 <= j < k ==> !InterruptOut(eps[j])
  {
    FirstIndex(eps, (ep: EndpointDescriptor) => InterruptOut(ep))
  }

  /** What the open loop has recorded as input endpoint (address and
      maximum packet size) after looking at `eps`: the first interrupt IN
      endpoint, or 0 and 0 when there is none. */
  predicate InputSelected(eps: seq<EndpointDescriptor>, address: int, maxPacketSize: int)
  {
    var k := FirstInterruptIn(eps);
    if k < |eps|
    then address == eps[k].bEndpointAddress && maxPacketSize == eps[k].wMaxPacketSize
    else address == 0 && maxPacketSize == 0
  }

  /** What the open loop has recorded as output endpoint after looking at
      `eps`: the first interrupt OUT endpoint with a non-zero address, or 0. */
  predicate OutputSelected(eps: seq<EndpointDescriptor>, address: int)
  {
    var k := FirstInterruptOut(eps);
    address == if k < |eps| then eps[k].bEndpointAddress else 0
  }

  /** One step of the open loop's input choice: an endpoint is taken only
      while none is recorded, and only if it is interrupt and IN. */
  lemma InputSelectedStep(eps: seq<EndpointDescriptor>, i: nat, address: int, maxPacketSize: int,
                          address': int, maxPacketSize': int)
    requires i < |eps|
    requires InputSelected(eps[..i], address, maxPacketSize)
    requires address == 0 && IsInterrupt(eps[i]) && IsInput(eps[i]) ==>
      address' == eps[i].bEndpointAddress && maxPacketSize' == eps[i].wMaxPacketSize
    requires !(address == 0 && IsInterrupt(eps[i]) && IsInput(eps[i])) ==>
      address' == address && maxPacketSize' == maxPacketSize
    ensures InputSelected(eps[..i + 1], address', maxPacketSize')
  {
    FirstIndexExtend(eps, (ep: EndpointDescriptor) => InterruptIn(ep), i);
  }

  /** One step of the open loop's output choice: an endpoint is taken only
      while the recorded address is 0, and only if it is interrupt and OUT. */
  lemma OutputSelectedStep(eps: seq<EndpointDescriptor>, i: nat, address: int, address': int)
    requires i < |eps|
    requires OutputSelected(eps[..i], address)
    requires address == 0 && IsInterrupt(eps[i]) && IsOutput(eps[i]) ==> address' == eps[i].bEndpointAddress
    requires !(address == 0 && IsInterrupt(eps[i]) && IsOutput(eps[i])) ==> address' == address
    ensures OutputSelected(eps[..i + 1], address')
  {
    FirstIndexExtend(eps, (ep: EndpointDescriptor) => InterruptOut(ep), i);
  }
}
