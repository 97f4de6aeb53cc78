/** The descriptors of one USB configuration, as bytes and as the parsed tree.
    Field order and sizes are those of sections 9.6.3, 9.6.5 and 9.6.6 of the USB 2.0 specification. */
module UsbTypes {

  import opened Bytes

  // Return codes of the parser; note that the error codes are positive.
  const USB_DDK_SUCCESS: int := 0
  const USB_DDK_INVALID_PARAMETER: int := 401
  const USB_DDK_INVALID_OPERATION: int := 27400002

  const USB_MAXENDPOINTS: int := 32
  const USB_MAXALTSETTING: int := 128
  const USB_MAXINTERFACES: int := 32
  const CONFIG_SIZE: int := 9
  const INTERFACE_SIZE: int := 9
  const ENDPOINT_SIZE: int := 7
  const HEADER_SIZE: int := 2
  const DT_CONFIG: byte := 2
  const DT_INTERFACE: byte := 4
  const DT_ENDPOINT: byte := 5

  datatype ConfigDesc = ConfigDesc(bLength: byte, bDescriptorType: byte, wTotalLength: nat, bNumInterfaces: byte,
                                   bConfigurationValue: byte, iConfiguration: byte, bmAttributes: byte,
                                   bMaxPower: byte)

  datatype InterfaceDesc = InterfaceDesc(bLength: byte, bDescriptorType: byte, bInterfaceNumber: byte,
                                         bAlternateSetting: byte, bNumEndpoints: byte, bInterfaceClass: byte,
                                         bInterfaceSubClass: byte, bInterfaceProtocol: byte, iInterface: byte)

  datatype EndpointDesc = EndpointDesc(bLength: byte, bDescriptorType: byte, bEndpointAddress: byte,
                                       bmAttributes: byte, wMaxPacketSize: nat, bInterval: byte,
                                       bRefresh: byte, bSynchAddress: byte)

  const ZERO_CONFIG := ConfigDesc(0, 0, 0, 0, 0, 0, 0, 0)
  const ZERO_INTERFACE := InterfaceDesc(0, 0, 0, 0, 0, 0, 0, 0, 0)
  const ZERO_ENDPOINT := EndpointDesc(0, 0, 0, 0, 0, 0, 0, 0)

  // The parsed tree. `extra` collects the bytes of the descriptors the parser does not know.
  datatype Endpoint = Endpoint(desc: EndpointDesc, extra: bytes)
  datatype AltSetting = AltSetting(desc: InterfaceDesc, extra: bytes, endpoints: seq<Endpoint>)
  type Interface = seq<AltSetting>

  // A configuration without interfaces is one whose interface array was never allocated.
  datatype Config = Config(desc: ConfigDesc, extra: bytes, interfaces: seq<Interface>)

  /** A 16-bit field as stored on the wire, low byte first. */
  function Le16(low: byte, high: byte): (n: nat)
    ensures n < 0x1_0000
  {
    (high as nat) * 256 + low as nat
  }

  function ReadConfigDesc(b: bytes, pos: nat): ConfigDesc
    requires pos + CONFIG_SIZE <= |b|
  {
    ConfigDesc(b[pos], b[pos + 1], Le16(b[pos + 2], b[pos + 3]), b[pos + 4], b[pos + 5], b[pos + 6], b[pos + 7],
               b[pos + 8])
  }

  function ReadInterfaceDesc(b: bytes, pos: nat): InterfaceDesc
    requires pos + INTERFACE_SIZE <= |b|
  {
    InterfaceDesc(b[pos], b[pos + 1], b[pos + 2], b[pos + 3], b[pos + 4], b[pos + 5], b[pos + 6], b[pos + 7],
                  b[pos + 8])
  }

  // Only the seven standard bytes are copied; the two audio fields stay zero.
  function ReadEndpointDesc(b: bytes, pos: nat): EndpointDesc
    requires pos + ENDPOINT_SIZE <= |b|
  {
    EndpointDesc(b[pos], b[pos + 1], b[pos + 2], b[pos + 3], Le16(b[pos + 4], b[pos + 5]), b[pos + 6], 0, 0)
  }
}
