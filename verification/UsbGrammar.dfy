/** The well-formed configurations, as trees of descriptors, and their byte encoding.
    An unknown descriptor is any one whose length byte is its length (at least two) and whose type is neither
    interface nor endpoint. Alternate settings are listed in wire order: settings of different interfaces may be
    interleaved. Descriptors may be longer than standard; the excess is the `tail`. */
module UsbGrammar {
  import opened Bytes
  import opened UsbTypes

  datatype EndpointTree = EndpointTree(desc: EndpointDesc, tail: bytes, extra: seq<bytes>)
  datatype AltTree = AltTree(desc: InterfaceDesc, tail: bytes, extra: seq<bytes>, endpoints: seq<EndpointTree>)
  datatype ConfigTree = ConfigTree(desc: ConfigDesc, tail: bytes, extra: seq<bytes>, alts: seq<AltTree>)

  // --- encoding ------------------------------------------------------------------------------------------------

  function Flat(ds: seq<bytes>): bytes {
    if ds == [] then [] else ds[0] + Flat(ds[1..])
  }

  function Low(n: nat): byte { (n % 256) as byte }
  function High(n: nat): byte { (n / 256 % 256) as byte }

  function ConfigBytes(d: ConfigDesc, tail: bytes): (r: bytes)
    ensures |r| == 9 + |tail|
  {
    [d.bLength, d.bDescriptorType, Low(d.wTotalLength), High(d.wTotalLength), d.bNumInterfaces,
     d.bConfigurationValue, d.iConfiguration, d.bmAttributes, d.bMaxPower] + tail
  }

  function InterfaceBytes(d: InterfaceDesc, tail: bytes): (r: bytes)
    ensures |r| == 9 + |tail|
  {
    [d.bLength, d.bDescriptorType, d.bInterfaceNumber, d.bAlternateSetting, d.bNumEndpoints, d.bInterfaceClass,
     d.bInterfaceSubClass, d.bInterfaceProtocol, d.iInterface] + tail
  }

  function EndpointBytes(d: EndpointDesc, tail: bytes): (r: bytes)
    ensures |r| == 7 + |tail|
  {
    [d.bLength, d.bDescriptorType, d.bEndpointAddress, d.bmAttributes, Low(d.wMaxPacketSize),
     High(d.wMaxPacketSize), d.bInterval] + tail
  }

  function EncodeEndpoint(e: EndpointTree): bytes {
    EndpointBytes(e.desc, e.tail) + Flat(e.extra)
  }

  function EncodeEndpoints(es: seq<EndpointTree>): bytes {
    if es == [] then [] else EncodeEndpoint(es[0]) + EncodeEndpoints(es[1..])
  }

  function EncodeAlt(a: AltTree): bytes {
    InterfaceBytes(a.desc, a.tail) + (Flat(a.extra) + EncodeEndpoints(a.endpoints))
  }

  function EncodeAlts(alts: seq<AltTree>): bytes {
    if alts == [] then [] else EncodeAlt(alts[0]) + EncodeAlts(alts[1..])
  }

  function Encode(t: ConfigTree): bytes {
    ConfigBytes(t.desc, t.tail) + (Flat(t.extra) + EncodeAlts(t.alts))
  }

  // --- well-formedness -----------------------------------------------------------------------------------------

  predicate IsDescriptor(d: bytes) {
    2 <= |d| < 256 && d[0] as int == |d|
  }

  predicate Unknown(d: bytes) {
    IsDescriptor(d) && d[1] != 4 && d[1] != 5
  }

  /** Bytes that start no descriptor: too few for a header, or a length that is too small or leads past their end. */
  predicate Stray(z: bytes) {
    |z| < 2 || z[0] as int < 2 || z[0] as int > |z|
  }

  predicate AllUnknown(ds: seq<bytes>) {
    forall d | d in ds :: Unknown(d)
  }

  predicate WellFormedEndpoint(e: EndpointTree) {
    && e.desc.bLength as int == 7 + |e.tail|
    && e.desc.bDescriptorType == 5
    && e.desc.wMaxPacketSize < 0x1_0000
    && e.desc.bRefresh == 0 && e.desc.bSynchAddress == 0
    && AllUnknown(e.extra)
  }

  /** A setting whose lengths and types say what its bytes hold; the endpoint count is any. */
  predicate FramedAlt(a: AltTree) {
    && a.desc.bLength as int == 9 + |a.tail|
    && a.desc.bDescriptorType == 4
    && AllUnknown(a.extra)
    && forall e | e in a.endpoints :: WellFormedEndpoint(e)
  }

  /** The number of endpoints declared is the number present. */
  predicate Exact(a: AltTree) {
    a.desc.bNumEndpoints as int == |a.endpoints|
  }

  function Number(a: AltTree): byte { a.desc.bInterfaceNumber }

  /** `seen`, followed by the other interface numbers of `alts` in order of first appearance. */
  function NumbersAfter(seen: bytes, alts: seq<AltTree>): (ns: bytes)
    ensures seen <= ns
    decreases |alts|
  {
    if alts == [] then seen
    else NumbersAfter(if Number(alts[0]) in seen then seen else seen + [Number(alts[0])], alts[1..])
  }

  /** The interface numbers in order of first appearance. */
  function Numbers(alts: seq<AltTree>): bytes {
    NumbersAfter([], alts)
  }

  /** The alternate settings of interface `n`, in wire order. */
  function Settings(alts: seq<AltTree>, n: byte): (r: seq<AltTree>) {
    if alts == [] then []
    else (if Number(alts[0]) == n then [alts[0]] else []) + Settings(alts[1..], n)
  }

  /** Lengths and types say what the bytes hold. */
  predicate Framed(t: ConfigTree) {
    && t.desc.bLength as int == 9 + |t.tail|
    && t.desc.bDescriptorType == 2
    && t.desc.wTotalLength < 0x1_0000
    && AllUnknown(t.extra)
    && (forall a | a in t.alts :: FramedAlt(a))
  }

  /** So do the endpoint counts. */
  predicate Consistent(t: ConfigTree) {
    Framed(t) && forall a | a in t.alts :: Exact(a)
  }

  /** Counts that the parser can take: of interfaces, of settings of each, and of endpoints declared. */
  predicate CountsFit(alts: seq<AltTree>) {
    && (forall a | a in alts :: a.desc.bNumEndpoints as int <= 32)
    && 1 <= |Numbers(alts)| < 32
    && (forall n: byte :: |Settings(alts, n)| <= 128)
  }

  /** What the parser can take. */
  predicate WithinLimits(t: ConfigTree) {
    && t.desc.bNumInterfaces as int <= 32
    && |Encode(t)| % 256 >= t.desc.bLength as int
    && CountsFit(t.alts)
  }

  predicate WellFormed(t: ConfigTree) {
    Consistent(t) && WithinLimits(t)
  }

  /** Endpoints may be missing, but none are undeclared. */
  predicate NoSurplus(t: ConfigTree) {
    forall a | a in t.alts :: |a.endpoints| <= a.desc.bNumEndpoints as int
  }

  predicate LastExact(t: ConfigTree) {
    t.alts != [] && Exact(t.alts[|t.alts| - 1])
  }

  /** Within the limits, and with no more endpoints than declared. */
  predicate Lenient(t: ConfigTree) {
    Framed(t) && WithinLimits(t) && NoSurplus(t)
  }

  // --- cutting surplus slots and endpoints ---------------------------------------------------------------------

  /** The endpoints both declared and present. */
  function Taken(a: AltTree): (n: nat)
    ensures n <= |a.endpoints| && n <= a.desc.bNumEndpoints as int
  {
    Min(a.desc.bNumEndpoints as nat, |a.endpoints|)
  }

  function Trimmed(a: AltTree): AltTree {
    a.(desc := a.desc.(bNumEndpoints := Taken(a) as byte), endpoints := a.endpoints[..Taken(a)])
  }

  function TrimmedAlts(alts: seq<AltTree>): (r: seq<AltTree>)
    ensures |r| == |alts| && forall j | 0 <= j < |alts| :: r[j] == Trimmed(alts[j])
  {
    if alts == [] then [] else [Trimmed(alts[0])] + TrimmedAlts(alts[1..])
  }

  /** The configuration with every endpoint count cut to what is there. */
  function Trim(t: ConfigTree): ConfigTree {
    t.(alts := TrimmedAlts(t.alts))
  }

  // --- the parsed tree a configuration stands for --------------------------------------------------------------

  function EndpointView(e: EndpointTree): Endpoint {
    Endpoint(e.desc, Flat(e.extra))
  }

  function EndpointViews(es: seq<EndpointTree>): (r: seq<Endpoint>)
    ensures |r| == |es|
  {
    if es == [] then [] else [EndpointView(es[0])] + EndpointViews(es[1..])
  }

  function AltView(a: AltTree): AltSetting {
    AltSetting(a.desc, Flat(a.extra), EndpointViews(a.endpoints))
  }

  function AltViews(alts: seq<AltTree>): (r: Interface)
    ensures |r| == |alts|
  {
    if alts == [] then [] else [AltView(alts[0])] + AltViews(alts[1..])
  }

  /** One entry per interface number of `ns`: its settings, in wire order. */
  function Grouped(alts: seq<AltTree>, ns: bytes): (r: seq<Interface>)
    ensures |r| == |ns|
    ensures forall j | 0 <= j < |ns| :: r[j] == AltViews(Settings(alts, ns[j]))
  {
    if ns == [] then [] else [AltViews(Settings(alts, ns[0]))] + Grouped(alts, ns[1..])
  }

  function ConfigView(t: ConfigTree): Config
  {
    var ns := Numbers(t.alts);
    Config(t.desc.(bNumInterfaces := (|ns| % 256) as byte), Flat(t.extra), Grouped(t.alts, ns))
  }
}
