/** What the two-pass configuration parser computes, as functions of the byte buffer.
    A cursor is a position `pos`; the parser's remaining `size` is |b| - pos, which goes negative once a positive
    error code has been added to the cursor. Two outcomes stand for behaviour of the parser that is undefined
    or unbounded: Fault (an alternate setting is written past the slots the first pass allocated) and Hang (the outer
    loop makes no progress and would repeat the same iteration for ever). */
module UsbSpec {
  import opened Options
  import opened Bytes
  import opened UsbTypes

  /** Skips unknown descriptors; the result is where the next interface or endpoint descriptor, a malformed
      descriptor, or the end of the buffer was met. */
  function FindNext(b: bytes, pos: nat): (end: nat)
    requires pos <= |b|
    ensures pos <= end <= |b|
    decreases |b| - pos
  {
    if |b| - pos < HEADER_SIZE || b[pos + 1] == DT_INTERFACE || b[pos + 1] == DT_ENDPOINT then pos
    else if b[pos] < 2 || b[pos] as int > |b| - pos then pos
    else FindNext(b, pos + b[pos] as nat)
  }

  // --- second pass ---------------------------------------------------------------------------------------------

  datatype EndpointResult = EndpointResult(endpoint: Endpoint, ret: nat)

  const NO_ENDPOINT := Endpoint(ZERO_ENDPOINT, [])

  /** One endpoint slot and the value returned: 0 when no endpoint starts here, an error code, or the number of
      bytes consumed. */
  function ParseEndpoint(b: bytes, pos: nat): (r: EndpointResult)
    ensures r.ret == 0 || r.ret == USB_DDK_INVALID_OPERATION || ENDPOINT_SIZE <= r.ret <= |b| - pos
  {
    if |b| - pos < HEADER_SIZE then EndpointResult(NO_ENDPOINT, USB_DDK_INVALID_OPERATION)
    else if b[pos + 1] != DT_ENDPOINT || b[pos] as int > |b| - pos then EndpointResult(NO_ENDPOINT, 0)
    else if b[pos] as int < ENDPOINT_SIZE then EndpointResult(NO_ENDPOINT, USB_DDK_INVALID_OPERATION)
    else
      var next := pos + b[pos] as nat;
      var end := FindNext(b, next);
      EndpointResult(Endpoint(ReadEndpointDesc(b, pos), b[next..end]), end - pos)
  }

  datatype EndpointsResult = EndpointsResult(endpoints: seq<Endpoint>, pos: nat)

  /** Fills endpoint slots |done|, ..., n - 1; stops early, keeping only the filled ones, when no endpoint follows. */
  function ParseEndpoints(b: bytes, pos: nat, n: nat, done: seq<Endpoint>): (r: EndpointsResult)
    requires |done| <= n
    ensures r.pos >= pos && |done| <= |r.endpoints| <= n && done <= r.endpoints
    decreases n - |done|
  {
    if |done| == n then EndpointsResult(done, pos)
    else
      var e := ParseEndpoint(b, pos);
      if e.ret == 0 then EndpointsResult(done, pos)
      else ParseEndpoints(b, pos + e.ret, n, done + [e.endpoint])
  }

  datatype AltResult = AltResult(alt: AltSetting, pos: nat)

  /** The alternate setting whose well-formed interface descriptor starts at `pos`. */
  function ParseAlt(b: bytes, pos: nat): (r: AltResult)
    requires pos + INTERFACE_SIZE <= |b| && INTERFACE_SIZE <= b[pos] as int <= |b| - pos
    requires b[pos + 4] as int <= USB_MAXENDPOINTS
    ensures r.pos >= pos + b[pos] as nat
    ensures r.alt.desc.bNumEndpoints as int == |r.alt.endpoints| <= USB_MAXENDPOINTS
  {
    var desc := ReadInterfaceDesc(b, pos);
    var next := pos + desc.bLength as nat;
    var end := FindNext(b, next);
    var eps := ParseEndpoints(b, end, desc.bNumEndpoints as nat, []);
    AltResult(AltSetting(desc.(bNumEndpoints := |eps.endpoints| as byte), b[next..end], eps.endpoints), eps.pos)
  }

  datatype InterfaceOutcome = Parsed(alts: Interface, ret: nat) | Overrun

  /** The loop of ParseInterface: `alts` are the settings already stored, `capacity` the slots allocated, `start`
      the cursor on entry, `number` the interface number the loop follows (-1 before its first setting). */
  function ParseAlts(b: bytes, start: nat, pos: nat, number: int, alts: Interface, capacity: nat)
    : (r: InterfaceOutcome)
    requires start <= pos
    ensures r.Parsed? ==> alts <= r.alts
    ensures r.Parsed? && |alts| <= capacity ==> |r.alts| <= capacity
    decreases |b| - pos
  {
    if |b| - pos < INTERFACE_SIZE then Parsed(alts, pos - start)
    else if |alts| >= capacity then Overrun
    else if b[pos + 1] != DT_INTERFACE || b[pos] as int > |b| - pos then Parsed(alts, pos - start)
    else if b[pos] as int < INTERFACE_SIZE || b[pos + 4] as int > USB_MAXENDPOINTS then
      Parsed(alts, USB_DDK_INVALID_OPERATION)
    else
      var r := ParseAlt(b, pos);
      var num := if number == -1 then b[pos + 2] as int else number;
      if |b| - r.pos < INTERFACE_SIZE || b[r.pos + 1] != DT_INTERFACE || b[r.pos + 2] as int != num then
        Parsed(alts + [r.alt], r.pos - start)
      else
        ParseAlts(b, start, r.pos, num, alts + [r.alt], capacity)
  }

  function ParseInterface(b: bytes, pos: nat, alts: Interface, capacity: nat): (r: InterfaceOutcome)
    ensures r.Parsed? ==> alts <= r.alts
    ensures r.Parsed? && |alts| <= capacity ==> |r.alts| <= capacity
  {
    if |alts| > USB_MAXALTSETTING then Parsed(alts, USB_DDK_INVALID_OPERATION)
    else ParseAlts(b, pos, pos, -1, alts, capacity)
  }

  /** Position of the first occurrence of `x`, or |s|. */
  function IndexOf(s: bytes, x: byte): (i: nat)
    ensures i <= |s|
    ensures i < |s| ==> s[i] == x
    ensures forall j :: 0 <= j < i ==> s[j] != x
  {
    if s == [] || s[0] == x then 0 else 1 + IndexOf(s[1..], x)
  }

  /** The freshly cleared interface array. */
  function NoSettings(n: nat): (r: seq<Interface>)
    ensures |r| == n && forall i | 0 <= i < n :: r[i] == []
  {
    if n == 0 then [] else [[]] + NoSettings(n - 1)
  }

  datatype BodyOutcome = Done(ret: int, extra: bytes, interfaces: seq<Interface>) | Fault | Hang

  /** The loop of ParseConfigurationDes. */
  function ParseBody(b: bytes, pos: nat, nums: bytes, caps: seq<nat>, extra: bytes, ifaces: seq<Interface>)
    : (r: BodyOutcome)
    requires |nums| == |caps| == |ifaces|
    ensures r.Done? ==> |r.interfaces| == |ifaces|
    decreases if pos <= |b| then |b| - pos else 0
  {
    if |b| - pos < HEADER_SIZE then Done(|b| - pos, extra, ifaces)
    else
      var p := FindNext(b, pos);
      var extra' := extra + b[pos..p];
      if |b| - p <= HEADER_SIZE then Done(|b| - p, extra', ifaces)
      else if |nums| >= USB_MAXINTERFACES then Done(USB_DDK_INVALID_PARAMETER, extra', ifaces)
      else
        var i := IndexOf(nums, b[p + 2]);
        if i == |nums| then Done(USB_DDK_INVALID_PARAMETER, extra', ifaces)
        else
          match ParseInterface(b, p, ifaces[i], caps[i])
          case Overrun => Fault
          case Parsed(alts, ret) =>
            if p + ret == pos then Hang
            else ParseBody(b, p + ret, nums, caps, extra', ifaces[i := alts])
  }

  // --- first pass ----------------------------------------------------------------------------------------------

  datatype Counts = Counts(nums: bytes, caps: seq<nat>)

  /** Accounts for one interface descriptor: a new number, or one more setting of a known one. */
  function CountOne(c: Counts, num: byte): (r: Counts)
    requires |c.nums| == |c.caps|
    ensures |r.nums| == |r.caps|
  {
    var i := IndexOf(c.nums, num);
    if i < |c.nums| then
      if c.caps[i] < USB_MAXALTSETTING then Counts(c.nums, c.caps[i := c.caps[i] + 1]) else c
    else if |c.nums| < USB_MAXINTERFACES then Counts(c.nums + [num], c.caps + [1])
    else c
  }

  function CountInterfaces(b: bytes, pos: nat, c: Counts): (r: Counts)
    requires pos <= |b| && |c.nums| == |c.caps|
    ensures |r.nums| == |r.caps|
    decreases |b| - pos
  {
    if |b| - pos < HEADER_SIZE then c
    else if b[pos] as int > |b| - pos || b[pos] < 2 then c
    else
      var c' := if b[pos + 1] == DT_INTERFACE && b[pos] as int >= INTERFACE_SIZE then CountOne(c, b[pos + 2]) else c;
      CountInterfaces(b, pos + b[pos] as nat, c')
  }

  // --- both passes ---------------------------------------------------------------------------------------------

  /** Why the parser does not return. */
  datatype Failure = Faulted | Hung

  datatype ConfigOutcome = Returned(ret: int, config: Config) | NeverReturns(how: Failure)

  /** The header test; the buffer size is compared after truncation to eight bits. */
  predicate HeaderAccepted(b: bytes)
  {
    && |b| >= CONFIG_SIZE
    && b[1] == DT_CONFIG
    && CONFIG_SIZE <= b[0] as int <= |b| % 256
    && b[4] as int <= USB_MAXINTERFACES
  }

  function ParseConfiguration(b: bytes): (r: ConfigOutcome)
  {
    if |b| < CONFIG_SIZE then Returned(USB_DDK_INVALID_OPERATION, Config(ZERO_CONFIG, [], []))
    else
      var desc := ReadConfigDesc(b, 0);
      if !HeaderAccepted(b) then Returned(USB_DDK_INVALID_OPERATION, Config(desc, [], []))
      else
        var c := CountInterfaces(b, 0, Counts([], []));
        if |c.nums| == 0 || |c.nums| > USB_MAXALTSETTING then
          Returned(USB_DDK_INVALID_OPERATION, Config(desc, [], []))
        else
          var desc' := desc.(bNumInterfaces := (|c.nums| % 256) as byte);
          match ParseBody(b, desc.bLength as nat, c.nums, c.caps, [], NoSettings(|c.nums|))
          case Done(ret, extra, interfaces) => Returned(ret, Config(desc', extra, interfaces))
          case Fault => NeverReturns(Faulted)
          case Hang => NeverReturns(Hung)
  }

  datatype ParseOutcome = Result(ret: int, config: Option<Config>) | NoResult(how: Failure)

  /** ParseUsbConfigDescriptor: only a negative result withholds the configuration from the caller. */
  function ParseUsbConfigDescriptor(b: bytes): (r: ParseOutcome)
  {
    match ParseConfiguration(b)
    case NeverReturns(how) => NoResult(how)
    case Returned(ret, config) => Result(ret, if ret < 0 then None else Some(config))
  }
}
