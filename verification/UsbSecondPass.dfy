/** The second pass on the encoding of a tree with any endpoint counts, and with stray bytes behind it: how it ends,
    setting by setting. */
module UsbSecondPass {
  import opened Bytes
  import opened UsbTypes
  import opened UsbSpec
  import opened UsbSteps
  import opened UsbGrammar
  import opened UsbLayout

  // --- how the pass ends, on the tree --------------------------------------------------------------------------

  /** Whole: the end of the tree is reached, with so many bytes left over. Refused: something of no known interface is
      met. Negative: an error code was added to the cursor. Overruns: a setting is written past the slots. Loops: no
      progress. */
  datatype Ending = Whole(left: nat) | Refused | Negative | Overruns | Loops

  datatype TreeRun = TreeRun(ending: Ending, ifaces: seq<Interface>)

  /** The bytes from the first surplus endpoint of `a` to the end, when the settings `rest` and the bytes `z` follow. */
  function Remaining(a: AltTree, rest: seq<AltTree>, z: bytes): nat {
    AltLength(a) - Min(AltLength(Trimmed(a)), AltLength(a)) + AltsLength(rest) + |z|
  }

  function AtSurplus(a: AltTree, rest: seq<AltTree>, z: bytes, nums: bytes, caps: seq<nat>, ifaces: seq<Interface>)
    : (r: Ending)
    requires |nums| == |caps| == |ifaces| && |a.endpoints| > a.desc.bNumEndpoints as int
    ensures r == Refused || r == Overruns || r == Loops
  {
    var j := IndexOf(nums, a.endpoints[a.desc.bNumEndpoints].desc.bEndpointAddress);
    if j == |nums| then Refused
    else if Remaining(a, rest, z) >= INTERFACE_SIZE && |ifaces[j]| >= caps[j] then Overruns
    else Loops
  }

  /** More than two stray bytes are taken for an interface, that of the third. */
  function AtTail(z: bytes, nums: bytes, caps: seq<nat>, ifaces: seq<Interface>): (r: Ending)
    requires |nums| == |caps| == |ifaces|
  {
    if |z| <= HEADER_SIZE then Whole(|z|)
    else
      var j := IndexOf(nums, z[2]);
      if j == |nums| then Refused
      else if |z| < INTERFACE_SIZE then Loops
      else if |ifaces[j]| >= caps[j] then Overruns
      else if z[1] == DT_INTERFACE && z[0] as int < HEADER_SIZE then Negative
      else Loops
  }

  /** Looking for an endpoint at stray bytes fails, rather than finding none: there are too few, or they look like an
      endpoint that is too short. */
  predicate EndpointFails(z: bytes) {
    |z| < HEADER_SIZE || (z[1] == DT_ENDPOINT && z[0] as int < HEADER_SIZE)
  }

  /** Setting after setting:
      - it needs a free slot, and may declare no more than 32 endpoints;
      - missing endpoints are cut from the count, unless it is the last and the search for one more fails;
      - a surplus endpoint is taken for an interface: that of its address byte. */
  function RunAlts(alts: seq<AltTree>, z: bytes, nums: bytes, caps: seq<nat>, ifaces: seq<Interface>): (r: TreeRun)
    requires |nums| == |caps| == |ifaces|
    ensures |r.ifaces| == |ifaces|
    decreases |alts|
  {
    if alts == [] then TreeRun(AtTail(z, nums, caps, ifaces), ifaces)
    else
      var a, rest := alts[0], alts[1..];
      var i := IndexOf(nums, Number(a));
      if i == |nums| then TreeRun(Refused, ifaces)
      else if |ifaces[i]| >= caps[i] then TreeRun(Overruns, ifaces)
      else if a.desc.bNumEndpoints as int > 32 then TreeRun(Negative, ifaces)
      else
        var ifaces' := ifaces[i := ifaces[i] + [AltView(Trimmed(a))]];
        if |a.endpoints| < a.desc.bNumEndpoints as int && rest == [] && EndpointFails(z) then TreeRun(Negative, ifaces')
        else if |a.endpoints| <= a.desc.bNumEndpoints as int then RunAlts(rest, z, nums, caps, ifaces')
        else TreeRun(AtSurplus(a, rest, z, nums, caps, ifaces'), ifaces')
  }

  /** The outcome of the outer loop is the one of the tree. */
  predicate Agrees(o: BodyOutcome, run: TreeRun, extra: bytes) {
    match run.ending
    case Whole(left) => o == Done(left, extra, run.ifaces)
    case Refused => o == Done(USB_DDK_INVALID_PARAMETER, extra, run.ifaces)
    case Negative => o.Done? && o.ret < 0
    case Overruns => o == Fault
    case Loops => o == Hang
  }

  // --- one alternate setting -----------------------------------------------------------------------------------

  lemma {:induction false} FindNextSkips(b: bytes, pos: nat, ds: seq<bytes>)
    requires ExtraIn(b, pos, ds) && AllUnknown(ds) && pos + |Flat(ds)| <= |b| && StopsAt(b, pos + |Flat(ds)|)
    ensures FindNext(b, pos) == pos + |Flat(ds)|
    ensures b[pos..pos + |Flat(ds)|] == Flat(ds)
    decreases |ds|
  {
    if ds != [] {
      var d, rest := ds[0], ds[1..];
      var end := pos + |Flat(ds)|;
      assert Unknown(d);
      assert b[pos] == b[pos..pos + |d|][0] && b[pos + 1] == b[pos..pos + |d|][1];
      FindNextSkips(b, pos + |d|, rest);
      assert b[pos..end] == b[pos..pos + |d|] + b[pos + |d|..end];
    }
  }

  /** Every descriptor list ends inside the buffer. */
  lemma {:induction false} ExtraBound(b: bytes, pos: nat, ds: seq<bytes>)
    requires ExtraIn(b, pos, ds) && pos <= |b|
    ensures pos + |Flat(ds)| <= |b|
    decreases |ds|
  {
    if ds != [] {
      ExtraBound(b, pos + |ds[0]|, ds[1..]);
    }
  }

  lemma EndpointRoundTrip(b: bytes, pos: nat, e: EndpointTree)
    requires WellFormedEndpoint(e) && EndpointIn(b, pos, e)
    requires StopsAt(b, pos + EndpointLength(e))
    ensures ParseEndpoint(b, pos) == EndpointResult(EndpointView(e), EndpointLength(e))
    ensures EndpointLength(e) > 0
  {
    hide Flat;
    ExtraBound(b, pos + e.desc.bLength as nat, e.extra);
    FindNextSkips(b, pos + e.desc.bLength as nat, e.extra);
  }

  lemma StopsAtEndpoints(b: bytes, pos: nat, es: seq<EndpointTree>)
    requires WellFormedEndpoints(es) && EndpointsIn(b, pos, es) && StopsAt(b, pos + EndpointsLength(es))
    ensures StopsAt(b, pos)
  {
    if es != [] {
      assert WellFormedEndpoint(es[0]);
    }
  }

  /** Endpoint after endpoint, each call consumes exactly its own bytes. */
  predicate EndpointsParse(b: bytes, pos: nat, es: seq<EndpointTree>)
    decreases |es|
  {
    es == [] || (
      && ParseEndpoint(b, pos) == EndpointResult(EndpointView(es[0]), EndpointLength(es[0]))
      && EndpointLength(es[0]) > 0
      && EndpointsParse(b, pos + EndpointLength(es[0]), es[1..]))
  }

  lemma {:induction false} EndpointsEachParse(b: bytes, pos: nat, es: seq<EndpointTree>)
    requires WellFormedEndpoints(es) && EndpointsIn(b, pos, es) && StopsAt(b, pos + EndpointsLength(es))
    ensures EndpointsParse(b, pos, es)
    decreases |es|
  {
    hide ParseEndpoint;
    if es != [] {
      assert WellFormedEndpoint(es[0]);
      StopsAtEndpoints(b, pos + EndpointLength(es[0]), es[1..]);
      EndpointRoundTrip(b, pos, es[0]);
      EndpointsEachParse(b, pos + EndpointLength(es[0]), es[1..]);
    }
  }

  lemma EndpointStored(b: bytes, pos: nat, e: EndpointTree, n: nat, done: seq<Endpoint>)
    requires ParseEndpoint(b, pos) == EndpointResult(EndpointView(e), EndpointLength(e)) && EndpointLength(e) > 0
    requires |done| < n
    ensures ParseEndpoints(b, pos, n, done) ==
            ParseEndpoints(b, pos + EndpointLength(e), n, done + [EndpointView(e)])
  {
    hide ParseEndpoint; hide ParseEndpoints; hide EndpointLength; hide EndpointView;
    ParseEndpointsStep(b, pos, n, done);
  }

  lemma Reassociate(s: seq<Endpoint>, x: Endpoint, t: seq<Endpoint>)
    ensures (s + [x]) + t == s + ([x] + t)
  {
  }

  /** With at least as many slots as endpoints, all of them are stored and the search goes on behind them. */
  lemma {:induction false} EndpointsStored(b: bytes, pos: nat, es: seq<EndpointTree>, n: nat, done: seq<Endpoint>)
    requires EndpointsParse(b, pos, es) && |done| + |es| <= n
    ensures ParseEndpoints(b, pos, n, done) ==
            ParseEndpoints(b, pos + EndpointsLength(es), n, done + EndpointViews(es))
    decreases |es|
  {
    hide ParseEndpoint; hide ParseEndpoints; hide EndpointLength; hide EndpointView;
    if es == [] {
      assert done + EndpointViews(es) == done;
    } else {
      var done' := done + [EndpointView(es[0])];
      EndpointStored(b, pos, es[0], n, done);
      EndpointsStored(b, pos + EndpointLength(es[0]), es[1..], n, done');
      Reassociate(done, EndpointView(es[0]), EndpointViews(es[1..]));
    }
  }

  lemma {:induction false} EndpointsPrefix(b: bytes, pos: nat, es: seq<EndpointTree>, n: nat)
    requires EndpointsParse(b, pos, es) && n <= |es|
    ensures EndpointsParse(b, pos, es[..n])
    ensures EndpointsLength(es[..n]) <= EndpointsLength(es)
    decreases |es|
  {
    hide ParseEndpoint; hide EndpointLength; hide EndpointView;
    if n > 0 {
      EndpointsPrefix(b, pos + EndpointLength(es[0]), es[1..], n - 1);
      assert es[..n][1..] == es[1..][..n - 1];
    }
  }

  /** Where the surplus endpoint lies. */
  lemma {:induction false} EndpointAt(b: bytes, pos: nat, es: seq<EndpointTree>, n: nat)
    requires EndpointsIn(b, pos, es) && WellFormedEndpoints(es) && n < |es|
    ensures var q := pos + EndpointsLength(es[..n]);
            && q + ENDPOINT_SIZE <= |b| && b[q + 1] == DT_ENDPOINT && b[q + 2] == es[n].desc.bEndpointAddress
    ensures EndpointsLength(es[..n]) <= EndpointsLength(es)
    decreases |es|
  {
    hide EndpointLength; hide ExtraIn;
    assert WellFormedEndpoint(es[0]);
    if n == 0 {
      assert es[..0] == [];
    } else {
      EndpointAt(b, pos + EndpointLength(es[0]), es[1..], n - 1);
      assert es[..n][1..] == es[1..][..n - 1];
    }
  }

  /** A failed search for an endpoint adds an error code to the cursor. */
  lemma SearchFails(b: bytes, pos: nat, n: nat, done: seq<Endpoint>)
    requires |done| < n && pos <= |b| && EndpointFails(b[pos..])
    ensures ParseEndpoints(b, pos, n, done).pos >= pos + USB_DDK_INVALID_OPERATION
  {
    hide FindNext;
  }

  lemma NoEndpointHere(b: bytes, pos: nat, n: nat, done: seq<Endpoint>)
    requires |done| < n && pos + HEADER_SIZE <= |b| && (b[pos + 1] == DT_ENDPOINT ==> b[pos] as int > |b| - pos)
    ensures ParseEndpoints(b, pos, n, done) == EndpointsResult(done, pos)
  {
  }

  /** Behind a setting comes an interface descriptor, or no descriptor at all. */
  predicate AltEndsAt(b: bytes, e: nat) {
    StrayAt(b, e) || (e + HEADER_SIZE <= |b| && b[e + 1] == DT_INTERFACE)
  }

  predicate SearchFailsAt(b: bytes, e: nat) {
    StrayAt(b, e) && EndpointFails(b[e..])
  }

  /** What the endpoint loop does with `n` slots for the endpoints `es`. */
  lemma EndpointsRun(b: bytes, pos: nat, es: seq<EndpointTree>, n: nat)
    requires WellFormedEndpoints(es) && EndpointsIn(b, pos, es) && AltEndsAt(b, pos + EndpointsLength(es))
    ensures var m, e := Min(n, |es|), pos + EndpointsLength(es);
            var r := ParseEndpoints(b, pos, n, []);
            if n > |es| && SearchFailsAt(b, e) then r.pos >= e + USB_DDK_INVALID_OPERATION
            else r == EndpointsResult(EndpointViews(es[..m]), pos + EndpointsLength(es[..m]))
  {
    hide ParseEndpoint; hide ParseEndpoints; hide EndpointsIn; hide EndpointsParse; hide EndpointsLength;
    hide EndpointViews; hide WellFormedEndpoints;
    EndpointsEachParse(b, pos, es);
    var m := Min(n, |es|);
    var e, views := pos + EndpointsLength(es[..m]), EndpointViews(es[..m]);
    EndpointsPrefix(b, pos, es, m);
    EndpointsStored(b, pos, es[..m], n, []);
    assert [] + views == views;
    if n <= |es| {
      assert |views| == n;
      ParseEndpointsEnd(b, e, views);
    } else {
      assert es[..m] == es;
      if SearchFailsAt(b, e) {
        SearchFails(b, e, n, views);
      } else {
        NoEndpointHere(b, e, n, views);
      }
    }
  }

  // --- one setting, as the loops see it ------------------------------------------------------------------------

  /** What the parser finds at `pos`, where the setting `a` lies. */
  predicate AltAt(b: bytes, pos: nat, a: AltTree) {
    && pos + INTERFACE_SIZE <= |b| && INTERFACE_SIZE <= b[pos] as int <= |b| - pos
    && b[pos + 1] == DT_INTERFACE && b[pos + 2] == Number(a) && b[pos + 4] == a.desc.bNumEndpoints
    && AltLength(Trimmed(a)) <= AltLength(a)
    && (a.desc.bNumEndpoints as int <= 32 ==>
          if |a.endpoints| < a.desc.bNumEndpoints as int && SearchFailsAt(b, pos + AltLength(a)) then
            ParseAlt(b, pos).pos >= pos + AltLength(a) + USB_DDK_INVALID_OPERATION
          else ParseAlt(b, pos) == AltResult(AltView(Trimmed(a)), pos + AltLength(Trimmed(a))))
    && (|a.endpoints| > a.desc.bNumEndpoints as int ==>
          var q := pos + AltLength(Trimmed(a));
          && q + ENDPOINT_SIZE <= |b| && b[q + 1] == DT_ENDPOINT
          && b[q + 2] == a.endpoints[a.desc.bNumEndpoints].desc.bEndpointAddress)
    && (|a.endpoints| <= a.desc.bNumEndpoints as int ==> AltLength(Trimmed(a)) == AltLength(a))
  }

  /** The settings lie at `pos`, and the bytes `z` behind them. */
  predicate AltsAt(b: bytes, pos: nat, alts: seq<AltTree>, z: bytes)
    decreases |alts|
  {
    if alts == [] then pos <= |b| && b[pos..] == z
    else AltAt(b, pos, alts[0]) && AltsAt(b, pos + AltLength(alts[0]), alts[1..], z)
  }

  lemma StopsAtAlts(b: bytes, pos: nat, alts: seq<AltTree>, end: nat)
    requires FramedAlts(alts) && AltsFill(b, pos, alts, end) && StrayAt(b, end)
    ensures AltEndsAt(b, pos)
    ensures alts != [] ==> pos + INTERFACE_SIZE <= |b| && b[pos + 1] == DT_INTERFACE && b[pos + 2] == Number(alts[0])
  {
    if alts != [] {
      assert FramedAlt(alts[0]);
    }
  }

  lemma EndpointViewsLength(es: seq<EndpointTree>)
    ensures |EndpointViews(es)| == |es|
  {
  }

  lemma AltIsAt(b: bytes, pos: nat, a: AltTree)
    requires FramedAlt(a) && AltIn(b, pos, a) && AltEndsAt(b, pos + AltLength(a))
    ensures AltAt(b, pos, a)
  {
    hide ParseEndpoints; hide EndpointsParse; hide EndpointsIn; hide ExtraIn; hide FindNext; hide Flat;
    hide EndpointViews; hide EndpointsLength; hide SearchFailsAt; hide AllUnknown; hide WellFormedEndpoint;
    var p := pos + a.desc.bLength as nat;
    var q, n := p + |Flat(a.extra)|, a.desc.bNumEndpoints as nat;
    ExtraBound(b, p, a.extra);
    StopsAtEndpoints(b, q, a.endpoints);
    FindNextSkips(b, p, a.extra);
    EndpointsRun(b, q, a.endpoints, n);
    if |a.endpoints| > n {
      EndpointAt(b, q, a.endpoints, n);
    } else {
      assert a.endpoints[..Taken(a)] == a.endpoints;
    }
    EndpointViewsLength(a.endpoints[..Taken(a)]);
  }

  lemma {:induction false} AltsAreAt(b: bytes, pos: nat, alts: seq<AltTree>, end: nat)
    requires FramedAlts(alts) && AltsFill(b, pos, alts, end) && StrayAt(b, end)
    ensures AltsAt(b, pos, alts, b[end..])
    decreases |alts|
  {
    hide AltIn; hide AltAt; hide AltLength; hide FramedAlt;
    if alts != [] {
      assert FramedAlt(alts[0]);
      StopsAtAlts(b, pos + AltLength(alts[0]), alts[1..], end);
      AltIsAt(b, pos, alts[0]);
      AltsAreAt(b, pos + AltLength(alts[0]), alts[1..], end);
    }
  }

  // --- the loops on the tree -----------------------------------------------------------------------------------

  /** No interface holds more settings than slots. */
  predicate SlotsOk(nums: bytes, caps: seq<nat>, ifaces: seq<Interface>) {
    && |nums| == |caps| == |ifaces| && |nums| < 32
    && forall j | 0 <= j < |nums| :: |ifaces[j]| <= caps[j] <= 128
  }

  /** An error code added to a cursor in the buffer leads out of it; only settings that declare too many endpoints and
      stray bytes need this. */
  predicate CodesLeadOut(b: bytes, alts: seq<AltTree>, z: bytes) {
    || |b| < USB_DDK_INVALID_OPERATION
    || (z == [] && forall a | a in alts :: a.desc.bNumEndpoints as int <= 32)
  }

  /** The outer loop at an interface descriptor of a known number: one call of ParseInterface. */
  lemma BodyAtInterface(b: bytes, pos: nat, i: nat, nums: bytes, caps: seq<nat>, extra: bytes, ifaces: seq<Interface>)
    requires SlotsOk(nums, caps, ifaces)
    requires pos + INTERFACE_SIZE <= |b| && b[pos + 1] == DT_INTERFACE && i == IndexOf(nums, b[pos + 2])
    ensures ParseBody(b, pos, nums, caps, extra, ifaces) ==
            if i == |nums| then Done(USB_DDK_INVALID_PARAMETER, extra, ifaces)
            else
              match ParseAlts(b, pos, pos, -1, ifaces[i], caps[i])
              case Overrun => Fault
              case Parsed(alts, ret) =>
                if ret == 0 then Hang else ParseBody(b, pos + ret, nums, caps, extra, ifaces[i := alts])
  {
    hide ParseAlts; hide ParseBody; hide IndexOf;
    ParseBodyStep(b, pos, nums, caps, extra, ifaces);
    assert FindNext(b, pos) == pos && extra + b[pos..pos] == extra;
  }

  /** The outer loop at an endpoint descriptor: its address byte is taken for an interface number. */
  lemma BodyAtEndpoint(b: bytes, pos: nat, nums: bytes, caps: seq<nat>, extra: bytes, ifaces: seq<Interface>)
    requires SlotsOk(nums, caps, ifaces) && pos + ENDPOINT_SIZE <= |b| && b[pos + 1] == DT_ENDPOINT
    ensures var j := IndexOf(nums, b[pos + 2]);
            ParseBody(b, pos, nums, caps, extra, ifaces) ==
            if j == |nums| then Done(USB_DDK_INVALID_PARAMETER, extra, ifaces)
            else if |b| - pos >= INTERFACE_SIZE && |ifaces[j]| >= caps[j] then Fault
            else Hang
  {
    hide ParseAlts; hide ParseBody; hide IndexOf;
    ParseBodyStep(b, pos, nums, caps, extra, ifaces);
    assert FindNext(b, pos) == pos && extra + b[pos..pos] == extra;
    var j := IndexOf(nums, b[pos + 2]);
    if j < |nums| {
      ParseAltsEnd(b, pos, pos, -1, ifaces[j], caps[j]);
    }
  }

  lemma BodyPastEnd(b: bytes, pos: nat, nums: bytes, caps: seq<nat>, extra: bytes, ifaces: seq<Interface>)
    requires |nums| == |caps| == |ifaces| && |b| - pos < HEADER_SIZE
    ensures ParseBody(b, pos, nums, caps, extra, ifaces) == Done(|b| - pos, extra, ifaces)
  {
  }

  /** What one call of ParseInterface, at the setting alts[0] with number `number`, does to interface i, and what the
      outer loop does after it. */
  predicate InnerAgrees(b: bytes, start: nat, pos: nat, number: int, i: nat, alts: seq<AltTree>, z: bytes, nums: bytes,
                        caps: seq<nat>, extra: bytes, ifaces: seq<Interface>)
    requires start <= pos && |nums| == |caps| == |ifaces| && i < |ifaces|
  {
    var run := RunAlts(alts, z, nums, caps, ifaces);
    match ParseAlts(b, start, pos, number, ifaces[i], caps[i])
    case Overrun => run.ending == Overruns
    case Parsed(alts', ret) =>
      ret > 0 && Agrees(ParseBody(b, start + ret, nums, caps, extra, ifaces[i := alts']), run, extra)
  }

  /** Behind a setting with no surplus comes the next interface or the end of the tree. */
  lemma NextAlt(b: bytes, pos: nat, a: AltTree, rest: seq<AltTree>, z: bytes)
    requires AltAt(b, pos, a) && AltsAt(b, pos + AltLength(a), rest, z) && Stray(z)
    ensures var q := pos + AltLength(a);
            if rest == [] then q <= |b| && b[q..] == z && SearchFailsAt(b, q) == EndpointFails(z)
            else
              && q + INTERFACE_SIZE <= |b| && b[q + 1] == DT_INTERFACE && b[q + 2] == Number(rest[0])
              && !SearchFailsAt(b, q)
  {
    hide AltLength; hide ParseAlt;
  }

  /** Storing into an interface twice keeps the last. */
  lemma SameInterface(b: bytes, start: nat, pos: nat, number: int, i: nat, alts: seq<AltTree>, z: bytes, nums: bytes,
                      caps: seq<nat>, extra: bytes, ifaces: seq<Interface>, done: Interface)
    requires start <= pos && |nums| == |caps| == |ifaces| && i < |ifaces|
    requires InnerAgrees(b, start, pos, number, i, alts, z, nums, caps, extra, ifaces[i := done])
    ensures var run := RunAlts(alts, z, nums, caps, ifaces[i := done]);
            match ParseAlts(b, start, pos, number, done, caps[i])
            case Overrun => run.ending == Overruns
            case Parsed(alts', ret) =>
              ret > 0 && Agrees(ParseBody(b, start + ret, nums, caps, extra, ifaces[i := alts']), run, extra)
  {
    hide ParseAlts; hide ParseBody; hide RunAlts;
    match ParseAlts(b, start, pos, number, done, caps[i])
    case Overrun =>
    case Parsed(alts', ret) => assert ifaces[i := done][i := alts'] == ifaces[i := alts'];
  }

  lemma {:induction false} AltsReach(b: bytes, pos: nat, alts: seq<AltTree>, z: bytes)
    requires AltsAt(b, pos, alts, z)
    ensures pos + AltsLength(alts) + |z| == |b|
    decreases |alts|
  {
    hide AltAt; hide AltLength;
    if alts != [] { AltsReach(b, pos + AltLength(alts[0]), alts[1..], z); }
  }

  lemma SurplusRun(b: bytes, pos: nat, a: AltTree, rest: seq<AltTree>, z: bytes, nums: bytes, caps: seq<nat>,
                   extra: bytes, ifaces: seq<Interface>)
    requires AltAt(b, pos, a) && AltsAt(b, pos + AltLength(a), rest, z) && SlotsOk(nums, caps, ifaces)
    requires |a.endpoints| > a.desc.bNumEndpoints as int
    ensures Agrees(ParseBody(b, pos + AltLength(Trimmed(a)), nums, caps, extra, ifaces),
                   TreeRun(AtSurplus(a, rest, z, nums, caps, ifaces), ifaces), extra)
  {
    hide ParseBody; hide AltLength; hide IndexOf; hide ParseAlt;
    AltsReach(b, pos + AltLength(a), rest, z);
    BodyAtEndpoint(b, pos + AltLength(Trimmed(a)), nums, caps, extra, ifaces);
  }

  /** The outer loop at stray bytes. */
  lemma TailRun(b: bytes, pos: nat, z: bytes, nums: bytes, caps: seq<nat>, extra: bytes, ifaces: seq<Interface>)
    requires pos <= |b| && b[pos..] == z && Stray(z) && SlotsOk(nums, caps, ifaces)
    requires |b| < USB_DDK_INVALID_OPERATION || z == []
    ensures Agrees(ParseBody(b, pos, nums, caps, extra, ifaces), TreeRun(AtTail(z, nums, caps, ifaces), ifaces), extra)
  {
    hide ParseAlts; hide ParseBody; hide IndexOf;
    if |z| < HEADER_SIZE {
      BodyPastEnd(b, pos, nums, caps, extra, ifaces);
    } else {
      assert b[pos] == z[0] && b[pos + 1] == z[1];
      assert FindNext(b, pos) == pos && extra + b[pos..pos] == extra;
      ParseBodyStep(b, pos, nums, caps, extra, ifaces);
      if |z| > HEADER_SIZE {
        assert b[pos + 2] == z[2];
        var j := IndexOf(nums, z[2]);
        if j < |nums| {
          ParseAltsEnd(b, pos, pos, -1, ifaces[j], caps[j]);
          BodyPastEnd(b, pos + USB_DDK_INVALID_OPERATION, nums, caps, extra, ifaces[j := ifaces[j]]);
        }
      }
    }
  }

  /** The inner loop comes to stray bytes that look like a further setting of the same interface. */
  lemma InnerTail(b: bytes, start: nat, pos: nat, number: byte, i: nat, z: bytes, nums: bytes, caps: seq<nat>,
                  extra: bytes, ifaces: seq<Interface>)
    requires start < pos <= |b| && b[pos..] == z && Stray(z) && SlotsOk(nums, caps, ifaces)
    requires |b| < USB_DDK_INVALID_OPERATION || z == []
    requires i < |nums| && i == IndexOf(nums, number) && |z| >= INTERFACE_SIZE && z[1] == DT_INTERFACE && z[2] == number
    ensures InnerAgrees(b, start, pos, number as int, i, [], z, nums, caps, extra, ifaces)
  {
    hide ParseAlts; hide ParseBody; hide IndexOf;
    assert b[pos] == z[0] && b[pos + 1] == z[1] && b[pos + 2] == z[2];
    ParseAltsEnd(b, start, pos, number as int, ifaces[i], caps[i]);
    assert ifaces[i := ifaces[i]] == ifaces;
    TailRun(b, pos, z, nums, caps, extra, ifaces);
    BodyPastEnd(b, start + USB_DDK_INVALID_OPERATION, nums, caps, extra, ifaces);
  }

  /** Whether stray bytes look like a further setting of the same interface. */
  predicate LooksLike(z: bytes, number: byte) {
    |z| >= INTERFACE_SIZE && z[1] == DT_INTERFACE && z[2] == number
  }

  /** A code added to a cursor at the end of the tree leads out of the buffer. */
  lemma CodeLeadsOut(b: bytes, pos: nat, alts: seq<AltTree>, z: bytes)
    requires CodesLeadOut(b, alts, z) && pos <= |b| && b[pos..] == z
    ensures pos + USB_DDK_INVALID_OPERATION > |b|
  {
  }

  /** ParseInterface at a setting without a slot, or one that declares too many endpoints. */
  lemma InnerStops(b: bytes, start: nat, pos: nat, number: int, i: nat, alts: seq<AltTree>, z: bytes, nums: bytes,
                   caps: seq<nat>, extra: bytes, ifaces: seq<Interface>)
    requires alts != [] && AltsAt(b, pos, alts, z) && start <= pos
    requires SlotsOk(nums, caps, ifaces) && CodesLeadOut(b, alts, z)
    requires number == -1 || number == Number(alts[0]) as int
    requires i < |ifaces| && i == IndexOf(nums, Number(alts[0]))
    requires |ifaces[i]| >= caps[i] || alts[0].desc.bNumEndpoints as int > 32
    ensures InnerAgrees(b, start, pos, number, i, alts, z, nums, caps, extra, ifaces)
  {
    hide ParseAlts; hide ParseAlt; hide ParseBody; hide AltView; hide AltLength; hide IndexOf; hide AtSurplus;
    hide AtTail; hide SearchFailsAt; hide EndpointFails;
    ParseAltsEnd(b, start, pos, number, ifaces[i], caps[i]);
    if |ifaces[i]| < caps[i] {
      BodyPastEnd(b, start + USB_DDK_INVALID_OPERATION, nums, caps, extra, ifaces[i := ifaces[i]]);
    }
  }

  /** ParseInterface at a setting with surplus endpoints, or with missing ones at the end of the tree. */
  lemma InnerEnds(b: bytes, start: nat, pos: nat, number: int, i: nat, alts: seq<AltTree>, z: bytes, nums: bytes,
                  caps: seq<nat>, extra: bytes, ifaces: seq<Interface>)
    requires alts != [] && AltsAt(b, pos, alts, z) && Stray(z) && start <= pos
    requires SlotsOk(nums, caps, ifaces) && CodesLeadOut(b, alts, z)
    requires number == -1 || number == Number(alts[0]) as int
    requires i < |ifaces| && i == IndexOf(nums, Number(alts[0])) && |ifaces[i]| < caps[i]
    requires var a, n := alts[0], alts[0].desc.bNumEndpoints as int;
             n <= 32 && (|a.endpoints| > n || (|a.endpoints| < n && |alts| == 1 && EndpointFails(z)))
    ensures InnerAgrees(b, start, pos, number, i, alts, z, nums, caps, extra, ifaces)
  {
    hide ParseAlts; hide ParseAlt; hide ParseBody; hide AltView; hide AltLength; hide IndexOf; hide AtSurplus;
    hide Stray; hide AtTail; hide SearchFailsAt; hide EndpointFails;
    var a, rest := alts[0], alts[1..];
    ParseAltsStep(b, start, pos, number, ifaces[i], caps[i]);
    var r := ParseAlt(b, pos);
    var ifaces' := ifaces[i := ifaces[i] + [r.alt]];
    NextAlt(b, pos, a, rest, z);
    if |a.endpoints| < a.desc.bNumEndpoints as int {
      CodeLeadsOut(b, pos + AltLength(a), alts, z);
      BodyPastEnd(b, r.pos, nums, caps, extra, ifaces');
    } else {
      SurplusRun(b, pos, a, rest, z, nums, caps, extra, ifaces');
    }
  }

  lemma {:induction false} InnerRun(b: bytes, start: nat, pos: nat, number: int, i: nat, alts: seq<AltTree>, z: bytes,
                                    nums: bytes, caps: seq<nat>, extra: bytes, ifaces: seq<Interface>)
    requires alts != [] && AltsAt(b, pos, alts, z) && Stray(z) && start <= pos
    requires SlotsOk(nums, caps, ifaces) && CodesLeadOut(b, alts, z)
    requires number == -1 || number == Number(alts[0]) as int
    requires i < |ifaces| && i == IndexOf(nums, Number(alts[0]))
    ensures InnerAgrees(b, start, pos, number, i, alts, z, nums, caps, extra, ifaces)
    decreases |alts|, 0
  {
    hide ParseAlts; hide ParseAlt; hide ParseBody; hide AltView; hide AltLength; hide IndexOf; hide AtSurplus;
    hide Stray; hide AtTail; hide SearchFailsAt; hide EndpointFails;
    var a, rest, done := alts[0], alts[1..], ifaces[i];
    var n := a.desc.bNumEndpoints as int;
    if |done| >= caps[i] || n > 32 {
      InnerStops(b, start, pos, number, i, alts, z, nums, caps, extra, ifaces);
    } else if |a.endpoints| > n || (|a.endpoints| < n && rest == [] && EndpointFails(z)) {
      InnerEnds(b, start, pos, number, i, alts, z, nums, caps, extra, ifaces);
    } else {
      ParseAltsStep(b, start, pos, number, done, caps[i]);
      var r := ParseAlt(b, pos);
      var ifaces' := ifaces[i := done + [r.alt]];
      NextAlt(b, pos, a, rest, z);
      if if rest == [] then LooksLike(z, Number(a)) else Number(rest[0]) == Number(a) {
        if rest == [] {
          InnerTail(b, start, r.pos, Number(a), i, z, nums, caps, extra, ifaces');
        } else {
          InnerRun(b, start, r.pos, Number(a) as int, i, rest, z, nums, caps, extra, ifaces');
        }
        SameInterface(b, start, r.pos, Number(a) as int, i, rest, z, nums, caps, extra, ifaces, done + [r.alt]);
      } else {
        OuterRun(b, r.pos, rest, z, nums, caps, extra, ifaces');
      }
    }
  }

  lemma {:induction false} OuterRun(b: bytes, pos: nat, alts: seq<AltTree>, z: bytes, nums: bytes, caps: seq<nat>,
                                    extra: bytes, ifaces: seq<Interface>)
    requires AltsAt(b, pos, alts, z) && Stray(z) && SlotsOk(nums, caps, ifaces) && CodesLeadOut(b, alts, z)
    ensures Agrees(ParseBody(b, pos, nums, caps, extra, ifaces), RunAlts(alts, z, nums, caps, ifaces), extra)
    decreases |alts|, 1
  {
    hide ParseAlts; hide ParseAlt; hide ParseBody; hide AltView; hide AltLength; hide IndexOf; hide AtSurplus;
    hide Stray; hide AtTail;
    if alts == [] {
      TailRun(b, pos, z, nums, caps, extra, ifaces);
    } else {
      var i := IndexOf(nums, Number(alts[0]));
      BodyAtInterface(b, pos, i, nums, caps, extra, ifaces);
      if i < |nums| {
        InnerRun(b, pos, pos, -1, i, alts, z, nums, caps, extra, ifaces);
      }
    }
  }
}
