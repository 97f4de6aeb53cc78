/** Where the parts of a descriptor tree lie in its encoding. */
module UsbLayout {
  import opened Bytes
  import opened UsbTypes
  import opened UsbGrammar

  // --- where a tree lies in a buffer ---------------------------------------------------------------------------

  predicate ExtraIn(b: bytes, pos: nat, ds: seq<bytes>)
    decreases |ds|
  {
    ds == [] || (Holds(b, pos, ds[0]) && ExtraIn(b, pos + |ds[0]|, ds[1..]))
  }

  function EndpointLength(e: EndpointTree): nat {
    e.desc.bLength as nat + |Flat(e.extra)|
  }

  predicate EndpointIn(b: bytes, pos: nat, e: EndpointTree) {
    && pos + ENDPOINT_SIZE <= pos + e.desc.bLength as nat <= |b|
    && ReadEndpointDesc(b, pos) == e.desc
    && ExtraIn(b, pos + e.desc.bLength as nat, e.extra)
  }

  function EndpointsLength(es: seq<EndpointTree>): nat {
    if es == [] then 0 else EndpointLength(es[0]) + EndpointsLength(es[1..])
  }

  predicate EndpointsIn(b: bytes, pos: nat, es: seq<EndpointTree>)
    decreases |es|
  {
    es == [] || (EndpointIn(b, pos, es[0]) && EndpointsIn(b, pos + EndpointLength(es[0]), es[1..]))
  }

  function AltLength(a: AltTree): nat {
    a.desc.bLength as nat + |Flat(a.extra)| + EndpointsLength(a.endpoints)
  }

  function AltsLength(alts: seq<AltTree>): nat {
    if alts == [] then 0 else AltLength(alts[0]) + AltsLength(alts[1..])
  }

  predicate AltIn(b: bytes, pos: nat, a: AltTree) {
    && pos + INTERFACE_SIZE <= pos + a.desc.bLength as nat <= |b|
    && ReadInterfaceDesc(b, pos) == a.desc
    && ExtraIn(b, pos + a.desc.bLength as nat, a.extra)
    && EndpointsIn(b, pos + a.desc.bLength as nat + |Flat(a.extra)|, a.endpoints)
  }

  /** The settings fill the buffer from `pos` to `end`. */
  predicate AltsFill(b: bytes, pos: nat, alts: seq<AltTree>, end: nat)
    decreases |alts|
  {
    if alts == [] then pos == end
    else AltIn(b, pos, alts[0]) && AltsFill(b, pos + AltLength(alts[0]), alts[1..], end)
  }

  /** No descriptor starts here, or the buffer ends. */
  predicate StrayAt(b: bytes, pos: nat) {
    pos <= |b| && Stray(b[pos..])
  }

  /** The search for the next known descriptor ends here. */
  predicate StopsAt(b: bytes, pos: nat) {
    || StrayAt(b, pos)
    || (pos + HEADER_SIZE <= |b| && (b[pos + 1] == DT_INTERFACE || b[pos + 1] == DT_ENDPOINT))
  }

  predicate WellFormedEndpoints(es: seq<EndpointTree>) {
    forall e | e in es :: WellFormedEndpoint(e)
  }

  predicate FramedAlts(alts: seq<AltTree>) {
    forall a | a in alts :: FramedAlt(a)
  }

  // --- the encoding lies in itself -----------------------------------------------------------------------------

  lemma {:induction false} FlatIn(b: bytes, pos: nat, ds: seq<bytes>)
    requires Holds(b, pos, Flat(ds))
    ensures ExtraIn(b, pos, ds)
    decreases |ds|
  {
    if ds != [] {
      HoldsParts(b, pos, ds[0], Flat(ds[1..]));
      FlatIn(b, pos + |ds[0]|, ds[1..]);
    }
  }

  lemma Le16Inverse(n: nat)
    requires n < 0x1_0000
    ensures Le16(Low(n), High(n)) == n
  {
  }

  lemma EndpointDescIn(b: bytes, pos: nat, e: EndpointTree)
    requires WellFormedEndpoint(e) && Holds(b, pos, EndpointBytes(e.desc, e.tail))
    ensures pos + e.desc.bLength as nat <= |b| && ReadEndpointDesc(b, pos) == e.desc
  {
    var d := EndpointBytes(e.desc, e.tail);
    var w := b[pos..pos + |d|];
    assert forall k {:trigger w[k]} | 0 <= k < |d| :: b[pos + k] == w[k];
    assert b[pos] == d[0] && b[pos + 1] == d[1] && b[pos + 2] == d[2] && b[pos + 3] == d[3];
    assert b[pos + 4] == d[4] && b[pos + 5] == d[5] && b[pos + 6] == d[6];
    Le16Inverse(e.desc.wMaxPacketSize);
  }

  lemma InterfaceDescIn(b: bytes, pos: nat, a: AltTree)
    requires FramedAlt(a) && Holds(b, pos, InterfaceBytes(a.desc, a.tail))
    ensures pos + a.desc.bLength as nat <= |b| && ReadInterfaceDesc(b, pos) == a.desc
  {
    var d := InterfaceBytes(a.desc, a.tail);
    var w := b[pos..pos + |d|];
    assert forall k {:trigger w[k]} | 0 <= k < |d| :: b[pos + k] == w[k];
    assert b[pos] == d[0] && b[pos + 1] == d[1] && b[pos + 2] == d[2] && b[pos + 3] == d[3] && b[pos + 4] == d[4];
    assert b[pos + 5] == d[5] && b[pos + 6] == d[6] && b[pos + 7] == d[7] && b[pos + 8] == d[8];
  }

  lemma ConfigDescIn(b: bytes, t: ConfigTree)
    requires Framed(t) && Holds(b, 0, ConfigBytes(t.desc, t.tail))
    ensures |b| >= CONFIG_SIZE && ReadConfigDesc(b, 0) == t.desc
  {
    var d := ConfigBytes(t.desc, t.tail);
    assert forall k | 0 <= k < |d| :: b[k] == b[0..|d|][k];
    assert b[0] == d[0] && b[1] == d[1] && b[2] == d[2] && b[3] == d[3] && b[4] == d[4];
    assert b[5] == d[5] && b[6] == d[6] && b[7] == d[7] && b[8] == d[8];
    Le16Inverse(t.desc.wTotalLength);
  }

  lemma {:induction false} EncodedEndpointsIn(b: bytes, pos: nat, es: seq<EndpointTree>)
    requires WellFormedEndpoints(es) && Holds(b, pos, EncodeEndpoints(es))
    ensures EndpointsIn(b, pos, es) && |EncodeEndpoints(es)| == EndpointsLength(es)
    decreases |es|
  {
    hide Flat; hide Holds; hide ExtraIn; hide ReadEndpointDesc; hide AllUnknown;
    if es != [] {
      var e := es[0];
      assert WellFormedEndpoint(e);
      HoldsParts(b, pos, EncodeEndpoint(e), EncodeEndpoints(es[1..]));
      HoldsParts(b, pos, EndpointBytes(e.desc, e.tail), Flat(e.extra));
      EndpointDescIn(b, pos, e);
      FlatIn(b, pos + e.desc.bLength as nat, e.extra);
      EncodedEndpointsIn(b, pos + EndpointLength(e), es[1..]);
    }
  }

  lemma EncodedAltIn(b: bytes, pos: nat, a: AltTree)
    requires FramedAlt(a) && Holds(b, pos, EncodeAlt(a))
    ensures AltIn(b, pos, a) && |EncodeAlt(a)| == AltLength(a)
  {
    hide Flat; hide EncodeEndpoints; hide Holds; hide ExtraIn; hide EndpointsIn; hide EndpointsLength;
    var d, x, y := InterfaceBytes(a.desc, a.tail), Flat(a.extra), EncodeEndpoints(a.endpoints);
    HoldsParts(b, pos, d, x + y);
    HoldsParts(b, pos + |d|, x, y);
    InterfaceDescIn(b, pos, a);
    FlatIn(b, pos + |d|, a.extra);
    EncodedEndpointsIn(b, pos + |d| + |x|, a.endpoints);
  }

  lemma {:induction false} EncodedAltsFill(b: bytes, pos: nat, alts: seq<AltTree>, end: nat)
    requires FramedAlts(alts) && Holds(b, pos, EncodeAlts(alts)) && pos + |EncodeAlts(alts)| == end
    ensures AltsFill(b, pos, alts, end)
    decreases |alts|
  {
    hide AltIn; hide Holds; hide AltLength; hide EncodeAlt;
    if alts != [] {
      assert FramedAlt(alts[0]);
      HoldsParts(b, pos, EncodeAlt(alts[0]), EncodeAlts(alts[1..]));
      EncodedAltIn(b, pos, alts[0]);
      EncodedAltsFill(b, pos + AltLength(alts[0]), alts[1..], end);
    }
  }

  /** The encoding of a configuration is its header, then its unknown descriptors, then its settings; stray bytes may
      follow. */
  lemma EncodedParts(t: ConfigTree, z: bytes)
    requires Framed(t) && Stray(z)
    ensures var b, p := Encode(t) + z, t.desc.bLength as nat;
            && |b| >= CONFIG_SIZE && ReadConfigDesc(b, 0) == t.desc
            && ExtraIn(b, p, t.extra) && p + |Flat(t.extra)| <= |b|
            && AltsFill(b, p + |Flat(t.extra)|, t.alts, |Encode(t)|) && StrayAt(b, |Encode(t)|)
            && b[|Encode(t)|..] == z
  {
    hide ExtraIn; hide EncodeAlts; hide AltsFill; hide ReadConfigDesc; hide Flat; hide FramedAlt;
    var b, d, x, y := Encode(t) + z, ConfigBytes(t.desc, t.tail), Flat(t.extra), EncodeAlts(t.alts);
    assert FramedAlts(t.alts);
    assert b[0..|Encode(t)|] == Encode(t);
    HoldsParts(b, 0, d, x + y);
    HoldsParts(b, |d|, x, y);
    ConfigDescIn(b, t);
    FlatIn(b, |d|, t.extra);
    EncodedAltsFill(b, |d| + |x|, t.alts, |Encode(t)|);
  }
}
