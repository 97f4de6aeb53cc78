/** What the parser does with the encoding of any framed tree, whatever its endpoint counts and sizes, and whatever
    stray bytes follow it. */
module UsbOutcome {
  import opened Options
  import opened Bytes
  import opened UsbTypes
  import opened UsbSpec
  import opened UsbSteps
  import opened UsbGrammar
  import opened UsbLayout
  import opened UsbFirstPass
  import opened UsbSecondPass
  import opened UsbAccounting

  /** The slots allocated for each interface number. */
  function Slots(alts: seq<AltTree>, ns: bytes): (caps: seq<nat>)
    ensures |caps| == |ns|
    ensures forall j | 0 <= j < |ns| :: caps[j] == Min(|Settings(alts, ns[j])|, 128)
  {
    if ns == [] then [] else [Min(|Settings(alts, ns[0])|, 128)] + Slots(alts, ns[1..])
  }

  /** The second pass on the tree and the bytes behind it. */
  function Run(t: ConfigTree, z: bytes): (r: TreeRun)
    ensures |r.ifaces| == |Numbers(t.alts)|
  {
    var ns := Numbers(t.alts);
    RunAlts(t.alts, z, ns, Slots(t.alts, ns), NoSettings(|ns|))
  }

  /** The header passes its test. */
  predicate HeaderFits(t: ConfigTree, z: bytes) {
    t.desc.bNumInterfaces as int <= 32 && |Encode(t) + z| % 256 >= t.desc.bLength as int
  }

  lemma HeaderMeaning(t: ConfigTree, z: bytes)
    requires Framed(t) && Stray(z)
    ensures HeaderAccepted(Encode(t) + z) <==> HeaderFits(t, z)
    ensures |Encode(t) + z| >= CONFIG_SIZE && ReadConfigDesc(Encode(t) + z, 0) == t.desc
  {
    hide Encode; hide FramedAlt; hide ExtraIn; hide AltsFill; hide Stray; hide StrayAt;
    EncodedParts(t, z);
  }

  /** The first iteration moves the unknown descriptors before the first interface into `extra`. */
  lemma BodySkips(b: bytes, pos: nat, p: nat, i: nat, alts: seq<AltTree>, z: bytes, nums: bytes, caps: seq<nat>,
                  ifaces: seq<Interface>)
    requires SlotsOk(nums, caps, ifaces) && pos <= |b| && p == FindNext(b, pos)
    requires p + INTERFACE_SIZE <= |b| && b[p + 1] == DT_INTERFACE && i == IndexOf(nums, b[p + 2])
    requires i < |nums| ==> InnerAgrees(b, p, p, -1, i, alts, z, nums, caps, b[pos..p], ifaces)
    ensures ParseBody(b, pos, nums, caps, [], ifaces) == ParseBody(b, p, nums, caps, b[pos..p], ifaces)
  {
    hide IndexOf; hide ParseAlts; hide ParseBody; hide RunAlts; hide Agrees;
    ParseBodyStep(b, pos, nums, caps, [], ifaces);
    BodyAtInterface(b, p, i, nums, caps, b[pos..p], ifaces);
    assert [] + b[pos..p] == b[pos..p];
  }

  /** The second pass ends as it does on the tree. */
  lemma BodyOfTree(t: ConfigTree, z: bytes)
    requires Framed(t) && Stray(z) && t.alts != [] && |Numbers(t.alts)| < 32
    requires CodesLeadOut(Encode(t) + z, t.alts, z)
    ensures var b := Encode(t) + z;
            var c := CountInterfaces(b, 0, Counts([], []));
            && c.nums == Numbers(t.alts) && c.caps == Slots(t.alts, c.nums)
            && Agrees(ParseBody(b, t.desc.bLength as nat, c.nums, c.caps, [], NoSettings(|c.nums|)), Run(t, z),
                      Flat(t.extra))
  {
    hide Encode; hide CountInterfaces; hide ParseBody; hide FramedAlt; hide ExtraIn; hide AltsFill; hide Flat;
    hide ReadConfigDesc; hide Settings; hide FindNext; hide AltsAt; hide RunAlts; hide Agrees; hide InnerAgrees;
    hide Stray; hide StrayAt; hide CodesLeadOut;
    var b, p, ns := Encode(t) + z, t.desc.bLength as nat, Numbers(t.alts);
    var q, none := p + |Flat(t.extra)|, NoSettings(|ns|);
    var c := CountInterfaces(b, 0, Counts([], []));
    FirstPass(t, z);
    assert c.caps == Slots(t.alts, ns);
    EncodedParts(t, z);
    assert FramedAlts(t.alts);
    StopsAtAlts(b, q, t.alts, |Encode(t)|);
    FindNextSkips(b, p, t.extra);
    AltsAreAt(b, q, t.alts, |Encode(t)|);
    assert SlotsOk(ns, c.caps, none);
    OuterRun(b, q, t.alts, z, ns, c.caps, Flat(t.extra), none);
    var i := IndexOf(ns, b[q + 2]);
    if i < |ns| {
      InnerRun(b, q, q, -1, i, t.alts, z, ns, c.caps, Flat(t.extra), none);
    }
    BodySkips(b, p, q, i, t.alts, z, ns, c.caps, none);
  }

  /** With 32 interface numbers or more no setting is stored. */
  lemma FullBody(b: bytes, pos: nat, nums: bytes, caps: seq<nat>, extra: bytes, ifaces: seq<Interface>)
    requires |nums| == |caps| == |ifaces| && |nums| >= 32
    requires pos <= |b| && |b| - FindNext(b, pos) > HEADER_SIZE
    ensures ParseBody(b, pos, nums, caps, extra, ifaces) ==
            Done(401, extra + b[pos..FindNext(b, pos)], ifaces)
  {
    hide IndexOf; hide ParseInterface;
  }

  lemma CrowdedTree(t: ConfigTree, z: bytes)
    requires Framed(t) && Stray(z) && HeaderFits(t, z) && |Numbers(t.alts)| >= 32
    ensures ParseUsbConfigDescriptor(Encode(t) + z) ==
            Result(401,
                   Some(Config(t.desc.(bNumInterfaces := 32), Flat(t.extra), NoSettings(32))))
  {
    hide Encode; hide CountInterfaces; hide ParseBody; hide FramedAlt; hide ExtraIn; hide AltsFill; hide Flat;
    hide FindNext; hide NoSettings; hide Stray; hide StrayAt;
    var b, p := Encode(t) + z, t.desc.bLength as nat;
    var q := p + |Flat(t.extra)|;
    var c := CountInterfaces(b, 0, Counts([], []));
    HeaderMeaning(t, z);
    FirstPass(t, z);
    FewInterfaces(b, 0, Counts([], []));
    EncodedParts(t, z);
    assert FramedAlts(t.alts) && t.alts != [];
    StopsAtAlts(b, q, t.alts, |Encode(t)|);
    FindNextSkips(b, p, t.extra);
    FullBody(b, p, c.nums, c.caps, [], NoSettings(32));
    assert [] + b[p..q] == Flat(t.extra);
  }

  /** The outcome on a tree within the header's limits and with 1 to 31 interface numbers. */
  predicate RunOutcome(t: ConfigTree, z: bytes, r: ParseOutcome) {
    var run := Run(t, z);
    var config := Config(t.desc.(bNumInterfaces := (|Numbers(t.alts)| % 256) as byte), Flat(t.extra), run.ifaces);
    match run.ending
    case Whole(left) => r == Result(left, Some(config))
    case Refused => r == Result(401, Some(config))
    case Negative => r.Result? && r.ret < 0 && r.config == None
    case Overruns => r == NoResult(Faulted)
    case Loops => r == NoResult(Hung)
  }

  lemma NumbersNotEmpty(alts: seq<AltTree>)
    requires alts != []
    ensures |Numbers(alts)| > 0
  {
    NumbersGrow([], alts);
  }

  /** Every outcome, for every framed tree and any stray bytes behind it. */
  lemma TailOutcome(t: ConfigTree, z: bytes)
    requires Framed(t) && Stray(z) && CodesLeadOut(Encode(t) + z, t.alts, z)
    ensures var r := ParseUsbConfigDescriptor(Encode(t) + z);
            if !HeaderFits(t, z) || t.alts == [] then
              r == Result(27400002, Some(Config(t.desc, [], [])))
            else if |Numbers(t.alts)| >= 32 then
              r == Result(401,
                          Some(Config(t.desc.(bNumInterfaces := 32), Flat(t.extra), NoSettings(32))))
            else RunOutcome(t, z, r)
  {
    hide Encode; hide CountInterfaces; hide ParseBody; hide FramedAlt; hide Flat; hide Run; hide NoSettings; hide Stray;
    hide CodesLeadOut;
    HeaderMeaning(t, z);
    if HeaderFits(t, z) {
      if t.alts == [] {
        FirstPass(t, z);
      } else if |Numbers(t.alts)| >= 32 {
        CrowdedTree(t, z);
      } else {
        assert |Numbers(t.alts)| > 0 by { NumbersNotEmpty(t.alts); }
        BodyOfTree(t, z);
      }
    }
  }

  /** Every outcome, for every framed tree. */
  lemma TreeOutcome(t: ConfigTree)
    requires Framed(t) && CodesLeadOut(Encode(t), t.alts, [])
    ensures var r := ParseUsbConfigDescriptor(Encode(t));
            if !HeaderFits(t, []) || t.alts == [] then
              r == Result(27400002, Some(Config(t.desc, [], [])))
            else if |Numbers(t.alts)| >= 32 then
              r == Result(401,
                          Some(Config(t.desc.(bNumInterfaces := 32), Flat(t.extra), NoSettings(32))))
            else RunOutcome(t, [], r)
  {
    hide Encode; hide ParseUsbConfigDescriptor; hide Framed; hide RunOutcome; hide Numbers; hide HeaderFits;
    assert Encode(t) + [] == Encode(t);
    TailOutcome(t, []);
  }
}
