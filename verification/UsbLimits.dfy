/** Exactly which configurations survive the parser. */
module UsbLimits {
  import opened Options
  import opened Bytes
  import opened UsbTypes
  import opened UsbSpec
  import opened UsbGrammar
  import opened UsbFirstPass
  import opened UsbSecondPass
  import opened UsbAccounting
  import opened UsbOutcome
  import opened UsbRoundTrip

  // --- nothing larger than the limits is ever produced ---------------------------------------------------------

  predicate SmallInterface(i: Interface) {
    |i| <= 128
    && forall a | a in i :: a.desc.bNumEndpoints as int == |a.endpoints| <= 32
  }

  predicate SmallInterfaces(ifaces: seq<Interface>) {
    forall i | i in ifaces :: SmallInterface(i)
  }

  lemma {:induction false} AltsSmall(b: bytes, start: nat, pos: nat, number: int, alts: Interface, capacity: nat)
    requires start <= pos && SmallInterface(alts) && |alts| <= capacity <= 128
    ensures var r := ParseAlts(b, start, pos, number, alts, capacity); r.Parsed? ==> SmallInterface(r.alts)
    decreases |b| - pos
  {
    hide ParseAlt;
    if && |b| - pos >= INTERFACE_SIZE && |alts| < capacity && b[pos + 1] == DT_INTERFACE
       && INTERFACE_SIZE <= b[pos] as int <= |b| - pos && b[pos + 4] as int <= 32 {
      var r := ParseAlt(b, pos);
      AltsSmall(b, start, r.pos, if number == -1 then b[pos + 2] as int else number, alts + [r.alt], capacity);
    }
  }

  lemma {:induction false} BodySmall(b: bytes, pos: nat, nums: bytes, caps: seq<nat>, extra: bytes,
                                     ifaces: seq<Interface>)
    requires |nums| == |caps| == |ifaces| && SmallInterfaces(ifaces)
    requires forall j | 0 <= j < |caps| :: |ifaces[j]| <= caps[j] <= 128
    ensures var r := ParseBody(b, pos, nums, caps, extra, ifaces); r.Done? ==> SmallInterfaces(r.interfaces)
    decreases if pos <= |b| then |b| - pos else 0
  {
    hide ParseAlts; hide SmallInterface; hide FindNext; hide IndexOf;
    if |b| - pos >= HEADER_SIZE {
      var p := FindNext(b, pos);
      var i := if |b| - p <= HEADER_SIZE then |nums| else IndexOf(nums, b[p + 2]);
      if i < |nums| && |nums| < 32 {
        match ParseInterface(b, p, ifaces[i], caps[i])
        case Overrun =>
        case Parsed(alts, ret) =>
          assert ifaces[i] in ifaces;
          AltsSmall(b, p, p, -1, ifaces[i], caps[i]);
          if p + ret != pos {
            BodySmall(b, p + ret, nums, caps, extra + b[pos..p], ifaces[i := alts]);
          }
      }
    }
  }

  // --- what a successful parse says about the tree -------------------------------------------------------------

  /** Membership in the interface numbers is having a setting. */
  lemma {:induction false} NumbersMeaning(seen: bytes, alts: seq<AltTree>, n: byte)
    ensures n in NumbersAfter(seen, alts) <==> n in seen || Settings(alts, n) != []
    decreases |alts|
  {
    if alts != [] {
      NumbersMeaning(if Number(alts[0]) in seen then seen else seen + [Number(alts[0])], alts[1..], n);
    }
  }

  lemma {:induction false} SettingsHave(alts: seq<AltTree>, a: AltTree)
    requires a in alts
    ensures a in Settings(alts, Number(a))
    decreases |alts|
  {
    if a != alts[0] { SettingsHave(alts[1..], a); }
  }

  lemma {:induction false} AltViewsHave(alts: seq<AltTree>, a: AltTree)
    requires a in alts
    ensures AltView(a) in AltViews(alts)
    decreases |alts|
  {
    hide AltView;
    if a != alts[0] { AltViewsHave(alts[1..], a); }
  }

  lemma GroupOf(alts: seq<AltTree>, n: byte)
    requires Settings(alts, n) != []
    ensures AltViews(Settings(alts, n)) in Grouped(alts, Numbers(alts))
  {
    hide AltViews; hide Settings;
    var ns := Numbers(alts);
    NumbersMeaning([], alts, n);
    var j :| 0 <= j < |ns| && ns[j] == n;
    assert Grouped(alts, ns)[j] == AltViews(Settings(alts, n));
  }

  /** The grouped settings stay within the limits, with exact counts, only if the tree does. */
  lemma SmallGroups(t: ConfigTree)
    requires SmallInterfaces(Grouped(t.alts, Numbers(t.alts)))
    ensures forall n: byte :: |Settings(t.alts, n)| <= 128
    ensures forall a | a in t.alts :: Exact(a) && a.desc.bNumEndpoints as int <= 32
  {
    hide Grouped; hide AltViews;
    var ns := Numbers(t.alts);
    forall n: byte ensures |Settings(t.alts, n)| <= 128 {
      if Settings(t.alts, n) != [] { GroupOf(t.alts, n); }
    }
    forall a | a in t.alts ensures Exact(a) && a.desc.bNumEndpoints as int <= 32 {
      SettingsHave(t.alts, a);
      GroupOf(t.alts, Number(a));
      AltViewsHave(Settings(t.alts, Number(a)), a);
      assert |AltView(a).endpoints| == |a.endpoints| && AltView(a).desc == a.desc;
    }
  }

  lemma NoneSmall(n: nat)
    ensures SmallInterfaces(NoSettings(n))
  {
  }

  lemma ComesBackOnlyWithin(t: ConfigTree)
    requires Framed(t) && ParseUsbConfigDescriptor(Encode(t)) == Result(0, Some(ConfigView(t)))
    ensures WellFormed(t)
  {
    hide Encode; hide CountInterfaces; hide ParseBody; hide SmallInterfaces; hide FramedAlt; hide Settings;
    hide Flat; hide NoSettings; hide Grouped;
    assert Encode(t) + [] == Encode(t);
    HeaderMeaning(t, []);
    var b, ns := Encode(t), Numbers(t.alts);
    var c := CountInterfaces(b, 0, Counts([], []));
    var none := NoSettings(|c.nums|);
    var r := ParseBody(b, t.desc.bLength as nat, c.nums, c.caps, [], none);
    assert r == Done(0, Flat(t.extra), Grouped(t.alts, ns));
    if |ns| >= 32 {
      CrowdedTree(t, []);
      assert false;
    }
    CountsBounded(b, 0, Counts([], []));
    assert SmallInterfaces(none) by { NoneSmall(|c.nums|); }
    BodySmall(b, t.desc.bLength as nat, c.nums, c.caps, [], none);
    SmallGroups(t);
  }

  /** A framed configuration comes back whole exactly when its endpoint counts are exact and it is within the limits:
      at most 32 interfaces announced and 1 to 31 present, 128 settings each, 32 endpoints per setting, and a total
      size whose low eight bits are not below the header length. */
  lemma RoundTripExactly(t: ConfigTree)
    requires Framed(t)
    ensures ParseUsbConfigDescriptor(Encode(t)) == Result(0, Some(ConfigView(t))) <==> Consistent(t) && WithinLimits(t)
  {
    hide ParseUsbConfigDescriptor; hide Encode; hide WithinLimits; hide Framed; hide ConfigView;
    if Consistent(t) && WithinLimits(t) {
      RoundTrip(t);
    } else if ParseUsbConfigDescriptor(Encode(t)) == Result(0, Some(ConfigView(t))) {
      ComesBackOnlyWithin(t);
    }
  }

  // --- which parses succeed at all -----------------------------------------------------------------------------

  /** Reaching the end takes a free slot for every setting, at most 32 endpoints declared and none surplus, and an
      exact count in the last setting. */
  lemma {:induction false} WholeMeaning(alts: seq<AltTree>, nums: bytes, caps: seq<nat>, ifaces: seq<Interface>)
    requires |nums| == |caps| == |ifaces| && Distinct(nums) && RunAlts(alts, [], nums, caps, ifaces).ending == Whole(0)
    requires forall j | 0 <= j < |nums| :: |ifaces[j]| <= caps[j]
    ensures forall a | a in alts :: Declared(a) && Number(a) in nums
    ensures alts != [] ==> Exact(alts[|alts| - 1])
    ensures forall j | 0 <= j < |nums| :: |ifaces[j]| + |Settings(alts, nums[j])| <= caps[j]
    decreases |alts|
  {
    hide AltView; hide Trimmed; hide AtSurplus; hide Number;
    if alts != [] {
      var a, i := alts[0], IndexOf(nums, Number(alts[0]));
      WholeMeaning(alts[1..], nums, caps, ifaces[i := ifaces[i] + [AltView(Trimmed(a))]]);
      assert Declared(a) && Number(a) in nums;
      forall j | 0 <= j < |nums| ensures |ifaces[j]| + |Settings(alts, nums[j])| <= caps[j] {
        assert j == i <==> nums[j] == Number(a);
      }
    }
  }

  /** Slots that are enough for all settings are enough for those of one number. */
  lemma SettingsFit(alts: seq<AltTree>, n: byte)
    requires var ns := Numbers(alts); forall j | 0 <= j < |ns| :: |Settings(alts, ns[j])| <= Slots(alts, ns)[j]
    ensures |Settings(alts, n)| <= 128
  {
    hide Settings;
    NumbersMeaning([], alts, n);
    var ns := Numbers(alts);
    if n in ns {
      var j :| 0 <= j < |ns| && ns[j] == n;
      assert |Settings(alts, ns[j])| <= Slots(alts, ns)[j];
    }
  }

  lemma WholeRun(t: ConfigTree)
    requires Framed(t) && HeaderFits(t, []) && t.alts != [] && |Numbers(t.alts)| < 32
    requires Run(t, []).ending == Whole(0)
    ensures Lenient(t) && LastExact(t)
  {
    hide Encode; hide Framed; hide CountInterfaces; hide RunAlts; hide Settings; hide Slots; hide Numbers;
    var ns := Numbers(t.alts);
    FirstPass(t, []);
    WholeMeaning(t.alts, ns, Slots(t.alts, ns), NoSettings(|ns|));
    forall n: byte ensures |Settings(t.alts, n)| <= 128 {
      SettingsFit(t.alts, n);
    }
    NumbersNotEmpty(t.alts);
    assert forall a | a in t.alts :: Declared(a);
  }

  /** The parser reports success, with nothing left over, exactly for the trees within the limits that have no
      surplus endpoint and an exact count in the last setting. */
  lemma SucceedsExactly(t: ConfigTree)
    requires Framed(t) && CodesLeadOut(Encode(t), t.alts, [])
    ensures var r := ParseUsbConfigDescriptor(Encode(t));
            (r.Result? && r.ret == 0) <==> Lenient(t) && LastExact(t)
  {
    hide ParseUsbConfigDescriptor; hide Encode; hide Framed; hide CodesLeadOut; hide Flat; hide NoSettings;
    hide WithinLimits; hide RunAlts; hide Exact;
    TreeOutcome(t);
    if Lenient(t) {
      LenientRoundTrip(t);
    } else if HeaderFits(t, []) && t.alts != [] && |Numbers(t.alts)| < 32
              && Run(t, []).ending == Whole(0) {
      WholeRun(t);
    }
  }

  /** Thirty-two endpoints are the most a setting may have: with an accepted header and an exact count, a tree of one
      setting comes back with up to 32, and with more a call below fails, so that nothing is handed out. */
  lemma EndpointBoundary(t: ConfigTree)
    requires Framed(t) && HeaderFits(t, []) && |t.alts| == 1 && Exact(t.alts[0]) && |Encode(t)| < 27400002
    ensures var r := ParseUsbConfigDescriptor(Encode(t));
            if |t.alts[0].endpoints| <= 32 then r == Result(0, Some(ConfigView(t)))
            else r.Result? && r.ret < 0 && r.config == None
  {
    hide ParseUsbConfigDescriptor; hide Encode; hide FramedAlt; hide ConfigView; hide Flat; hide NoSettings;
    hide Settings; hide Numbers; hide AltView; hide Trimmed;
    var a := t.alts[0];
    assert t.alts == [a];
    assert Encode(t) + [] == Encode(t);
    OneSetting(a);
    if |a.endpoints| <= 32 {
      RoundTrip(t);
    } else {
      TreeOutcome(t);
      assert Slots(t.alts, [Number(a)]) == [1] && NoSettings(1) == [[]];
      assert IndexOf([Number(a)], Number(a)) == 0;
    }
  }

  // --- the size limit is real ----------------------------------------------------------------------------------

  function Zeros(n: nat): (r: bytes)
    ensures |r| == n
  {
    if n == 0 then [] else [0] + Zeros(n - 1)
  }

  /** One interface whose descriptor is 247 bytes long makes a configuration of 256 bytes. */
  function Tree256(): ConfigTree {
    ConfigTree(ConfigDesc(9, DT_CONFIG, 256, 1, 1, 0, 0x80, 50), [], [],
               [AltTree(InterfaceDesc(247, DT_INTERFACE, 0, 0, 0, 3, 0, 0, 0), Zeros(238), [], [])])
  }

  /** The size limit is real: this configuration is refused with an error, yet an empty one is handed out. */
  lemma SizeTruncationRefuses()
    ensures var t := Tree256();
            && Consistent(t) && |Encode(t)| == 256
            && ParseUsbConfigDescriptor(Encode(t)) ==
               Result(27400002, Some(Config(t.desc, [], [])))
  {
    hide Zeros;
    var t := Tree256();
    var a := t.alts[0];
    assert EncodeEndpoints([]) == [] && Flat([]) == [];
    assert |EncodeAlt(a)| == 247;
    assert t.alts[1..] == [] && EncodeAlts([]) == [];
    assert |EncodeAlts(t.alts)| == 247;
    assert Encode(t) + [] == Encode(t);
    HeaderMeaning(t, []);
  }
}
