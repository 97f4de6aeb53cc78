/** The trees that come back from the parser, and as what. */
module UsbRoundTrip {
  import opened Options
  import opened Bytes
  import opened UsbTypes
  import opened UsbSpec
  import opened UsbGrammar
  import opened UsbFirstPass
  import opened UsbSecondPass
  import opened UsbOutcome

  // --- the settings of each interface --------------------------------------------------------------------------

  /** Each setting goes to the entry of its interface number. */
  function Distribute(nums: bytes, ifaces: seq<Interface>, alts: seq<AltTree>): (r: seq<Interface>)
    requires |nums| == |ifaces|
    ensures |r| == |ifaces|
    decreases |alts|
  {
    if alts == [] then ifaces
    else
      var i := IndexOf(nums, Number(alts[0]));
      Distribute(nums, if i < |nums| then ifaces[i := ifaces[i] + [AltView(alts[0])]] else ifaces, alts[1..])
  }

  /** What distribution means: the settings of each number, in wire order, after what was there. */
  lemma {:induction false} DistributeMeaning(nums: bytes, ifaces: seq<Interface>, alts: seq<AltTree>, j: nat)
    requires |nums| == |ifaces| && j < |nums| && Distinct(nums)
    ensures Distribute(nums, ifaces, alts)[j] == ifaces[j] + AltViews(Settings(alts, nums[j]))
    decreases |alts|
  {
    hide Number; hide AltView; hide IndexOf;
    if alts == [] {
      assert ifaces[j] + AltViews([]) == ifaces[j];
    } else {
      var a := alts[0];
      var i := IndexOf(nums, Number(a));
      var ifaces' := if i < |nums| then ifaces[i := ifaces[i] + [AltView(a)]] else ifaces;
      DistributeMeaning(nums, ifaces', alts[1..], j);
      var rest := Settings(alts[1..], nums[j]);
      if Number(a) == nums[j] {
        assert i == j;
        assert ifaces[j] + [AltView(a)] + AltViews(rest) == ifaces[j] + AltViews([a] + rest);
      } else {
        assert [] + rest == rest;
      }
    }
  }

  lemma DistributeAll(nums: bytes, alts: seq<AltTree>)
    requires Distinct(nums)
    ensures Distribute(nums, NoSettings(|nums|), alts) == Grouped(alts, nums)
  {
    hide Distribute; hide Settings; hide AltViews; hide Distinct;
    var none: seq<Interface> := NoSettings(|nums|);
    forall j | 0 <= j < |nums| ensures Distribute(nums, none, alts)[j] == Grouped(alts, nums)[j] {
      DistributeMeaning(nums, none, alts, j);
      assert [] + AltViews(Settings(alts, nums[j])) == AltViews(Settings(alts, nums[j]));
    }
  }

  // --- the second pass with room for all settings --------------------------------------------------------------

  /** Every setting still to come has a known number and a free slot, and no slot is spare. */
  predicate RoomFor(nums: bytes, caps: seq<nat>, ifaces: seq<Interface>, alts: seq<AltTree>) {
    && |nums| == |caps| == |ifaces| && Distinct(nums)
    && (forall a | a in alts :: Number(a) in nums)
    && (forall j | 0 <= j < |nums| :: |ifaces[j]| + |Settings(alts, nums[j])| == caps[j])
  }

  lemma RoomStep(nums: bytes, caps: seq<nat>, ifaces: seq<Interface>, alts: seq<AltTree>, i: nat, x: AltSetting)
    requires RoomFor(nums, caps, ifaces, alts) && alts != [] && i == IndexOf(nums, Number(alts[0]))
    ensures i < |nums| == |caps| == |ifaces| && |ifaces[i]| < caps[i]
    ensures RoomFor(nums, caps, ifaces[i := ifaces[i] + [x]], alts[1..])
  {
    assert Number(alts[0]) in nums;
  }

  predicate Declared(a: AltTree) {
    |a.endpoints| <= a.desc.bNumEndpoints as int <= 32
  }

  lemma TrimmedNumber(a: AltTree)
    ensures Number(Trimmed(a)) == Number(a)
    ensures Exact(a) ==> Trimmed(a) == a
  {
  }

  /** All settings are stored, with their counts cut, and then come the bytes behind them; unless the last setting lacks
      an endpoint and the search for it fails. */
  lemma {:induction false} RunWithRoom(alts: seq<AltTree>, z: bytes, nums: bytes, caps: seq<nat>,
                                       ifaces: seq<Interface>)
    requires RoomFor(nums, caps, ifaces, alts) && forall a | a in alts :: Declared(a)
    ensures var run, all := RunAlts(alts, z, nums, caps, ifaces), Distribute(nums, ifaces, TrimmedAlts(alts));
            if alts == [] || Exact(alts[|alts| - 1]) || !EndpointFails(z) then
              run == TreeRun(AtTail(z, nums, caps, all), all) && RoomFor(nums, caps, all, [])
            else run.ending == Negative
    decreases |alts|
  {
    hide RoomFor; hide AltView; hide IndexOf; hide Trimmed; hide EndpointFails; hide AtTail;
    if alts != [] {
      var a, i := alts[0], IndexOf(nums, Number(alts[0]));
      var x := AltView(Trimmed(a));
      assert Declared(a);
      assert Number(Trimmed(a)) == Number(a) by { TrimmedNumber(a); }
      RoomStep(nums, caps, ifaces, alts, i, x);
      RunWithRoom(alts[1..], z, nums, caps, ifaces[i := ifaces[i] + [x]]);
    }
  }

  lemma {:induction false} TrimmedNumbers(seen: bytes, alts: seq<AltTree>)
    ensures NumbersAfter(seen, TrimmedAlts(alts)) == NumbersAfter(seen, alts)
    decreases |alts|
  {
    hide Trimmed;
    if alts != [] {
      TrimmedNumber(alts[0]);
      TrimmedNumbers(if Number(alts[0]) in seen then seen else seen + [Number(alts[0])], alts[1..]);
    }
  }

  // --- round trips ---------------------------------------------------------------------------------------------

  /** The slots counted by the first pass are enough for the second. */
  lemma RoomForAll(t: ConfigTree)
    requires Framed(t) && CountsFit(t.alts)
    ensures var ns := Numbers(t.alts); RoomFor(ns, Slots(t.alts, ns), NoSettings(|ns|), t.alts)
  {
    hide Encode; hide CountInterfaces; hide Settings; hide Framed;
    FirstPass(t, []);
  }

  lemma RoomDistinct(t: ConfigTree)
    requires Framed(t) && CountsFit(t.alts)
    ensures Distinct(Numbers(t.alts))
  {
    hide Settings; hide Framed; hide Encode;
    RoomForAll(t);
  }

  /** The settings of a tree with no more endpoints than declared. */
  function Stored(t: ConfigTree): seq<Interface> {
    Grouped(TrimmedAlts(t.alts), Numbers(t.alts))
  }

  lemma LenientRun(t: ConfigTree, z: bytes)
    requires Framed(t) && CountsFit(t.alts) && NoSurplus(t)
    ensures var ns := Numbers(t.alts);
            && t.alts != []
            && if LastExact(t) || !EndpointFails(z) then
                 && Run(t, z) == TreeRun(AtTail(z, ns, Slots(t.alts, ns), Stored(t)), Stored(t))
                 && RoomFor(ns, Slots(t.alts, ns), Stored(t), [])
               else Run(t, z).ending == Negative
  {
    hide Framed; hide RunAlts; hide Distribute; hide Grouped; hide Settings; hide NoSettings; hide TrimmedAlts;
    hide RoomFor; hide AtTail; hide EndpointFails;
    var ns := Numbers(t.alts);
    RoomForAll(t);
    RoomDistinct(t);
    assert forall a | a in t.alts :: Declared(a);
    RunWithRoom(t.alts, z, ns, Slots(t.alts, ns), NoSettings(|ns|));
    DistributeAll(ns, TrimmedAlts(t.alts));
  }

  lemma LenientOutcome(t: ConfigTree)
    requires Lenient(t)
    ensures RunOutcome(t, [], ParseUsbConfigDescriptor(Encode(t)))
  {
    hide Encode; hide ParseUsbConfigDescriptor; hide Framed; hide RunOutcome; hide NoSettings; hide Settings;
    assert Encode(t) + [] == Encode(t);
    LenientRun(t, []);
    TreeOutcome(t);
  }

  /** A tree with no more endpoints than declared comes back with every count cut to the endpoints present, provided
      the last setting's count is exact. Otherwise the search for the missing endpoint at the end of the buffer adds
      an error code to the cursor: the result is negative and nothing is handed out. */
  lemma LenientRoundTrip(t: ConfigTree)
    requires Lenient(t)
    ensures var r := ParseUsbConfigDescriptor(Encode(t));
            if LastExact(t) then r == Result(0, Some(ConfigView(Trim(t))))
            else r.Result? && r.ret < 0 && r.config == None
  {
    hide Encode; hide ParseUsbConfigDescriptor; hide Framed; hide Run; hide Grouped; hide NoSettings; hide Flat;
    hide CountsFit;
    LenientOutcome(t);
    LenientRun(t, []);
    TrimmedNumbers([], t.alts);
  }

  /** With all slots taken, stray bytes of an interface that is there make the parser loop or overrun. */
  lemma TailWhenFull(z: bytes, nums: bytes, caps: seq<nat>, ifaces: seq<Interface>)
    requires RoomFor(nums, caps, ifaces, [])
    ensures AtTail(z, nums, caps, ifaces) ==
            if |z| <= HEADER_SIZE then Whole(|z|)
            else if z[2] !in nums then Refused
            else if |z| < INTERFACE_SIZE then Loops
            else Overruns
  {
    hide Distinct;
    if |z| > HEADER_SIZE {
      var j := IndexOf(nums, z[2]);
      assert j < |nums| <==> z[2] in nums;
      if j < |nums| {
        assert |ifaces[j]| + |Settings([], nums[j])| == caps[j];
      }
    }
  }

  lemma FewNumbers(alts: seq<AltTree>)
    requires CountsFit(alts)
    ensures 1 <= |Numbers(alts)| < 32
  {
    hide Settings;
  }

  lemma StrayOutcome(t: ConfigTree, z: bytes)
    requires Framed(t) && CountsFit(t.alts) && HeaderFits(t, z) && Stray(z) && t.alts != []
    requires |Encode(t) + z| < 27400002
    ensures RunOutcome(t, z, ParseUsbConfigDescriptor(Encode(t) + z))
  {
    hide Encode; hide ParseUsbConfigDescriptor; hide Framed; hide RunOutcome; hide NoSettings; hide CountsFit;
    hide Stray; hide HeaderFits; hide Numbers;
    FewNumbers(t.alts);
    TailOutcome(t, z);
  }

  lemma TrimmedView(t: ConfigTree)
    ensures ConfigView(Trim(t)) ==
            Config(t.desc.(bNumInterfaces := (|Numbers(t.alts)| % 256) as byte), Flat(t.extra), Stored(t))
  {
    hide Flat; hide Grouped;
    TrimmedNumbers([], t.alts);
  }

  /** A tree with no more endpoints than declared, and stray bytes behind it.
      - If the last setting lacks an endpoint and the search for it fails, the result is negative.
      - Up to two bytes are left over, and reported as such.
      - More are taken for an interface, that of the third: if there is none, the parser returns 401. If there is one,
        all of its slots are taken. With less than nine bytes ParseInterface does not ask for one, and the parser
        loops; with more it writes past them. */
  lemma StrayTail(t: ConfigTree, z: bytes)
    requires Framed(t) && CountsFit(t.alts) && NoSurplus(t) && HeaderFits(t, z) && Stray(z)
    requires |Encode(t) + z| < 27400002
    ensures var r, config := ParseUsbConfigDescriptor(Encode(t) + z), ConfigView(Trim(t));
            if !LastExact(t) && EndpointFails(z) then r.Result? && r.ret < 0 && r.config == None
            else if |z| <= HEADER_SIZE then r == Result(|z|, Some(config))
            else if z[2] !in Numbers(t.alts) then r == Result(401, Some(config))
            else if |z| < INTERFACE_SIZE then r == NoResult(Hung)
            else r == NoResult(Faulted)
  {
    hide Encode; hide ParseUsbConfigDescriptor; hide Framed; hide Run; hide Stored; hide NoSettings; hide Flat;
    hide CountsFit; hide Stray; hide EndpointFails; hide HeaderFits; hide Slots; hide Trim; hide NoSurplus;
    hide ConfigView; hide AtTail; hide RoomFor; hide Numbers; hide LastExact;
    var ns := Numbers(t.alts);
    LenientRun(t, z);
    StrayOutcome(t, z);
    TrimmedView(t);
    if LastExact(t) || !EndpointFails(z) {
      TailWhenFull(z, ns, Slots(t.alts, ns), Stored(t));
    }
  }

  lemma {:induction false} ExactAlts(alts: seq<AltTree>)
    requires forall a | a in alts :: Exact(a)
    ensures TrimmedAlts(alts) == alts
    decreases |alts|
  {
    hide Trimmed;
    if alts != [] {
      assert Exact(alts[0]);
      TrimmedNumber(alts[0]);
      ExactAlts(alts[1..]);
    }
  }

  lemma AltsPresent(t: ConfigTree)
    requires WithinLimits(t)
    ensures t.alts != []
  {
    hide Encode; hide Settings;
  }

  /** Both passes on a well-formed tree: nothing is written past the slots, the loops end, and every descriptor comes
      back. */
  lemma RoundTrip(t: ConfigTree)
    requires WellFormed(t)
    ensures ParseUsbConfigDescriptor(Encode(t)) == Result(0, Some(ConfigView(t)))
  {
    hide ParseUsbConfigDescriptor; hide Framed; hide WithinLimits; hide Encode; hide ConfigView;
    assert t.alts != [] by { AltsPresent(t); }
    ExactAlts(t.alts);
    LenientRoundTrip(t);
  }

  lemma OneSetting(a: AltTree)
    ensures Numbers([a]) == [Number(a)] && Settings([a], Number(a)) == [a]
    ensures forall n: byte :: |Settings([a], n)| <= 1
  {
    assert [a][1..] == [] && [] + [Number(a)] == [Number(a)];
    assert NumbersAfter([Number(a)], []) == [Number(a)];
    assert forall n: byte :: Settings([], n) == [];
  }

  /** As many slots are allocated for each interface as it has settings, and each is used. */
  lemma SlotsAllUsed(t: ConfigTree, j: nat)
    requires WellFormed(t) && j < |Numbers(t.alts)|
    ensures var c := CountInterfaces(Encode(t), 0, Counts([], []));
            && c.nums == Numbers(t.alts) && c.caps[j] == |Settings(t.alts, c.nums[j])|
            && c.caps[j] == |ConfigView(t).interfaces[j]|
  {
    hide Encode; hide CountInterfaces; hide Settings; hide Framed;
    FirstPass(t, []);
    assert Encode(t) + [] == Encode(t);
    assert |Settings(t.alts, Numbers(t.alts)[j])| <= 128;
  }
}
