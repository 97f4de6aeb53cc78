/** When the parser does not return, and what surplus endpoints do to it. */
module UsbFailures {
  import opened Options
  import opened Bytes
  import opened UsbTypes
  import opened UsbSpec
  import opened UsbGrammar
  import opened UsbLayout
  import opened UsbFirstPass
  import opened UsbSecondPass
  import opened UsbAccounting
  import opened UsbOutcome
  import opened UsbRoundTrip

  // --- too many settings ---------------------------------------------------------------------------------------

  /** 128 settings of the same interface come before setting `k`. */
  predicate Crowded(alts: seq<AltTree>, k: nat)
    requires k < |alts|
  {
    |Settings(alts[..k], Number(alts[k]))| >= 128
  }

  /** Setting `k` finds no slot, and no setting before it declares too many endpoints. */
  predicate OverrunsAt(alts: seq<AltTree>, from: nat, k: nat)
    requires from <= k < |alts|
  {
    Crowded(alts, k) && forall j | from <= j < k :: alts[j].desc.bNumEndpoints as int <= 32
  }

  predicate SomeOverrun(alts: seq<AltTree>, from: nat) {
    exists m | from <= m < |alts| :: OverrunsAt(alts, from, m)
  }

  lemma {:induction false} SettingsSplit(alts: seq<AltTree>, k: nat, n: byte)
    requires k <= |alts|
    ensures Settings(alts, n) == Settings(alts[..k], n) + Settings(alts[k..], n)
    decreases k
  {
    hide Number;
    if k == 0 {
      assert alts[0..] == alts && Settings(alts[..0], n) == [];
    } else {
      SettingsSplit(alts[1..], k - 1, n);
      assert alts[..k][1..] == alts[1..][..k - 1] && alts[1..][k - 1..] == alts[k..];
      assert alts[..k][0] == alts[0];
    }
  }

  lemma SettingsNext(alts: seq<AltTree>, k: nat, n: byte)
    requires k < |alts|
    ensures |Settings(alts[..k + 1], n)| == |Settings(alts[..k], n)| + if Number(alts[k]) == n then 1 else 0
    ensures Number(alts[k]) == n ==> |Settings(alts, n)| > |Settings(alts[..k], n)|
  {
    SettingsSplit(alts, k, n);
    SettingsSplit(alts[..k + 1], k, n);
    assert alts[..k + 1][..k] == alts[..k] && alts[..k + 1][k..] == [alts[k]];
    assert alts[k..][0] == alts[k];
  }

  /** The settings before `k` are stored, in slots counted from all of them. */
  predicate StoredUpTo(alts: seq<AltTree>, k: nat, nums: bytes, caps: seq<nat>, ifaces: seq<Interface>)
    requires k <= |alts|
  {
    && |nums| == |caps| == |ifaces| && Distinct(nums)
    && (forall a | a in alts :: Number(a) in nums)
    && (forall j | 0 <= j < |nums| :: caps[j] == Min(|Settings(alts, nums[j])|, 128))
    && (forall j | 0 <= j < |nums| :: |ifaces[j]| == |Settings(alts[..k], nums[j])|)
  }

  lemma StoredNext(alts: seq<AltTree>, k: nat, nums: bytes, caps: seq<nat>, ifaces: seq<Interface>, x: AltSetting)
    requires k < |alts| && StoredUpTo(alts, k, nums, caps, ifaces)
    ensures var i := IndexOf(nums, Number(alts[k]));
            && i < |nums| && (|ifaces[i]| >= caps[i] <==> Crowded(alts, k))
            && StoredUpTo(alts, k + 1, nums, caps, ifaces[i := ifaces[i] + [x]])
  {
    hide Settings;
    assert Number(alts[k]) in nums;
    var i := IndexOf(nums, Number(alts[k]));
    SettingsNext(alts, k, Number(alts[k]));
    forall j | 0 <= j < |nums| ensures |ifaces[i := ifaces[i] + [x]][j]| == |Settings(alts[..k + 1], nums[j])| {
      SettingsNext(alts, k, nums[j]);
    }
  }

  lemma StoredLengths(alts: seq<AltTree>, k: nat, nums: bytes, caps: seq<nat>, ifaces: seq<Interface>)
    requires k <= |alts| && StoredUpTo(alts, k, nums, caps, ifaces)
    ensures |nums| == |caps| == |ifaces|
  {
  }

  lemma OverrunShift(alts: seq<AltTree>, k: nat)
    requires k < |alts| && !Crowded(alts, k) && alts[k].desc.bNumEndpoints as int <= 32
    ensures SomeOverrun(alts, k) <==> SomeOverrun(alts, k + 1)
  {
    hide Crowded;
    if SomeOverrun(alts, k) {
      var m :| k <= m < |alts| && OverrunsAt(alts, k, m);
      assert OverrunsAt(alts, k + 1, m);
    }
    if SomeOverrun(alts, k + 1) {
      var m :| k + 1 <= m < |alts| && OverrunsAt(alts, k + 1, m);
      assert OverrunsAt(alts, k, m);
    }
  }

  /** Without surplus endpoints a slot is overrun exactly at a crowded setting before which nothing fails. */
  lemma {:induction false} OverrunMeaning(alts: seq<AltTree>, k: nat, nums: bytes, caps: seq<nat>,
                                          ifaces: seq<Interface>)
    requires k <= |alts| && StoredUpTo(alts, k, nums, caps, ifaces)
    requires forall a | a in alts :: |a.endpoints| <= a.desc.bNumEndpoints as int
    ensures var e := RunAlts(alts[k..], [], nums, caps, ifaces).ending;
            && (e == Overruns <==> SomeOverrun(alts, k))
            && e != Loops
    decreases |alts| - k
  {
    hide StoredUpTo; hide Crowded; hide IndexOf; hide AltView; hide Trimmed;
    if k < |alts| {
      var a := alts[k];
      var i := IndexOf(nums, Number(a));
      StoredLengths(alts, k, nums, caps, ifaces);
      StoredNext(alts, k, nums, caps, ifaces, AltView(Trimmed(a)));
      assert alts[k..][0] == a && alts[k..][1..] == alts[k + 1..] && a in alts;
      if Crowded(alts, k) {
        assert OverrunsAt(alts, k, k);
      } else if a.desc.bNumEndpoints as int > 32 {
        forall m | k <= m < |alts| ensures !OverrunsAt(alts, k, m) {
        }
      } else {
        OverrunMeaning(alts, k + 1, nums, caps, ifaces[i := ifaces[i] + [AltView(Trimmed(a))]]);
        OverrunShift(alts, k);
      }
    }
  }

  lemma NothingToOverrun(alts: seq<AltTree>)
    ensures alts == [] ==> !SomeOverrun(alts, 0)
  {
  }

  lemma StoredAtStart(t: ConfigTree)
    requires Framed(t) && |Numbers(t.alts)| < 32
    ensures var ns := Numbers(t.alts); StoredUpTo(t.alts, 0, ns, Slots(t.alts, ns), NoSettings(|ns|))
  {
    hide Framed; hide CountInterfaces; hide Encode;
    FirstPass(t, []);
    assert t.alts[..0] == [];
  }

  /** A tree without surplus endpoints never makes the parser loop. It makes it write past the slots exactly when the
      header is accepted, fewer than 32 interfaces are present, and some setting has 128 of its interface before it
      and none that declares more than 32 endpoints. */
  lemma NeverReturnsExactly(t: ConfigTree)
    requires Framed(t) && NoSurplus(t) && |Encode(t)| < 27400002
    ensures var r := ParseUsbConfigDescriptor(Encode(t));
            && r != NoResult(Hung)
            && (r.NoResult? <==>
                  && HeaderAccepted(Encode(t)) && |Numbers(t.alts)| < 32
                  && SomeOverrun(t.alts, 0))
  {
    hide ParseUsbConfigDescriptor; hide Encode; hide Framed; hide Flat; hide NoSettings; hide RunAlts;
    hide SomeOverrun; hide HeaderAccepted; hide HeaderFits;
    TreeOutcome(t);
    assert Encode(t) + [] == Encode(t);
    HeaderMeaning(t, []);
    var ns := Numbers(t.alts);
    if |ns| < 32 {
      StoredAtStart(t);
      OverrunMeaning(t.alts, 0, ns, Slots(t.alts, ns), NoSettings(|ns|));
      assert t.alts[0..] == t.alts;
      NothingToOverrun(t.alts);
    }
  }

  // --- surplus endpoints ---------------------------------------------------------------------------------------

  /** The address byte of the first endpoint of a setting that was not declared. */
  function SurplusAddress(a: AltTree): byte
    requires |a.endpoints| > a.desc.bNumEndpoints as int
  {
    a.endpoints[a.desc.bNumEndpoints].desc.bEndpointAddress
  }

  lemma {:induction false} RunToSurplus(alts: seq<AltTree>, k: nat, nums: bytes, caps: seq<nat>, ifaces: seq<Interface>)
    requires k < |alts| && RoomFor(nums, caps, ifaces, alts)
    requires forall j | 0 <= j < k :: Declared(alts[j])
    requires alts[k].desc.bNumEndpoints as int <= 32
    requires |alts[k].endpoints| > alts[k].desc.bNumEndpoints as int
    ensures var address, rest := SurplusAddress(alts[k]), alts[k + 1..];
            RunAlts(alts, [], nums, caps, ifaces).ending ==
            if address !in nums then Refused
            else if Remaining(alts[k], rest, []) >= INTERFACE_SIZE && Settings(rest, address) == [] then Overruns
            else Loops
    decreases |alts|
  {
    hide AltView; hide Trimmed; hide Remaining; hide IndexOf;
    var a, rest, i := alts[0], alts[1..], IndexOf(nums, Number(alts[0]));
    var x := AltView(Trimmed(a));
    RoomStep(nums, caps, ifaces, alts, i, x);
    var ifaces' := ifaces[i := ifaces[i] + [x]];
    if k == 0 {
      var j := IndexOf(nums, SurplusAddress(a));
      assert j < |nums| <==> SurplusAddress(a) in nums;
      if j < |nums| {
        assert |ifaces'[j]| + |Settings(rest, nums[j])| == caps[j];
      }
    } else {
      assert Declared(a);
      RunToSurplus(rest, k - 1, nums, caps, ifaces');
      assert rest[k - 1] == alts[k] && rest[k..] == alts[k + 1..];
    }
  }

  /** The first surplus endpoint is taken for an interface, that of its address byte. When there is none, the parser
      returns 401. When there is one, it does not return: it writes past the slots when the rest of the buffer could
      hold an interface descriptor and all settings of that interface are already stored, and otherwise it loops. */
  lemma SurplusOutcome(t: ConfigTree, k: nat)
    requires Framed(t) && WithinLimits(t) && k < |t.alts|
    requires forall j | 0 <= j < k :: |t.alts[j].endpoints| <= t.alts[j].desc.bNumEndpoints as int
    requires |t.alts[k].endpoints| > t.alts[k].desc.bNumEndpoints as int
    ensures var r, address := ParseUsbConfigDescriptor(Encode(t)), SurplusAddress(t.alts[k]);
            var rest := t.alts[k + 1..];
            if address !in Numbers(t.alts) then r.Result? && r.ret == 401
            else if Remaining(t.alts[k], rest, []) >= INTERFACE_SIZE && Settings(rest, address) == [] then
              r == NoResult(Faulted)
            else r == NoResult(Hung)
  {
    hide ParseUsbConfigDescriptor; hide Encode; hide Framed; hide Flat; hide NoSettings; hide RunAlts;
    hide Settings; hide Remaining; hide RoomFor;
    var ns := Numbers(t.alts);
    TreeOutcome(t);
    RoomForAll(t);
    assert forall j | 0 <= j < k :: Declared(t.alts[j]) by {
      assert forall j | 0 <= j < k :: t.alts[j] in t.alts;
    }
    RunToSurplus(t.alts, k, ns, Slots(t.alts, ns), NoSettings(|ns|));
  }

  // --- buffers on which these things happen --------------------------------------------------------------------

  const ONE_INTERFACE := ConfigDesc(9, DT_CONFIG, 27, 1, 1, 0, 0x80, 50)

  /** One setting of interface 1 that declares no endpoint, with an endpoint of nine bytes at `address`. */
  function UndeclaredEndpoint(address: byte): ConfigTree {
    ConfigTree(ONE_INTERFACE, [], [],
               [AltTree(InterfaceDesc(9, DT_INTERFACE, 1, 0, 0, 3, 0, 0, 0), [], [],
                        [EndpointTree(EndpointDesc(9, DT_ENDPOINT, address, 2, 64, 0, 0, 0), [0, 0], [])])])
  }

  lemma OneEndpointBytes(address: byte)
    ensures var a := UndeclaredEndpoint(address).alts[0];
            && EncodeEndpoints(a.endpoints) == [9, 5, address, 2, 64, 0, 0, 0, 0]
            && EncodeAlt(a) == [9, 4, 1, 0, 0, 3, 0, 0, 0, 9, 5, address, 2, 64, 0, 0, 0, 0]
  {
    var a := UndeclaredEndpoint(address).alts[0];
    var e := a.endpoints[0];
    assert Flat([]) == [] && EncodeEndpoints([]) == [] && a.endpoints[1..] == [];
    assert EncodeEndpoint(e) == [9, 5, address, 2, 64, 0, 0, 0, 0];
    assert EncodeEndpoints(a.endpoints) == EncodeEndpoint(e) + [];
  }

  lemma UndeclaredEndpointParts(address: byte)
    ensures var t := UndeclaredEndpoint(address);
            Encode(t) == [9, 2, 27, 0, 1, 1, 0, 0x80, 50] + EncodeAlt(t.alts[0])
  {
    hide EncodeAlt;
    var t := UndeclaredEndpoint(address);
    assert Flat([]) == [] && EncodeAlts([]) == [] && t.alts[1..] == [];
    assert EncodeAlts(t.alts) == EncodeAlt(t.alts[0]) + [] == EncodeAlt(t.alts[0]);
    assert ConfigBytes(t.desc, t.tail) == [9, 2, 27, 0, 1, 1, 0, 0x80, 50];
    assert [] + EncodeAlts(t.alts) == EncodeAlts(t.alts);
  }

  lemma UndeclaredEndpointBytes(address: byte)
    ensures Encode(UndeclaredEndpoint(address)) ==
            [9, 2, 27, 0, 1, 1, 0, 0x80, 50, 9, 4, 1, 0, 0, 3, 0, 0, 0, 9, 5, address, 2, 64, 0, 0, 0, 0]
  {
    hide Encode; hide EncodeAlt; hide EncodeEndpoints;
    OneEndpointBytes(address);
    UndeclaredEndpointParts(address);
  }

  lemma UndeclaredEndpointShape(address: byte)
    ensures var t := UndeclaredEndpoint(address);
            && Framed(t) && WithinLimits(t) && Numbers(t.alts) == [1] && Remaining(t.alts[0], t.alts[1..], []) == 9
  {
    hide Encode; hide Settings; hide Numbers;
    var t := UndeclaredEndpoint(address);
    var a := t.alts[0];
    UndeclaredEndpointBytes(address);
    OneSetting(a);
    assert a.endpoints[1..] == [] && t.alts[1..] == [] && a.endpoints[..0] == [];
    assert EndpointsLength([]) == 0 && AltsLength([]) == 0 && Flat([]) == [];
    assert EndpointsLength(a.endpoints) == EndpointLength(a.endpoints[0]) + EndpointsLength(a.endpoints[1..]) == 9;
  }

  /** An undeclared endpoint whose address is an interface number makes the parser write past the slots of that
      interface; with any other address it is refused. */
  lemma UndeclaredEndpointExample()
    ensures ParseUsbConfigDescriptor([9, 2, 27, 0, 1, 1, 0, 0x80, 50, 9, 4, 1, 0, 0, 3, 0, 0, 0,
                                      9, 5, 1, 2, 64, 0, 0, 0, 0]) == NoResult(Faulted)
    ensures var r := ParseUsbConfigDescriptor([9, 2, 27, 0, 1, 1, 0, 0x80, 50, 9, 4, 1, 0, 0, 3, 0, 0, 0,
                                               9, 5, 0x81, 2, 64, 0, 0, 0, 0]);
            r.Result? && r.ret == 401
  {
    hide ParseUsbConfigDescriptor; hide Encode; hide Framed; hide WithinLimits; hide Numbers; hide Remaining;
    UndeclaredEndpointBytes(1);
    UndeclaredEndpointBytes(0x81);
    UndeclaredEndpointShape(1);
    UndeclaredEndpointShape(0x81);
    assert UndeclaredEndpoint(1).alts[1..] == [] && Settings([], 1) == [];
    SurplusOutcome(UndeclaredEndpoint(1), 0);
    SurplusOutcome(UndeclaredEndpoint(0x81), 0);
  }

  /** One setting of interface 0, without endpoints. */
  function Single(total: nat, declared: byte): ConfigTree {
    ConfigTree(ConfigDesc(9, DT_CONFIG, total, 1, 1, 0, 0x80, 50), [], [],
               [AltTree(InterfaceDesc(9, DT_INTERFACE, 0, 0, declared, 3, 0, 0, 0), [], [], [])])
  }

  lemma SingleBytes(total: nat, declared: byte)
    requires total < 256
    ensures Encode(Single(total, declared)) ==
            [9, 2, total as byte, 0, 1, 1, 0, 0x80, 50, 9, 4, 0, 0, declared, 3, 0, 0, 0]
  {
    var t := Single(total, declared);
    var a := t.alts[0];
    assert Flat([]) == [] && EncodeEndpoints([]) == [] && EncodeAlts([]) == [];
    assert EncodeAlt(a) == [9, 4, 0, 0, declared, 3, 0, 0, 0];
    assert EncodeAlts(t.alts) == EncodeAlt(a) by { assert t.alts[1..] == []; }
  }

  lemma SingleFits(total: nat, declared: byte)
    requires total < 0x1_0000 && declared as int <= 32
    ensures var t := Single(total, declared);
            && Framed(t) && CountsFit(t.alts) && NoSurplus(t) && Numbers(t.alts) == [0]
            && (LastExact(t) <==> declared == 0)
  {
    OneSetting(Single(total, declared).alts[0]);
  }

  /** A descriptor of length zero and one more byte, the number of an interface, keep the parser in its loop. */
  lemma ZeroLengthExample()
    ensures ParseUsbConfigDescriptor([9, 2, 21, 0, 1, 1, 0, 0x80, 50, 9, 4, 0, 0, 0, 3, 0, 0, 0, 0, 0x21, 0]) ==
            NoResult(Hung)
  {
    hide ParseUsbConfigDescriptor; hide Encode; hide Framed; hide CountsFit; hide NoSurplus; hide Numbers;
    var t, z := Single(21, 0), [0, 0x21, 0];
    SingleBytes(21, 0);
    SingleFits(21, 0);
    assert Encode(t) + z == [9, 2, 21, 0, 1, 1, 0, 0x80, 50, 9, 4, 0, 0, 0, 3, 0, 0, 0, 0, 0x21, 0];
    StrayTail(t, z);
  }

  /** A setting that declares an endpoint and is the last thing in the buffer: a call below fails, the result is
      negative, and nothing is handed out. */
  lemma MissingEndpointExample()
    ensures var b: bytes := [9, 2, 18, 0, 1, 1, 0, 0x80, 50, 9, 4, 0, 0, 1, 3, 0, 0, 0];
            var r := ParseUsbConfigDescriptor(b);
            HeaderAccepted(b) && SomeCallFails(b) && r.Result? && r.ret < 0 && r.config == None
  {
    hide ParseUsbConfigDescriptor; hide SomeCallFails; hide SomethingRefused; hide SomethingOverruns;
    hide SomethingLoops; hide ConfigSize; hide CountInterfaces; hide Encode; hide Framed; hide CountsFit;
    hide NoSurplus; hide Numbers; hide LastExact;
    var t := Single(18, 1);
    SingleBytes(18, 1);
    SingleFits(18, 1);
    LenientRoundTrip(t);
    ParseResults(Encode(t));
  }
}
