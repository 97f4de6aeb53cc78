/** The entry points of the configuration parser: both passes over a buffer, and the ownership of what they
    allocate. */
module UsbDescriptor {
  import opened Options
  import opened Bytes
  import opened UsbTypes
  import opened UsbMemory
  import opened UsbParser
  import opened UsbRelease
  import opened UsbAccounting
  import opened UsbGrammar
  import opened UsbRoundTrip
  import S = UsbSpec

  /** The memory of interfaces that hold no setting yet. */
  predicate Empty(ms: seq<InterfaceMemory>, ss: seq<InterfaceSlot>, caps: seq<nat>) {
    && |ms| == |ss| <= |caps|
    && forall i | 0 <= i < |ss| ::
         && ss[i].numAltsetting == 0 && ss[i].altsetting.Length == caps[i]
         && ms[i] == InterfaceMemory(ss[i].altsetting, [])
  }

  lemma {:induction false} EmptySettings(ms: seq<InterfaceMemory>)
    requires forall i | 0 <= i < |ms| :: ms[i].slots == []
    ensures InterfacesOf(ms) == S.NoSettings(|ms|)
  {
    forall i | 0 <= i < |ms| ensures InterfacesOf(ms)[i] == S.NoSettings(|ms|)[i] {
    }
  }

  method AllocateSettings(h: Heap, n: nat) returns (altsetting: array<AltSlot>)
    modifies h
    ensures fresh(altsetting) && altsetting.Length == n
    ensures multiset(h.live) == multiset(old(h.live)) + multiset{altsetting}
  {
    altsetting := new AltSlot[n](i => NO_ALT);
    h.Allocated(altsetting);
  }

  lemma NoInterfaces()
    ensures InterfacesBlocks([]) == multiset{}
  {
  }

  lemma NewInterface(m: InterfaceMemory)
    requires m.slots == []
    ensures InterfaceBlocks(m) == multiset{m.altsetting as object}
  {
  }

  /** A cleared interface array with the slots the first pass counted. */
  method AllocateInterfaces(h: Heap, caps: seq<nat>) returns (slots: seq<InterfaceSlot>, ghost ms: seq<InterfaceMemory>)
    requires Bounded(caps)
    modifies h
    ensures |slots| == |caps| && Empty(ms, slots, caps)
    ensures forall i | 0 <= i < |slots| :: fresh(slots[i].altsetting)
    ensures forall i, j | 0 <= i < j < |slots| :: slots[i].altsetting != slots[j].altsetting
    ensures multiset(h.live) == multiset(old(h.live)) + InterfacesBlocks(ms)
  {
    hide InterfacesBlocks;
    slots, ms := [], [];
    NoInterfaces();
    while |slots| < |caps|
      invariant |slots| <= |caps| && Empty(ms, slots, caps)
      invariant forall i | 0 <= i < |slots| :: fresh(slots[i].altsetting)
      invariant forall i, j | 0 <= i < j < |slots| :: slots[i].altsetting != slots[j].altsetting
      invariant multiset(h.live) == multiset(old(h.live)) + InterfacesBlocks(ms)
    {
      var j := caps[|slots|];
      if j > USB_MAXALTSETTING {
        j := USB_MAXALTSETTING;
      }
      ghost var before := multiset(h.live);
      var altsetting := AllocateSettings(h, j);
      ghost var m := InterfaceMemory(altsetting, []);
      InterfacesBack(ms, m);
      NewInterface(m);
      assert before + multiset{altsetting as object} ==
             multiset(old(h.live)) + (InterfacesBlocks(ms) + multiset{altsetting as object});
      slots, ms := slots + [InterfaceSlot(0, altsetting)], ms + [m];
    }
  }

  method AllocateArray(h: Heap, slots: seq<InterfaceSlot>) returns (interfaces: array<InterfaceSlot>)
    modifies h
    ensures fresh(interfaces) && interfaces[..] == slots
    ensures multiset(h.live) == multiset(old(h.live)) + multiset{interfaces}
  {
    interfaces := new InterfaceSlot[|slots|](i requires 0 <= i < |slots| => slots[i]);
    assert interfaces[..] == slots;
    h.Allocated(interfaces);
  }

  lemma SizedMemory(c: ConfigMemory, caps: seq<nat>, ms: seq<InterfaceMemory>)
    requires c.interfaces != null && Empty(ms, c.interfaces[..], caps) && c.Valid()
    ensures c.Memory() == ms
  {
    forall i | 0 <= i < |ms| ensures c.Memory()[i] == ms[i] {
      var s := c.interfaces[..][i];
      assert s.altsetting[..s.numAltsetting] == [];
    }
  }

  lemma SizedBlocks(c: ConfigMemory, live: multiset<object>, base: multiset<object>, blocks: multiset<object>)
    requires c.Valid() && c.interfaces != null && c.extra == null && InterfacesBlocks(c.Memory()) == blocks
    requires live == base + multiset{c} + blocks + multiset{c.interfaces as object}
    ensures live == base + c.Blocks()
  {
    hide InterfacesBlocks; hide ConfigMemory.Memory;
    var i := multiset{c.interfaces as object};
    assert c.Blocks() == multiset{c} + multiset{} + i + blocks;
  }

  lemma Sized(c: ConfigMemory, h: Heap, base: multiset<object>, caps: seq<nat>, ms: seq<InterfaceMemory>)
    requires c.interfaces != null && c.extra == null && Empty(ms, c.interfaces[..], caps) && |caps| == |ms|
    requires c.desc.bNumInterfaces as int == |caps| && Bounded(caps)
    requires forall i, j | 0 <= i < j < |ms| :: ms[i].altsetting != ms[j].altsetting
    requires multiset(h.live) == base + multiset{c} + InterfacesBlocks(ms) + multiset{c.interfaces as object}
    ensures Represents(c, h, base, caps, [], S.NoSettings(|caps|))
  {
    hide InterfacesBlocks; hide InterfacesOf; hide S.NoSettings;
    SizedMemory(c, caps, ms);
    EmptySettings(ms);
    assert Capacities(c.interfaces[..]) == caps;
    SizedBlocks(c, multiset(h.live), base, InterfacesBlocks(ms));
  }

  /** Gives the configuration its interface array. */
  method SizeInterfaces(h: Heap, c: ConfigMemory, caps: seq<nat>, ghost base: multiset<object>)
    requires c.interfaces == null && c.extra == null && |caps| < 256
    requires Bounded(caps)
    requires multiset(h.live) == base + multiset{c}
    modifies h, c
    ensures c.desc == old(c.desc).(bNumInterfaces := |caps| as byte)
    ensures c.interfaces != null && fresh(c.Arrays())
    ensures Represents(c, h, base, caps, [], S.NoSettings(|caps|))
  {
    hide InterfacesBlocks; hide InterfacesOf; hide S.NoSettings; hide Represents;
    c.desc := c.desc.(bNumInterfaces := |caps| as byte);
    var slots, ms := AllocateInterfaces(h, caps);
    c.interfaces := AllocateArray(h, slots);
    Sized(c, h, base, caps, ms);
  }

  /** A configuration without interfaces or extra bytes. */
  lemma Bare(c: ConfigMemory, live: multiset<object>, base: multiset<object>)
    requires c.extra == null && c.interfaces == null && live == base + multiset{c}
    ensures c.Valid() && live == base + c.Blocks() && c.View() == Config(c.desc, [], [])
  {
    assert c.Memory() == [];
  }

  lemma Finished(c: ConfigMemory, h: Heap, base: multiset<object>, caps: seq<nat>, extra: bytes, ifaces: seq<Interface>)
    requires Represents(c, h, base, caps, extra, ifaces)
    ensures c.Valid() && multiset(h.live) == base + c.Blocks() && c.View() == Config(c.desc, extra, ifaces)
  {
    hide Capacities; hide InterfacesOf; hide ConfigMemory.Memory; hide ConfigMemory.Blocks; hide ConfigMemory.Valid;
  }

  /** Both passes. `end` says how the second one ended; before it, everything ends with an error code. */
  method ParseConfiguration(h: Heap, b: bytes, c: ConfigMemory, ghost base: multiset<object>) returns (end: Ending)
    requires c.desc == ZERO_CONFIG && c.extra == null && c.interfaces == null
    requires multiset(h.live) == base + multiset{c}
    modifies h, c
    ensures end.Ended? ==> c.Valid() && multiset(h.live) == base + c.Blocks()
    ensures S.ParseConfiguration(b) == match end
                                       case Ended(ret) => S.Returned(ret, c.View())
                                       case Overran => S.NeverReturns(S.Faulted)
                                       case Looping => S.NeverReturns(S.Hung)
  {
    hide S.CountInterfaces; hide S.ParseBody; hide S.NoSettings; hide Represents;
    hide ConfigMemory.Memory; hide ConfigMemory.Blocks; hide ConfigMemory.Valid; hide ConfigMemory.View;
    if |b| < CONFIG_SIZE {
      Bare(c, multiset(h.live), base);
      return Ended(USB_DDK_INVALID_OPERATION);
    }
    c.desc := ReadConfigDesc(b, 0);
    if !S.HeaderAccepted(b) {
      Bare(c, multiset(h.live), base);
      return Ended(USB_DDK_INVALID_OPERATION);
    }
    var nums, caps := GetInterfaceNumber(b);
    if |nums| == 0 || |nums| > USB_MAXALTSETTING {
      Bare(c, multiset(h.live), base);
      return Ended(USB_DDK_INVALID_OPERATION);
    }
    CountsBounded(b, 0, S.Counts([], []));
    var length := c.desc.bLength;
    SizeInterfaces(h, c, caps, base);
    ghost var extra, ifaces;
    end, extra, ifaces := ParseConfigurationDes(h, b, length as nat, c, nums, base, caps, [], S.NoSettings(|caps|));
    Finished(c, h, base, caps, extra, ifaces);
  }

  lemma SameBlocks(x: set<object>, y: set<object>)
    requires multiset(x) == multiset(y)
    ensures x == y
  {
    forall o: object ensures o in x <==> o in y {
      assert o in x <==> o in multiset(x);
    }
  }

  /** ParseUsbConfigDescriptor. When it returns, the caller owns exactly the blocks of the configuration it was
      handed, and when it was handed none, none were left behind. */
  method ParseUsbConfigDescriptor(h: Heap, b: bytes) returns (end: Ending, config: ConfigMemory?)
    modifies h
    ensures config != null ==> fresh(config) && config.Valid()
    ensures S.ParseUsbConfigDescriptor(b) ==
            match end
            case Ended(ret) => S.Result(ret, if config == null then None else Some(config.View()))
            case Overran => S.NoResult(S.Faulted)
            case Looping => S.NoResult(S.Hung)
    ensures end.Ended? && config == null ==> h.live == old(h.live)
    ensures config != null ==> end.Ended? && multiset(h.live) == multiset(old(h.live)) + config.Blocks()
  {
    hide S.ParseConfiguration; hide ConfigMemory.Blocks; hide ConfigMemory.View; hide ConfigMemory.Valid;
    var tmpConfig := new ConfigMemory();
    h.Allocated(tmpConfig);
    end := ParseConfiguration(h, b, tmpConfig, multiset(old(h.live)));
    if !end.Ended? {
      return end, null;
    }
    if end.ret < 0 {
      FreeUsbConfigDescriptor(h, tmpConfig, multiset(old(h.live)));
      SameBlocks(h.live, old(h.live));
      return end, null;
    }
    return end, tmpConfig;
  }

  /** A client that parses and releases leaves the heap as it found it. */
  method ParseThenFree(h: Heap, b: bytes) returns (end: Ending)
    modifies h
    ensures end.Ended? ==> h.live == old(h.live)
    ensures match S.ParseUsbConfigDescriptor(b)
            case Result(ret, _) => end == Ended(ret)
            case NoResult(_) => !end.Ended?
  {
    hide S.ParseUsbConfigDescriptor; hide ConfigMemory.Blocks; hide ConfigMemory.View; hide ConfigMemory.Valid;
    var config;
    end, config := ParseUsbConfigDescriptor(h, b);
    if config != null {
      FreeUsbConfigDescriptor(h, config, multiset(old(h.live)));
      SameBlocks(h.live, old(h.live));
    }
  }

  /** On a tree with no more endpoints than declared the parser always returns, so releasing always gives everything
      back; nothing was handed out unless the last setting's count is exact. */
  method ParseThenFreeTree(h: Heap, t: ConfigTree) returns (end: Ending)
    requires Lenient(t)
    modifies h
    ensures end.Ended? && h.live == old(h.live)
    ensures if LastExact(t) then end.ret == 0 else end.ret < 0
  {
    hide S.ParseUsbConfigDescriptor; hide Lenient; hide Encode; hide ConfigView; hide LastExact;
    LenientRoundTrip(t);
    end := ParseThenFree(h, Encode(t));
  }

  /** Parsing the encoding of a well-formed tree: the caller is handed the tree, and exactly its blocks. */
  method ParseTree(h: Heap, t: ConfigTree) returns (end: Ending, config: ConfigMemory?)
    requires WellFormed(t)
    modifies h
    ensures end == Ended(0) && config != null && config.Valid() && config.View() == ConfigView(t)
    ensures multiset(h.live) == multiset(old(h.live)) + config.Blocks()
  {
    hide S.ParseUsbConfigDescriptor; hide ConfigMemory.Blocks; hide ConfigMemory.View; hide ConfigMemory.Valid;
    hide WellFormed; hide Encode; hide ConfigView;
    RoundTrip(t);
    end, config := ParseUsbConfigDescriptor(h, Encode(t));
  }
}
