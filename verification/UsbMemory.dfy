/** The memory behind a parsed configuration: which blocks the parser allocates, what tree they hold, and which
    blocks releasing the configuration frees. */
module UsbMemory {
  import opened Bytes
  import opened UsbTypes

  /** The allocator, reduced to the set of blocks that are allocated and not yet deleted. */
  class Heap {
    var live: set<object>

    method Allocated(o: object)
      modifies this
      ensures live == old(live) + {o}
    {
      live := live + {o};
    }

    // Deleting a block twice, or one that was never allocated, is not possible.
    method Delete(o: object)
      requires o in live
      modifies this
      ensures live == old(live) - {o}
    {
      live := live - {o};
    }
  }

  /** An `extra` buffer; it is filled once and replaced, never changed. */
  class Blob {
    const data: bytes
    constructor (data: bytes)
      ensures this.data == data
    {
      this.data := data;
    }
  }

  datatype EndpointSlot = EndpointSlot(desc: EndpointDesc, extra: Blob?)

  /** The endpoint array of one alternate setting. */
  class EndpointBlock {
    const slots: seq<EndpointSlot>
    constructor (slots: seq<EndpointSlot>)
      ensures this.slots == slots
    {
      this.slots := slots;
    }
  }

  datatype AltSlot = AltSlot(desc: InterfaceDesc, extra: Blob?, endPoint: EndpointBlock?)
  datatype InterfaceSlot = InterfaceSlot(numAltsetting: nat, altsetting: array<AltSlot>)

  const NO_ALT := AltSlot(ZERO_INTERFACE, null, null)

  // --- the tree held by the blocks -----------------------------------------------------------------------------

  function Data(extra: Blob?): bytes {
    if extra == null then [] else extra.data
  }

  function EndpointOf(s: EndpointSlot): Endpoint {
    Endpoint(s.desc, Data(s.extra))
  }

  function EndpointsOf(ss: seq<EndpointSlot>): (r: seq<Endpoint>)
    ensures |r| == |ss|
  {
    if ss == [] then [] else EndpointsOf(ss[..|ss| - 1]) + [EndpointOf(ss[|ss| - 1])]
  }

  /** The endpoint slots in use. */
  function Used(a: AltSlot): seq<EndpointSlot> {
    if a.endPoint == null || a.desc.bNumEndpoints as int > |a.endPoint.slots| then []
    else a.endPoint.slots[..a.desc.bNumEndpoints]
  }

  function AltOf(a: AltSlot): AltSetting {
    AltSetting(a.desc, Data(a.extra), EndpointsOf(Used(a)))
  }

  function AltsOf(ss: seq<AltSlot>): (r: Interface)
    ensures |r| == |ss|
  {
    if ss == [] then [] else AltsOf(ss[..|ss| - 1]) + [AltOf(ss[|ss| - 1])]
  }

  // --- the blocks a release frees ------------------------------------------------------------------------------

  function Block(o: object?): multiset<object> {
    if o == null then multiset{} else multiset{o}
  }

  function EndpointBlocks(ss: seq<EndpointSlot>): multiset<object> {
    if ss == [] then multiset{} else EndpointBlocks(ss[..|ss| - 1]) + Block(ss[|ss| - 1].extra)
  }

  function AltBlocks(a: AltSlot): multiset<object> {
    Block(a.extra) + Block(a.endPoint) + EndpointBlocks(Used(a))
  }

  function AltsBlocks(ss: seq<AltSlot>): multiset<object> {
    if ss == [] then multiset{} else AltsBlocks(ss[..|ss| - 1]) + AltBlocks(ss[|ss| - 1])
  }

  /** One interface with the content of its slots, read at one moment. */
  datatype InterfaceMemory = InterfaceMemory(altsetting: array<AltSlot>, slots: seq<AltSlot>)

  /** The settings stored so far and the array they are in. */
  function Stored(s: InterfaceSlot): (m: InterfaceMemory)
    requires s.numAltsetting <= s.altsetting.Length
    reads s.altsetting
    ensures |m.slots| == s.numAltsetting
  {
    InterfaceMemory(s.altsetting, s.altsetting[..s.numAltsetting])
  }

  function InterfacesOf(ms: seq<InterfaceMemory>): (r: seq<Interface>)
    ensures |r| == |ms|
    ensures forall j | 0 <= j < |ms| :: r[j] == AltsOf(ms[j].slots)
  {
    if ms == [] then [] else [AltsOf(ms[0].slots)] + InterfacesOf(ms[1..])
  }

  function InterfaceBlocks(m: InterfaceMemory): multiset<object> {
    multiset{m.altsetting} + AltsBlocks(m.slots)
  }

  function InterfacesBlocks(ms: seq<InterfaceMemory>): multiset<object> {
    if ms == [] then multiset{} else InterfaceBlocks(ms[0]) + InterfacesBlocks(ms[1..])
  }

  ghost function StoredAll(ss: seq<InterfaceSlot>): (ms: seq<InterfaceMemory>)
    requires forall i | 0 <= i < |ss| :: ss[i].numAltsetting <= ss[i].altsetting.Length
    reads set i | 0 <= i < |ss| :: ss[i].altsetting
    ensures |ms| == |ss| && forall i | 0 <= i < |ss| :: ms[i] == Stored(ss[i])
  {
    if ss == [] then [] else [Stored(ss[0])] + StoredAll(ss[1..])
  }

  /** The configuration object. Its interface array is null until the first pass has sized it. */
  class ConfigMemory {
    var desc: ConfigDesc
    var extra: Blob?
    var interfaces: array?<InterfaceSlot>

    constructor ()
      ensures desc == ZERO_CONFIG && extra == null && interfaces == null
    {
      desc, extra, interfaces := ZERO_CONFIG, null, null;
    }

    /** The interface array and its setting arrays, as far as frames are concerned. */
    ghost function Arrays(): set<object>
      reads this, if interfaces == null then {} else {interfaces}
    {
      if interfaces == null then {}
      else {interfaces as object} + set i | 0 <= i < interfaces.Length :: interfaces[i].altsetting as object
    }

    ghost predicate Valid()
      reads this, if interfaces == null then {} else {interfaces}
    {
      interfaces != null ==>
        && interfaces.Length == desc.bNumInterfaces as int
        && (forall i | 0 <= i < interfaces.Length ::
              interfaces[i].numAltsetting <= interfaces[i].altsetting.Length <= USB_MAXALTSETTING)
        && (forall i, j | 0 <= i < j < interfaces.Length :: interfaces[i].altsetting != interfaces[j].altsetting)
    }

    ghost function Memory(): (ms: seq<InterfaceMemory>)
      requires Valid()
      reads this, if interfaces == null then {} else {interfaces}, Arrays()
      ensures |ms| == if interfaces == null then 0 else interfaces.Length
    {
      if interfaces == null then [] else StoredAll(interfaces[..])
    }

    ghost function View(): Config
      requires Valid()
      reads this, if interfaces == null then {} else {interfaces}, Arrays()
    {
      Config(desc, Data(extra), InterfacesOf(Memory()))
    }

    ghost function Blocks(): multiset<object>
      requires Valid()
      reads this, if interfaces == null then {} else {interfaces}, Arrays()
    {
      multiset{this} + Block(extra) + Block(interfaces) + InterfacesBlocks(Memory())
    }
  }

  // --- how blocks and trees grow -------------------------------------------------------------------------------

  lemma EndpointsGrow(ss: seq<EndpointSlot>, s: EndpointSlot)
    ensures EndpointsOf(ss + [s]) == EndpointsOf(ss) + [EndpointOf(s)]
    ensures EndpointBlocks(ss + [s]) == EndpointBlocks(ss) + Block(s.extra)
  {
    assert (ss + [s])[..|ss|] == ss;
  }

  lemma AltsGrow(ss: seq<AltSlot>, s: AltSlot)
    ensures AltsOf(ss + [s]) == AltsOf(ss) + [AltOf(s)]
    ensures AltsBlocks(ss + [s]) == AltsBlocks(ss) + AltBlocks(s)
  {
    assert (ss + [s])[..|ss|] == ss;
  }

  lemma NoEndpoints()
    ensures EndpointsOf([]) == [] && EndpointBlocks([]) == multiset{}
  {
  }

  lemma AddBoth(h: multiset<object>, s: multiset<object>, x: multiset<object>, t: multiset<object>, y: multiset<object>)
    requires s + x == t + y
    ensures h + s + x == h + t + y
  {
    assert h + s + x == h + (s + x);
    assert h + t + y == h + (t + y);
  }

  lemma SwapEnds(x: multiset<object>, y: multiset<object>, t: multiset<object>)
    ensures x + t + y == y + t + x
  {
  }

  /** Changing one interface changes the blocks by that interface's. */
  lemma {:induction false} BlocksUpdate(ms: seq<InterfaceMemory>, i: nat, m: InterfaceMemory)
    requires i < |ms|
    ensures InterfacesBlocks(ms[i := m]) + InterfaceBlocks(ms[i]) == InterfacesBlocks(ms) + InterfaceBlocks(m)
    decreases |ms|
  {
    hide InterfaceBlocks;
    var x, y := InterfaceBlocks(ms[i]), InterfaceBlocks(m);
    if i == 0 {
      assert ms[i := m][1..] == ms[1..];
      SwapEnds(y, x, InterfacesBlocks(ms[1..]));
    } else {
      assert ms[i := m][1..] == ms[1..][i - 1 := m];
      BlocksUpdate(ms[1..], i - 1, m);
      AddBoth(InterfaceBlocks(ms[0]), InterfacesBlocks(ms[1..][i - 1 := m]), x, InterfacesBlocks(ms[1..]), y);
    }
  }

  // --- taking blocks off the front -----------------------------------------------------------------------------

  lemma {:induction false} EndpointsFront(ss: seq<EndpointSlot>)
    requires ss != []
    ensures EndpointBlocks(ss) == Block(ss[0].extra) + EndpointBlocks(ss[1..])
    decreases |ss|
  {
    hide Block;
    if |ss| > 1 {
      var n := |ss| - 1;
      EndpointsFront(ss[..n]);
      assert ss[..n][1..] == ss[1..][..n - 1];
    }
  }

  lemma {:induction false} AltsFront(ss: seq<AltSlot>)
    requires ss != []
    ensures AltsBlocks(ss) == AltBlocks(ss[0]) + AltsBlocks(ss[1..])
    decreases |ss|
  {
    hide AltBlocks;
    if |ss| > 1 {
      var n := |ss| - 1;
      AltsFront(ss[..n]);
      assert ss[..n][1..] == ss[1..][..n - 1];
    }
  }

  lemma {:induction false} InterfacesBack(ms: seq<InterfaceMemory>, m: InterfaceMemory)
    ensures InterfacesBlocks(ms + [m]) == InterfacesBlocks(ms) + InterfaceBlocks(m)
    decreases |ms|
  {
    hide InterfaceBlocks;
    if ms != [] {
      InterfacesBack(ms[1..], m);
      assert (ms + [m])[1..] == ms[1..] + [m];
    }
  }
}
