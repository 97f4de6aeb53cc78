/** The parser as it runs: cursors advance over the buffer, slots of allocated arrays are filled, blocks are
    allocated and deleted. Every method is proved to compute the function of UsbSpec with the same name, and to
    keep the heap equal to what it was plus the blocks of the tree it built. */
module UsbParser {
  import opened Options
  import opened Bytes
  import opened UsbTypes
  import opened UsbMemory
  import opened UsbSteps
  import S = UsbSpec

  method FindNextDescriptor(b: bytes, start: nat) returns (len: nat)
    requires start <= |b|
    ensures len == S.FindNext(b, start) - start
  {
    var pos := start;
    while |b| - pos >= HEADER_SIZE
      invariant start <= pos <= |b|
      invariant S.FindNext(b, pos) == S.FindNext(b, start)
      decreases |b| - pos
    {
      if b[pos + 1] == DT_INTERFACE || b[pos + 1] == DT_ENDPOINT { break; }
      if b[pos] < 2 || b[pos] as int > |b| - pos { break; }
      pos := pos + b[pos] as nat;
    }
    len := pos - start;
  }

  /** Appends bytes to an extra buffer: a new block takes the old content and the new, and the old one is deleted. */
  method FillExtraDescriptor(h: Heap, extra: Blob?, b: bytes, pos: nat, len: nat) returns (ret: int, r: Blob?)
    requires pos + len <= |b| && (extra != null ==> extra in h.live)
    modifies h
    ensures ret == if len == 0 then USB_DDK_INVALID_OPERATION else USB_DDK_SUCCESS
    ensures Data(r) == Data(extra) + b[pos..pos + len]
    ensures len == 0 ==> r == extra && h.live == old(h.live)
    ensures len > 0 ==> fresh(r) && multiset(h.live) + Block(extra) == multiset(old(h.live)) + Block(r)
  {
    if len == 0 {
      return USB_DDK_INVALID_OPERATION, extra;
    }
    var tmp := new Blob(Data(extra) + b[pos..pos + len]);
    h.Allocated(tmp);
    if extra != null {
      h.Delete(extra);
    }
    return USB_DDK_SUCCESS, tmp;
  }

  method ParseEndpoint(h: Heap, b: bytes, start: nat) returns (slot: EndpointSlot, ret: nat)
    modifies h
    ensures S.EndpointResult(EndpointOf(slot), ret) == S.ParseEndpoint(b, start)
    ensures multiset(h.live) == multiset(old(h.live)) + Block(slot.extra)
    ensures ret == 0 ==> slot.extra == null
  {
    slot := EndpointSlot(ZERO_ENDPOINT, null);
    var size := |b| - start;
    if size < HEADER_SIZE {
      return slot, USB_DDK_INVALID_OPERATION;
    }
    if b[start + 1] != DT_ENDPOINT || b[start] as int > size {
      return slot, 0;
    } else if b[start] as int < ENDPOINT_SIZE {
      return slot, USB_DDK_INVALID_OPERATION;
    }
    slot := slot.(desc := ReadEndpointDesc(b, start));
    var pos := start + b[start] as nat;
    var len := FindNextDescriptor(b, pos);
    if len == 0 {
      return slot, pos - start;
    }
    var status, extra := FillExtraDescriptor(h, slot.extra, b, pos, len);
    slot := slot.(extra := extra);
    return slot, pos + len - start;
  }

  /** Fills the endpoint slots in order, until one is missing; `count` of them are used. */
  method FillEndpoints(h: Heap, b: bytes, start: nat, endPoint: array<EndpointSlot>) returns (count: nat, pos: nat)
    modifies h, endPoint
    ensures count <= endPoint.Length
    ensures S.EndpointsResult(EndpointsOf(endPoint[..count]), pos) == S.ParseEndpoints(b, start, endPoint.Length, [])
    ensures multiset(h.live) == multiset(old(h.live)) + EndpointBlocks(endPoint[..count])
  {
    hide EndpointOf; hide EndpointsOf; hide EndpointBlocks; hide S.ParseEndpoint; hide S.ParseEndpoints;
    pos := start;
    var i := 0;
    ghost var filled: seq<EndpointSlot> := [];
    NoEndpoints();
    while i < endPoint.Length
      invariant 0 <= i <= endPoint.Length && filled == endPoint[..i]
      invariant S.ParseEndpoints(b, pos, endPoint.Length, EndpointsOf(filled)) ==
                S.ParseEndpoints(b, start, endPoint.Length, [])
      invariant multiset(h.live) == multiset(old(h.live)) + EndpointBlocks(filled)
    {
      var slot, ret := ParseEndpoint(h, b, pos);
      ParseEndpointsStep(b, pos, endPoint.Length, EndpointsOf(filled));
      if ret == 0 {
        return i, pos;
      }
      endPoint[i] := slot;
      EndpointsGrow(filled, slot);
      filled := filled + [slot];
      pos := pos + ret;
      i := i + 1;
    }
    ParseEndpointsEnd(b, pos, EndpointsOf(filled));
    count := i;
  }

  lemma AddSwap(m: multiset<object>, x: multiset<object>, y: multiset<object>)
    ensures m + x + y == m + y + x
  {
  }

  /** Allocates and fills the endpoint array. Nothing is allocated for no endpoints. */
  method ParseInterfaceEndpoint(h: Heap, b: bytes, start: nat, n: nat)
    returns (block: EndpointBlock?, count: nat, pos: nat)
    modifies h
    ensures count <= n && (block == null <==> n == 0)
    ensures block != null ==> |block.slots| == n
    ensures var used := if block == null then [] else block.slots[..count];
            && S.EndpointsResult(EndpointsOf(used), pos) == S.ParseEndpoints(b, start, n, [])
            && multiset(h.live) == multiset(old(h.live)) + Block(block) + EndpointBlocks(used)
  {
    hide S.ParseEndpoint;
    block, count, pos := null, n, start;
    if n == 0 {
      ParseEndpointsEnd(b, start, []);
    } else {
      var endPoint := new EndpointSlot[n](i => EndpointSlot(ZERO_ENDPOINT, null));
      count, pos := FillEndpoints(h, b, start, endPoint);
      block := new EndpointBlock(endPoint[..]);
      assert block.slots[..count] == endPoint[..count];
      ghost var live := multiset(h.live);
      h.Allocated(block);
      assert multiset(h.live) == live + multiset{block};
      AddSwap(multiset(old(h.live)), EndpointBlocks(endPoint[..count]), multiset{block});
    }
  }

  lemma AddThree(m: multiset<object>, x: multiset<object>, y: multiset<object>, z: multiset<object>)
    ensures m + x + y + z == m + (x + y + z)
  {
  }

  /** One alternate setting, whose interface descriptor has been validated. */
  method ParseAlt(h: Heap, b: bytes, start: nat) returns (slot: AltSlot, pos: nat)
    requires start + INTERFACE_SIZE <= |b| && INTERFACE_SIZE <= b[start] as int <= |b| - start
    requires b[start + 4] as int <= USB_MAXENDPOINTS
    modifies h
    ensures S.AltResult(AltOf(slot), pos) == S.ParseAlt(b, start)
    ensures multiset(h.live) == multiset(old(h.live)) + AltBlocks(slot)
  {
    hide S.ParseEndpoints; hide S.FindNext; hide EndpointsOf; hide EndpointBlocks;
    slot := NO_ALT.(desc := ReadInterfaceDesc(b, start));
    pos := start + b[start] as nat;
    var len := FindNextDescriptor(b, pos);
    if len != 0 {
      var status, extra := FillExtraDescriptor(h, slot.extra, b, pos, len);
      slot := slot.(extra := extra);
      pos := pos + len;
    }
    ghost var live := multiset(h.live);
    assert live == multiset(old(h.live)) + Block(slot.extra);
    var block, count, next := ParseInterfaceEndpoint(h, b, pos, slot.desc.bNumEndpoints as nat);
    slot := slot.(endPoint := block, desc := slot.desc.(bNumEndpoints := count as byte));
    pos := next;
    ghost var used := if block == null then [] else block.slots[..count];
    assert Used(slot) == used;
    AddThree(multiset(old(h.live)), Block(slot.extra), Block(block), EndpointBlocks(used));
  }

  lemma AddMore(live: multiset<object>, more: multiset<object>, was: multiset<object>)
    ensures live + more + was == live + (was + more)
  {
  }

  /** Parses one setting into the first free slot. */
  method StoreAlt(h: Heap, b: bytes, pos: nat, slots: array<InterfaceSlot>, i: nat) returns (next: nat)
    requires i < slots.Length && slots[i].numAltsetting < slots[i].altsetting.Length && ValidHeader(b, pos)
    modifies h, slots, slots[i].altsetting
    ensures slots[..] == old(slots[..])[i := old(slots[i]).(numAltsetting := old(slots[i].numAltsetting) + 1)]
    ensures AltsOf(Stored(slots[i]).slots) == AltsOf(old(Stored(slots[i]).slots)) + [S.ParseAlt(b, pos).alt]
    ensures next == S.ParseAlt(b, pos).pos
    ensures multiset(h.live) + AltsBlocks(old(Stored(slots[i]).slots)) ==
            multiset(old(h.live)) + AltsBlocks(Stored(slots[i]).slots)
  {
    hide S.ParseAlt; hide AltsOf; hide AltsBlocks; hide AltOf; hide AltBlocks;
    var arr, n := slots[i].altsetting, slots[i].numAltsetting;
    ghost var was := arr[..n];
    var slot, p := ParseAlt(h, b, pos);
    arr[n] := slot;
    slots[i] := slots[i].(numAltsetting := n + 1);
    assert arr[..n + 1] == was + [slot];
    AltsGrow(was, slot);
    AddMore(multiset(old(h.live)), AltBlocks(slot), AltsBlocks(was));
    next := p;
  }

  /** Two exchanges of blocks, one after the other. */
  lemma Replace(h0: multiset<object>, x0: multiset<object>, h1: multiset<object>, x1: multiset<object>,
                h2: multiset<object>, x2: multiset<object>)
    requires h1 + x0 == h0 + x1 && h2 + x1 == h1 + x2
    ensures h2 + x0 == h0 + x2
  {
    forall o: object ensures (h2 + x0)[o] == (h0 + x2)[o] {
      assert (h1 + x0)[o] == (h0 + x1)[o];
      assert (h2 + x1)[o] == (h1 + x2)[o];
    }
  }

  /** Stores the settings of one interface in its slots, from the first free one on. `overrun` reports that a slot
      past the allocated ones would have been written; nothing is known of the parser after that. */
  method ParseInterface(h: Heap, b: bytes, start: nat, slots: array<InterfaceSlot>, i: nat)
    returns (overrun: bool, ret: nat)
    requires i < slots.Length && slots[i].numAltsetting <= slots[i].altsetting.Length
    modifies h, slots, slots[i].altsetting
    ensures slots[..] == old(slots[..])[i := slots[i]]
    ensures slots[i].altsetting == old(slots[i].altsetting) && slots[i].numAltsetting <= slots[i].altsetting.Length
    ensures S.ParseInterface(b, start, AltsOf(old(Stored(slots[i]).slots)), slots[i].altsetting.Length) ==
            if overrun then S.Overrun else S.Parsed(AltsOf(Stored(slots[i]).slots), ret)
    ensures multiset(h.live) + AltsBlocks(old(Stored(slots[i]).slots)) ==
            multiset(old(h.live)) + AltsBlocks(Stored(slots[i]).slots)
  {
    hide S.ParseAlt; hide S.ParseAlts; hide AltsOf; hide AltsBlocks;
    var arr := slots[i].altsetting;
    if slots[i].numAltsetting > USB_MAXALTSETTING {
      return false, USB_DDK_INVALID_OPERATION;
    }
    var pos, number := start, -1;
    ghost var was := Stored(slots[i]).slots;
    overrun := false;
    while |b| - pos >= INTERFACE_SIZE
      invariant start <= pos && !overrun
      invariant slots[..] == old(slots[..])[i := slots[i]] && slots[i].altsetting == arr
      invariant slots[i].numAltsetting <= arr.Length
      invariant S.ParseAlts(b, start, pos, number, AltsOf(Stored(slots[i]).slots), arr.Length) ==
                S.ParseAlts(b, start, start, -1, AltsOf(was), arr.Length)
      invariant multiset(h.live) + AltsBlocks(was) == multiset(old(h.live)) + AltsBlocks(Stored(slots[i]).slots)
      decreases |b| - pos
    {
      ghost var done, stored := AltsOf(Stored(slots[i]).slots), Stored(slots[i]).slots;
      var n := slots[i].numAltsetting;
      if n == arr.Length {
        ParseAltsEnd(b, start, pos, number, done, arr.Length);
        return true, 0;
      }
      arr[n] := arr[n].(desc := ReadInterfaceDesc(b, pos));
      assert Stored(slots[i]).slots == stored;
      if !ValidHeader(b, pos) {
        ParseAltsEnd(b, start, pos, number, done, arr.Length);
        ret := if b[pos + 1] != DT_INTERFACE || b[pos] as int > |b| - pos then pos - start
               else USB_DDK_INVALID_OPERATION;
        return;
      }
      ParseAltsStep(b, start, pos, number, done, arr.Length);
      if number == -1 {
        number := b[pos + 2] as int;
      }
      ghost var before := multiset(h.live);
      pos := StoreAlt(h, b, pos, slots, i);
      Replace(multiset(old(h.live)), AltsBlocks(was), before, AltsBlocks(stored), multiset(h.live),
              AltsBlocks(Stored(slots[i]).slots));
      if |b| - pos < INTERFACE_SIZE || b[pos + 1] != DT_INTERFACE || b[pos + 2] as int != number {
        ret := pos - start;
        return;
      }
    }
    ParseAltsEnd(b, start, pos, number, AltsOf(Stored(slots[i]).slots), arr.Length);
    ret := pos - start;
  }

  method Find(s: bytes, x: byte) returns (i: nat)
    ensures i == S.IndexOf(s, x)
  {
    i := 0;
    while i < |s| && s[i] != x
      invariant i <= |s| && forall j | 0 <= j < i :: s[j] != x
    {
      i := i + 1;
    }
  }

  /** The first pass. */
  method GetInterfaceNumber(b: bytes) returns (interfaceNums: bytes, alternateSetting: seq<nat>)
    ensures S.CountInterfaces(b, 0, S.Counts([], [])) == S.Counts(interfaceNums, alternateSetting)
    ensures |interfaceNums| == |alternateSetting|
  {
    hide S.IndexOf;
    interfaceNums, alternateSetting := [], [];
    var pos := 0;
    while pos < |b|
      invariant 0 <= pos <= |b| && |interfaceNums| == |alternateSetting|
      invariant S.CountInterfaces(b, pos, S.Counts(interfaceNums, alternateSetting)) ==
                S.CountInterfaces(b, 0, S.Counts([], []))
      decreases |b| - pos
    {
      if |b| - pos < HEADER_SIZE { break; }
      if b[pos] as int > |b| - pos || b[pos] < 2 { break; }
      if b[pos + 1] == DT_INTERFACE && b[pos] as int >= INTERFACE_SIZE {
        var i := Find(interfaceNums, b[pos + 2]);
        if i < |interfaceNums| {
          if alternateSetting[i] < USB_MAXALTSETTING {
            alternateSetting := alternateSetting[i := alternateSetting[i] + 1];
          }
        } else if |interfaceNums| < USB_MAXINTERFACES {
          interfaceNums := interfaceNums + [b[pos + 2]];
          alternateSetting := alternateSetting + [1];
        }
      }
      pos := pos + b[pos] as nat;
    }
  }

  /** The slots the first pass allocated, interface by interface. */
  function Capacities(ss: seq<InterfaceSlot>): (caps: seq<nat>)
    ensures |caps| == |ss| && forall j | 0 <= j < |ss| :: caps[j] == ss[j].altsetting.Length
  {
    if ss == [] then [] else [ss[0].altsetting.Length] + Capacities(ss[1..])
  }

  lemma Cancel(p: multiset<object>, q: multiset<object>, c: multiset<object>)
    requires p + c == q + c
    ensures p == q
  {
    assert (p + c) - c == p;
    assert (q + c) - c == q;
  }

  /** An exchange of the blocks of one interface is one of the blocks of the configuration. */
  lemma ExchangeInterface(live: multiset<object>, live0: multiset<object>, rest: multiset<object>,
                          ms: seq<InterfaceMemory>, i: nat, m: InterfaceMemory)
    requires i < |ms| && m.altsetting == ms[i].altsetting
    requires live + AltsBlocks(ms[i].slots) == live0 + AltsBlocks(m.slots)
    ensures live + (rest + InterfacesBlocks(ms)) == live0 + (rest + InterfacesBlocks(ms[i := m]))
  {
    hide InterfacesBlocks; hide AltsBlocks;
    BlocksUpdate(ms, i, m);
    var x, y, a := AltsBlocks(ms[i].slots), AltsBlocks(m.slots), multiset{m.altsetting as object};
    var before, after := InterfacesBlocks(ms), InterfacesBlocks(ms[i := m]);
    assert after + (a + x) == before + (a + y);
    var p, q := live + (rest + before), live0 + (rest + after);
    assert p + (a + (x + y)) == (live + x) + rest + (before + (a + y));
    assert q + (a + (x + y)) == (live0 + y) + rest + (after + (a + x));
    Cancel(p, q, a + (x + y));
  }

  lemma InterfacesOfUpdate(ms: seq<InterfaceMemory>, i: nat, m: InterfaceMemory)
    requires i < |ms|
    ensures InterfacesOf(ms[i := m]) == InterfacesOf(ms)[i := AltsOf(m.slots)]
  {
  }

  /** ParseInterface on entry i of the configuration: the other entries keep their settings and their blocks. */
  method StoreInterface(h: Heap, b: bytes, pos: nat, c: ConfigMemory, i: nat)
    returns (overrun: bool, ret: nat, ghost m: InterfaceMemory)
    requires c.Valid() && c.interfaces != null && i < c.interfaces.Length
    modifies h, c.Arrays()
    ensures c.Valid() && Capacities(c.interfaces[..]) == old(Capacities(c.interfaces[..]))
    ensures c.Arrays() == old(c.Arrays())
    ensures c.Memory() == old(c.Memory())[i := m] && m.altsetting == old(c.Memory())[i].altsetting
    ensures S.ParseInterface(b, pos, AltsOf(old(c.Memory())[i].slots), Capacities(c.interfaces[..])[i]) ==
            if overrun then S.Overrun else S.Parsed(AltsOf(m.slots), ret)
    ensures multiset(h.live) + AltsBlocks(old(c.Memory())[i].slots) == multiset(old(h.live)) + AltsBlocks(m.slots)
  {
    hide StoredAll;
    hide S.ParseInterface; hide AltsOf; hide AltsBlocks; hide Capacities;
    ghost var ms := c.Memory();
    overrun, ret := ParseInterface(h, b, pos, c.interfaces, i);
    m := Stored(c.interfaces[i]);
    ghost var slots, was := c.interfaces[..], old(c.interfaces[..]);
    forall j | 0 <= j < |ms| ensures slots[j].altsetting == was[j].altsetting && (j != i ==> slots[j] == was[j]) {
      assert slots[j] == was[i := c.interfaces[i]][j];
    }
    assert c.Valid();
    forall j | 0 <= j < |ms| ensures c.Memory()[j] == ms[i := m][j] {
      assert j != i ==> Stored(slots[j]) == ms[j];
    }
    assert Capacities(slots) == Capacities(was);
  }

  lemma Rebase(live: multiset<object>, live0: multiset<object>, base: multiset<object>, x: multiset<object>,
               y: multiset<object>)
    requires live0 == base + x && live + x == live0 + y
    ensures live == base + y
  {
    assert live0 + y == (base + y) + x;
    Cancel(live, base + y, x);
  }

  /** Replacing the extra buffer. */
  lemma RebaseExtra(live: multiset<object>, live0: multiset<object>, base: multiset<object>, c: multiset<object>,
                    x: multiset<object>, y: multiset<object>, i: multiset<object>, ms: multiset<object>)
    requires live0 == base + (c + x + i + ms) && live + x == live0 + y
    ensures live == base + (c + y + i + ms)
  {
    assert c + x + i + ms == c + i + ms + x && c + y + i + ms == c + i + ms + y;
    assert live0 == (base + (c + i + ms)) + x;
    Rebase(live, live0, base + (c + i + ms), x, y);
  }

  /** The configuration holds `extra` and the settings `ifaces` in slots for `caps` settings, and the heap is `base`
      plus its blocks. */
  ghost predicate Represents(c: ConfigMemory, h: Heap, base: multiset<object>, caps: seq<nat>, extra: bytes,
                             ifaces: seq<Interface>)
    reads c, h, if c.interfaces == null then {} else {c.interfaces}, c.Arrays()
  {
    && c.Valid() && c.interfaces != null && Capacities(c.interfaces[..]) == caps
    && Data(c.extra) == extra && InterfacesOf(c.Memory()) == ifaces
    && multiset(h.live) == base + c.Blocks()
  }

  lemma ExtraOwned(c: ConfigMemory, live: multiset<object>, base: multiset<object>)
    requires c.Valid() && live == base + c.Blocks()
    ensures c.extra != null ==> c.extra in live
  {
    hide InterfacesBlocks; hide ConfigMemory.Memory;
    assert c.extra != null ==> Block(c.extra)[c.extra] > 0;
  }

  lemma BlocksAre(c: ConfigMemory, extra: Blob?, blocks: multiset<object>)
    requires c.Valid() && c.extra == extra && InterfacesBlocks(c.Memory()) == blocks
    ensures c.Blocks() == multiset{c} + Block(extra) + Block(c.interfaces) + blocks
  {
  }

  /** Appends descriptors to the configuration's extra buffer. */
  method AppendExtra(h: Heap, b: bytes, pos: nat, len: nat, c: ConfigMemory, ghost base: multiset<object>)
    requires len > 0 && pos + len <= |b| && c.Valid() && multiset(h.live) == base + c.Blocks()
    modifies h, c`extra
    ensures Data(c.extra) == old(Data(c.extra)) + b[pos..pos + len]
    ensures c.Valid() && c.Memory() == old(c.Memory()) && multiset(h.live) == base + c.Blocks()
  {
    hide InterfacesBlocks; hide StoredAll;
    ExtraOwned(c, multiset(h.live), base);
    ghost var live, was, blocks := multiset(h.live), c.extra, InterfacesBlocks(c.Memory());
    assert live == base + (multiset{c} + Block(was) + Block(c.interfaces) + blocks);
    hide ConfigMemory.Blocks;
    var status, r := FillExtraDescriptor(h, c.extra, b, pos, len);
    c.extra := r;
    RebaseExtra(multiset(h.live), live, base, multiset{c}, Block(was), Block(r), Block(c.interfaces), blocks);
    BlocksAre(c, r, blocks);
  }

  lemma Unfold(c: ConfigMemory, h: Heap, base: multiset<object>, caps: seq<nat>, extra: bytes, ifaces: seq<Interface>)
    requires Represents(c, h, base, caps, extra, ifaces)
    ensures c.Valid() && c.interfaces != null && Capacities(c.interfaces[..]) == caps && Data(c.extra) == extra
    ensures InterfacesOf(c.Memory()) == ifaces && multiset(h.live) == base + c.Blocks()
  {
    hide Capacities; hide InterfacesOf; hide ConfigMemory.Memory; hide ConfigMemory.Blocks; hide ConfigMemory.Valid;
  }

  /** Looking for the next known descriptor changes nothing. */
  method FindExtraEnd(h: Heap, b: bytes, pos: nat, c: ConfigMemory, ghost base: multiset<object>, ghost caps: seq<nat>,
                      ghost extra: bytes, ghost ifaces: seq<Interface>) returns (len: nat)
    requires pos <= |b| && Represents(c, h, base, caps, extra, ifaces)
    ensures len == S.FindNext(b, pos) - pos
    ensures Represents(c, h, base, caps, extra, ifaces)
  {
    hide InterfacesOf; hide InterfacesBlocks; hide Capacities; hide S.FindNext; hide ConfigMemory.Valid; hide Block;
    len := FindNextDescriptor(b, pos);
  }

  lemma Fold(c: ConfigMemory, h: Heap, base: multiset<object>, caps: seq<nat>, extra: bytes, ifaces: seq<Interface>)
    requires c.Valid() && c.interfaces != null && Capacities(c.interfaces[..]) == caps && Data(c.extra) == extra
    requires InterfacesOf(c.Memory()) == ifaces && multiset(h.live) == base + c.Blocks()
    ensures Represents(c, h, base, caps, extra, ifaces)
  {
    hide Capacities; hide InterfacesOf; hide ConfigMemory.Memory; hide ConfigMemory.Blocks; hide ConfigMemory.Valid;
  }

  /** Moves the unknown descriptors at the cursor into the configuration's extra buffer. */
  method TakeExtra(h: Heap, b: bytes, pos: nat, c: ConfigMemory, ghost base: multiset<object>, ghost caps: seq<nat>,
                   ghost extra: bytes, ghost ifaces: seq<Interface>) returns (p: nat)
    requires pos <= |b| && Represents(c, h, base, caps, extra, ifaces)
    modifies h, c`extra
    ensures p == S.FindNext(b, pos)
    ensures Represents(c, h, base, caps, extra + b[pos..p], ifaces)
  {
    hide InterfacesOf; hide Capacities; hide S.FindNext; hide Represents;
    hide ConfigMemory.Memory; hide ConfigMemory.Blocks; hide ConfigMemory.Valid;
    var len := FindExtraEnd(h, b, pos, c, base, caps, extra, ifaces);
    p := pos + len;
    assert extra + b[pos..pos] == extra;
    if len != 0 {
      Unfold(c, h, base, caps, extra, ifaces);
      AppendExtra(h, b, pos, len, c, base);
      Fold(c, h, base, caps, extra + b[pos..p], ifaces);
    }
  }

  /** One interface parsed into the configuration, as the outer loop sees it. */
  method TakeInterface(h: Heap, b: bytes, pos: nat, c: ConfigMemory, i: nat, ghost base: multiset<object>,
                       ghost caps: seq<nat>, ghost extra: bytes, ghost ifaces: seq<Interface>)
    returns (overrun: bool, ret: nat, ghost alts: Interface)
    requires i < |caps| == |ifaces| && Represents(c, h, base, caps, extra, ifaces)
    modifies h, c.Arrays()
    ensures c.Arrays() == old(c.Arrays())
    ensures Represents(c, h, base, caps, extra, ifaces[i := alts])
    ensures S.ParseInterface(b, pos, ifaces[i], caps[i]) == if overrun then S.Overrun else S.Parsed(alts, ret)
  {
    hide ConfigMemory.Valid; hide Data;
    hide S.ParseInterface; hide AltsOf; hide AltsBlocks; hide Capacities; hide InterfacesBlocks; hide InterfacesOf;
    hide Block;
    ghost var ms, live := c.Memory(), multiset(h.live);
    var o, r, m := StoreInterface(h, b, pos, c, i);
    overrun, ret, alts := o, r, AltsOf(m.slots);
    InterfacesOfUpdate(ms, i, m);
    ghost var rest := multiset{c} + Block(c.extra) + Block(c.interfaces);
    ExchangeInterface(multiset(h.live), live, rest, ms, i, m);
    Rebase(multiset(h.live), live, base, rest + InterfacesBlocks(ms), rest + InterfacesBlocks(c.Memory()));
  }

  datatype Ending = Ended(ret: int) | Overran | Looping

  /** One iteration; `end` is None when the loop goes on at `next`. */
  method Iterate(h: Heap, b: bytes, pos: nat, c: ConfigMemory, nums: bytes, ghost base: multiset<object>,
                 ghost caps: seq<nat>, ghost extra: bytes, ghost ifaces: seq<Interface>)
    returns (end: Option<Ending>, next: nat, ghost extra': bytes, ghost ifaces': seq<Interface>)
    requires |nums| == |caps| == |ifaces| && |b| - pos >= HEADER_SIZE
    requires Represents(c, h, base, caps, extra, ifaces)
    modifies h, c`extra, c.Arrays()
    ensures c.Arrays() == old(c.Arrays()) && |ifaces'| == |ifaces|
    ensures Represents(c, h, base, caps, extra', ifaces')
    ensures end == None ==> next > pos
    ensures S.ParseBody(b, pos, nums, caps, extra, ifaces) ==
            match end
            case None => S.ParseBody(b, next, nums, caps, extra', ifaces')
            case Some(Ended(ret)) => S.Done(ret, extra', ifaces')
            case Some(Overran) => S.Fault
            case Some(Looping) => S.Hang
  {
    hide S.ParseBody; hide S.FindNext; hide S.ParseInterface; hide Represents;
    ParseBodyStep(b, pos, nums, caps, extra, ifaces);
    next, ifaces' := pos, ifaces;
    var p := TakeExtra(h, b, pos, c, base, caps, extra, ifaces);
    extra' := extra + b[pos..p];
    if |b| - p <= HEADER_SIZE {
      end := Some(Ended(|b| - p));
      return;
    }
    var i := S.IndexOf(nums, b[p + 2]);
    if |nums| >= USB_MAXINTERFACES || i == |nums| {
      end := Some(Ended(USB_DDK_INVALID_PARAMETER));
      return;
    }
    var overrun, ret, alts := TakeInterface(h, b, p, c, i, base, caps, extra', ifaces);
    ifaces' := ifaces[i := alts];
    if overrun {
      end := Some(Overran);
    } else if p + ret == pos {
      end := Some(Looping);
    } else {
      end, next := None, p + ret;
    }
  }

  method ParseConfigurationDes(h: Heap, b: bytes, start: nat, c: ConfigMemory, nums: bytes,
                               ghost base: multiset<object>, ghost caps: seq<nat>, ghost extra: bytes,
                               ghost ifaces: seq<Interface>)
    returns (end: Ending, ghost extra': bytes, ghost ifaces': seq<Interface>)
    requires |nums| == |caps| == |ifaces| && Represents(c, h, base, caps, extra, ifaces)
    modifies h, c`extra, c.Arrays()
    ensures Represents(c, h, base, caps, extra', ifaces')
    ensures S.ParseBody(b, start, nums, caps, extra, ifaces) ==
            match end
            case Ended(ret) => S.Done(ret, extra', ifaces')
            case Overran => S.Fault
            case Looping => S.Hang
  {
    hide Represents;
    var pos := start;
    extra', ifaces' := extra, ifaces;
    while |b| - pos >= HEADER_SIZE
      invariant |ifaces'| == |ifaces| && c.Arrays() == old(c.Arrays())
      invariant Represents(c, h, base, caps, extra', ifaces')
      invariant S.ParseBody(b, pos, nums, caps, extra', ifaces') == S.ParseBody(b, start, nums, caps, extra, ifaces)
      decreases |b| - pos
    {
      hide S.ParseBody;
      var done, next, e, f := Iterate(h, b, pos, c, nums, base, caps, extra', ifaces');
      extra', ifaces' := e, f;
      if done.Some? {
        end := done.value;
        return;
      }
      pos := next;
    }
    end := Ended(|b| - pos);
  }
}
