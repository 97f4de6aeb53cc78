/** Releasing a parsed configuration: every block of its tree is deleted, each exactly once. */
module UsbRelease {
  import opened UsbTypes
  import opened UsbMemory

  /** Deletes a block unless the pointer is null. */
  method DeleteIfAny(h: Heap, o: object?, ghost base: multiset<object>)
    requires multiset(h.live) == base + Block(o)
    modifies h
    ensures multiset(h.live) == base
  {
    if o != null {
      var block: object := o;
      assert multiset(h.live)[block] > 0;
      h.Delete(block);
      assert multiset(h.live) == multiset(old(h.live)) - multiset{block};
      assert (base + multiset{block}) - multiset{block} == base;
    }
  }

  method ClearEndpoints(h: Heap, used: seq<EndpointSlot>, ghost base: multiset<object>)
    requires multiset(h.live) == base + EndpointBlocks(used)
    modifies h
    ensures multiset(h.live) == base
  {
    hide EndpointBlocks; hide Block;
    var j := 0;
    assert used[0..] == used;
    while j < |used|
      invariant 0 <= j <= |used| && multiset(h.live) == base + EndpointBlocks(used[j..])
    {
      EndpointsFront(used[j..]);
      assert used[j..][1..] == used[j + 1..];
      assert base + EndpointBlocks(used[j..]) == (base + EndpointBlocks(used[j + 1..])) + Block(used[j].extra);
      DeleteIfAny(h, used[j].extra, base + EndpointBlocks(used[j + 1..]));
      j := j + 1;
    }
    assert used[j..] == [];
    NoEndpoints();
  }

  lemma NoAlts(ss: seq<AltSlot>)
    requires ss == []
    ensures AltsBlocks(ss) == multiset{}
  {
  }

  method ClearAlt(h: Heap, a: AltSlot, ghost base: multiset<object>)
    requires multiset(h.live) == base + AltBlocks(a)
    modifies h
    ensures multiset(h.live) == base
  {
    hide EndpointBlocks; hide Block; hide Used;
    ghost var x, y, z := Block(a.extra), Block(a.endPoint), EndpointBlocks(Used(a));
    assert base + (x + y + z) == (base + y + z) + x;
    DeleteIfAny(h, a.extra, base + y + z);
    assert base + y + z == (base + y) + z;
    ClearEndpoints(h, Used(a), base + y);
    DeleteIfAny(h, a.endPoint, base);
  }

  method ClearInterface(h: Heap, s: InterfaceSlot, ghost base: multiset<object>)
    requires s.numAltsetting <= s.altsetting.Length <= USB_MAXALTSETTING
    requires multiset(h.live) == base + InterfaceBlocks(Stored(s))
    modifies h
    ensures multiset(h.live) == base
  {
    hide AltBlocks; hide AltsBlocks;
    var slots := Stored(s).slots;
    ghost var rest := base + multiset{s.altsetting as object};
    assert base + InterfaceBlocks(Stored(s)) == rest + AltsBlocks(slots);
    var i := 0;
    assert slots[0..] == slots;
    while i < |slots|
      invariant 0 <= i <= |slots| && multiset(h.live) == rest + AltsBlocks(slots[i..])
    {
      AltsFront(slots[i..]);
      assert slots[i..][1..] == slots[i + 1..];
      assert rest + AltsBlocks(slots[i..]) == (rest + AltsBlocks(slots[i + 1..])) + AltBlocks(slots[i]);
      ClearAlt(h, slots[i], rest + AltsBlocks(slots[i + 1..]));
      i := i + 1;
    }
    NoAlts(slots[i..]);
    DeleteIfAny(h, s.altsetting, base);
  }

  method ClearInterfaces(h: Heap, ss: seq<InterfaceSlot>, ghost base: multiset<object>)
    requires forall i | 0 <= i < |ss| :: ss[i].numAltsetting <= ss[i].altsetting.Length <= USB_MAXALTSETTING
    requires multiset(h.live) == base + InterfacesBlocks(StoredAll(ss))
    modifies h
    ensures multiset(h.live) == base
  {
    hide InterfaceBlocks;
    ghost var ms := StoredAll(ss);
    var i := 0;
    assert ms[0..] == ms;
    while i < |ss|
      invariant 0 <= i <= |ss| && multiset(h.live) == base + InterfacesBlocks(ms[i..])
    {
      assert ms[i..][1..] == ms[i + 1..];
      assert base + InterfacesBlocks(ms[i..]) == (base + InterfacesBlocks(ms[i + 1..])) + InterfaceBlocks(ms[i]);
      ClearInterface(h, ss[i], base + InterfacesBlocks(ms[i + 1..]));
      i := i + 1;
    }
  }

  lemma InterfacesHeld(c: ConfigMemory)
    requires c.Valid()
    ensures c.Memory() == if c.interfaces == null then [] else StoredAll(c.interfaces[..])
    ensures c.interfaces == null ==> InterfacesBlocks(c.Memory()) == multiset{}
  {
  }

  lemma BlockOf(o: object)
    ensures Block(o) == multiset{o}
  {
  }

  /** FreeUsbConfigDescriptor: exactly the blocks of the configuration are deleted, each once. */
  method FreeUsbConfigDescriptor(h: Heap, c: ConfigMemory, ghost base: multiset<object>)
    requires c.Valid() && multiset(h.live) == base + c.Blocks()
    modifies h, c
    ensures multiset(h.live) == base
  {
    hide Block; hide InterfacesBlocks; hide ConfigMemory.Memory;
    InterfacesHeld(c);
    ghost var x, y, z, self := Block(c.extra), Block(c.interfaces), InterfacesBlocks(c.Memory()), Block(c);
    assert multiset{c as object} == self by { BlockOf(c); }
    assert base + (self + x + y + z) == (base + self + x + y) + z;
    if c.interfaces != null {
      ClearInterfaces(h, c.interfaces[..], base + self + x + y);
    }
    DeleteIfAny(h, c.interfaces, base + self + x);
    c.interfaces := null;
    DeleteIfAny(h, c.extra, base + self);
    c.extra := null;
    DeleteIfAny(h, c, base);
  }
}
