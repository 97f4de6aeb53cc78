/** The first pass on the encoding of a tree: which interface numbers it finds, and how many settings it counts. */
module UsbFirstPass {
  import opened Bytes
  import opened UsbTypes
  import opened UsbSpec
  import opened UsbGrammar
  import opened UsbLayout

  // --- the walk over the buffer is a walk over the settings ----------------------------------------------------

  function CountAll(c: Counts, alts: seq<AltTree>): (r: Counts)
    requires |c.nums| == |c.caps|
    ensures |r.nums| == |r.caps|
    decreases |alts|
  {
    if alts == [] then c else CountAll(CountOne(c, Number(alts[0])), alts[1..])
  }

  lemma {:induction false} CountSkipsExtra(b: bytes, pos: nat, ds: seq<bytes>, c: Counts)
    requires ExtraIn(b, pos, ds) && AllUnknown(ds) && pos <= |b| && |c.nums| == |c.caps|
    ensures pos + |Flat(ds)| <= |b|
    ensures CountInterfaces(b, pos, c) == CountInterfaces(b, pos + |Flat(ds)|, c)
    decreases |ds|
  {
    if ds != [] {
      var d := ds[0];
      assert Unknown(d);
      assert b[pos] == b[pos..pos + |d|][0] && b[pos + 1] == b[pos..pos + |d|][1];
      CountSkipsExtra(b, pos + |d|, ds[1..], c);
    }
  }

  lemma {:induction false} CountSkipsEndpoints(b: bytes, pos: nat, es: seq<EndpointTree>, c: Counts)
    requires EndpointsIn(b, pos, es) && WellFormedEndpoints(es) && pos <= |b| && |c.nums| == |c.caps|
    ensures pos + EndpointsLength(es) <= |b|
    ensures CountInterfaces(b, pos, c) == CountInterfaces(b, pos + EndpointsLength(es), c)
    decreases |es|
  {
    hide CountOne; hide Flat; hide ExtraIn;
    if es != [] {
      var e := es[0];
      assert WellFormedEndpoint(e);
      CountSkipsExtra(b, pos + e.desc.bLength as nat, e.extra, c);
      CountSkipsEndpoints(b, pos + EndpointLength(e), es[1..], c);
    }
  }

  lemma {:induction false} CountAlts(b: bytes, pos: nat, alts: seq<AltTree>, end: nat, c: Counts)
    requires FramedAlts(alts) && AltsFill(b, pos, alts, end) && StrayAt(b, end) && pos <= |b| && |c.nums| == |c.caps|
    ensures CountInterfaces(b, pos, c) == CountAll(c, alts)
    decreases |alts|
  {
    hide ExtraIn; hide EndpointsIn; hide EndpointsLength; hide Flat; hide CountOne;
    if alts != [] {
      var a := alts[0];
      var p, c' := pos + a.desc.bLength as nat, CountOne(c, Number(a));
      assert FramedAlt(a);
      CountSkipsExtra(b, p, a.extra, c');
      CountSkipsEndpoints(b, p + |Flat(a.extra)|, a.endpoints, c');
      CountAlts(b, pos + AltLength(a), alts[1..], end, c');
    }
  }

  /** How many settings of number `n` have been counted. */
  function CountedFor(c: Counts, n: byte): nat
    requires |c.nums| == |c.caps|
  {
    var i := IndexOf(c.nums, n);
    if i < |c.nums| then c.caps[i] else 0
  }

  // --- what is counted -----------------------------------------------------------------------------------------

  predicate Distinct(s: bytes) {
    forall j, k | 0 <= j < k < |s| :: s[j] != s[k]
  }

  lemma IndexOfAppend(s: bytes, n: byte, m: byte)
    ensures IndexOf(s + [n], m) == if m in s then IndexOf(s, m) else if m == n then |s| else |s| + 1
  {
    hide IndexOf;
    var i, j := IndexOf(s, m), IndexOf(s + [n], m);
    assert i < |s| <==> m in s;
    if i < |s| { assert (s + [n])[i] == m; } else { assert (s + [n])[|s|] == n; }
  }

  lemma CountOneMeaning(c: Counts, n: byte)
    requires |c.nums| == |c.caps| && Distinct(c.nums)
    requires n in c.nums || |c.nums| < 32
    requires forall m: byte :: CountedFor(c, m) <= 128
    ensures var c' := CountOne(c, n);
            && Distinct(c'.nums)
            && c'.nums == (if n in c.nums then c.nums else c.nums + [n])
            && forall m: byte :: CountedFor(c', m) == Min(CountedFor(c, m) + if m == n then 1 else 0, 128)
  {
    var c' := CountOne(c, n);
    assert IndexOf(c.nums, n) < |c.nums| <==> n in c.nums;
    forall m: byte
      ensures CountedFor(c', m) == Min(CountedFor(c, m) + if m == n then 1 else 0, 128)
    {
      assert CountedFor(c, m) <= 128;
      if n in c.nums {
        assert m == n <==> IndexOf(c.nums, m) == IndexOf(c.nums, n);
      } else {
        IndexOfAppend(c.nums, n, m);
      }
    }
  }

  /** A number not seen yet makes the list longer. */
  lemma NumbersGrow(seen: bytes, alts: seq<AltTree>)
    requires alts != []
    ensures Number(alts[0]) !in seen ==> |seen| < |NumbersAfter(seen, alts)|
  {
    var n := Number(alts[0]);
    if n !in seen {
      assert seen + [n] <= NumbersAfter(seen + [n], alts[1..]);
    }
  }

  /** Up to 32 interface numbers are all found, and their settings counted up to 128. */
  lemma {:induction false} CountAllMeaning(c: Counts, alts: seq<AltTree>)
    requires |c.nums| == |c.caps| && Distinct(c.nums)
    requires |NumbersAfter(c.nums, alts)| <= 32
    requires forall n: byte :: CountedFor(c, n) <= 128
    ensures CountAll(c, alts).nums == NumbersAfter(c.nums, alts) && Distinct(NumbersAfter(c.nums, alts))
    ensures forall n: byte ::
              CountedFor(CountAll(c, alts), n) == Min(CountedFor(c, n) + |Settings(alts, n)|, 128)
    ensures forall a | a in alts :: Number(a) in NumbersAfter(c.nums, alts)
    decreases |alts|
  {
    hide CountOne; hide CountedFor;
    if alts != [] {
      var n := Number(alts[0]);
      var c' := CountOne(c, n);
      NumbersGrow(c.nums, alts);
      CountOneMeaning(c, n);
      CountAllMeaning(c', alts[1..]);
      assert c'.nums <= NumbersAfter(c'.nums, alts[1..]);
      assert n in c'.nums;
    }
  }

  /** Of more than 32 numbers, 32 are found. */
  lemma {:induction false} CountMany(c: Counts, alts: seq<AltTree>)
    requires |c.nums| == |c.caps|
    ensures |CountAll(c, alts).nums| >= |c.nums|
    ensures |NumbersAfter(c.nums, alts)| >= 32 ==> |CountAll(c, alts).nums| >= 32
    decreases |alts|
  {
    if alts != [] {
      assert IndexOf(c.nums, Number(alts[0])) < |c.nums| <==> Number(alts[0]) in c.nums;
      CountMany(CountOne(c, Number(alts[0])), alts[1..]);
    }
  }

  // --- the pass over a tree ------------------------------------------------------------------------------------

  lemma CountHeader(b: bytes, c: Counts)
    requires |b| >= CONFIG_SIZE && b[1] == DT_CONFIG && CONFIG_SIZE <= b[0] as int <= |b| && |c.nums| == |c.caps|
    ensures CountInterfaces(b, 0, c) == CountInterfaces(b, b[0] as nat, c)
  {
  }

  lemma CountTree(t: ConfigTree, z: bytes)
    requires Framed(t) && Stray(z)
    ensures CountInterfaces(Encode(t) + z, 0, Counts([], [])) == CountAll(Counts([], []), t.alts)
  {
    hide Encode; hide CountInterfaces; hide AltsFill; hide ExtraIn; hide Flat; hide CountAll;
    var b, p, c0 := Encode(t) + z, t.desc.bLength as nat, Counts([], []);
    EncodedParts(t, z);
    CountHeader(b, c0);
    CountSkipsExtra(b, p, t.extra, c0);
    CountAlts(b, p + |Flat(t.extra)|, t.alts, |Encode(t)|, c0);
  }

  /** The interface numbers in order of first appearance, with the slots allocated for each. */
  predicate Counted(c: Counts, alts: seq<AltTree>) {
    && |c.nums| == |c.caps| && c.nums == Numbers(alts) && Distinct(c.nums)
    && (forall j | 0 <= j < |c.nums| :: c.caps[j] == Min(|Settings(alts, c.nums[j])|, 128))
    && (forall a | a in alts :: Number(a) in c.nums)
  }

  /** Whatever stray bytes follow the tree, the first pass finds each interface number by first appearance and counts
      its settings, up to 128; of more than 32 numbers it finds 32. */
  lemma FirstPass(t: ConfigTree, z: bytes)
    requires Framed(t) && Stray(z)
    ensures var c := CountInterfaces(Encode(t) + z, 0, Counts([], []));
            && (|Numbers(t.alts)| <= 32 ==> Counted(c, t.alts))
            && (|Numbers(t.alts)| >= 32 ==> |c.nums| >= 32)
  {
    hide Encode; hide CountInterfaces; hide CountAll; hide Settings;
    var c0 := Counts([], []);
    var c := CountAll(c0, t.alts);
    CountTree(t, z);
    if |Numbers(t.alts)| <= 32 {
      CountAllMeaning(c0, t.alts);
      forall j | 0 <= j < |c.nums| ensures c.caps[j] == Min(|Settings(t.alts, c.nums[j])|, 128) {
        assert IndexOf(c.nums, c.nums[j]) == j;
        assert CountedFor(c, c.nums[j]) ==
               Min(CountedFor(c0, c.nums[j]) + |Settings(t.alts, c.nums[j])|, 128);
      }
    }
    CountMany(c0, t.alts);
  }
}
