/** What the first pass counts on any buffer, well-formed or not. */
module UsbCounting {
  import opened Bytes
  import opened UsbSpec

  /** The interface numbers met on the walk from `pos`, descriptor after descriptor, up to the first that is too short
      or leads out of the buffer. An interface descriptor has type 4 and at least nine bytes. */
  function Met(b: bytes, pos: nat): bytes
    requires pos <= |b|
    decreases |b| - pos
  {
    if |b| - pos < 2 || b[pos] < 2 || b[pos] as int > |b| - pos then []
    else (if b[pos + 1] == 4 && b[pos] >= 9 then [b[pos + 2]] else []) + Met(b, pos + b[pos] as nat)
  }

  /** The numbers in order of first appearance. */
  function Firsts(ns: bytes): bytes {
    if ns == [] then []
    else
      var before, n := Firsts(ns[..|ns| - 1]), ns[|ns| - 1];
      if n in before then before else before + [n]
  }

  /** Up to 32 of the numbers, and how often each was met, up to 128 times. */
  predicate Tallied(c: Counts, ns: bytes) {
    && |c.nums| == |c.caps| && c.nums == Firsts(ns)[..Min(|Firsts(ns)|, 32)]
    && forall j | 0 <= j < |c.nums| :: c.caps[j] == Min(multiset(ns)[c.nums[j]], 128)
  }

  lemma {:induction false} FirstsHave(ns: bytes, n: byte)
    ensures n in Firsts(ns) <==> n in ns
    decreases |ns|
  {
    if ns != [] {
      assert ns == ns[..|ns| - 1] + [ns[|ns| - 1]];
      FirstsHave(ns[..|ns| - 1], n);
    }
  }

  lemma {:induction false} FirstsDiffer(ns: bytes)
    ensures forall i, j | 0 <= i < j < |Firsts(ns)| :: Firsts(ns)[i] != Firsts(ns)[j]
    decreases |ns|
  {
    if ns != [] { FirstsDiffer(ns[..|ns| - 1]); }
  }

  lemma FirstsNext(ns: bytes, n: byte)
    ensures Firsts(ns + [n]) == if n in ns then Firsts(ns) else Firsts(ns) + [n]
  {
    FirstsHave(ns, n);
    assert (ns + [n])[..|ns|] == ns;
  }

  lemma TallyOne(c: Counts, ns: bytes, n: byte)
    requires Tallied(c, ns)
    ensures Tallied(CountOne(c, n), ns + [n])
  {
    hide IndexOf; hide Firsts;
    var i := IndexOf(c.nums, n);
    FirstsNext(ns, n);
    FirstsHave(ns, n);
    FirstsDiffer(ns);
    assert multiset(ns + [n]) == multiset(ns) + multiset{n};
    if i == |c.nums| && i < 32 {
      assert c.nums == Firsts(ns) && n !in ns;
    }
  }

  lemma TalliedCounts(c: Counts, ns: bytes)
    requires Tallied(c, ns)
    ensures |c.nums| == |c.caps|
  {
  }

  lemma {:induction false} CountsTally(b: bytes, pos: nat, c: Counts, ns: bytes)
    requires pos <= |b| && Tallied(c, ns)
    ensures Tallied(CountInterfaces(b, pos, c), ns + Met(b, pos))
    decreases |b| - pos
  {
    hide Tallied; hide CountOne;
    if |b| - pos < 2 || b[pos] < 2 || b[pos] as int > |b| - pos {
      assert ns + [] == ns;
    } else {
      var next := pos + b[pos] as nat;
      if b[pos + 1] == 4 && b[pos] >= 9 {
        var n := b[pos + 2];
        TalliedCounts(c, ns);
        TallyOne(c, ns, n);
        CountsTally(b, next, CountOne(c, n), ns + [n]);
        assert ns + ([n] + Met(b, next)) == ns + [n] + Met(b, next);
      } else {
        CountsTally(b, next, c, ns);
        assert [] + Met(b, next) == Met(b, next);
      }
    }
  }

  /** On any buffer, the first pass finds the interface numbers met on the walk over it, by first appearance and up to
      32, and counts each as often as it was met, up to 128 times. It finds none exactly when none is met. */
  lemma FirstPassCounts(b: bytes)
    ensures var c := CountInterfaces(b, 0, Counts([], []));
            Tallied(c, Met(b, 0)) && (c.nums == [] <==> Met(b, 0) == [])
  {
    hide CountInterfaces;
    var ns := Met(b, 0);
    CountsTally(b, 0, Counts([], []), []);
    assert [] + ns == ns;
    if ns != [] {
      FirstsHave(ns, ns[0]);
    }
  }
}
