/** Bytes and byte sequences. */
module Bytes {
  newtype byte = b: int | 0 <= b < 256
  type bytes = seq<byte>

  function Min(a: nat, b: nat): nat { if a < b then a else b }

  /** The bytes `s` lie at `pos`. */
  predicate Holds(b: bytes, pos: nat, s: bytes) {
    pos + |s| <= |b| && b[pos..pos + |s|] == s
  }

  lemma HoldsParts(b: bytes, pos: nat, s: bytes, t: bytes)
    requires Holds(b, pos, s + t)
    ensures Holds(b, pos, s) && Holds(b, pos + |s|, t)
  {
    var w := b[pos..pos + |s + t|];
    assert w[..|s|] == s && w[|s|..] == t;
  }
}
