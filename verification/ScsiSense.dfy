/** Decoding of SCSI sense data in its two formats (sections 4.5.2 and 4.5.3 of SPC-4). */
module ScsiSense {
  import opened Options
  import opened Bytes
  import opened ScsiErrors

  const MIN_DESCRIPTOR_FORMAT_SENSE: byte := 8
  const MIN_FIXED_FORMAT_SENSE: byte := 18

  datatype Sense = Sense(responseCode: byte, valid: bool, information: nat, commandSpecific: nat, sksv: bool,
                         senseKeySpecific: nat)

  datatype Decoded = Decoded(ret: int, sense: Sense)

  // --- numbers -------------------------------------------------------------------------------------------------

  /** The number that bytes spell, most significant first. */
  function BigEndian(b: bytes): nat {
    if b == [] then 0 else BigEndian(b[..|b| - 1]) * 256 + b[|b| - 1] as nat
  }

  function GetUint24(b: bytes, start: nat): (n: nat)
    requires start + 3 <= |b|
    ensures n < 0x100_0000
  {
    b[start] as nat * 0x1_0000 + b[start + 1] as nat * 0x100 + b[start + 2] as nat
  }

  function GetUint32(b: bytes, start: nat): (n: nat)
    requires start + 4 <= |b|
    ensures n < 0x1_0000_0000
  {
    b[start] as nat * 0x100_0000 + b[start + 1] as nat * 0x1_0000 + b[start + 2] as nat * 0x100 + b[start + 3] as nat
  }

  function GetUint64(b: bytes, start: nat): (n: nat)
    requires start + 8 <= |b|
  {
    GetUint32(b, start) * 0x1_0000_0000 + GetUint32(b, start + 4)
  }

  lemma BigEndianOne(b: bytes, x: byte)
    ensures BigEndian(b + [x]) == BigEndian(b) * 256 + x as nat
  {
    assert (b + [x])[..|b|] == b;
  }

  lemma Uint24IsBigEndian(b: bytes, start: nat)
    requires start + 3 <= |b|
    ensures GetUint24(b, start) == BigEndian(b[start..start + 3])
  {
    var x, y := b[start..start + 1], b[start..start + 2];
    assert b[start..start + 3] == y + [b[start + 2]] && y == x + [b[start + 1]] && x == [] + [b[start]];
    BigEndianOne(y, b[start + 2]);
    BigEndianOne(x, b[start + 1]);
    BigEndianOne([], b[start]);
  }

  lemma Uint32IsBigEndian(b: bytes, start: nat)
    requires start + 4 <= |b|
    ensures GetUint32(b, start) == BigEndian(b[start..start + 4])
  {
    Uint24IsBigEndian(b, start);
    assert b[start..start + 4] == b[start..start + 3] + [b[start + 3]];
    BigEndianOne(b[start..start + 3], b[start + 3]);
  }

  // --- what the decoders compute -------------------------------------------------------------------------------

  predicate TopBit(x: byte) { x >= 128 }

  const MASK_SENSE_KEY_SPECIFIC: nat := 0x80_0000

  function FixedFormat(s: Sense, b: bytes, len: byte): Decoded
    requires len as int <= |b|
  {
    if len < MIN_FIXED_FORMAT_SENSE then Decoded(SCSIPERIPHERAL_DDK_INVALID_PARAMETER, s)
    else
      Decoded(SCSIPERIPHERAL_DDK_SUCCESS,
              Sense(s.responseCode, TopBit(b[0]), if TopBit(b[0]) then GetUint32(b, 3) else s.information,
                    GetUint32(b, 8), TopBit(b[15]), GetUint24(b, 15) % MASK_SENSE_KEY_SPECIFIC))
  }

  /** A descriptor starts at `p` and ends by `end`. */
  predicate Complete(b: bytes, p: nat, end: nat) {
    p + 2 <= end <= |b| && p + 2 + b[p + 1] as nat <= end
  }

  /** The positions of the complete descriptors from `i` on. */
  function Descriptors(b: bytes, i: nat, end: nat): (ps: seq<nat>)
    requires end <= |b|
    ensures forall j | 0 <= j < |ps| :: i <= ps[j] && Complete(b, ps[j], end)
    decreases end - i
  {
    if !Complete(b, i, end) then []
    else [i] + Descriptors(b, i + 2 + b[i + 1] as nat, end)
  }

  predicate IsA(b: bytes, p: nat, kind: byte, len: byte)
    requires p + 2 <= |b|
  {
    b[p] == kind && b[p + 1] == len
  }

  /** What one descriptor says. */
  function Apply(s: Sense, b: bytes, p: nat): Sense
    requires Complete(b, p, |b|)
  {
    if IsA(b, p, 0, 10) then s.(valid := TopBit(b[p + 2]), information := GetUint64(b, p + 4))
    else if IsA(b, p, 1, 10) then s.(commandSpecific := GetUint64(b, p + 4))
    else if IsA(b, p, 2, 6) then
      s.(sksv := TopBit(b[p + 4]), senseKeySpecific := GetUint24(b, p + 4) % MASK_SENSE_KEY_SPECIFIC)
    else s
  }

  predicate In(b: bytes, ps: seq<nat>) {
    forall j | 0 <= j < |ps| :: Complete(b, ps[j], |b|)
  }

  function ApplyAll(s: Sense, b: bytes, ps: seq<nat>): Sense
    requires In(b, ps)
    decreases |ps|
  {
    if ps == [] then s else ApplyAll(Apply(s, b, ps[0]), b, ps[1..])
  }

  function Limit(b: bytes, len: byte): nat
    requires 8 <= len as int <= |b|
  {
    if len as nat > b[7] as nat + 8 then b[7] as nat + 8 else len as nat
  }

  function DescriptorFormat(s: Sense, b: bytes, len: byte): Decoded
    requires len as int <= |b|
  {
    if len < MIN_DESCRIPTOR_FORMAT_SENSE then Decoded(SCSIPERIPHERAL_DDK_INVALID_PARAMETER, s)
    else Decoded(SCSIPERIPHERAL_DDK_SUCCESS, ApplyAll(s, b, Descriptors(b, 8, Limit(b, len))))
  }

  function BasicSense(s: Sense, b: bytes, len: byte): Decoded
    requires len as int <= |b| && b != []
  {
    var s' := s.(responseCode := b[0] % 128);
    if s'.responseCode == 0x70 || s'.responseCode == 0x71 then FixedFormat(s', b, len)
    else if s'.responseCode == 0x72 || s'.responseCode == 0x73 then DescriptorFormat(s', b, len)
    else Decoded(SCSIPERIPHERAL_DDK_INVALID_PARAMETER, s')
  }

  // --- the read past the end -----------------------------------------------------------------------------------

  /** Where the walk over the complete descriptors from `i` on stops. */
  function WalkEnd(b: bytes, i: nat, end: nat): (e: nat)
    requires end <= |b|
    ensures i <= e && !Complete(b, e, end) && (i <= end ==> e <= end)
    decreases end - i
  {
    if !Complete(b, i, end) then i else WalkEnd(b, i + 2 + b[i + 1] as nat, end)
  }

  /** The walk stops one byte before the end of the buffer: the length of the descriptor that starts there would be the
      byte behind the buffer. */
  predicate OverReads(b: bytes, len: byte)
    requires len as int <= |b|
  {
    && len >= MIN_DESCRIPTOR_FORMAT_SENSE
    && Limit(b, len) == |b| && WalkEnd(b, 8, |b|) + 1 == |b|
  }

  /** Nine bytes: the header announces one more byte, the type of a descriptor without a length. */
  lemma OverReadExample()
    ensures OverReads([0x72, 0, 0, 0, 0, 0, 0, 1, 0], 9)
  {
  }

  /** What lies at `i`; behind the buffer that may be anything. */
  function ByteAt(b: bytes, i: nat, behind: byte): byte {
    if i < |b| then b[i] else behind
  }

  // --- the last descriptor of a kind wins ----------------------------------------------------------------------

  /** The last of the positions that holds a descriptor of this kind and length. */
  function LastOf(b: bytes, ps: seq<nat>, kind: byte, len: byte): (r: Option<nat>)
    requires In(b, ps)
    ensures r.Some? ==> Complete(b, r.value, |b|) && IsA(b, r.value, kind, len)
    ensures r.Some? <==> exists j | 0 <= j < |ps| :: IsA(b, ps[j], kind, len)
    ensures r.Some? ==>
              exists j | 0 <= j < |ps| :: ps[j] == r.value && forall i | j < i < |ps| :: !IsA(b, ps[i], kind, len)
    decreases |ps|
  {
    if ps == [] then None
    else if IsA(b, ps[|ps| - 1], kind, len) then Some(ps[|ps| - 1])
    else LastOf(b, ps[..|ps| - 1], kind, len)
  }

  lemma {:induction false} ApplyAllEnd(s: Sense, b: bytes, ps: seq<nat>, p: nat)
    requires In(b, ps) && Complete(b, p, |b|)
    ensures In(b, ps + [p]) && ApplyAll(s, b, ps + [p]) == Apply(ApplyAll(s, b, ps), b, p)
    decreases |ps|
  {
    hide Apply;
    assert (ps + [p])[|ps|] == p;
    assert forall j | 0 <= j < |ps| :: (ps + [p])[j] == ps[j];
    if ps != [] {
      assert (ps + [p])[1..] == ps[1..] + [p];
      ApplyAllEnd(Apply(s, b, ps[0]), b, ps[1..], p);
    }
  }

  /** Each field from the last descriptor of its kind with the right length, or as it was when there is none. */
  function FromLast(s: Sense, b: bytes, i: Option<nat>, c: Option<nat>, k: Option<nat>): Sense
    requires i.Some? ==> i.value + 12 <= |b|
    requires c.Some? ==> c.value + 12 <= |b|
    requires k.Some? ==> k.value + 8 <= |b|
  {
    Sense(s.responseCode,
          if i == None then s.valid else TopBit(b[i.value + 2]),
          if i == None then s.information else GetUint64(b, i.value + 4),
          if c == None then s.commandSpecific else GetUint64(b, c.value + 4),
          if k == None then s.sksv else TopBit(b[k.value + 4]),
          if k == None then s.senseKeySpecific else GetUint24(b, k.value + 4) % MASK_SENSE_KEY_SPECIFIC)
  }

  lemma LastOfEnd(b: bytes, ps: seq<nat>, p: nat, kind: byte, len: byte)
    requires In(b, ps) && In(b, ps + [p]) && Complete(b, p, |b|)
    ensures LastOf(b, ps + [p], kind, len) == if IsA(b, p, kind, len) then Some(p) else LastOf(b, ps, kind, len)
  {
    assert (ps + [p])[..|ps|] == ps;
  }

  lemma NoLast(s: Sense, b: bytes)
    ensures FromLast(s, b, LastOf(b, [], 0, 10), LastOf(b, [], 1, 10), LastOf(b, [], 2, 6)) == s
  {
  }

  lemma ApplyFromLast(s: Sense, b: bytes, p: nat, i: Option<nat>, c: Option<nat>, k: Option<nat>)
    requires Complete(b, p, |b|)
    requires i.Some? ==> i.value + 12 <= |b|
    requires c.Some? ==> c.value + 12 <= |b|
    requires k.Some? ==> k.value + 8 <= |b|
    ensures Apply(FromLast(s, b, i, c, k), b, p) ==
            FromLast(s, b, if IsA(b, p, 0, 10) then Some(p) else i, if IsA(b, p, 1, 10) then Some(p) else c,
                     if IsA(b, p, 2, 6) then Some(p) else k)
  {
    hide GetUint64; hide GetUint24; hide TopBit;
  }

  /** The last complete descriptor of a kind with the right length wins, whatever lies between. */
  lemma {:induction false} LastWins(s: Sense, b: bytes, ps: seq<nat>)
    requires In(b, ps)
    ensures ApplyAll(s, b, ps) == FromLast(s, b, LastOf(b, ps, 0, 10), LastOf(b, ps, 1, 10), LastOf(b, ps, 2, 6))
    decreases |ps|
  {
    hide LastOf; hide Apply; hide FromLast;
    if ps == [] {
      NoLast(s, b);
    } else {
      var n := |ps| - 1;
      var p := ps[n];
      assert ps == ps[..n] + [p];
      LastWins(s, b, ps[..n]);
      ApplyAllEnd(s, b, ps[..n], p);
      LastOfEnd(b, ps[..n], p, 0, 10);
      LastOfEnd(b, ps[..n], p, 1, 10);
      LastOfEnd(b, ps[..n], p, 2, 6);
      ApplyFromLast(s, b, p, LastOf(b, ps[..n], 0, 10), LastOf(b, ps[..n], 1, 10), LastOf(b, ps[..n], 2, 6));
    }
  }

  lemma ResponseUnchanged(s: Sense, b: bytes, ps: seq<nat>)
    requires In(b, ps)
    ensures ApplyAll(s, b, ps).responseCode == s.responseCode
  {
    hide LastOf;
    LastWins(s, b, ps);
  }

  /** Which sense data is decoded at all: 18 bytes of fixed format, or 8 of descriptor format. Otherwise the caller's
      record is left alone but for the response code, which is always taken over. */
  lemma DecodedExactly(s: Sense, b: bytes, len: byte)
    requires len as int <= |b| && b != []
    ensures var r, code := BasicSense(s, b, len), b[0] % 128;
            && r.sense.responseCode == code
            && (r.ret == 31700000 <==>
                  ((code == 0x70 || code == 0x71) && len >= 18) || ((code == 0x72 || code == 0x73) && len >= 8))
            && (r.ret != 31700000 ==> r == Decoded(401, s.(responseCode := code)))
  {
    hide ApplyAll; hide Descriptors;
    var s' := s.(responseCode := b[0] % 128);
    if len >= 8 {
      ResponseUnchanged(s', b, Descriptors(b, 8, Limit(b, len)));
    }
  }

  // --- the decoders as they run --------------------------------------------------------------------------------

  lemma DescriptorsStep(s: Sense, b: bytes, i: nat, end: nat)
    requires Complete(b, i, end)
    ensures ApplyAll(s, b, Descriptors(b, i, end)) ==
            ApplyAll(Apply(s, b, i), b, Descriptors(b, i + 2 + b[i + 1] as nat, end))
  {
    hide Apply;
    var rest := Descriptors(b, i + 2 + b[i + 1] as nat, end);
    assert Descriptors(b, i, end) == [i] + rest && ([i] + rest)[1..] == rest;
  }

  class BasicSenseInfo {
    var responseCode: byte
    var valid: bool
    var information: nat
    var commandSpecific: nat
    var sksv: bool
    var senseKeySpecific: nat

    ghost function View(): Sense
      reads this
    {
      Sense(responseCode, valid, information, commandSpecific, sksv, senseKeySpecific)
    }

    method ParseFixedFormatSense(b: bytes, len: byte) returns (ret: int)
      requires len as int <= |b|
      modifies this
      ensures Decoded(ret, View()) == FixedFormat(old(View()), b, len)
    {
      if len < MIN_FIXED_FORMAT_SENSE {
        return SCSIPERIPHERAL_DDK_INVALID_PARAMETER;
      }
      valid := TopBit(b[0]);
      if valid {
        information := GetUint32(b, 3);
      }
      commandSpecific := GetUint32(b, 8);
      sksv := TopBit(b[15]);
      senseKeySpecific := GetUint24(b, 15) % MASK_SENSE_KEY_SPECIFIC;
      return SCSIPERIPHERAL_DDK_SUCCESS;
    }

    /** One complete descriptor. */
    method TakeDescriptor(b: bytes, idx: byte, descType: byte, descLen: byte)
      requires idx as int + descLen as int + 2 <= |b| && descType == b[idx] && descLen == b[idx as int + 1]
      modifies this
      ensures View() == Apply(old(View()), b, idx as nat)
    {
      var i := idx as nat;
      match descType
      case 0 =>
        if descLen == 10 {
          valid := TopBit(b[i + 2]);
          information := GetUint64(b, i + 4);
        }
      case 1 =>
        if descLen == 10 {
          commandSpecific := GetUint64(b, i + 4);
        }
      case 2 =>
        if descLen == 6 {
          sksv := TopBit(b[i + 4]);
          senseKeySpecific := GetUint24(b, i + 4) % MASK_SENSE_KEY_SPECIFIC;
        }
      case _ =>
    }

    /** The index and both lengths are single bytes: their sums are shown to stay within one. `overRead` says that the
        byte behind the buffer was read. Whatever it is, the descriptor it would belong to does not fit, so it never
        shows in the result. */
    method ParseDescriptorFormatSense(b: bytes, senseDataLen: byte, behind: byte) returns (ret: int, overRead: bool)
      requires senseDataLen as int <= |b|
      modifies this
      ensures Decoded(ret, View()) == DescriptorFormat(old(View()), b, senseDataLen)
      ensures overRead <==> OverReads(b, senseDataLen)
    {
      hide Apply; hide IsA;
      overRead := false;
      if senseDataLen < MIN_DESCRIPTOR_FORMAT_SENSE {
        return SCSIPERIPHERAL_DDK_INVALID_PARAMETER, overRead;
      }
      var len := senseDataLen;
      if senseDataLen as int > b[7] as int + 8 {
        len := b[7] + 8;
      }
      var idx: byte := 8;
      ghost var end := Limit(b, senseDataLen);
      while idx < len
        invariant 8 <= idx <= len && len as nat == end && !overRead
        invariant WalkEnd(b, idx as nat, end) == WalkEnd(b, 8, end)
        invariant ApplyAll(View(), b, Descriptors(b, idx as nat, end)) ==
                  ApplyAll(old(View()), b, Descriptors(b, 8, end))
        decreases len - idx
      {
        var descType := b[idx];
        overRead := idx as int + 1 == |b|;
        var descLen := ByteAt(b, idx as nat + 1, behind);
        if idx as int + descLen as int + 2 > len as int {
          break;
        }
        DescriptorsStep(View(), b, idx as nat, end);
        TakeDescriptor(b, idx, descType, descLen);
        idx := idx + descLen + 2;
      }
      return SCSIPERIPHERAL_DDK_SUCCESS, overRead;
    }

    /** An empty buffer is read past its end too: its first byte holds the response code. */
    method ParseBasicSenseInfo(b: bytes, senseDataLen: byte, behind: byte) returns (ret: int, overRead: bool)
      requires senseDataLen as int <= |b|
      modifies this
      ensures b != [] ==> Decoded(ret, View()) == BasicSense(old(View()), b, senseDataLen)
      ensures b == [] ==> ret == SCSIPERIPHERAL_DDK_INVALID_PARAMETER &&
                          View() == old(View()).(responseCode := behind % 128)
      ensures overRead <==> b == [] || (b[0] % 128 in {0x72, 0x73} && OverReads(b, senseDataLen))
    {
      hide OverReads;
      responseCode := ByteAt(b, 0, behind) % 128;
      overRead := b == [];
      if responseCode == 0x70 || responseCode == 0x71 {
        ret := ParseFixedFormatSense(b, senseDataLen);
      } else if responseCode == 0x72 || responseCode == 0x73 {
        var past;
        ret, past := ParseDescriptorFormatSense(b, senseDataLen, behind);
        overRead := overRead || past;
      } else {
        ret := SCSIPERIPHERAL_DDK_INVALID_PARAMETER;
      }
    }
  }
}
