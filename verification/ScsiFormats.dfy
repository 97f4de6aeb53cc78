/** Sense data as a device writes it, in both formats, and what decoding it gives. */
module ScsiFormats {
  import opened Bytes
  import opened ScsiSense

  // --- encoding ------------------------------------------------------------------------------------------------

  function Be24(n: nat): (r: bytes)
    ensures |r| == 3
  {
    [(n / 0x1_0000 % 256) as byte, (n / 0x100 % 256) as byte, (n % 256) as byte]
  }

  function Be32(n: nat): (r: bytes)
    ensures |r| == 4
  {
    [(n / 0x100_0000 % 256) as byte] + Be24(n % 0x100_0000)
  }

  function Be64(n: nat): (r: bytes)
    ensures |r| == 8
  {
    Be32(n / 0x1_0000_0000) + Be32(n % 0x1_0000_0000)
  }

  /** The sense-key specific field with its valid bit on top. */
  function KeyField(sksv: bool, value: nat): (r: bytes)
    ensures |r| == 3
  {
    Be24(if sksv then 0x80_0000 + value else value)
  }

  datatype Descriptor =
    | Information(flags: byte, third: byte, value: nat)
    | CommandSpecific(reserved: (byte, byte), value: nat)
    | SenseKeySpecific(reserved: (byte, byte), sksv: bool, value: nat, pad: byte)
    | Other(kind: byte, data: bytes)

  function EncodeDescriptor(d: Descriptor): (r: bytes) {
    match d
    case Information(flags, third, value) => [0, 10] + ([flags, third] + Be64(value))
    case CommandSpecific(reserved, value) => [1, 10] + ([reserved.0, reserved.1] + Be64(value))
    case SenseKeySpecific(reserved, sksv, value, pad) =>
      [2, 6] + ([reserved.0, reserved.1] + (KeyField(sksv, value) + [pad]))
    case Other(kind, data) => [kind, (|data| % 256) as byte] + data
  }

  /** Values fit their fields; any other descriptor is one the decoder does not know, by kind or by length. */
  predicate WellFormed(d: Descriptor) {
    match d
    case Information(_, _, value) => value < 0x1_0000_0000_0000_0000
    case CommandSpecific(_, value) => value < 0x1_0000_0000_0000_0000
    case SenseKeySpecific(_, _, value, _) => value < 0x80_0000
    case Other(kind, data) =>
      |data| < 256 && !(kind == 0 && |data| == 10) && !(kind == 1 && |data| == 10) && !(kind == 2 && |data| == 6)
  }

  function EncodeAll(ds: seq<Descriptor>): bytes {
    if ds == [] then [] else EncodeDescriptor(ds[0]) + EncodeAll(ds[1..])
  }

  /** Descriptor format: response code, six header bytes, additional length, descriptors. */
  function DescriptorSense(response: byte, head: bytes, ds: seq<Descriptor>): bytes {
    [response] + head + [(|EncodeAll(ds)| % 256) as byte] + EncodeAll(ds)
  }

  /** Fixed format: `pad0` is bytes 1 and 2, `pad1` byte 7, `pad2` bytes 12 to 14. */
  function FixedSense(response: byte, valid: bool, pad0: bytes, information: nat, pad1: byte, command: nat,
                      pad2: bytes, sksv: bool, key: nat): bytes
    requires response < 128
  {
    [if valid then response + 128 else response] + pad0 + Be32(information) + [pad1] + Be32(command) + pad2
    + KeyField(sksv, key)
  }

  // --- what a list of descriptors says -------------------------------------------------------------------------

  function Says(s: Sense, d: Descriptor): Sense {
    match d
    case Information(flags, _, value) => s.(valid := TopBit(flags), information := value)
    case CommandSpecific(_, value) => s.(commandSpecific := value)
    case SenseKeySpecific(_, sksv, value, _) => s.(sksv := sksv, senseKeySpecific := value)
    case Other(_, _) => s
  }

  function AllSay(s: Sense, ds: seq<Descriptor>): Sense
    decreases |ds|
  {
    if ds == [] then s else AllSay(Says(s, ds[0]), ds[1..])
  }

  // --- numbers come back ---------------------------------------------------------------------------------------

  lemma Uint24At(b: bytes, p: nat, n: nat)
    requires n < 0x100_0000 && Holds(b, p, Be24(n))
    ensures GetUint24(b, p) == n
  {
    var w := b[p..p + 3];
    assert b[p] == w[0] && b[p + 1] == w[1] && b[p + 2] == w[2];
  }

  lemma Uint32At(b: bytes, p: nat, n: nat)
    requires n < 0x1_0000_0000 && Holds(b, p, Be32(n))
    ensures GetUint32(b, p) == n
  {
    hide Be24;
    HoldsParts(b, p, [(n / 0x100_0000 % 256) as byte], Be24(n % 0x100_0000));
    assert b[p..p + 1][0] == b[p];
    Uint24At(b, p + 1, n % 0x100_0000);
  }

  lemma Uint64At(b: bytes, p: nat, n: nat)
    requires n < 0x1_0000_0000_0000_0000 && Holds(b, p, Be64(n))
    ensures GetUint64(b, p) == n
  {
    hide Be32; hide GetUint32;
    HoldsParts(b, p, Be32(n / 0x1_0000_0000), Be32(n % 0x1_0000_0000));
    Uint32At(b, p, n / 0x1_0000_0000);
    Uint32At(b, p + 4, n % 0x1_0000_0000);
  }

  lemma KeyAt(b: bytes, p: nat, sksv: bool, value: nat)
    requires value < 0x80_0000 && Holds(b, p, KeyField(sksv, value))
    ensures TopBit(b[p]) == sksv && GetUint24(b, p) % 0x80_0000 == value
  {
    var n := if sksv then 0x80_0000 + value else value;
    Uint24At(b, p, n);
    assert b[p] == b[p..p + 3][0] == (n / 0x1_0000 % 256) as byte;
  }

  // --- descriptors come back -----------------------------------------------------------------------------------

  lemma PairAt(b: bytes, p: nat, x: byte, y: byte, rest: bytes)
    requires Holds(b, p, [x, y] + rest)
    ensures p + 2 + |rest| <= |b| && b[p] == x && b[p + 1] == y && Holds(b, p + 2, rest)
  {
    HoldsParts(b, p, [x, y], rest);
    assert b[p] == b[p..p + 2][0] && b[p + 1] == b[p..p + 2][1];
  }

  lemma DescriptorAt(s: Sense, b: bytes, p: nat, d: Descriptor)
    requires WellFormed(d) && Holds(b, p, EncodeDescriptor(d))
    ensures Complete(b, p, p + |EncodeDescriptor(d)|) && Complete(b, p, |b|)
    ensures b[p + 1] as int + 2 == |EncodeDescriptor(d)|
    ensures Apply(s, b, p) == Says(s, d)
  {
    hide GetUint64; hide GetUint24; hide Be64; hide KeyField; hide TopBit; hide Holds;
    match d
    case Information(flags, third, value) =>
      PairAt(b, p, 0, 10, [flags, third] + Be64(value));
      PairAt(b, p + 2, flags, third, Be64(value));
      Uint64At(b, p + 4, value);
    case CommandSpecific(reserved, value) =>
      PairAt(b, p, 1, 10, [reserved.0, reserved.1] + Be64(value));
      PairAt(b, p + 2, reserved.0, reserved.1, Be64(value));
      Uint64At(b, p + 4, value);
    case SenseKeySpecific(reserved, sksv, value, pad) =>
      PairAt(b, p, 2, 6, [reserved.0, reserved.1] + (KeyField(sksv, value) + [pad]));
      PairAt(b, p + 2, reserved.0, reserved.1, KeyField(sksv, value) + [pad]);
      HoldsParts(b, p + 4, KeyField(sksv, value), [pad]);
      KeyAt(b, p + 4, sksv, value);
    case Other(kind, data) =>
      PairAt(b, p, kind, (|data| % 256) as byte, data);
  }

  lemma NothingLeft(s: Sense, b: bytes, p: nat, end: nat)
    requires end <= |b| && !Complete(b, p, end)
    ensures ApplyAll(s, b, Descriptors(b, p, end)) == s
  {
  }

  /** The walk over encoded descriptors meets exactly these descriptors, in order, and then goes on. */
  lemma {:induction false} WalkEncoded(s: Sense, b: bytes, p: nat, end: nat, ds: seq<Descriptor>)
    requires (forall d | d in ds :: WellFormed(d)) && Holds(b, p, EncodeAll(ds)) && p + |EncodeAll(ds)| <= end <= |b|
    ensures ApplyAll(s, b, Descriptors(b, p, end)) ==
            ApplyAll(AllSay(s, ds), b, Descriptors(b, p + |EncodeAll(ds)|, end))
    decreases |ds|
  {
    hide Apply; hide ApplyAll; hide Descriptors; hide Says; hide EncodeDescriptor; hide WellFormed; hide Holds;
    if ds != [] {
      var d := ds[0];
      HoldsParts(b, p, EncodeDescriptor(d), EncodeAll(ds[1..]));
      DescriptorAt(s, b, p, d);
      DescriptorsStep(s, b, p, end);
      WalkEncoded(Says(s, d), b, p + |EncodeDescriptor(d)|, end, ds[1..]);
    }
  }

  /** The walk over encoded descriptors goes on where they end. */
  lemma {:induction false} WalkPast(b: bytes, p: nat, end: nat, ds: seq<Descriptor>)
    requires (forall d | d in ds :: WellFormed(d)) && Holds(b, p, EncodeAll(ds)) && p + |EncodeAll(ds)| <= end <= |b|
    ensures WalkEnd(b, p, end) == WalkEnd(b, p + |EncodeAll(ds)|, end)
    decreases |ds|
  {
    hide EncodeDescriptor; hide WellFormed; hide Holds;
    if ds != [] {
      var d := ds[0];
      HoldsParts(b, p, EncodeDescriptor(d), EncodeAll(ds[1..]));
      DescriptorAt(Sense(0, false, 0, 0, false, 0), b, p, d);
      WalkPast(b, p + |EncodeDescriptor(d)|, end, ds[1..]);
    }
  }

  lemma WalkStops(b: bytes, end: nat)
    requires end <= |b|
    ensures WalkEnd(b, end, end) == end
  {
  }

  /** A descriptor list cut off after the type of one more makes the decoder read the byte behind the buffer. */
  lemma CutOffOverReads(response: byte, head: bytes, ds: seq<Descriptor>, kind: byte)
    requires |head| == 6 && (forall d | d in ds :: WellFormed(d)) && |EncodeAll(ds)| <= 246
    ensures var b := [response] + head + [(|EncodeAll(ds)| + 1) as byte] + EncodeAll(ds) + [kind];
            |b| <= 255 && OverReads(b, |b| as byte)
  {
    hide WellFormed; hide EncodeAll;
    var e := EncodeAll(ds);
    var b := [response] + head + [(|e| + 1) as byte] + e + [kind];
    assert b[7] == (|e| + 1) as byte && b[8..8 + |e|] == e;
    WalkPast(b, 8, |b|, ds);
    assert !Complete(b, |b| - 1, |b|);
  }

  /** Where the sense data ends: at the length passed, or before, at the one the data itself announces. */
  function SenseEnd(b: bytes, len: byte): nat
    requires |b| >= 8
  {
    Min(len as nat, b[7] as nat + 8)
  }

  /** Descriptor format: decoding gives what the descriptors say that are complete by the end of the data, in any order
      and with any others between. What comes behind, be it the rest of a descriptor that is cut off or further
      descriptors, is ignored. */
  lemma CompleteOnesCount(s: Sense, b: bytes, len: byte, ds: seq<Descriptor>)
    requires 8 <= len as int <= |b| && (b[0] % 128 == 0x72 || b[0] % 128 == 0x73)
    requires (forall d | d in ds :: WellFormed(d)) && Holds(b, 8, EncodeAll(ds))
    requires var p, end := 8 + |EncodeAll(ds)|, SenseEnd(b, len);
             p <= end && (p + 1 < end ==> p + 2 + b[p + 1] as int > end)
    ensures BasicSense(s, b, len) == Decoded(31700000, AllSay(s.(responseCode := b[0] % 128), ds))
  {
    hide WellFormed; hide EncodeAll; hide AllSay; hide ApplyAll; hide Descriptors; hide Holds;
    var s', end := s.(responseCode := b[0] % 128), SenseEnd(b, len);
    WalkEncoded(s', b, 8, end, ds);
    NothingLeft(AllSay(s', ds), b, 8 + |EncodeAll(ds)|, end);
  }

  /** Well-made descriptor-format data comes back, whatever lies behind it and however much of that the length passed
      takes in, and nothing behind it is read. */
  lemma DescriptorRoundTrip(s: Sense, response: byte, head: bytes, ds: seq<Descriptor>, slack: bytes, len: byte)
    requires response % 128 == 0x72 || response % 128 == 0x73
    requires |head| == 6 && (forall d | d in ds :: WellFormed(d)) && |EncodeAll(ds)| <= 247
    requires |DescriptorSense(response, head, ds)| <= len as int <= |DescriptorSense(response, head, ds) + slack|
    ensures var b := DescriptorSense(response, head, ds) + slack;
            && BasicSense(s, b, len) == Decoded(31700000, AllSay(s.(responseCode := response % 128), ds))
            && !OverReads(b, len)
  {
    hide WellFormed; hide EncodeAll; hide AllSay; hide BasicSense; hide WalkEnd;
    var data, e := DescriptorSense(response, head, ds), EncodeAll(ds);
    var b := data + slack;
    assert b[0] == response && b[7] == |e| as byte;
    assert b[8..8 + |e|] == e;
    CompleteOnesCount(s, b, len, ds);
    WalkPast(b, 8, |data|, ds);
    assert WalkEnd(b, |data|, |data|) == |data| by { WalkStops(b, |data|); }
  }

  /** Fixed format: the information is taken over only when its valid bit is set. */
  lemma FixedRoundTrip(s: Sense, response: byte, valid: bool, pad0: bytes, information: nat, pad1: byte, command: nat,
                       pad2: bytes, sksv: bool, key: nat, slack: bytes, len: byte)
    requires (response == 0x70 || response == 0x71) && |pad0| == 2 && |pad2| == 3
    requires information < 0x1_0000_0000 && command < 0x1_0000_0000 && key < 0x80_0000
    requires 18 <= len as int <= 18 + |slack|
    ensures var data := FixedSense(response, valid, pad0, information, pad1, command, pad2, sksv, key);
            |data| == 18 &&
            BasicSense(s, data + slack, len) ==
            Decoded(31700000,
                    Sense(response, valid, if valid then information else s.information, command, sksv, key))
  {
    hide Be32; hide Be24; hide GetUint32; hide GetUint24;
    var b := FixedSense(response, valid, pad0, information, pad1, command, pad2, sksv, key) + slack;
    assert b[0] == if valid then response + 128 else response;
    assert b[3..7] == Be32(information) && b[8..12] == Be32(command) && b[15..18] == KeyField(sksv, key);
    Uint32At(b, 3, information);
    Uint32At(b, 8, command);
    KeyAt(b, 15, sksv, key);
  }

  // --- the formats agree ---------------------------------------------------------------------------------------

  /** The last descriptor of each kind says the same as the fixed format would. */
  predicate Carries(ds: seq<Descriptor>, valid: bool, information: nat, command: nat, sksv: bool, key: nat) {
    && (exists i | 0 <= i < |ds| ::
          ds[i].Information? && TopBit(ds[i].flags) == valid && ds[i].value == information
          && forall j | i < j < |ds| :: !ds[j].Information?)
    && (exists i | 0 <= i < |ds| ::
          ds[i].CommandSpecific? && ds[i].value == command && forall j | i < j < |ds| :: !ds[j].CommandSpecific?)
    && (exists i | 0 <= i < |ds| ::
          ds[i].SenseKeySpecific? && ds[i].sksv == sksv && ds[i].value == key
          && forall j | i < j < |ds| :: !ds[j].SenseKeySpecific?)
  }

  lemma {:induction false} NoMoreInformation(s: Sense, ds: seq<Descriptor>)
    requires forall j | 0 <= j < |ds| :: !ds[j].Information?
    ensures AllSay(s, ds).valid == s.valid && AllSay(s, ds).information == s.information
    decreases |ds|
  {
    if ds != [] { NoMoreInformation(Says(s, ds[0]), ds[1..]); }
  }

  lemma {:induction false} InformationSaid(s: Sense, ds: seq<Descriptor>, i: nat)
    requires i < |ds| && ds[i].Information? && forall j | i < j < |ds| :: !ds[j].Information?
    ensures AllSay(s, ds).valid == TopBit(ds[i].flags) && AllSay(s, ds).information == ds[i].value
    decreases |ds|
  {
    if i > 0 { InformationSaid(Says(s, ds[0]), ds[1..], i - 1); } else { NoMoreInformation(Says(s, ds[0]), ds[1..]); }
  }

  lemma {:induction false} NoMoreCommand(s: Sense, ds: seq<Descriptor>)
    requires forall j | 0 <= j < |ds| :: !ds[j].CommandSpecific?
    ensures AllSay(s, ds).commandSpecific == s.commandSpecific
    decreases |ds|
  {
    if ds != [] { NoMoreCommand(Says(s, ds[0]), ds[1..]); }
  }

  lemma {:induction false} CommandSaid(s: Sense, ds: seq<Descriptor>, i: nat)
    requires i < |ds| && ds[i].CommandSpecific? && forall j | i < j < |ds| :: !ds[j].CommandSpecific?
    ensures AllSay(s, ds).commandSpecific == ds[i].value
    decreases |ds|
  {
    if i > 0 { CommandSaid(Says(s, ds[0]), ds[1..], i - 1); } else { NoMoreCommand(Says(s, ds[0]), ds[1..]); }
  }

  lemma {:induction false} NoMoreKey(s: Sense, ds: seq<Descriptor>)
    requires forall j | 0 <= j < |ds| :: !ds[j].SenseKeySpecific?
    ensures AllSay(s, ds).sksv == s.sksv && AllSay(s, ds).senseKeySpecific == s.senseKeySpecific
    decreases |ds|
  {
    if ds != [] { NoMoreKey(Says(s, ds[0]), ds[1..]); }
  }

  lemma {:induction false} KeySaid(s: Sense, ds: seq<Descriptor>, i: nat)
    requires i < |ds| && ds[i].SenseKeySpecific? && forall j | i < j < |ds| :: !ds[j].SenseKeySpecific?
    ensures AllSay(s, ds).sksv == ds[i].sksv && AllSay(s, ds).senseKeySpecific == ds[i].value
    decreases |ds|
  {
    if i > 0 { KeySaid(Says(s, ds[0]), ds[1..], i - 1); } else { NoMoreKey(Says(s, ds[0]), ds[1..]); }
  }

  lemma {:induction false} ResponseKept(s: Sense, ds: seq<Descriptor>)
    ensures AllSay(s, ds).responseCode == s.responseCode
    decreases |ds|
  {
    if ds != [] { ResponseKept(Says(s, ds[0]), ds[1..]); }
  }

  lemma CarriedSaid(s: Sense, ds: seq<Descriptor>, valid: bool, information: nat, command: nat, sksv: bool, key: nat)
    requires Carries(ds, valid, information, command, sksv, key)
    ensures AllSay(s, ds) == Sense(s.responseCode, valid, information, command, sksv, key)
  {
    hide AllSay; hide TopBit;
    var i :| 0 <= i < |ds| && ds[i].Information? && TopBit(ds[i].flags) == valid && ds[i].value == information
             && forall j | i < j < |ds| :: !ds[j].Information?;
    var c :| 0 <= c < |ds| && ds[c].CommandSpecific? && ds[c].value == command
             && forall j | c < j < |ds| :: !ds[j].CommandSpecific?;
    var k :| 0 <= k < |ds| && ds[k].SenseKeySpecific? && ds[k].sksv == sksv && ds[k].value == key
             && forall j | k < j < |ds| :: !ds[j].SenseKeySpecific?;
    InformationSaid(s, ds, i);
    CommandSaid(s, ds, c);
    KeySaid(s, ds, k);
    ResponseKept(s, ds);
  }

  /** The same sense data in both formats decodes to the same result, apart from the response code, exactly when the
      information is marked valid or the caller's record already held it: the fixed format leaves information that is
      not valid alone, the descriptor format takes it over. */
  lemma FormatIndependence(s: Sense, r1: byte, pad0: bytes, pad1: byte, pad2: bytes, r2: byte, head: bytes,
                           ds: seq<Descriptor>, slack: bytes,
                           valid: bool, information: nat, command: nat, sksv: bool, key: nat)
    requires (r1 == 0x70 || r1 == 0x71) && (r2 == 0x72 || r2 == 0x73) && |pad0| == 2 && |pad2| == 3 && |head| == 6
    requires information < 0x1_0000_0000 && command < 0x1_0000_0000 && key < 0x80_0000
    requires (forall d | d in ds :: WellFormed(d)) && |EncodeAll(ds)| <= 247
    requires Carries(ds, valid, information, command, sksv, key)
    ensures var fixed := FixedSense(r1, valid, pad0, information, pad1, command, pad2, sksv, key) + slack;
            var data := DescriptorSense(r2, head, ds);
            |data| <= 255 && |fixed| >= 18 &&
            var x, y := BasicSense(s, fixed, 18), BasicSense(s, data + slack, |data| as byte);
            && x.ret == y.ret == 31700000
            && (x.sense == y.sense.(responseCode := r1) <==> valid || s.information == information)
  {
    hide BasicSense; hide AllSay; hide WellFormed; hide EncodeAll; hide TopBit; hide Carries;
    FixedRoundTrip(s, r1, valid, pad0, information, pad1, command, pad2, sksv, key, slack, 18);
    DescriptorRoundTrip(s, r2, head, ds, slack, |DescriptorSense(r2, head, ds)| as byte);
    CarriedSaid(s.(responseCode := r2), ds, valid, information, command, sksv, key);
  }

  lemma EncodeNext(d: Descriptor, ds: seq<Descriptor>)
    ensures |EncodeAll([d] + ds)| == |EncodeDescriptor(d)| + |EncodeAll(ds)|
  {
    hide EncodeDescriptor;
    assert ([d] + ds)[1..] == ds;
  }

  lemma NothingEncoded()
    ensures EncodeAll([]) == []
  {
  }

  lemma StandardLength(d: Descriptor, i: Descriptor, c: Descriptor, k: Descriptor)
    requires d.Other? && i.Information? && c.CommandSpecific? && k.SenseKeySpecific?
    ensures |EncodeAll([d, i, c, k])| == 34 + |d.data|
  {
    hide EncodeAll; hide Be64; hide KeyField;
    assert |EncodeAll([])| == 0 by { NothingEncoded(); }
    assert [d] + [i, c, k] == [d, i, c, k] && [i] + [c, k] == [i, c, k] && [c] + [k] == [c, k] && [k] + [] == [k];
    EncodeNext(d, [i, c, k]);
    EncodeNext(i, [c, k]);
    EncodeNext(c, [k]);
    EncodeNext(k, []);
  }

  /** The three descriptors a device writes for such data, in any surroundings that fit, meet these conditions. */
  lemma StandardDescriptors(valid: bool, information: nat, command: nat, sksv: bool, key: nat, d: Descriptor)
    requires information < 0x1_0000_0000 && command < 0x1_0000_0000 && key < 0x80_0000
    requires d.Other? && WellFormed(d) && |d.data| <= 200
    ensures var ds := [d, Information(if valid then 0x80 else 0, 0, information), CommandSpecific((0, 0), command),
                       SenseKeySpecific((0, 0), sksv, key, 0)];
            && Carries(ds, valid, information, command, sksv, key)
            && (forall e | e in ds :: WellFormed(e)) && |EncodeAll(ds)| == 34 + |d.data|
  {
    hide EncodeAll;
    var i := Information(if valid then 0x80 else 0, 0, information);
    var c, k := CommandSpecific((0, 0), command), SenseKeySpecific((0, 0), sksv, key, 0);
    var ds := [d, i, c, k];
    StandardLength(d, i, c, k);
    assert ds[1].Information? && ds[2].CommandSpecific? && ds[3].SenseKeySpecific?;
  }

  lemma OtherWellFormed()
    ensures WellFormed(Other(0x80, []))
  {
  }

  /** Information that is not marked valid, in both formats: the fixed format keeps what the caller's record held, the
      descriptor format takes the device's. */
  lemma InvalidInformationDiffers()
    ensures var s := Sense(0, false, 7, 0, false, 0);
            var ds := [Other(0x80, []), Information(0, 0, 5), CommandSpecific((0, 0), 0),
                       SenseKeySpecific((0, 0), false, 0, 0)];
            var fixed := FixedSense(0x70, false, [0, 0], 5, 0, 0, [0, 0, 0], false, 0);
            var data := DescriptorSense(0x72, [0, 0, 0, 0, 0, 0], ds);
            && |fixed| == 18 && |data| == 42
            && BasicSense(s, fixed, 18).sense == Sense(0x70, false, 7, 0, false, 0)
            && BasicSense(s, data, 42).sense == Sense(0x72, false, 5, 0, false, 0)
  {
    hide BasicSense; hide AllSay; hide WellFormed; hide EncodeAll; hide TopBit; hide Carries;
    var s := Sense(0, false, 7, 0, false, 0);
    var ds := [Other(0x80, []), Information(0, 0, 5), CommandSpecific((0, 0), 0),
               SenseKeySpecific((0, 0), false, 0, 0)];
    assert WellFormed(Other(0x80, [])) by { OtherWellFormed(); }
    StandardDescriptors(false, 5, 0, false, 0, Other(0x80, []));
    FixedRoundTrip(s, 0x70, false, [0, 0], 5, 0, 0, [0, 0, 0], false, 0, [], 18);
    DescriptorRoundTrip(s, 0x72, [0, 0, 0, 0, 0, 0], ds, [], 42);
    CarriedSaid(s.(responseCode := 0x72), ds, false, 5, 0, false, 0);
    var fixed := FixedSense(0x70, false, [0, 0], 5, 0, 0, [0, 0, 0], false, 0);
    var data := DescriptorSense(0x72, [0, 0, 0, 0, 0, 0], ds);
    assert fixed + [] == fixed && data + [] == data;
  }
}
