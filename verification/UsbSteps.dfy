/** One round of each loop of the second pass, as an equation of its function. */
module UsbSteps {
  import opened Bytes
  import opened UsbTypes
  import opened UsbSpec

  lemma ParseEndpointsStep(b: bytes, pos: nat, n: nat, done: seq<Endpoint>)
    requires |done| < n
    ensures var e := ParseEndpoint(b, pos);
            ParseEndpoints(b, pos, n, done) ==
            if e.ret == 0 then EndpointsResult(done, pos)
            else ParseEndpoints(b, pos + e.ret, n, done + [e.endpoint])
  {
    hide ParseEndpoint;
  }

  lemma ParseEndpointsEnd(b: bytes, pos: nat, done: seq<Endpoint>)
    ensures ParseEndpoints(b, pos, |done|, done) == EndpointsResult(done, pos)
  {
  }

  predicate ValidHeader(b: bytes, pos: nat) {
    && pos + INTERFACE_SIZE <= |b| && b[pos + 1] == DT_INTERFACE && INTERFACE_SIZE <= b[pos] as int <= |b| - pos
    && b[pos + 4] as int <= 32
  }

  lemma ParseAltsStep(b: bytes, start: nat, pos: nat, number: int, done: Interface, capacity: nat)
    requires start <= pos && ValidHeader(b, pos) && |done| < capacity
    ensures var r := ParseAlt(b, pos);
            var num := if number == -1 then b[pos + 2] as int else number;
            ParseAlts(b, start, pos, number, done, capacity) ==
            if |b| - r.pos < INTERFACE_SIZE || b[r.pos + 1] != DT_INTERFACE || b[r.pos + 2] as int != num then
              Parsed(done + [r.alt], r.pos - start)
            else ParseAlts(b, start, r.pos, num, done + [r.alt], capacity)
  {
    hide ParseAlt;
  }

  lemma ParseAltsEnd(b: bytes, start: nat, pos: nat, number: int, done: Interface, capacity: nat)
    requires start <= pos
    ensures |b| - pos < INTERFACE_SIZE ==>
              ParseAlts(b, start, pos, number, done, capacity) == Parsed(done, pos - start)
    ensures |b| - pos >= INTERFACE_SIZE && |done| >= capacity ==>
              ParseAlts(b, start, pos, number, done, capacity) == Overrun
    ensures |b| - pos >= INTERFACE_SIZE && |done| < capacity && !ValidHeader(b, pos) ==>
              ParseAlts(b, start, pos, number, done, capacity) ==
              Parsed(done, if b[pos + 1] != DT_INTERFACE || b[pos] as int > |b| - pos then pos - start
                             else USB_DDK_INVALID_OPERATION)
  {
    hide ParseAlt;
  }

  /** One iteration of the outer loop as it affects the function: either it ends, or the loop goes on. */
  lemma ParseBodyStep(b: bytes, pos: nat, nums: bytes, caps: seq<nat>, extra: bytes, ifaces: seq<Interface>)
    requires |nums| == |caps| == |ifaces| && |b| - pos >= HEADER_SIZE
    ensures var p := FindNext(b, pos);
            var extra' := extra + b[pos..p];
            ParseBody(b, pos, nums, caps, extra, ifaces) ==
            if |b| - p <= HEADER_SIZE then Done(|b| - p, extra', ifaces)
            else if |nums| >= 32 || IndexOf(nums, b[p + 2]) == |nums| then
              Done(USB_DDK_INVALID_PARAMETER, extra', ifaces)
            else
              var i := IndexOf(nums, b[p + 2]);
              match ParseInterface(b, p, ifaces[i], caps[i])
              case Overrun => Fault
              case Parsed(alts, ret) =>
                if p + ret == pos then Hang
                else ParseBody(b, p + ret, nums, caps, extra', ifaces[i := alts])
  {
    hide ParseInterface; hide FindNext; hide IndexOf;
  }
}
