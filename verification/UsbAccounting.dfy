/** Every byte is accounted for, and every error code reaches the caller: what holds of the parser on any buffer
    shorter than its own error code, well-formed or not. */
module UsbAccounting {
  import opened Options
  import opened Bytes
  import opened UsbTypes
  import opened UsbSpec
  import opened UsbSteps
  import opened UsbCounting

  // --- the bytes a parsed tree stands for ----------------------------------------------------------------------

  function EndpointSize(e: Endpoint): nat {
    e.desc.bLength as nat + |e.extra|
  }

  function EndpointsSize(es: seq<Endpoint>): nat {
    if es == [] then 0 else EndpointsSize(es[..|es| - 1]) + EndpointSize(es[|es| - 1])
  }

  function AltSize(a: AltSetting): nat {
    a.desc.bLength as nat + |a.extra| + EndpointsSize(a.endpoints)
  }

  function InterfaceSize(alts: Interface): nat {
    if alts == [] then 0 else InterfaceSize(alts[..|alts| - 1]) + AltSize(alts[|alts| - 1])
  }

  function InterfacesSize(ifaces: seq<Interface>): nat {
    if ifaces == [] then 0 else InterfaceSize(ifaces[0]) + InterfacesSize(ifaces[1..])
  }

  function ConfigSize(c: Config): nat {
    c.desc.bLength as nat + |c.extra| + InterfacesSize(c.interfaces)
  }

  // --- did some call return an error code? ---------------------------------------------------------------------

  /** Some call of ParseEndpoint for slots done, ..., n - 1 returns an error code. */
  predicate EndpointsFail(b: bytes, pos: nat, n: nat, done: nat)
    requires done <= n
    decreases n - done
  {
    done < n && (
      var ret := ParseEndpoint(b, pos).ret;
      ret == 27400002 || (ret != 0 && EndpointsFail(b, pos + ret, n, done + 1)))
  }

  /** The loop of ParseInterface rejects an interface descriptor, or an endpoint below it fails. */
  predicate AltsFail(b: bytes, pos: nat, number: int, count: nat, capacity: nat)
    decreases |b| - pos
  {
    && |b| - pos >= INTERFACE_SIZE && count < capacity
    && b[pos + 1] == DT_INTERFACE && b[pos] as int <= |b| - pos
    && (b[pos] as int < INTERFACE_SIZE || b[pos + 4] as int > 32 ||
        EndpointsFail(b, FindNext(b, pos + b[pos] as nat), b[pos + 4] as nat, 0) || (
          var next := ParseAlt(b, pos).pos;
          var num := if number == -1 then b[pos + 2] as int else number;
          && |b| - next >= INTERFACE_SIZE && b[next + 1] == DT_INTERFACE && b[next + 2] as int == num
          && AltsFail(b, next, num, count + 1, capacity)))
  }

  /** Some call of ParseInterface made by the outer loop returns an error code, or an endpoint below it does. */
  predicate BodyFails(b: bytes, pos: nat, nums: bytes, caps: seq<nat>, ifaces: seq<Interface>)
    requires |nums| == |caps| == |ifaces|
    decreases if pos <= |b| then |b| - pos else 0
  {
    && |b| - pos >= HEADER_SIZE
    && var p := FindNext(b, pos);
       var i := if p + HEADER_SIZE < |b| then IndexOf(nums, b[p + 2]) else |nums|;
       && |nums| < 32 && i < |nums|
       && (|ifaces[i]| > 128 || AltsFail(b, p, -1, |ifaces[i]|, caps[i]) ||
           match ParseInterface(b, p, ifaces[i], caps[i])
           case Overrun => false
           case Parsed(alts, ret) => p + ret != pos && BodyFails(b, p + ret, nums, caps, ifaces[i := alts]))
  }

  /** Some iteration of the outer loop meets, with more than a header left, 32 interfaces or an interface number the
      first pass did not record. */
  predicate BodyRefuses(b: bytes, pos: nat, nums: bytes, caps: seq<nat>, ifaces: seq<Interface>)
    requires |nums| == |caps| == |ifaces|
    decreases if pos <= |b| then |b| - pos else 0
  {
    && |b| - pos >= HEADER_SIZE
    && var p := FindNext(b, pos);
       && p + HEADER_SIZE < |b|
       && (|nums| >= 32 || b[p + 2] !in nums ||
           var i := IndexOf(nums, b[p + 2]);
           i < |nums| && match ParseInterface(b, p, ifaces[i], caps[i])
                         case Overrun => false
                         case Parsed(alts, ret) =>
                           p + ret != pos && BodyRefuses(b, p + ret, nums, caps, ifaces[i := alts]))
  }

  // --- does some call fail to end? -----------------------------------------------------------------------------

  /** The loop of ParseInterface, with room left for a descriptor, comes to a setting for which it has no slot. */
  predicate AltsOverrun(b: bytes, pos: nat, number: int, count: nat, capacity: nat)
    decreases |b| - pos
  {
    && |b| - pos >= INTERFACE_SIZE
    && (count >= capacity || (
          && ValidHeader(b, pos)
          && var next := ParseAlt(b, pos).pos;
             var num := if number == -1 then b[pos + 2] as int else number;
             && |b| - next >= INTERFACE_SIZE && b[next + 1] == DT_INTERFACE && b[next + 2] as int == num
             && AltsOverrun(b, next, num, count + 1, capacity)))
  }

  /** Some call of ParseInterface made by the outer loop does. */
  predicate BodyOverruns(b: bytes, pos: nat, nums: bytes, caps: seq<nat>, ifaces: seq<Interface>)
    requires |nums| == |caps| == |ifaces|
    decreases if pos <= |b| then |b| - pos else 0
  {
    && |b| - pos >= HEADER_SIZE
    && var p := FindNext(b, pos);
       var i := if p + HEADER_SIZE < |b| then IndexOf(nums, b[p + 2]) else |nums|;
       && |nums| < 32 && i < |nums|
       && ((|ifaces[i]| <= 128 && AltsOverrun(b, p, -1, |ifaces[i]|, caps[i])) ||
           match ParseInterface(b, p, ifaces[i], caps[i])
           case Overrun => false
           case Parsed(alts, ret) => p + ret != pos && BodyOverruns(b, p + ret, nums, caps, ifaces[i := alts]))
  }

  /** ParseInterface has a slot, or too few bytes to ask for one, and finds no interface descriptor it could take. */
  predicate Idle(b: bytes, pos: nat, count: nat, capacity: nat) {
    && count <= 128
    && (|b| - pos < INTERFACE_SIZE ||
        (count < capacity && (b[pos + 1] != DT_INTERFACE || b[pos] as int > |b| - pos)))
  }

  /** Some iteration of the outer loop skips nothing, meets the number of an interface in what is not a descriptor of
      one, and hands it to ParseInterface, which is idle. */
  predicate BodyLoops(b: bytes, pos: nat, nums: bytes, caps: seq<nat>, ifaces: seq<Interface>)
    requires |nums| == |caps| == |ifaces|
    decreases if pos <= |b| then |b| - pos else 0
  {
    && |b| - pos >= HEADER_SIZE
    && var p := FindNext(b, pos);
       var i := if p + HEADER_SIZE < |b| then IndexOf(nums, b[p + 2]) else |nums|;
       && |nums| < 32 && i < |nums|
       && ((p == pos && Idle(b, p, |ifaces[i]|, caps[i])) ||
           match ParseInterface(b, p, ifaces[i], caps[i])
           case Overrun => false
           case Parsed(alts, ret) => p + ret != pos && BodyLoops(b, p + ret, nums, caps, ifaces[i := alts]))
  }

  lemma {:induction false} OverrunAccount(b: bytes, start: nat, pos: nat, number: int, alts: Interface, capacity: nat)
    requires start <= pos
    ensures ParseAlts(b, start, pos, number, alts, capacity) == Overrun <==>
            AltsOverrun(b, pos, number, |alts|, capacity)
    decreases |b| - pos
  {
    hide ParseAlt;
    ParseAltsEnd(b, start, pos, number, alts, capacity);
    if ValidHeader(b, pos) && |alts| < capacity {
      ParseAltsStep(b, start, pos, number, alts, capacity);
      var r := ParseAlt(b, pos);
      var num := if number == -1 then b[pos + 2] as int else number;
      if |b| - r.pos >= INTERFACE_SIZE && b[r.pos + 1] == DT_INTERFACE && b[r.pos + 2] as int == num {
        OverrunAccount(b, start, r.pos, num, alts + [r.alt], capacity);
      }
    }
  }

  lemma {:induction false} AltsAdvance(b: bytes, start: nat, pos: nat, number: int, alts: Interface, capacity: nat)
    requires start < pos
    ensures var r := ParseAlts(b, start, pos, number, alts, capacity); r.Parsed? ==> r.ret > 0
    decreases |b| - pos
  {
    hide ParseAlt;
    ParseAltsEnd(b, start, pos, number, alts, capacity);
    if ValidHeader(b, pos) && |alts| < capacity {
      ParseAltsStep(b, start, pos, number, alts, capacity);
      var r := ParseAlt(b, pos);
      var num := if number == -1 then b[pos + 2] as int else number;
      if |b| - r.pos >= INTERFACE_SIZE && b[r.pos + 1] == DT_INTERFACE && b[r.pos + 2] as int == num {
        AltsAdvance(b, start, r.pos, num, alts + [r.alt], capacity);
      }
    }
  }

  /** ParseInterface consumes nothing exactly when it is idle. */
  lemma IdleMeaning(b: bytes, pos: nat, alts: Interface, capacity: nat)
    requires pos <= |b|
    ensures var r := ParseInterface(b, pos, alts, capacity);
            r.Parsed? && r.ret == 0 <==> Idle(b, pos, |alts|, capacity)
  {
    hide ParseAlt; hide ParseAlts;
    if |alts| <= 128 {
      ParseAltsEnd(b, pos, pos, -1, alts, capacity);
      if ValidHeader(b, pos) && |alts| < capacity {
        ParseAltsStep(b, pos, pos, -1, alts, capacity);
        var r := ParseAlt(b, pos);
        AltsAdvance(b, pos, r.pos, b[pos + 2] as int, alts + [r.alt], capacity);
      }
    }
  }

  // --- endpoints -----------------------------------------------------------------------------------------------

  lemma EndpointAccount(b: bytes, pos: nat)
    ensures var r := ParseEndpoint(b, pos);
            r.ret != 0 && r.ret != 27400002 ==> r.ret == EndpointSize(r.endpoint)
  {
  }

  lemma EndpointsSizeStep(done: seq<Endpoint>, e: Endpoint)
    ensures EndpointsSize(done + [e]) == EndpointsSize(done) + EndpointSize(e)
  {
    assert (done + [e])[..|done|] == done;
  }

  /** No code was added to the cursor exactly when it is still inside the buffer; then it moved over exactly the
      bytes of the endpoints stored. */
  lemma {:induction false} EndpointsAccount(b: bytes, pos: nat, n: nat, done: seq<Endpoint>)
    requires |done| <= n <= 32 && |b| < 27400002
    ensures var r := ParseEndpoints(b, pos, n, done);
            && (pos <= |b| ==> (r.pos > |b| <==> EndpointsFail(b, pos, n, |done|)))
            && (r.pos <= |b| ==> r.pos - pos == EndpointsSize(r.endpoints) - EndpointsSize(done))
            && r.pos <= (if pos <= |b| then |b| else pos) + (n - |done|) * 27400002
    decreases n - |done|
  {
    hide ParseEndpoint; hide EndpointSize; hide EndpointsSize;
    if |done| < n {
      var e := ParseEndpoint(b, pos);
      if e.ret != 0 {
        EndpointAccount(b, pos);
        EndpointsSizeStep(done, e.endpoint);
        EndpointsAccount(b, pos + e.ret, n, done + [e.endpoint]);
      }
    }
  }

  // --- alternate settings --------------------------------------------------------------------------------------

  lemma AltAccount(b: bytes, pos: nat)
    requires pos + INTERFACE_SIZE <= |b| && INTERFACE_SIZE <= b[pos] as int <= |b| - pos
    requires b[pos + 4] as int <= 32 && |b| < 27400002
    ensures var r := ParseAlt(b, pos);
            && (r.pos > |b| <==> EndpointsFail(b, FindNext(b, pos + b[pos] as nat), b[pos + 4] as nat, 0))
            && (r.pos <= |b| ==> r.pos - pos == AltSize(r.alt))
            && r.pos <= |b| + 32 * 27400002
  {
    hide FindNext; hide ParseEndpoints; hide EndpointsFail;
    EndpointsAccount(b, FindNext(b, pos + b[pos] as nat), b[pos + 4] as nat, []);
  }

  lemma {:induction false} AltsAccount(b: bytes, start: nat, pos: nat, number: int, alts: Interface, capacity: nat)
    requires start <= pos <= |b| && |b| < 27400002
    requires ParseAlts(b, start, pos, number, alts, capacity).Parsed?
    ensures var r := ParseAlts(b, start, pos, number, alts, capacity);
            && (start + r.ret > |b| <==> AltsFail(b, pos, number, |alts|, capacity))
            && (start + r.ret <= |b| ==> start + r.ret - pos == InterfaceSize(r.alts) - InterfaceSize(alts))
            && start + r.ret <= |b| + 33 * 27400002
    decreases |b| - pos
  {
    hide ParseAlt; hide EndpointsFail; hide FindNext; hide AltSize;
    if |b| - pos >= INTERFACE_SIZE && |alts| < capacity && b[pos + 1] == DT_INTERFACE &&
       INTERFACE_SIZE <= b[pos] as int <= |b| - pos && b[pos + 4] as int <= 32 {
      AltAccount(b, pos);
      var r := ParseAlt(b, pos);
      var alts' := alts + [r.alt];
      assert alts'[..|alts|] == alts;
      var num := if number == -1 then b[pos + 2] as int else number;
      if |b| - r.pos >= INTERFACE_SIZE && b[r.pos + 1] == DT_INTERFACE && b[r.pos + 2] as int == num {
        AltsAccount(b, start, r.pos, num, alts', capacity);
      }
    }
  }

  // --- the outer loop ------------------------------------------------------------------------------------------

  lemma {:induction false} InterfacesSizeUpdate(ifaces: seq<Interface>, i: nat, alts: Interface)
    requires i < |ifaces|
    ensures InterfacesSize(ifaces[i := alts]) == InterfacesSize(ifaces) - InterfaceSize(ifaces[i]) + InterfaceSize(alts)
    decreases |ifaces|
  {
    hide InterfaceSize;
    if i > 0 {
      assert ifaces[i := alts][1..] == ifaces[1..][i - 1 := alts];
      InterfacesSizeUpdate(ifaces[1..], i - 1, alts);
    } else {
      assert ifaces[i := alts][1..] == ifaces[1..];
    }
  }

  predicate LeftOver(ret: int) {
    0 <= ret <= HEADER_SIZE
  }

  /** When the outer loop overruns or loops, and how it ends otherwise: with 401 exactly when some iteration refuses
      what it meets, negative exactly when some call returned a code, and otherwise with up to two bytes left over and
      every other byte accounted for. */
  predicate BodyAccounted(b: bytes, pos: nat, nums: bytes, caps: seq<nat>, extra: bytes, ifaces: seq<Interface>)
    requires |nums| == |caps| == |ifaces|
  {
    var r := ParseBody(b, pos, nums, caps, extra, ifaces);
    && (r.Fault? <==> BodyOverruns(b, pos, nums, caps, ifaces))
    && (r.Hang? <==> BodyLoops(b, pos, nums, caps, ifaces))
    && (r.Done? ==>
      && (LeftOver(r.ret) || r.ret == 401 || r.ret < 0)
      && (r.ret < 0 <==> BodyFails(b, pos, nums, caps, ifaces))
      && (r.ret == 401 <==> BodyRefuses(b, pos, nums, caps, ifaces))
      && (LeftOver(r.ret) ==>
            |b| - pos == (|r.extra| - |extra|) + (InterfacesSize(r.interfaces) - InterfacesSize(ifaces)) + r.ret)
      && r.ret >= -33 * 27400002)
  }

  lemma {:induction false} BodyStepAccount(b: bytes, pos: nat, nums: bytes, caps: seq<nat>, extra: bytes,
                                           ifaces: seq<Interface>, p: nat, i: nat)
    requires |nums| == |caps| == |ifaces| && |b| - pos >= HEADER_SIZE && |b| < 27400002
    requires p == FindNext(b, pos) && |b| - p > HEADER_SIZE && |nums| < 32
    requires i == IndexOf(nums, b[p + 2]) && i < |nums|
    ensures BodyAccounted(b, pos, nums, caps, extra, ifaces)
    decreases |b| - pos, 0
  {
    hide FindNext; hide ParseAlts; hide AltsFail; hide InterfacesSize; hide InterfaceSize; hide IndexOf;
    hide AltsOverrun; hide Idle;
    var extra' := extra + b[pos..p];
    OverrunAccount(b, p, p, -1, ifaces[i], caps[i]);
    IdleMeaning(b, p, ifaces[i], caps[i]);
    match ParseInterface(b, p, ifaces[i], caps[i])
    case Overrun =>
    case Parsed(alts, ret) =>
      var ifaces' := ifaces[i := alts];
      InterfacesSizeUpdate(ifaces, i, alts);
      if |ifaces[i]| <= 128 {
        AltsAccount(b, p, p, -1, ifaces[i], caps[i]);
      }
      if p + ret == pos {
      } else if p + ret <= |b| {
        BodyAccount(b, p + ret, nums, caps, extra', ifaces');
      } else {
        assert ParseBody(b, p + ret, nums, caps, extra', ifaces') == Done(|b| - (p + ret), extra', ifaces');
        assert !BodyRefuses(b, p + ret, nums, caps, ifaces') && !BodyOverruns(b, p + ret, nums, caps, ifaces');
        assert !BodyLoops(b, p + ret, nums, caps, ifaces');
      }
  }

  lemma {:induction false} BodyAccount(b: bytes, pos: nat, nums: bytes, caps: seq<nat>, extra: bytes,
                                       ifaces: seq<Interface>)
    requires |nums| == |caps| == |ifaces| && pos <= |b| && |b| < 27400002
    ensures BodyAccounted(b, pos, nums, caps, extra, ifaces)
    decreases |b| - pos
  {
    hide ParseAlts; hide AltsFail; hide InterfacesSize; hide InterfaceSize; hide AltsOverrun; hide Idle;
    if |b| - pos >= HEADER_SIZE {
      var p := FindNext(b, pos);
      if |b| - p > HEADER_SIZE && |nums| < 32 {
        var i := IndexOf(nums, b[p + 2]);
        if i < |nums| {
          BodyStepAccount(b, pos, nums, caps, extra, ifaces, p, i);
        }
      }
    }
  }

  // --- sizes fit in 32 bits ------------------------------------------------------------------------------------

  predicate Fits(n: int) {
    -0x8000_0000 <= n < 0x8000_0000
  }

  /** The remaining size before each call of ParseEndpoint, what the call returns, and the size after it. */
  predicate EndpointsFit(b: bytes, pos: nat, n: nat, done: nat)
    requires done <= n
    decreases n - done
  {
    && Fits(|b| - pos)
    && (done < n ==>
          var ret := ParseEndpoint(b, pos).ret;
          Fits(ret) && (ret != 0 ==> EndpointsFit(b, pos + ret, n, done + 1)))
  }

  /** The same for each setting, and the distance from the start of the interface. */
  predicate AltsFit(b: bytes, start: nat, pos: nat, number: int, count: nat, capacity: nat)
    decreases |b| - pos
  {
    && Fits(|b| - pos) && Fits(pos - start)
    && (|b| - pos >= INTERFACE_SIZE && count < capacity && b[pos + 1] == DT_INTERFACE &&
        INTERFACE_SIZE <= b[pos] as int <= |b| - pos && b[pos + 4] as int <= 32 ==>
          && EndpointsFit(b, FindNext(b, pos + b[pos] as nat), b[pos + 4] as nat, 0)
          && var next := ParseAlt(b, pos).pos;
             var num := if number == -1 then b[pos + 2] as int else number;
             && Fits(|b| - next) && Fits(next - start)
             && (|b| - next >= INTERFACE_SIZE && b[next + 1] == DT_INTERFACE && b[next + 2] as int == num ==>
                   AltsFit(b, start, next, num, count + 1, capacity)))
  }

  /** The same for each iteration of the outer loop. */
  predicate BodyFits(b: bytes, pos: nat, nums: bytes, caps: seq<nat>, ifaces: seq<Interface>)
    requires |nums| == |caps| == |ifaces|
    decreases if pos <= |b| then |b| - pos else 0
  {
    && Fits(|b| - pos)
    && (|b| - pos >= HEADER_SIZE ==>
          var p := FindNext(b, pos);
          var i := if p + HEADER_SIZE < |b| then IndexOf(nums, b[p + 2]) else |nums|;
          && Fits(|b| - p)
          && (|nums| < 32 && i < |nums| ==>
                && (|ifaces[i]| <= 128 ==> AltsFit(b, p, p, -1, |ifaces[i]|, caps[i]))
                && match ParseInterface(b, p, ifaces[i], caps[i])
                   case Overrun => true
                   case Parsed(alts, ret) =>
                     && Fits(ret) && Fits(|b| - (p + ret))
                     && (p + ret != pos ==> BodyFits(b, p + ret, nums, caps, ifaces[i := alts]))))
  }

  /** Every endpoint slot left may add one code. */
  lemma {:induction false} EndpointsWithin(b: bytes, pos: nat, n: nat, done: nat)
    requires done <= n <= 32 && |b| < 27400002
    requires pos <= |b| + done * 27400002
    ensures EndpointsFit(b, pos, n, done)
    decreases n - done
  {
    hide ParseEndpoint;
    if done < n {
      var ret := ParseEndpoint(b, pos).ret;
      if ret != 0 {
        EndpointsWithin(b, pos + ret, n, done + 1);
      }
    }
  }

  lemma {:induction false} AltsWithin(b: bytes, start: nat, pos: nat, number: int, count: nat, capacity: nat)
    requires start <= pos <= |b| && |b| < 27400002
    ensures AltsFit(b, start, pos, number, count, capacity)
    decreases |b| - pos
  {
    hide ParseAlt; hide FindNext; hide EndpointsFit; hide EndpointsFail;
    if |b| - pos >= INTERFACE_SIZE && count < capacity && b[pos + 1] == DT_INTERFACE &&
       INTERFACE_SIZE <= b[pos] as int <= |b| - pos && b[pos + 4] as int <= 32 {
      EndpointsWithin(b, FindNext(b, pos + b[pos] as nat), b[pos + 4] as nat, 0);
      AltAccount(b, pos);
      var next := ParseAlt(b, pos).pos;
      var num := if number == -1 then b[pos + 2] as int else number;
      if |b| - next >= INTERFACE_SIZE && b[next + 1] == DT_INTERFACE && b[next + 2] as int == num {
        AltsWithin(b, start, next, num, count + 1, capacity);
      }
    }
  }

  lemma {:induction false} BodyWithin(b: bytes, pos: nat, nums: bytes, caps: seq<nat>, ifaces: seq<Interface>)
    requires |nums| == |caps| == |ifaces| && |b| < 27400002
    requires pos <= |b| + 33 * 27400002
    ensures BodyFits(b, pos, nums, caps, ifaces)
    decreases if pos <= |b| then |b| - pos else 0
  {
    hide FindNext; hide ParseAlts; hide AltsFail; hide AltsFit; hide IndexOf; hide InterfaceSize;
    if |b| - pos >= HEADER_SIZE {
      var p := FindNext(b, pos);
      var i := if p + HEADER_SIZE < |b| then IndexOf(nums, b[p + 2]) else |nums|;
      if |nums| < 32 && i < |nums| {
        AltsWithin(b, p, p, -1, |ifaces[i]|, caps[i]);
        match ParseInterface(b, p, ifaces[i], caps[i])
        case Overrun =>
        case Parsed(alts, ret) =>
          if |ifaces[i]| <= 128 {
            AltsAccount(b, p, p, -1, ifaces[i], caps[i]);
          }
          if p + ret != pos {
            BodyWithin(b, p + ret, nums, caps, ifaces[i := alts]);
          }
      }
    }
  }

  /** On a buffer shorter than the error code, no remaining size and no result of the second pass leaves the range of
      a 32-bit integer, however many codes are added to the cursor and whatever the outcome. */
  lemma SizesFit(b: bytes)
    requires |b| < 27400002 && HeaderAccepted(b)
    ensures var c := CountInterfaces(b, 0, Counts([], []));
            BodyFits(b, b[0] as nat, c.nums, c.caps, NoSettings(|c.nums|))
  {
    hide CountInterfaces; hide BodyFits; hide NoSettings;
    var c := CountInterfaces(b, 0, Counts([], []));
    BodyWithin(b, b[0] as nat, c.nums, c.caps, NoSettings(|c.nums|));
  }

  // --- the whole parser ----------------------------------------------------------------------------------------

  /** Some call below the outer loop returned an error code. */
  predicate SomeCallFails(b: bytes)
    requires HeaderAccepted(b)
  {
    var c := CountInterfaces(b, 0, Counts([], []));
    BodyFails(b, b[0] as nat, c.nums, c.caps, NoSettings(|c.nums|))
  }

  lemma {:induction false} NoSettingsSize(n: nat)
    ensures InterfacesSize(NoSettings(n)) == 0
  {
    if n > 0 { NoSettingsSize(n - 1); }
  }

  /** Some iteration of the outer loop refuses what it meets. */
  predicate SomethingRefused(b: bytes)
    requires HeaderAccepted(b)
  {
    var c := CountInterfaces(b, 0, Counts([], []));
    c.nums != [] && BodyRefuses(b, b[0] as nat, c.nums, c.caps, NoSettings(|c.nums|))
  }

  /** Some call of ParseInterface comes to a setting for which it has no slot. */
  predicate SomethingOverruns(b: bytes)
    requires HeaderAccepted(b)
  {
    var c := CountInterfaces(b, 0, Counts([], []));
    c.nums != [] && BodyOverruns(b, b[0] as nat, c.nums, c.caps, NoSettings(|c.nums|))
  }

  /** Some iteration of the outer loop makes no progress. */
  predicate SomethingLoops(b: bytes)
    requires HeaderAccepted(b)
  {
    var c := CountInterfaces(b, 0, Counts([], []));
    c.nums != [] && BodyLoops(b, b[0] as nat, c.nums, c.caps, NoSettings(|c.nums|))
  }

  lemma {:induction false} FewInterfaces(b: bytes, pos: nat, c: Counts)
    requires pos <= |b| && |c.nums| == |c.caps| && |c.nums| <= 32
    ensures |CountInterfaces(b, pos, c).nums| <= 32
    decreases |b| - pos
  {
    hide IndexOf;
    if |b| - pos >= HEADER_SIZE && b[pos] as int <= |b| - pos && b[pos] >= 2 {
      var c' := if b[pos + 1] == DT_INTERFACE && b[pos] as int >= INTERFACE_SIZE then CountOne(c, b[pos + 2]) else c;
      FewInterfaces(b, pos + b[pos] as nat, c');
    }
  }

  /** Without interfaces there is nothing to fail. */
  lemma NothingToParse(b: bytes, c: Counts)
    requires HeaderAccepted(b) && |c.nums| == |c.caps| && c == CountInterfaces(b, 0, Counts([], []))
    ensures c.nums == [] ==> !SomeCallFails(b)
  {
    hide CountInterfaces;
  }

  /** The buffer is too short for the header, is of another type, its header is too short or longer than what the low
      eight bits of the size say, or it announces more than 32 interfaces. */
  predicate HeaderRefused(b: bytes) {
    |b| < 9 || b[1] != 2 || b[0] < 9 || b[0] as int > |b| % 256 || b[4] > 32
  }

  /** What becomes of any buffer.
      - The parser writes past the slots exactly when some call of ParseInterface comes to a setting without a slot, and
        loops exactly when some iteration of the outer loop makes no progress. Otherwise it returns:
      - 27400002 exactly when the header is refused or no interface descriptor is met: an error, yet a configuration
        with nothing but the header is handed out, because the code is positive;
      - negative exactly when some call below returned an error code: nothing is handed out;
      - 401 exactly when 32 interfaces are present or an interface number is met that the first pass did not record;
      - otherwise 0, 1 or 2 bytes left over: every other byte of the buffer belongs to one descriptor of the result. */
  lemma ParseResults(b: bytes)
    requires |b| < 27400002
    ensures var r := ParseUsbConfigDescriptor(b);
            && (r == NoResult(Faulted) <==> HeaderAccepted(b) && SomethingOverruns(b))
            && (r == NoResult(Hung) <==> HeaderAccepted(b) && SomethingLoops(b))
            && (r.Result? ==>
                  && (LeftOver(r.ret) || r.ret == 401 || r.ret == 27400002
                      || r.ret < 0)
                  && (r.ret == 27400002 <==> HeaderRefused(b) || Met(b, 0) == [])
                  && (r.ret == 27400002 ==>
                        r.config == Some(Config(if |b| < 9 then ZERO_CONFIG else ReadConfigDesc(b, 0), [], [])))
                  && (r.ret < 0 <==> HeaderAccepted(b) && SomeCallFails(b))
                  && (r.ret == 401 <==> HeaderAccepted(b) && SomethingRefused(b))
                  && (r.config == None <==> r.ret < 0)
                  && (LeftOver(r.ret) ==> ConfigSize(r.config.value) + r.ret == |b|)
                  && Fits(r.ret))
  {
    hide CountInterfaces; hide ParseBody; hide BodyFails; hide BodyRefuses; hide BodyOverruns; hide BodyLoops;
    hide InterfacesSize; hide NoSettings; hide Met; hide Tallied;
    FirstPassCounts(b);
    if HeaderAccepted(b) {
      var c := CountInterfaces(b, 0, Counts([], []));
      BodyAccount(b, b[0] as nat, c.nums, c.caps, [], NoSettings(|c.nums|));
      NoSettingsSize(|c.nums|);
      FewInterfaces(b, 0, Counts([], []));
      NothingToParse(b, c);
    }
  }

  predicate Bounded(caps: seq<nat>) {
    forall i | 0 <= i < |caps| :: caps[i] <= 128
  }

  /** The first pass never counts more settings than the second may store. */
  lemma {:induction false} CountsBounded(b: bytes, pos: nat, c: Counts)
    requires pos <= |b| && |c.nums| == |c.caps| && Bounded(c.caps)
    ensures Bounded(CountInterfaces(b, pos, c).caps)
    decreases |b| - pos
  {
    hide IndexOf;
    if |b| - pos >= HEADER_SIZE && b[pos] as int <= |b| - pos && b[pos] >= 2 {
      var c' := if b[pos + 1] == DT_INTERFACE && b[pos] as int >= INTERFACE_SIZE then CountOne(c, b[pos + 2]) else c;
      CountsBounded(b, pos + b[pos] as nat, c');
      assert CountInterfaces(b, pos, c) == CountInterfaces(b, pos + b[pos] as nat, c');
    }
  }
}
