/** Who is bound to a device, told from the history of a run alone, and when a driver is asked to disconnect. */
module BoundCallers {
  import opened Options
  import opened DriverPackages
  import opened DeviceSpec
  import opened MatchSpec

  function CallersOf(w: World, id: Id): set<Token> {
    if id in w.manager.devices then w.manager.devices[id].callers.Keys else {}
  }

  predicate LaunchedOnBind(w: World, id: Id) {
    var m := w.manager;
    id in m.devices && m.devices[id].driver.Some? && m.devices[id].driver.value.meta.launchOnBind
  }

  predicate Running(w: World, id: Id) {
    id in w.manager.devices && w.manager.devices[id].remote
  }

  /** The device is known, the client has access and its callback is registered, and the driver runs or is started. */
  predicate BindTakes(w: World, e: Event)
    requires e.BindClient?
  {
    e.id in w.manager.devices && e.access == Ok && e.reg == Ok && (Running(w, e.id) || e.r == Code(0))
  }

  /** The connection was cleared before, or it is that of the device's key and the ability manager agrees to end it. */
  predicate StopTakes(d: DeviceState, r: AmResult) {
    || d.notify == Notify(None)
    || (r == Code(0) && d.notify == Notify(Some(ConnInfo(GetBundleName(d.bundleInfo), GetAbilityName(d.bundleInfo),
                                                         d.info.busDevId))))
  }

  /** The device is known and has a driver, the client is bound if it asks as the driver does, and the driver is stopped
      if it is one that goes with its last client. */
  predicate UnbindTakes(w: World, e: Event)
    requires e.UnbindClient?
  {
    && e.id in w.manager.devices && w.manager.devices[e.id].driver.Some?
    && (e.byDriver ==> e.token in CallersOf(w, e.id))
    && (LaunchedOnBind(w, e.id) && CallersOf(w, e.id) == {e.token} ==> StopTakes(w.manager.devices[e.id], e.r))
  }

  /** One step of the history of the clients with a successful bind that they have not since undone, lost by a
      failed rebind, or lost because the driver disconnected or the device went away. */
  function NextActive(before: set<Token>, w: World, e: Event, id: Id): set<Token> {
    match e
    case BindClient(i, t, access, reg, _) =>
      if i != id then before
      else if BindTakes(w, e) then before + {t}
      else if access == Ok && reg == Ok then before - {t}
      else before
    case UnbindClient(i, t, _, _) => if i == id && UnbindTakes(w, e) then before - {t} else before
    case Detach(i, _) => if i == id && !Running(w, id) then {} else before
    case DisconnectDone(i) => if i == id then {} else before
    case _ => before
  }

  /** The clients whose unbind succeeded without their being forgotten: their driver is launched on bind and there was
      no other client. It was asked to disconnect, which it has not done yet, or the connection was cleared before. */
  function NextLeaving(active: set<Token>, leaving: set<Token>, w: World, e: Event, id: Id): set<Token> {
    match e
    case BindClient(i, t, access, reg, _) => if i == id && access == Ok && reg == Ok then leaving - {t} else leaving
    case UnbindClient(i, t, _, _) =>
      if i != id || !UnbindTakes(w, e) then leaving
      else if LaunchedOnBind(w, id) && active + leaving == {t} then leaving + {t}
      else leaving - {t}
    case Detach(i, _) => if i == id && !Running(w, id) then {} else leaving
    case DisconnectDone(i) => if i == id then {} else leaving
    case _ => leaving
  }

  function Active(w: World, es: seq<Event>, id: Id): set<Token>
    decreases |es|
  {
    if es == [] then {}
    else NextActive(Active(w, es[..|es| - 1], id), Run(w, es[..|es| - 1]), es[|es| - 1], id)
  }

  function Leaving(w: World, es: seq<Event>, id: Id): set<Token>
    decreases |es|
  {
    if es == [] then {}
    else
      var prefix := es[..|es| - 1];
      NextLeaving(Active(w, prefix, id), Leaving(w, prefix, id), Run(w, prefix), es[|es| - 1], id)
  }

  /** The clients that have been told, or found, that the driver runs. */
  function NextConfirmed(before: set<Token>, w: World, e: Event, id: Id): set<Token> {
    match e
    case BindClient(i, t, access, reg, _) =>
      if i != id || access != Ok || reg != Ok then before
      else if Running(w, id) then before + {t}
      else before - {t}
    case UnbindClient(i, t, _, _) =>
      if i == id && UnbindTakes(w, e) && !(LaunchedOnBind(w, id) && CallersOf(w, id) == {t}) then before - {t}
      else before
    case ConnectDone(i, _) => if i == id then CallersOf(w, id) else before
    case Detach(i, _) => if i == id && !Running(w, id) then {} else before
    case DisconnectDone(i) => if i == id then {} else before
    case _ => before
  }

  function Confirmed(w: World, es: seq<Event>, id: Id): set<Token>
    decreases |es|
  {
    if es == [] then {}
    else NextConfirmed(Confirmed(w, es[..|es| - 1], id), Run(w, es[..|es| - 1]), es[|es| - 1], id)
  }

  function BoundOf(w: World, id: Id): set<Token> {
    set t | t in CallersOf(w, id) && w.manager.devices[id].callers[t]
  }

  // --- which steps touch the callers ---------------------------------------------------------------------------

  lemma ConnectKeepsCallers(d: DeviceState, am: nat -> AmResult)
    ensures Connect(d, am).device.callers == d.callers
  {
    hide Connect;
    ConnectMeaning(d, am);
  }

  /** The device records the same clients, and the same of them as bound. */
  predicate SameCallers(w: World, v: World, id: Id) {
    CallersOf(v, id) == CallersOf(w, id) && BoundOf(v, id) == BoundOf(w, id)
  }

  lemma RegisterFoundKeeps(index: MatchMap, d: DeviceState, id: Id, found: Option<DriverInfo>, am: nat -> AmResult)
    ensures RegisterFound(index, d, id, found, am).device.callers == d.callers
  {
    hide Connect; hide IdsAt; hide KeyOf;
    ConnectKeepsCallers(if d.bundleInfo == "" && found.Some? then AddBundleInfo(d, found.value) else d, am);
  }

  lemma RegisterKeepsCallers(w: World, info: DeviceInfo, am: nat -> AmResult, id: Id)
    ensures SameCallers(w, Step(w, Attach(info, am)).world, id)
  {
    hide Connect; hide AttachFinds; hide DeviceId; hide IdsAt; hide KeyOf; hide RegisterFound;
    var m, i, found := w.manager, DeviceId(info), AttachFinds(w, info);
    var d := if i in m.devices then m.devices[i] else NewDevice(info);
    RegisterFoundKeeps(m.index, d, i, found, am);
  }

  lemma VisitKeepsCallers(w: World, task: Task, i: Id, am: nat -> AmResult, id: Id)
    ensures SameCallers(w, Step(w, Visit(task, i, am)).world, id)
  {
    hide Connect; hide VisitFinds; hide WithKey; hide KeyFor; hide MarkVisited;
    var m, u := w.manager, w.updates;
    if task in u.refreshing && i in m.devices {
      var ids := u.refreshing[task].ids;
      var found := VisitFinds(w, ids, i);
      if found.Some? {
        ConnectKeepsCallers(AddBundleInfo(AfterDelete(m.devices[i], i, ids, m.callback), found.value), am);
      }
    }
  }

  lemma DetachKeepsCallers(w: World, i: Id, r: AmResult, id: Id)
    ensures var v := Step(w, Detach(i, r)).world;
            if i == id && !Running(w, id) then CallersOf(v, id) == {} == BoundOf(v, id) else SameCallers(w, v, id)
  {
    hide Disconnect;
  }

  // --- what comes of a request ---------------------------------------------------------------------------------

  lemma OnlyCaller(callers: map<Token, bool>, t: Token)
    ensures IsLastCaller(callers, t) <==> callers.Keys == {t}
  {
    assert |callers| == |callers.Keys|;
    if IsLastCaller(callers, t) {
      assert |callers.Keys - {t}| == 0;
    }
  }

  /** A bind without access, or whose callback cannot be registered, fails and changes nothing, whatever state the
      device is in and whatever the ability manager would answer. */
  lemma RefusedBind(w: World, id: Id, token: Token, access: Status, reg: Status, r: AmResult)
    requires access != Ok || reg != Ok
    ensures var s := Step(w, BindClient(id, token, access, reg, r));
            && s.world == w && s.status != Ok
            && s.status == if id !in w.manager.devices then Nok else if access != Ok then access else reg
  {
    if id in w.manager.devices {
      BindMeaning(w.manager.devices[id], token, reg, r);
      assert w.manager.devices[id := w.manager.devices[id]] == w.manager.devices;
    }
  }

  /** A bind succeeds exactly when it takes, and so does an unbind. */
  lemma StatusTold(w: World, e: Event)
    ensures e.BindClient? ==> (Step(w, e).status == Ok <==> BindTakes(w, e))
    ensures e.UnbindClient? ==> (Step(w, e).status == Ok <==> UnbindTakes(w, e))
  {
    hide Bind; hide Disconnect; hide IsLastCaller; hide GetBundleName; hide GetAbilityName;
    if e.BindClient? && e.id in w.manager.devices {
      BindMeaning(w.manager.devices[e.id], e.token, e.reg, e.r);
    }
    if e.UnbindClient? && e.id in w.manager.devices {
      OnlyCaller(w.manager.devices[e.id].callers, e.token);
      DisconnectMeaning(w.manager.devices[e.id], e.r);
    }
  }

  lemma UnbindLeaves(d: DeviceState, t: Token, byDriver: bool, r: AmResult)
    ensures var u := Unbind(d, t, byDriver, r);
            u.device.callers ==
            if u.status != Ok || (d.driver.Some? && d.driver.value.meta.launchOnBind && d.callers.Keys == {t}) then
              d.callers
            else d.callers - {t}
  {
    hide Disconnect; hide IsLastCaller;
    OnlyCaller(d.callers, t);
  }

  // --- the record of callers is the history's ------------------------------------------------------------------

  lemma BindCallers(w: World, e: Event, id: Id, active: set<Token>, leaving: set<Token>)
    requires e.BindClient? && CallersOf(w, id) == active + leaving
    ensures CallersOf(Step(w, e).world, id) == NextActive(active, w, e, id) + NextLeaving(active, leaving, w, e, id)
    ensures BoundOf(Step(w, e).world, id) == NextConfirmed(BoundOf(w, id), w, e, id)
  {
    hide Bind;
    if e.id in w.manager.devices {
      BindMeaning(w.manager.devices[e.id], e.token, e.reg, e.r);
    }
  }

  lemma UnbindCallers(w: World, e: Event, id: Id, active: set<Token>, leaving: set<Token>)
    requires e.UnbindClient? && CallersOf(w, id) == active + leaving
    ensures CallersOf(Step(w, e).world, id) == NextActive(active, w, e, id) + NextLeaving(active, leaving, w, e, id)
    ensures BoundOf(Step(w, e).world, id) == NextConfirmed(BoundOf(w, id), w, e, id)
  {
    hide Unbind; hide StopTakes;
    StatusTold(w, e);
    if e.id in w.manager.devices {
      UnbindLeaves(w.manager.devices[e.id], e.token, e.byDriver, e.r);
    }
  }

  /** One more step. */
  lemma NextCallers(w: World, e: Event, id: Id, active: set<Token>, leaving: set<Token>)
    requires CallersOf(w, id) == active + leaving
    ensures CallersOf(Step(w, e).world, id) == NextActive(active, w, e, id) + NextLeaving(active, leaving, w, e, id)
    ensures BoundOf(Step(w, e).world, id) == NextConfirmed(BoundOf(w, id), w, e, id)
  {
    hide Register; hide UnRegister; hide StepVisit; hide KeptIndex; hide DeletedIds; hide Committed; hide Bind;
    hide Unbind;
    match e
    case Attach(info, am) => RegisterKeepsCallers(w, info, am, id);
    case Detach(i, r) => DetachKeepsCallers(w, i, r, id);
    case Visit(task, i, am) => VisitKeepsCallers(w, task, i, am, id);
    case BindClient(_, _, _, _, _) => BindCallers(w, e, id, active, leaving);
    case UnbindClient(_, _, _, _) => UnbindCallers(w, e, id, active, leaving);
    case _ =>
  }

  lemma NobodyBound(w: World, id: Id)
    requires Initial(w)
    ensures CallersOf(w, id) == {} == BoundOf(w, id)
  {
  }

  /** In every run, the callers a device records are the active ones and those that have unbound without being
      forgotten, and those it has as bound are the ones that know of the driver. */
  lemma {:induction false} CallersExactly(w: World, es: seq<Event>, id: Id)
    requires Initial(w)
    ensures CallersOf(Run(w, es), id) == Active(w, es, id) + Leaving(w, es, id)
    ensures BoundOf(Run(w, es), id) == Confirmed(w, es, id)
    decreases |es|
  {
    hide Step; hide CallersOf; hide BoundOf; hide NextActive; hide NextLeaving; hide NextConfirmed;
    if es == [] {
      assert CallersOf(w, id) == {} == BoundOf(w, id) by { NobodyBound(w, id); }
    } else {
      var prefix := es[..|es| - 1];
      CallersExactly(w, prefix, id);
      NextCallers(Run(w, prefix), es[|es| - 1], id, Active(w, prefix, id), Leaving(w, prefix, id));
    }
  }

  /** The event is a bind of the client to the device, with access and with a registered callback. */
  predicate Asks(e: Event, id: Id, t: Token) {
    e.BindClient? && e.id == id && e.token == t && e.access == Ok && e.reg == Ok
  }

  /** Event `k` is such a bind, it took, and the driver has not disconnected since. */
  predicate BoundSince(w: World, es: seq<Event>, id: Id, t: Token, k: nat)
    requires k < |es|
  {
    Asks(es[k], id, t) && BindTakes(Run(w, es[..k]), es[k]) && forall j | k < j < |es| :: es[j] != DisconnectDone(id)
  }

  lemma BecomesCaller(w: World, e: Event, id: Id, t: Token)
    requires t in CallersOf(Step(w, e).world, id)
    ensures (Asks(e, id, t) && BindTakes(w, e)) || (t in CallersOf(w, id) && e != DisconnectDone(id))
  {
    hide Step; hide CallersOf; hide UnbindTakes;
    NextCallers(w, e, id, CallersOf(w, id), {});
  }

  /** Nobody is recorded as a client of a device who did not ask for it, with access and with a registered callback,
      since the driver last disconnected. */
  lemma {:induction false} CallersAsked(w: World, es: seq<Event>, id: Id, t: Token)
    requires Initial(w) && t in CallersOf(Run(w, es), id)
    ensures exists k: nat | k < |es| :: BoundSince(w, es, id, t, k)
    decreases |es|
  {
    hide Step; hide CallersOf; hide BindTakes;
    if es == [] {
      NobodyBound(w, id);
    } else {
      var n := |es| - 1;
      var prefix, e := es[..n], es[n];
      BecomesCaller(Run(w, prefix), e, id, t);
      if Asks(e, id, t) && BindTakes(Run(w, prefix), e) {
        assert BoundSince(w, es, id, t, n);
      } else {
        CallersAsked(w, prefix, id, t);
        var k: nat :| k < n && BoundSince(w, prefix, id, t, k);
        assert es[..k] == prefix[..k];
        assert BoundSince(w, es, id, t, k);
      }
    }
  }

  /** The client is the only one recorded, of a device whose driver is launched on bind. */
  predicate LastOfLaunched(w: World, es: seq<Event>, id: Id, t: Token) {
    LaunchedOnBind(Run(w, es), id) && Active(w, es, id) + Leaving(w, es, id) == {t}
  }

  /** After every run, an unbind calls the controller to disconnect the driver exactly when the driver is one that is
      launched on bind, the client is the only one recorded, and the connection is not cleared already; in particular
      never while another client is active. */
  lemma UnbindAsks(w: World, es: seq<Event>, id: Id, t: Token, byDriver: bool, r: AmResult)
    requires Initial(w)
    ensures var v := Run(w, es);
            var unbinding := UnbindingOf(v, id, t, byDriver, r);
            && (unbinding == Asked <==> LastOfLaunched(w, es, id, t) && v.manager.devices[id].notify != Notify(None))
            && (unbinding == LeftBehind <==>
                  LastOfLaunched(w, es, id, t) && v.manager.devices[id].notify == Notify(None))
            && (unbinding == Asked ==> Active(w, es, id) <= {t})
  {
    hide Run; hide Active; hide Leaving; hide IsLastCaller; hide Disconnect;
    var v := Run(w, es);
    CallersExactly(w, es, id);
    if id in v.manager.devices {
      OnlyCaller(v.manager.devices[id].callers, t);
    }
  }

  lemma NextHistory(w: World, es: seq<Event>, e: Event, id: Id)
    ensures Active(w, es + [e], id) == NextActive(Active(w, es, id), Run(w, es), e, id)
    ensures Leaving(w, es + [e], id) == NextLeaving(Active(w, es, id), Leaving(w, es, id), Run(w, es), e, id)
  {
    hide Run; hide NextActive; hide NextLeaving;
    assert (es + [e])[..|es + [e]| - 1] == es;
  }

  lemma AfterLeftBehind(v: World, e: Event, id: Id, active: set<Token>, leaving: set<Token>)
    requires e.UnbindClient? && e.id == id && UnbindTakes(v, e) && active + leaving == {e.token}
    requires LaunchedOnBind(v, id)
    ensures NextActive(active, v, e, id) == {} && NextLeaving(active, leaving, v, e, id) == {e.token}
  {
    hide UnbindTakes; hide LaunchedOnBind;
  }

  /** When the connection is cleared already, the unbind succeeds whatever the ability manager would answer, changes
      nothing, and leaves the client recorded. */
  lemma LeftBehindStays(w: World, es: seq<Event>, id: Id, t: Token, byDriver: bool, r: AmResult)
    requires Initial(w) && UnbindingOf(Run(w, es), id, t, byDriver, r) == LeftBehind
    ensures var v, e := Run(w, es), UnbindClient(id, t, byDriver, r);
            && Step(v, e) == StepResult(v, Ok)
            && Active(w, es + [e], id) == {} && Leaving(w, es + [e], id) == {t} == CallersOf(v, id)
  {
    hide Run; hide Active; hide Leaving; hide IsLastCaller; hide NextActive; hide NextLeaving; hide StopTakes;
    var v, e := Run(w, es), UnbindClient(id, t, byDriver, r);
    UnbindAsks(w, es, id, t, byDriver, r);
    CallersExactly(w, es, id);
    assert v.manager.devices[id := v.manager.devices[id]] == v.manager.devices;
    StatusTold(v, e);
    NextHistory(w, es, e, id);
    AfterLeftBehind(v, e, id, Active(w, es, id), Leaving(w, es, id));
  }
}
