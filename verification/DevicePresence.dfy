/** Which devices the manager knows, and which of them a running driver holds, told from the history of a run alone. */
module DevicePresence {
  import opened Options
  import opened DriverPackages
  import opened DeviceSpec
  import opened MatchSpec

  /** Not there, attached, or detached while a driver holds it. */
  datatype Presence = Absent | Here | Leaving

  /** `held`: a driver has connected to the device and neither disconnected nor been let go by a refresh since. */
  datatype Standing = Standing(presence: Presence, held: bool)

  /** A refresh lets the driver of a device go when it erased an entry of the device, or when it starts a driver that it
      found before this one connected, unless the first attempt succeeds. */
  predicate LetsGo(w: World, task: Task, id: Id, am: nat -> AmResult) {
    && task in w.updates.refreshing
    && (|| id in w.updates.refreshing[task].ids
        || (&& w.search.Some? && w.search.value.found.Some? && !w.search.value.found.value.meta.launchOnBind
            && id in w.manager.devices && (Stale(w.manager.devices[id].notify) || am(0) != Code(0))))
  }

  /** One step of the history. */
  function Next(s: Standing, w: World, e: Event, id: Id): Standing {
    match e
    case Attach(info, _) => if DeviceId(info) == id && s.presence == Absent then Standing(Here, false) else s
    case Detach(i, _) =>
      if i != id || s.presence == Absent then s
      else if s.held then Standing(Leaving, true)
      else Standing(Absent, false)
    case DisconnectDone(i) =>
      if i != id then s
      else if s.presence == Leaving then Standing(Absent, false)
      else Standing(s.presence, false)
    case ConnectDone(i, remote) => if i == id && s.presence != Absent then Standing(s.presence, remote) else s
    case Visit(task, i, am) => if i == id && LetsGo(w, task, id, am) then Standing(s.presence, false) else s
    case _ => s
  }

  function History(w: World, es: seq<Event>, id: Id): Standing
    decreases |es|
  {
    if es == [] then Standing(Absent, false)
    else
      var prefix := es[..|es| - 1];
      Next(History(w, prefix, id), Run(w, prefix), es[|es| - 1], id)
  }

  /** What the manager has on record. */
  function OnRecord(m: Manager, id: Id): Standing {
    if id !in m.devices then Standing(Absent, false)
    else Standing(if m.devices[id].unregistered then Leaving else Here, m.devices[id].remote)
  }

  // --- one step ------------------------------------------------------------------------------------------------

  lemma ConnectLeaves(d: DeviceState, am: nat -> AmResult)
    ensures Connect(d, am).device.unregistered == d.unregistered && Connect(d, am).device.info == d.info
    ensures Connect(d, am).device.remote <==> d.remote && !Stale(d.notify) && am(0) == Code(0)
  {
    hide Connect;
    ConnectMeaning(d, am);
  }

  lemma RegisterLeaves(index: MatchMap, d: DeviceState, id: Id, found: Option<DriverInfo>, am: nat -> AmResult)
    requires !d.remote
    ensures var d' := RegisterFound(index, d, id, found, am).device;
            d'.unregistered == d.unregistered && !d'.remote && d'.info == d.info
  {
    hide Connect; hide IdsAt; hide KeyOf;
    ConnectLeaves(if d.bundleInfo == "" && found.Some? then AddBundleInfo(d, found.value) else d, am);
  }

  lemma AttachStanding(w: World, info: DeviceInfo, am: nat -> AmResult, id: Id)
    ensures OnRecord(Step(w, Attach(info, am)).world.manager, id) ==
            Next(OnRecord(w.manager, id), w, Attach(info, am), id)
  {
    hide RegisterFound; hide AttachFinds; hide DeviceId;
    var m, i := w.manager, DeviceId(info);
    var d := if i in m.devices then m.devices[i] else NewDevice(info);
    if !d.remote {
      RegisterLeaves(m.index, d, i, AttachFinds(w, info), am);
    }
  }

  lemma DetachStanding(w: World, i: Id, r: AmResult, id: Id)
    ensures OnRecord(Step(w, Detach(i, r)).world.manager, id) ==
            Next(OnRecord(w.manager, id), w, Detach(i, r), id)
  {
    hide Disconnect;
  }

  lemma VisitStanding(w: World, task: Task, i: Id, am: nat -> AmResult, id: Id)
    ensures OnRecord(Step(w, Visit(task, i, am)).world.manager, id) ==
            Next(OnRecord(w.manager, id), w, Visit(task, i, am), id)
  {
    hide Connect; hide FirstMatch; hide WithKey; hide KeyFor; hide MarkVisited;
    var m, u := w.manager, w.updates;
    if task in u.refreshing && i in m.devices {
      var ids := u.refreshing[task].ids;
      var found := VisitFinds(w, ids, i);
      if found.Some? {
        ConnectLeaves(AddBundleInfo(AfterDelete(m.devices[i], i, ids, m.callback), found.value), am);
      }
    }
  }

  lemma UnbindLeaves(d: DeviceState, token: Token, byDriver: bool, r: AmResult)
    ensures var u := Unbind(d, token, byDriver, r);
            u.device.unregistered == d.unregistered && u.device.remote == d.remote
  {
    hide Disconnect; hide IsLastCaller;
  }

  lemma NextStanding(w: World, e: Event, id: Id)
    ensures OnRecord(Step(w, e).world.manager, id) == Next(OnRecord(w.manager, id), w, e, id)
  {
    hide Register; hide UnRegister; hide StepVisit; hide KeptIndex; hide DeletedIds; hide Committed; hide Bind;
    hide Unbind; hide LetsGo; hide DeviceId;
    match e
    case Attach(info, am) => AttachStanding(w, info, am, id);
    case Detach(i, r) => DetachStanding(w, i, r, id);
    case Visit(task, i, am) => VisitStanding(w, task, i, am, id);
    case BindClient(i, token, _, reg, r) =>
      if i in w.manager.devices { BindMeaning(w.manager.devices[i], token, reg, r); }
    case UnbindClient(i, token, byDriver, r) =>
      if i in w.manager.devices { UnbindLeaves(w.manager.devices[i], token, byDriver, r); }
    case _ =>
  }

  // --- every run -----------------------------------------------------------------------------------------------

  /** In every run the manager knows exactly the devices that were announced and have not left since: a device leaves
      when it is detached, or, if a driver held it then, when the driver has disconnected. Until then it is marked.
      And the remote of each is there exactly while a driver holds it. */
  lemma {:induction false} PresentExactly(w: World, es: seq<Event>, id: Id)
    requires Initial(w)
    ensures var v, s := Run(w, es).manager, History(w, es, id);
            && (id in v.devices <==> s.presence != Absent)
            && (id in v.devices ==> (v.devices[id].unregistered <==> s.presence == Leaving))
            && (id in v.devices ==> (v.devices[id].remote <==> s.held))
    ensures OnRecord(Run(w, es).manager, id) == History(w, es, id)
    decreases |es|
  {
    hide Step; hide Next;
    if es != [] {
      var prefix := es[..|es| - 1];
      PresentExactly(w, prefix, id);
      NextStanding(Run(w, prefix), es[|es| - 1], id);
    }
  }

  ghost predicate NotAnnounced(es: seq<Event>, id: Id) {
    forall e | e in es && e.Attach? :: DeviceId(e.info) != id
  }

  lemma {:induction false} StaysAway(w: World, es: seq<Event>, id: Id)
    requires id !in w.manager.devices && NotAnnounced(es, id)
    ensures id !in Run(w, es).manager.devices
    decreases |es|
  {
    hide Step; hide DeviceId;
    if es != [] {
      var prefix, e := es[..|es| - 1], es[|es| - 1];
      assert e in es && forall f | f in prefix :: f in es;
      StaysAway(w, prefix, id);
      NextStanding(Run(w, prefix), e, id);
    }
  }

  lemma NewlyAttached(w: World, info: DeviceInfo, am: nat -> AmResult)
    requires DeviceId(info) !in w.manager.devices
    ensures var m := Step(w, Attach(info, am)).world.manager;
            DeviceId(info) in m.devices && m.devices[DeviceId(info)].info == info
  {
    hide RegisterFound; hide AttachFinds; hide DeviceId;
    RegisterLeaves(w.manager.index, NewDevice(info), DeviceId(info), AttachFinds(w, info), am);
  }

  /** Whatever state the service is in: once a device is detached and its driver has disconnected it is gone, and stays
      away until it is announced again; that can happen whenever no search waits to be filed, and then the device is
      attached. */
  lemma GoneAndBack(w: World, id: Id, r: AmResult, es: seq<Event>, info: DeviceInfo, am: nat -> AmResult)
    requires NotAnnounced(es, id) && DeviceId(info) == id
    ensures var v := Run(Step(Step(w, Detach(id, r)).world, DisconnectDone(id)).world, es);
            && id !in v.manager.devices
            && (v.search == None ==> Plausible(v, Attach(info, am)))
            && Attached(Step(v, Attach(info, am)).world.manager, id)
            && Step(v, Attach(info, am)).world.manager.devices[id].info == info
  {
    hide Step; hide DeviceId; hide Run; hide NotAnnounced;
    var v1 := Step(w, Detach(id, r)).world;
    var v2 := Step(v1, DisconnectDone(id)).world;
    NextStanding(w, Detach(id, r), id);
    NextStanding(v1, DisconnectDone(id), id);
    StaysAway(v2, es, id);
    NextStanding(Run(v2, es), Attach(info, am), id);
    NewlyAttached(Run(v2, es), info, am);
  }
}
