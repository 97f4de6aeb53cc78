/** Which drivers the manager starts, and which it stops. */
module DriverStart {
  import opened Options
  import opened DriverPackages
  import opened DeviceSpec
  import opened MatchSpec
  import opened MatchState
  import opened MatchInvariant

  /** One of the 31 attempts of a start succeeds; the first is not made while a connection is recorded. */
  predicate SomeAttempt(n: Notify, am: nat -> AmResult) {
    (!Stale(n) && am(0) == Code(0)) || exists k | 1 <= k <= 30 :: am(k) == Code(0)
  }

  /** The connection that a driver with the device's key is started with. */
  function Own(d: DeviceState): Notify {
    Notify(Some(ConnInfo(GetBundleName(d.bundleInfo), GetAbilityName(d.bundleInfo), d.info.busDevId)))
  }

  // --- one step ------------------------------------------------------------------------------------------------

  lemma Starts(d: DeviceState, am: nat -> AmResult)
    ensures var r := Connect(d, am);
            && SameMatch(d, r.device) && r.device.notify == Own(d) == Own(r.device)
            && (r.status == Ok <==> SomeAttempt(d.notify, am))
  {
    hide Connect; hide GetBundleName; hide GetAbilityName;
    ConnectMeaning(d, am);
  }

  lemma KeyNotNothing(driver: DriverInfo)
    ensures KeyOf(driver.bundleName, driver.driverName) != ""
  {
  }

  /** An announced device that is not running already: a driver that is launched on bind is left alone, any other is
      started. The status says whether that succeeded. */
  lemma AttachStarts(w: World, info: DeviceInfo, am: nat -> AmResult)
    ensures var m, id, found, r := w.manager, DeviceId(info), AttachFinds(w, info), Step(w, Attach(info, am));
            var d := if id in m.devices then m.devices[id] else NewDevice(info);
            var driver := if d.bundleInfo == "" then found else d.driver;
            && id in r.world.manager.devices
            && var d' := r.world.manager.devices[id];
               if d.remote || (d.bundleInfo == "" && found == None) then r.status == Ok && d'.notify == d.notify
               else if driver == None then r.status == Nok && d'.notify == d.notify
               else if driver.value.meta.launchOnBind then r.status == Ok && d'.notify == d.notify
               else d'.notify == Own(d') && r.status == if SomeAttempt(d.notify, am) then Ok else Nok
  {
    hide Connect; hide AttachFinds; hide DeviceId; hide IdsAt; hide Own; hide SomeAttempt;
    var id, found := DeviceId(info), AttachFinds(w, info);
    var d := if id in w.manager.devices then w.manager.devices[id] else NewDevice(info);
    if d.bundleInfo == "" && found.Some? {
      KeyNotNothing(found.value);
      Starts(AddBundleInfo(d, found.value), am);
    } else {
      Starts(d, am);
    }
  }

  /** The same for a device that a refresh visits. */
  lemma VisitStarts(w: World, task: Task, id: Id, am: nat -> AmResult)
    requires task in w.updates.refreshing && id in w.manager.devices
    ensures var found := VisitFinds(w, w.updates.refreshing[task].ids, id);
            var d, v := w.manager.devices[id], Step(w, Visit(task, id, am)).world.manager;
            && id in v.devices
            && v.devices[id].notify ==
               if found.Some? && !found.value.meta.launchOnBind then Own(v.devices[id]) else d.notify
  {
    hide Connect; hide VisitFinds; hide WithKey; hide KeyFor; hide MarkVisited; hide Own; hide SomeAttempt;
    var m, ids := w.manager, w.updates.refreshing[task].ids;
    var found := VisitFinds(w, ids, id);
    if found.Some? {
      Starts(AddBundleInfo(AfterDelete(m.devices[id], id, ids, m.callback), found.value), am);
    }
  }

  // --- every run -----------------------------------------------------------------------------------------------

  /** The device has a driver that is the manager's to start. */
  predicate ManagerStarts(d: DeviceState) {
    d.bundleInfo != "" && d.driver.Some? && !d.driver.value.meta.launchOnBind
  }

  /** Such a driver has been started, and its connection is recorded unless it was `dropped`. */
  predicate StartedOk(d: DeviceState, dropped: bool) {
    ManagerStarts(d) ==> d.notify == Own(d) || (dropped && d.notify == Notify(None))
  }

  /** The driver of the device has disconnected. */
  ghost predicate Dropped(es: seq<Event>, id: Id) {
    exists e | e in es :: e.DisconnectDone? && e.id == id
  }

  lemma RegisterStarted(index: MatchMap, d: DeviceState, id: Id, found: Option<DriverInfo>, am: nat -> AmResult,
                        dropped: bool)
    requires StartedOk(d, dropped)
    ensures StartedOk(RegisterFound(index, d, id, found, am).device, dropped)
  {
    hide Connect; hide IdsAt; hide Own; hide KeyOf; hide SomeAttempt;
    Starts(if d.bundleInfo == "" && found.Some? then AddBundleInfo(d, found.value) else d, am);
  }

  lemma AttachStarted(w: World, info: DeviceInfo, am: nat -> AmResult, id: Id, dropped: bool)
    requires id in w.manager.devices ==> StartedOk(w.manager.devices[id], dropped)
    ensures var m := Step(w, Attach(info, am)).world.manager;
            id in m.devices ==> StartedOk(m.devices[id], dropped)
  {
    hide RegisterFound; hide AttachFinds; hide DeviceId; hide Own;
    var m, i := w.manager, DeviceId(info);
    var d := if i in m.devices then m.devices[i] else NewDevice(info);
    if i == id {
      RegisterStarted(m.index, d, i, AttachFinds(w, info), am, dropped);
    }
  }

  /** A device that keeps its key, its connection and its driver, if it has one. */
  lemma StillStarted(d: DeviceState, d': DeviceState, dropped: bool)
    requires d'.bundleInfo == d.bundleInfo || d'.bundleInfo == ""
    requires d'.info == d.info && d'.notify == d.notify && (d'.driver == d.driver || d'.driver == None)
    requires StartedOk(d, dropped)
    ensures StartedOk(d', dropped)
  {
  }

  lemma VisitStarted(w: World, task: Task, i: Id, am: nat -> AmResult, id: Id, dropped: bool)
    requires id in w.manager.devices ==> StartedOk(w.manager.devices[id], dropped)
    ensures var m := Step(w, Visit(task, i, am)).world.manager;
            id in m.devices ==> StartedOk(m.devices[id], dropped)
  {
    hide Connect; hide VisitFinds; hide WithKey; hide KeyFor; hide MarkVisited; hide Own; hide SomeAttempt;
    var m, u := w.manager, w.updates;
    if task in u.refreshing && i in m.devices {
      var ids := u.refreshing[task].ids;
      var found := VisitFinds(w, ids, i);
      if found.Some? {
        Starts(AddBundleInfo(AfterDelete(m.devices[i], i, ids, m.callback), found.value), am);
      } else if i == id {
        StillStarted(m.devices[i], AfterDelete(m.devices[i], i, ids, m.callback), dropped);
      }
    }
  }

  lemma UnbindSame(d: DeviceState, token: Token, byDriver: bool, r: AmResult)
    ensures var u := Unbind(d, token, byDriver, r); u.device == d.(callers := u.device.callers)
  {
    hide Disconnect; hide IsLastCaller;
  }

  lemma DetachStarted(w: World, i: Id, r: AmResult, id: Id, dropped: bool)
    requires id in w.manager.devices ==> StartedOk(w.manager.devices[id], dropped)
    ensures var m := Step(w, Detach(i, r)).world.manager; id in m.devices ==> StartedOk(m.devices[id], dropped)
  {
    hide Disconnect; hide StartedOk;
    var m, m' := w.manager, Step(w, Detach(i, r)).world.manager;
    if id in m'.devices {
      StillStarted(m.devices[id], m'.devices[id], dropped);
    }
  }

  lemma NextStarted(w: World, e: Event, id: Id, dropped: bool)
    requires id in w.manager.devices ==> StartedOk(w.manager.devices[id], dropped)
    ensures var m := Step(w, e).world.manager;
            id in m.devices ==> StartedOk(m.devices[id], dropped || (e.DisconnectDone? && e.id == id))
  {
    hide Register; hide UnRegister; hide StepVisit; hide KeptIndex; hide DeletedIds; hide Committed; hide Bind;
    hide Unbind; hide GetBundleName; hide GetAbilityName;
    match e
    case Attach(info, am) => AttachStarted(w, info, am, id, dropped);
    case Detach(i, r) => DetachStarted(w, i, r, id, dropped);
    case Visit(task, i, am) => VisitStarted(w, task, i, am, id, dropped);
    case BindClient(i, token, _, reg, r) =>
      if i in w.manager.devices { BindMeaning(w.manager.devices[i], token, reg, r); }
    case UnbindClient(i, token, byDriver, r) =>
      if i in w.manager.devices { UnbindSame(w.manager.devices[i], token, byDriver, r); }
    case _ =>
  }

  lemma {:induction false} StartedAlways(w: World, es: seq<Event>, id: Id)
    requires Initial(w)
    ensures var m := Run(w, es).manager; id in m.devices ==> StartedOk(m.devices[id], Dropped(es, id))
    decreases |es|
  {
    hide Step; hide StartedOk;
    if es != [] {
      var prefix, e := es[..|es| - 1], es[|es| - 1];
      StartedAlways(w, prefix, id);
      NextStarted(Run(w, prefix), e, id, Dropped(prefix, id));
      assert es == prefix + [e];
      assert Dropped(es, id) <==> Dropped(prefix, id) || (e.DisconnectDone? && e.id == id);
    }
  }

  lemma ServedNames(w: World, id: Id)
    requires Inv(w) && Attached(w.manager, id) && w.manager.devices[id].bundleInfo != ""
    ensures var d := w.manager.devices[id];
            && d.driver.Some?
            && GetBundleName(d.bundleInfo) == d.driver.value.bundleName
            && GetAbilityName(d.bundleInfo) == d.driver.value.driverName
  {
    hide IndexOk; hide SearchOk; hide FirstMatch; hide Due; hide GetBundleName; hide GetAbilityName; hide HasDash;
    var d := w.manager.devices[id];
    assert DeviceOk(d, id, w.manager.callback, w.manager.index, w.rows, w.updates);
    SplitKey(d.driver.value.bundleName, d.driver.value.driverName);
  }

  /** In every run, a device with a driver that is not launched on bind has had that driver started: the connection
      recorded is the one with the driver's own names and the number of the device, or, once a driver of the device has
      disconnected, none. */
  lemma StartedInEveryRun(w: World, es: seq<Event>, id: Id)
    requires Initial(w) && RunEnabled(w, es) && Attached(Run(w, es).manager, id)
    ensures var d := Run(w, es).manager.devices[id];
            d.bundleInfo != "" ==>
              && d.driver.Some?
              && var driver := d.driver.value;
                 var own := Notify(Some(ConnInfo(driver.bundleName, driver.driverName, d.info.busDevId)));
                 && (!driver.meta.launchOnBind && !Dropped(es, id) ==> d.notify == own)
                 && (!driver.meta.launchOnBind ==> d.notify == own || d.notify == Notify(None))
  {
    hide Run; hide RunEnabled; hide Inv; hide Dropped; hide GetBundleName; hide GetAbilityName;
    InitialInv(w);
    RunKeeps(w, es);
    StartedAlways(w, es, id);
    if Run(w, es).manager.devices[id].bundleInfo != "" {
      ServedNames(Run(w, es), id);
    }
  }

  /** When the driver of an attached device disconnects, nothing is left of it: no remote, no client, and no connection
      that would keep the next start from its first attempt. Key and driver stay. */
  lemma DisconnectForgets(w: World, id: Id)
    requires Attached(w.manager, id)
    ensures var m, v := w.manager, Step(w, DisconnectDone(id)).world.manager;
            && Attached(v, id) && !v.devices[id].remote && v.devices[id].callers == map[]
            && !Stale(v.devices[id].notify) && (m.devices[id].notify.Notify? ==> v.devices[id].notify.Notify?)
            && v.devices[id].bundleInfo == m.devices[id].bundleInfo && v.devices[id].driver == m.devices[id].driver
            && v.index == m.index
  {
  }

  // --- stopping ------------------------------------------------------------------------------------------------

  lemma SameDisconnect(d: DeviceState, r: AmResult)
    ensures Disconnect(d.(unregistered := true), r) == Disconnect(d, r)
  {
  }

  /** Detaching a device that takes the last id out of its entry stops the driver: it succeeds exactly when the
      connection was cleared already or is the driver's own and the ability manager agrees. Any other detach succeeds
      without asking. */
  lemma DetachStops(m: Manager, id: Id, r: AmResult)
    requires forall k | k in m.index :: m.index[k] != {}
    ensures var status := UnRegister(m, id, r).status;
            if id !in m.devices then status == Ok
            else
              var d := m.devices[id];
              if d.bundleInfo == "" || |IdsAt(m.index, d.bundleInfo)| != 1 then status == Ok
              else
                && (status == Ok <==> d.notify == Notify(None) || (d.notify == Own(d) && r == Code(0)))
                && (d.notify == Own(d) ==> Answered(status, r))
  {
    hide Disconnect; hide GetBundleName; hide GetAbilityName;
    if id in m.devices {
      var d := m.devices[id];
      DisconnectMeaning(d, r);
      DisconnectMeaning(d.(unregistered := true), r);
      assert d.bundleInfo in m.index ==> |m.index[d.bundleInfo]| > 0;
      SameDisconnect(d, r);
    }
  }

  /** In every run, the detach of a device that is alone in its entry and whose driver the manager started asks the
      ability manager to stop it, and gets its answer. */
  lemma DetachAsks(w: World, es: seq<Event>, id: Id, r: AmResult)
    requires Initial(w) && RunEnabled(w, es) && !Dropped(es, id)
    requires var m := Run(w, es).manager;
             && Attached(m, id) && ManagerStarts(m.devices[id])
             && |IdsAt(m.index, m.devices[id].bundleInfo)| == 1
    ensures Answered(Step(Run(w, es), Detach(id, r)).status, r)
  {
    hide Run; hide RunEnabled; hide Inv; hide Dropped; hide UnRegister; hide Own; hide Due;
    TableInEveryRun(w, es);
    StartedAlways(w, es, id);
    DetachStops(Run(w, es).manager, id, r);
  }
}
