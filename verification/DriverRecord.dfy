/** The record of a former driver, which is dropped only when there is a callback to tell. */
module DriverRecord {
  import opened Options
  import opened DriverPackages
  import opened DeviceSpec
  import opened MatchSpec
  import opened MatchState

  /** The device has had a driver since it came. */
  predicate HadDriver(w: World, es: seq<Event>, id: Id)
    decreases |es|
  {
    var m := Run(w, es).manager;
    id in m.devices && (m.devices[id].bundleInfo != "" || (es != [] && HadDriver(w, es[..|es| - 1], id)))
  }

  lemma RecordRegister(m: Manager, info: DeviceInfo, found: Option<DriverInfo>, am: nat -> AmResult, id: Id)
    requires id in m.devices && m.devices[id].bundleInfo != "" ==> m.devices[id].driver.Some?
    ensures var m' := Register(m, info, found, am).manager;
            && m'.callback == m.callback
            && (id in m'.devices ==>
                  (m'.devices[id].driver.Some? <==>
                     m'.devices[id].bundleInfo != "" || (id in m.devices && m.devices[id].driver.Some?)))
  {
    hide Connect; hide DeviceId; hide IdsAt;
    var d := if DeviceId(info) in m.devices then m.devices[DeviceId(info)] else NewDevice(info);
    ConnectSame(d, am);
    if found.Some? {
      ConnectSame(AddBundleInfo(d, found.value), am);
    }
  }

  lemma RecordVisit(d: DeviceState, id: Id, ids: set<Id>, found: Option<DriverInfo>, am: nat -> AmResult)
    requires d.bundleInfo != "" ==> d.driver.Some?
    ensures var d' := Rebound(d, id, ids, false, found, am);
            d'.driver.Some? <==> d'.bundleInfo != "" || d.driver.Some?
  {
    hide Connect;
    if found.Some? {
      ConnectSame(AddBundleInfo(AfterDelete(d, id, ids, false), found.value), am);
    }
  }

  /** Without a callback no step drops the record of a driver. */
  lemma RecordStep(w: World, e: Event, id: Id)
    requires !w.manager.callback
    requires id in w.manager.devices && w.manager.devices[id].bundleInfo != "" ==> w.manager.devices[id].driver.Some?
    ensures var m, m' := w.manager, Step(w, e).world.manager;
            && !m'.callback
            && (id in m'.devices ==>
                  (m'.devices[id].driver.Some? <==>
                     m'.devices[id].bundleInfo != "" || (id in m.devices && m.devices[id].driver.Some?)))
  {
    hide Connect; hide FirstMatch; hide DeviceId; hide KeptIndex; hide DeletedIds; hide Disconnect; hide Committed;
    hide Rematch; hide KeyOf; hide IdsAt; hide ConnectDriverExtension; hide MarkVisited;
    match e
    case Attach(info, am) => RecordRegister(w.manager, info, AttachFinds(w, info), am, id);
    case Visit(task, i, am) =>
      if i == id && id in w.manager.devices && task in w.updates.refreshing {
        var ids := w.updates.refreshing[task].ids;
        RecordVisit(w.manager.devices[id], id, ids, VisitFinds(w, ids, id), am);
      }
    case _ =>
  }

  /** Without a callback a device has the record of a driver exactly when it has had a driver since it came, even if no
      row matches it any more. */
  lemma {:induction false} RecordStays(w: World, es: seq<Event>, id: Id)
    requires Initial(w) && !w.manager.callback
    ensures var m := Run(w, es).manager;
            !m.callback && (id in m.devices ==> (m.devices[id].driver.Some? <==> HadDriver(w, es, id)))
    decreases |es|
  {
    hide Step;
    if es != [] {
      var prefix := es[..|es| - 1];
      RecordStays(w, prefix, id);
      RecordStep(Run(w, prefix), es[|es| - 1], id);
    }
  }
}
