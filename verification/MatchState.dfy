/** What holds of every state of the matching service, and what one change to it leaves alone. */
module MatchState {
  import opened Options
  import opened DriverPackages
  import opened DeviceSpec
  import opened MatchSpec

  // --- the invariant -------------------------------------------------------------------------------------------

  /** A device without a driver is one that no row matches, or that a refresh will visit. */
  predicate Unserved(d: DeviceState, id: Id, callback: bool, rows: seq<PkgInfo>, u: Updates) {
    && !d.remote && d.driverUid == "" && (callback ==> d.driver == None)
    && (FirstMatch(rows, d.info) == None || VisitComing(u, id))
  }

  /** A device with a driver is filed and has the first match, or is due to be released and matched again. Until then
      it is filed, if at all, under a key that is right or whose bundle is being updated. */
  predicate Served(d: DeviceState, id: Id, index: MatchMap, rows: seq<PkgInfo>, u: Updates) {
    && d.driver.Some?
    && var driver := d.driver.value;
       && BundleNamed(driver.bundleName) && d.bundleInfo == KeyOf(driver.bundleName, driver.driverName)
       && d.driverUid == driver.driverUid
       && var filed := id in IdsAt(index, d.bundleInfo);
          || (filed && FirstMatch(rows, d.info) == d.driver)
          || (Due(u, index, id) &&
              (filed ==> driver.bundleName in u.pending || FirstKey(rows, d.info) == Some(d.bundleInfo)))
  }

  predicate DeviceOk(d: DeviceState, id: Id, callback: bool, index: MatchMap, rows: seq<PkgInfo>, u: Updates) {
    && DeviceId(d.info) == id
    && (!d.unregistered ==>
          if d.bundleInfo == "" then Unserved(d, id, callback, rows, u) else Served(d, id, index, rows, u))
  }

  predicate DevicesOk(m: Manager, rows: seq<PkgInfo>, u: Updates) {
    forall id | id in m.devices :: DeviceOk(m.devices[id], id, m.callback, m.index, rows, u)
  }

  /** An id under a key is that of an attached device with that key, or left over under a bundle being updated. */
  predicate EntryOk(devices: map<Id, DeviceState>, id: Id, key: string, pending: multiset<string>) {
    || (id in devices && !devices[id].unregistered && devices[id].bundleInfo == key)
    || GetBundleName(key) in pending
  }

  predicate IndexOk(m: Manager, pending: multiset<string>) {
    && (forall k | k in m.index :: m.index[k] != {} && HasDash(k))
    && (forall k, id | k in m.index && id in m.index[k] :: EntryOk(m.devices, id, k, pending))
  }

  /** Since the search, a device that is still filed is so under the key found, or its bundle is being updated. */
  predicate FoundOk(found: Option<DriverInfo>, m: Manager, id: Id, pending: multiset<string>) {
    id in m.devices && m.devices[id].bundleInfo != "" && Filed(m, id) ==>
      KeyFor(found) == Some(m.devices[id].bundleInfo) || GetBundleName(m.devices[id].bundleInfo) in pending
  }

  predicate SearchOk(w: World) {
    w.search.Some? ==>
      var s := w.search.value;
      && (s.found.Some? ==> BundleNamed(s.found.value.bundleName))
      && (DeviceId(s.info) in w.manager.devices ==>
            && Attached(w.manager, DeviceId(s.info)) && w.manager.devices[DeviceId(s.info)].info == s.info
            && (s.finder == None ==> w.manager.devices[DeviceId(s.info)].bundleInfo == ""))
      && FoundOk(s.found, w.manager, DeviceId(s.info), w.updates.pending)
  }

  predicate Inv(w: World) {
    && WellNamed(w.rows) && (forall name | name in w.updates.pending :: BundleNamed(name))
    && DevicesOk(w.manager, w.rows, w.updates) && IndexOk(w.manager, w.updates.pending) && SearchOk(w)
  }

  // --- facts about one device ----------------------------------------------------------------------------------

  /** What connecting leaves alone. */
  predicate SameMatch(d: DeviceState, d': DeviceState) {
    && d'.info == d.info && d'.bundleInfo == d.bundleInfo && d'.driverUid == d.driverUid && d'.driver == d.driver
    && d'.unregistered == d.unregistered
  }

  lemma ConnectSame(d: DeviceState, am: nat -> AmResult)
    ensures SameMatch(d, Connect(d, am).device) && (Connect(d, am).device.remote ==> d.remote)
  {
    hide Connect;
    ConnectMeaning(d, am);
  }

  lemma FirstMatchNamed(rows: seq<PkgInfo>, info: DeviceInfo)
    requires WellNamed(rows) && FirstMatch(rows, info).Some?
    ensures BundleNamed(FirstMatch(rows, info).value.bundleName)
  {
    hide Matches; hide BundleNamed;
    if !Matches(rows[0], info) {
      FirstMatchNamed(rows[1..], info);
    }
  }

  lemma KeyNotEmpty(driver: DriverInfo)
    requires BundleNamed(driver.bundleName)
    ensures var k := KeyOf(driver.bundleName, driver.driverName);
            k != "" && HasDash(k) && GetBundleName(k) == driver.bundleName
  {
    SplitKey(driver.bundleName, driver.driverName);
  }

  lemma DashNotEmpty(k: string)
    ensures HasDash(k) ==> k != ""
  {
  }

  lemma FiledAt(index: MatchMap, key: string, id: Id)
    ensures id in IdsAt(index[key := IdsAt(index, key) + {id}], key)
  {
  }

  // --- what is on its way --------------------------------------------------------------------------------------

  /** A device stays due as long as no entry of it goes and no refresh visits it. */
  lemma StillDue(u: Updates, u': Updates, index: MatchMap, index': MatchMap, id: Id)
    requires Due(u, index, id) && (forall name | name in u.pending :: name in u'.pending)
    requires forall t | t in u.refreshing ::
               t in u'.refreshing && u.refreshing[t].ids == u'.refreshing[t].ids
               && (id in u.refreshing[t].visited <==> id in u'.refreshing[t].visited)
    requires forall k | k in index && id in index[k] :: id in IdsAt(index', k)
    ensures Due(u', index', id)
  {
    hide GetBundleName;
    if Waiting(u.refreshing, id) {
      var t :| t in u.refreshing && id in u.refreshing[t].ids && id !in u.refreshing[t].visited;
      assert t in u'.refreshing;
    } else {
      var k :| k in index && id in index[k] && GetBundleName(k) in u.pending;
      assert k in index';
    }
  }

  lemma StillComing(u: Updates, u': Updates, id: Id)
    requires VisitComing(u, id) && (forall name | name in u.pending :: name in u'.pending)
    requires forall t | t in u.refreshing ::
               t in u'.refreshing && (id in u.refreshing[t].visited <==> id in u'.refreshing[t].visited)
    ensures VisitComing(u', id)
  {
    if u.pending != multiset{} {
      var name :| name in u.pending;
      assert name in u'.pending;
    } else {
      var t :| t in u.refreshing && id !in u.refreshing[t].visited;
      assert t in u'.refreshing;
    }
  }

  // --- one device changes --------------------------------------------------------------------------------------

  /** The refreshes under way are as before for every device but one. */
  predicate SameBut(u: Updates, u': Updates, id: Id) {
    && u'.pending == u.pending && u'.refreshing.Keys == u.refreshing.Keys
    && forall t | t in u.refreshing ::
         && u'.refreshing[t].ids == u.refreshing[t].ids
         && u'.refreshing[t].visited - {id} == u.refreshing[t].visited - {id}
  }

  /** A device that did not change, in a table that gained nothing but another id. */
  lemma SameForOthers(d: DeviceState, i: Id, callback: bool, index: MatchMap, index': MatchMap, rows: seq<PkgInfo>,
                      u: Updates, u': Updates, id: Id)
    requires DeviceOk(d, i, callback, index, rows, u) && SameBut(u, u', id) && i != id
    requires forall k :: i in IdsAt(index, k) <==> i in IdsAt(index', k)
    ensures DeviceOk(d, i, callback, index', rows, u')
  {
    hide Matches; hide FirstMatch; hide FirstKey; hide KeyOf; hide DeviceId; hide BundleNamed; hide GetBundleName;
    hide Waiting; hide Due; hide VisitComing;
    assert forall t | t in u.refreshing :: i in u'.refreshing[t].visited <==> i in u.refreshing[t].visited by {
      assert forall t | t in u.refreshing ::
               i in u'.refreshing[t].visited - {id} <==> i in u.refreshing[t].visited - {id};
    }
    if Due(u, index, i) {
      assert forall k | k in index && i in index[k] :: i in IdsAt(index, k);
      StillDue(u, u', index, index', i);
    }
    if VisitComing(u, i) {
      StillComing(u, u', i);
    }
  }

  /** One device is new or rematched, and filed under its key if it has one. */
  lemma FileKeeps(m: Manager, m': Manager, id: Id, key: string, rows: seq<PkgInfo>, u: Updates, u': Updates)
    requires DevicesOk(m, rows, u) && IndexOk(m, u.pending) && SameBut(u, u', id)
    requires m'.callback == m.callback && id in m'.devices && m'.devices == m.devices[id := m'.devices[id]]
    requires m'.index == if key == "" then m.index else m.index[key := IdsAt(m.index, key) + {id}]
    requires key != "" ==> HasDash(key) && !m'.devices[id].unregistered && m'.devices[id].bundleInfo == key
    requires DeviceOk(m'.devices[id], id, m.callback, m'.index, rows, u')
    requires forall k | k in m.index && id in m.index[k] :: EntryOk(m'.devices, id, k, u.pending)
    ensures DevicesOk(m', rows, u') && IndexOk(m', u.pending)
  {
    hide DeviceOk; hide DashAt; hide GetBundleName; hide SameBut;
    forall i | i in m'.devices ensures DeviceOk(m'.devices[i], i, m'.callback, m'.index, rows, u') {
      if i != id {
        assert DeviceOk(m.devices[i], i, m.callback, m.index, rows, u);
        SameForOthers(m.devices[i], i, m.callback, m.index, m'.index, rows, u, u', id);
      }
    }
    forall k, i | k in m'.index && i in m'.index[k] ensures EntryOk(m'.devices, i, k, u.pending) {
      if k in m.index && i in m.index[k] {
        assert EntryOk(m.devices, i, k, u.pending);
      }
    }
  }

  /** Filing one more id makes nobody less due. */
  lemma DueWithKey(u: Updates, index: MatchMap, key: string, id: Id, i: Id)
    requires Due(u, index, i)
    ensures Due(u, index[key := IdsAt(index, key) + {id}], i)
  {
    hide Due; hide GetBundleName;
    var index' := index[key := IdsAt(index, key) + {id}];
    forall k | k in index && i in index[k] ensures i in IdsAt(index', k) {
    }
    StillDue(u, u, index, index', i);
  }

  lemma DueByEntry(u: Updates, index: MatchMap, key: string, id: Id)
    requires id in IdsAt(index, key) && GetBundleName(key) in u.pending
    ensures Due(u, index, id)
  {
    hide GetBundleName; hide Waiting;
  }

  /** A device bound to the driver that was found, and filed under its key. */
  lemma FoundFiled(d: DeviceState, d': DeviceState, id: Id, driver: DriverInfo, callback: bool, index: MatchMap,
                   rows: seq<PkgInfo>, u: Updates)
    requires DeviceId(d.info) == id && BundleNamed(driver.bundleName) && SameMatch(AddBundleInfo(d, driver), d')
    requires FilingOk(Some(driver), rows, d.info, u, index, id)
    ensures var key := KeyOf(driver.bundleName, driver.driverName);
            && key != "" && HasDash(key)
            && DeviceOk(d', id, callback, index[key := IdsAt(index, key) + {id}], rows, u)
  {
    hide KeyOf; hide DeviceId; hide FirstMatch; hide BundleNamed; hide HasDash; hide GetBundleName; hide Waiting;
    hide IdsAt; hide Due;
    var key := KeyOf(driver.bundleName, driver.driverName);
    var index' := index[key := IdsAt(index, key) + {id}];
    KeyNotEmpty(driver);
    FiledAt(index, key, id);
    if driver.bundleName in u.pending {
      DueByEntry(u, index', key, id);
    } else if FirstMatch(rows, d.info) != Some(driver) {
      DueWithKey(u, index, key, id, id);
    }
  }
}
