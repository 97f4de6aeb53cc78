/** What every step of the matching service keeps, and what it means once no update is on its way: the drivers of the
    attached devices and the match table are those of the plain definition, the first matching row. */
module MatchInvariant {
  import opened Options
  import opened DriverPackages
  import opened DeviceSpec
  import opened MatchSpec
  import opened MatchRefresh
  import opened MatchState

  // --- search --------------------------------------------------------------------------------------------------

  lemma LookUpKeeps(w: World, finder: Option<Task>, info: DeviceInfo)
    requires Inv(w) && Enabled(w, LookUp(finder, info))
    ensures Inv(Step(w, LookUp(finder, info)).world)
  {
    hide FirstMatch; hide KeyOf; hide DeviceId; hide WellNamed; hide BundleNamed; hide GetBundleName; hide HasDash;
    hide Due; hide VisitComing; hide IndexOk;
    var m, id := w.manager, DeviceId(info);
    if FirstMatch(w.rows, info).Some? {
      FirstMatchNamed(w.rows, info);
    }
    if id in m.devices && m.devices[id].bundleInfo != "" {
      assert DeviceOk(m.devices[id], id, m.callback, m.index, w.rows, w.updates);
      KeyNotEmpty(m.devices[id].driver.value);
    }
  }

  // --- attach --------------------------------------------------------------------------------------------------

  lemma SameKey(devices: map<Id, DeviceState>, devices': map<Id, DeviceState>, id: Id, k: string,
                pending: multiset<string>)
    requires EntryOk(devices, id, k, pending) && k != "" && id in devices'
    requires id in devices && devices[id].bundleInfo != "" ==> devices'[id].bundleInfo == devices[id].bundleInfo
    requires !devices'[id].unregistered
    ensures EntryOk(devices', id, k, pending)
  {
    hide GetBundleName;
  }

  /** A device without a driver that is announced gets the driver that was found. */
  lemma AttachBare(d: DeviceState, id: Id, callback: bool, index: MatchMap, rows: seq<PkgInfo>, u: Updates,
                   found: Option<DriverInfo>, am: nat -> AmResult)
    requires !d.unregistered && DeviceId(d.info) == id && d.bundleInfo == "" && !d.remote && d.driverUid == ""
    requires callback ==> d.driver == None
    requires found.Some? ==> BundleNamed(found.value.bundleName)
    requires FilingOk(found, rows, d.info, u, index, id)
    ensures var r := RegisterFound(index, d, id, found, am);
            && DeviceOk(r.device, id, callback, r.index, rows, u) && !r.device.unregistered
            && r.index == WithKey(index, KeyFor(found), id)
            && r.device.bundleInfo == (if found.Some? then KeyFor(found).value else "")
            && (found.Some? ==> HasDash(KeyFor(found).value))
  {
    hide Connect; hide BundleNamed; hide FirstMatch; hide GetBundleName; hide HasDash; hide KeyOf; hide DeviceId;
    hide Waiting; hide Due; hide VisitComing; hide Served; hide IdsAt;
    if found.Some? {
      ConnectSame(AddBundleInfo(d, found.value), am);
      KeyNotEmpty(found.value);
      FoundFiled(d, RegisterFound(index, d, id, found, am).device, id, found.value, callback, index, rows, u);
    }
  }

  /** A device that has a driver is filed again under its key. */
  lemma AttachKeyed(m: Manager, d: DeviceState, id: Id, rows: seq<PkgInfo>, u: Updates, found: Option<DriverInfo>,
                    am: nat -> AmResult)
    requires id in m.devices && m.devices[id] == d && DeviceOk(d, id, m.callback, m.index, rows, u)
    requires !d.unregistered && d.bundleInfo != "" && RefilingOk(m, rows, u, id)
    ensures var r := RegisterFound(m.index, d, id, found, am);
            && DeviceOk(r.device, id, m.callback, r.index, rows, u) && !r.device.unregistered
            && r.index == m.index[d.bundleInfo := IdsAt(m.index, d.bundleInfo) + {id}]
            && r.device.bundleInfo == d.bundleInfo && HasDash(d.bundleInfo)
  {
    hide Connect; hide BundleNamed; hide FirstMatch; hide GetBundleName; hide HasDash; hide KeyOf; hide DeviceId;
    hide Due; hide IdsAt; hide FirstKey;
    ConnectSame(d, am);
    KeyNotEmpty(d.driver.value);
    FiledAt(m.index, d.bundleInfo, id);
    if Due(u, m.index, id) {
      DueWithKey(u, m.index, d.bundleInfo, id, id);
    }
  }

  lemma FoundKeyed(found: Option<DriverInfo>)
    ensures KeyFor(found).Some? <==> found.Some?
    ensures found.Some? ==> KeyFor(found).value != ""
  {
  }

  lemma BareState(m: Manager, d: DeviceState, id: Id, info: DeviceInfo, rows: seq<PkgInfo>, u: Updates)
    requires d == if id in m.devices then m.devices[id] else NewDevice(info)
    requires id in m.devices ==> Attached(m, id) && d.info == info && DeviceOk(d, id, m.callback, m.index, rows, u)
    requires d.bundleInfo == ""
    ensures !d.unregistered && d.info == info && !d.remote && d.driverUid == "" && (m.callback ==> d.driver == None)
  {
    hide DeviceId; hide FirstMatch; hide VisitComing;
  }

  lemma AttachKeeps(w: World, info: DeviceInfo, am: nat -> AmResult)
    requires Inv(w) && Enabled(w, Attach(info, am))
    ensures Inv(Step(w, Attach(info, am)).world)
  {
    hide RegisterFound; hide WellNamed; hide BundleNamed; hide GetBundleName; hide HasDash; hide DeviceId;
    hide DeviceOk; hide EntryOk; hide FilingOk; hide RefilingOk; hide KeyFor; hide FirstMatch;
    var m, id, found := w.manager, DeviceId(info), AttachFinds(w, info);
    var d := if id in m.devices then m.devices[id] else NewDevice(info);
    if !d.remote {
      var r := RegisterFound(m.index, d, id, found, am);
      if found.Some? && w.search == None {
        FirstMatchNamed(w.rows, info);
      }
      if id in m.devices {
        assert DeviceOk(d, id, m.callback, m.index, w.rows, w.updates);
      }
      if d.bundleInfo != "" {
        AttachKeyed(m, d, id, w.rows, w.updates, found, am);
      } else {
        BareState(m, d, id, info, w.rows, w.updates);
        AttachBare(d, id, m.callback, m.index, w.rows, w.updates, found, am);
      }
      var m' := Register(m, info, found, am).manager;
      forall k | k in m.index && id in m.index[k] ensures EntryOk(m'.devices, id, k, w.updates.pending) {
        DashNotEmpty(k);
        SameKey(m.devices, m'.devices, id, k, w.updates.pending);
      }
      FoundKeyed(found);
      FileKeeps(m, m', id, r.device.bundleInfo, w.rows, w.updates, w.updates);
    }
  }

  // --- commit --------------------------------------------------------------------------------------------------

  lemma MorePending(devices: map<Id, DeviceState>, id: Id, key: string, pending: multiset<string>, name: string)
    requires EntryOk(devices, id, key, pending)
    ensures EntryOk(devices, id, key, pending + multiset{name})
  {
    hide GetBundleName;
  }

  /** Devices with the same key have drivers of the same bundle. */
  lemma SameBundle(driver: DriverInfo, other: DriverInfo)
    requires BundleNamed(driver.bundleName) && BundleNamed(other.bundleName)
    requires KeyOf(driver.bundleName, driver.driverName) == KeyOf(other.bundleName, other.driverName)
    ensures driver.bundleName == other.bundleName
  {
    hide KeyOf;
    SplitKey(driver.bundleName, driver.driverName);
    SplitKey(other.bundleName, other.driverName);
  }

  lemma InEntries(index: MatchMap, id: Id)
    ensures forall k | k in index && id in index[k] :: id in IdsAt(index, k)
  {
  }

  lemma CommitDevice(d: DeviceState, id: Id, callback: bool, index: MatchMap, rows: seq<PkgInfo>, u: Updates,
                     name: string, added: seq<PkgInfo>)
    requires DeviceOk(d, id, callback, index, rows, u) && WellNamed(rows) && name != ""
    ensures DeviceOk(d, id, callback, index, Committed(rows, name, added),
                     u.(pending := u.pending + multiset{name}))
  {
    hide FirstMatch; hide KeyOf; hide DeviceId; hide Committed; hide BundleNamed; hide IdsAt; hide Waiting; hide Due;
    hide GetBundleName; hide WellNamed;
    var u' := u.(pending := u.pending + multiset{name});
    if d.unregistered {
    } else if d.bundleInfo == "" {
      assert name in u'.pending;
    } else {
      var driver := d.driver.value;
      KeyNotEmpty(driver);
      if Due(u, index, id) {
        assert forall k | k in index && id in index[k] :: id in IdsAt(index, k) by { InEntries(index, id); }
        StillDue(u, u', index, index, id);
      } else if driver.bundleName == name {
        DueByEntry(u', index, d.bundleInfo, id);
      }
      if driver.bundleName != name && FirstKey(rows, d.info) == Some(d.bundleInfo) {
        FirstMatchNamed(rows, d.info);
        SameBundle(driver, FirstMatch(rows, d.info).value);
        CommitKeepsOtherMatches(rows, name, added, d.info);
      }
    }
  }

  lemma CommitKeeps(w: World, name: string, added: seq<PkgInfo>)
    requires Inv(w) && Enabled(w, Commit(name, added))
    ensures Inv(Step(w, Commit(name, added)).world)
  {
    hide DeviceOk; hide EntryOk; hide HasDash; hide Deleted; hide Filed; hide KeyFor; hide GetBundleName; hide DeviceId;
    var m, w' := w.manager, Step(w, Commit(name, added)).world;
    forall row | row in w'.rows ensures BundleNamed(row.bundleName) {
      DeletedMeaning(w.rows, Replaced(name), row);
    }
    forall id | id in m.devices ensures DeviceOk(m.devices[id], id, m.callback, m.index, w'.rows, w'.updates) {
      CommitDevice(m.devices[id], id, m.callback, m.index, w.rows, w.updates, name, added);
    }
    forall k, id | k in m.index && id in m.index[k] ensures EntryOk(m.devices, id, k, w'.updates.pending) {
      MorePending(m.devices, id, k, w.updates.pending, name);
    }
  }

  // --- detach --------------------------------------------------------------------------------------------------

  lemma OnlyOne(s: set<Id>, id: Id)
    requires id in s && |s| <= 1
    ensures s == {id}
  {
    assert |s - {id}| == 0;
  }

  lemma NotAlone(s: set<Id>, id: Id)
    requires |s| > 1
    ensures s - {id} != {}
  {
    assert |s - {id}| >= |s| - 1;
  }

  /** A device that does without an entry that goes. */
  lemma WithoutEntry(m: Manager, i: Id, key: string, rows: seq<PkgInfo>, u: Updates)
    requires i in m.devices && DeviceOk(m.devices[i], i, m.callback, m.index, rows, u)
    requires DoesWithout(m, rows, u, key, i)
    ensures DeviceOk(m.devices[i], i, m.callback, m.index - {key}, rows, u)
  {
    hide FirstMatch; hide KeyOf; hide DeviceId; hide BundleNamed; hide Due; hide VisitComing;
  }

  /** What taking device `id` off the table makes of the table. */
  function Removed(index: MatchMap, key: string, id: Id): MatchMap {
    if key == "" then index
    else if |IdsAt(index, key)| > 1 then index[key := IdsAt(index, key) - {id}]
    else index - {key}
  }

  lemma DetachOther(m: Manager, id: Id, i: Id, rows: seq<PkgInfo>, u: Updates)
    requires id in m.devices && RemovalOk(m, rows, u, id) && i in m.devices && i != id
    requires DeviceOk(m.devices[i], i, m.callback, m.index, rows, u)
    ensures DeviceOk(m.devices[i], i, m.callback, Removed(m.index, m.devices[id].bundleInfo, id), rows, u)
  {
    hide DeviceOk; hide DoesWithout;
    var key := m.devices[id].bundleInfo;
    var index' := Removed(m.index, key, id);
    if key != "" && key in m.index && |m.index[key]| <= 1 && i in m.index[key] {
      assert |m.index[key]| == 1 by { OnlyOne(m.index[key], i); }
      WithoutEntry(m, i, key, rows, u);
    } else {
      assert SameBut(u, u, id);
      SameForOthers(m.devices[i], i, m.callback, m.index, index', rows, u, u, id);
    }
  }

  lemma DetachEntry(m: Manager, devices: map<Id, DeviceState>, id: Id, k: string, i: Id, pending: multiset<string>)
    requires IndexOk(m, pending) && id in m.devices && devices - {id} == m.devices - {id}
    requires var index' := Removed(m.index, m.devices[id].bundleInfo, id); k in index' && i in index'[k]
    ensures EntryOk(devices, i, k, pending)
  {
    hide GetBundleName; hide HasDash;
    assert k in m.index && i in m.index[k] && EntryOk(m.devices, i, k, pending);
    assert i != id && i in m.devices ==> i in m.devices - {id} && devices[i] == (devices - {id})[i];
    if i == id && m.devices[id].bundleInfo == k {
      DashNotEmpty(k);
      assert false;
    }
  }

  lemma RemovedIndex(index: MatchMap, d: DeviceState, id: Id, callback: bool, r: AmResult)
    ensures var t := if d.bundleInfo == "" then TableResult(index, d, Ok) else RemoveDevId(index, d, id, callback, r);
            t.index == Removed(index, d.bundleInfo, id) && t.device.info == d.info
            && t.device.unregistered == d.unregistered
  {
    hide Disconnect;
    if d.bundleInfo !in index {
      assert index - {d.bundleInfo} == index;
    }
  }

  lemma UnRegistered(m: Manager, id: Id, r: AmResult)
    requires id in m.devices
    ensures var m' := UnRegister(m, id, r).manager;
            && m'.callback == m.callback && m'.devices - {id} == m.devices - {id}
            && m'.devices.Keys <= m.devices.Keys
            && (id in m'.devices ==> m'.devices[id].unregistered && m'.devices[id].info == m.devices[id].info)
            && m'.index == Removed(m.index, m.devices[id].bundleInfo, id)
  {
    hide RemoveDevId; hide Removed;
    var d, m' := m.devices[id], UnRegister(m, id, r).manager;
    RemovedIndex(m.index, if d.remote then d.(unregistered := true) else d, id, m.callback, r);
    assert (m.devices - {id}) - {id} == m.devices - {id};
    if id in m'.devices {
      assert m'.devices == m.devices[id := m'.devices[id]];
      assert m.devices[id := m'.devices[id]] - {id} == m.devices - {id};
    }
  }

  lemma MarkedOk(d: DeviceState, d': DeviceState, id: Id, callback: bool, index: MatchMap, index': MatchMap,
                 rows: seq<PkgInfo>, u: Updates)
    requires DeviceOk(d, id, callback, index, rows, u) && d'.unregistered && d'.info == d.info
    ensures DeviceOk(d', id, callback, index', rows, u)
  {
    hide DeviceId; hide Served; hide Unserved;
  }

  lemma RemovedKeys(index: MatchMap, key: string, id: Id, k: string)
    requires k in Removed(index, key, id) && k in index ==> index[k] != {}
    ensures k in Removed(index, key, id) ==> k in index && Removed(index, key, id)[k] != {}
  {
    if key in index && |index[key]| > 1 {
      NotAlone(index[key], id);
    }
  }

  lemma DetachKeeps(w: World, id: Id, r: AmResult)
    requires Inv(w) && Enabled(w, Detach(id, r))
    ensures Inv(Step(w, Detach(id, r)).world)
  {
    hide DeviceOk; hide EntryOk; hide HasDash; hide DeviceId; hide Disconnect; hide WellNamed; hide RemovalOk;
    hide Removed;
    var m, u := w.manager, w.updates;
    if id in m.devices {
      var m' := UnRegister(m, id, r).manager;
      var key := m.devices[id].bundleInfo;
      UnRegistered(m, id, r);
      forall i | i in m'.devices ensures DeviceOk(m'.devices[i], i, m'.callback, m'.index, w.rows, u) {
        assert i != id ==> i in m'.devices - {id} && m'.devices[i] == (m.devices - {id})[i];
        assert DeviceOk(m.devices[i], i, m.callback, m.index, w.rows, u);
        if i != id {
          DetachOther(m, id, i, w.rows, u);
        } else {
          MarkedOk(m.devices[id], m'.devices[id], id, m.callback, m.index, m'.index, w.rows, u);
        }
      }
      forall k | k in m'.index ensures m'.index[k] != {} && HasDash(k) {
        RemovedKeys(m.index, key, id, k);
      }
      forall k, i | k in m'.index && i in m'.index[k] ensures EntryOk(m'.devices, i, k, u.pending) {
        DetachEntry(m, m'.devices, id, k, i, u.pending);
      }
    }
  }

  // --- refresh: the erasure ------------------------------------------------------------------------------------

  /** The keys a refresh leaves in place are those of other bundles. */
  lemma KeptMeaning(index: MatchMap, name: string, k: string)
    requires BundleNamed(name) && (k in index ==> HasDash(k))
    ensures k in KeptIndex(index, name) <==> k in index && GetBundleName(k) != name
    ensures k in KeptIndex(index, name) ==> KeptIndex(index, name)[k] == index[k]
    ensures k in index && GetBundleName(k) == name ==> index[k] <= DeletedIds(index, name)
  {
    hide HasDash; hide GetBundleName;
    if k in index {
      PrefixIsBundle(k, name);
    }
  }

  /** A device that is due stays due: if the entry goes that makes it so, the refresh that begins will visit it. */
  lemma EraseDue(u: Updates, index: MatchMap, task: Task, name: string, id: Id)
    requires BundleNamed(name) && task !in u.refreshing && forall k | k in index :: HasDash(k)
    requires Due(u, index, id)
    ensures Due(Updates(u.pending - multiset{name},
                        u.refreshing[task := Refreshing(name, DeletedIds(index, name), {})]),
                KeptIndex(index, name), id)
  {
    hide HasDash; hide GetBundleName; hide KeptIndex; hide DeletedIds;
    var t := Refreshing(name, DeletedIds(index, name), {});
    var r := u.refreshing[task := t];
    if Waiting(u.refreshing, id) {
      var s :| s in u.refreshing && id in u.refreshing[s].ids && id !in u.refreshing[s].visited;
      assert r[s] == u.refreshing[s];
    } else {
      var k :| k in index && id in index[k] && GetBundleName(k) in u.pending;
      KeptMeaning(index, name, k);
      if GetBundleName(k) == name {
        assert r[task] == t;
        assert Waiting(r, id);
      } else {
        assert GetBundleName(k) in u.pending - multiset{name} && id in KeptIndex(index, name)[k];
      }
    }
  }

  lemma DueByTask(u: Updates, index: MatchMap, task: Task, id: Id)
    requires task in u.refreshing && id in u.refreshing[task].ids && id !in u.refreshing[task].visited
    ensures Due(u, index, id)
  {
    hide GetBundleName;
  }

  /** A device whose entry goes is one the refresh will visit. */
  lemma EraseDevice(m: Manager, d: DeviceState, id: Id, rows: seq<PkgInfo>, u: Updates, task: Task, name: string)
    requires DeviceOk(d, id, m.callback, m.index, rows, u) && forall k | k in m.index :: HasDash(k)
    requires BundleNamed(name) && task !in u.refreshing
    ensures DeviceOk(d, id, m.callback, KeptIndex(m.index, name), rows,
                     Updates(u.pending - multiset{name},
                             u.refreshing[task := Refreshing(name, DeletedIds(m.index, name), {})]))
  {
    hide FirstMatch; hide KeyOf; hide DeviceId; hide HasDash; hide GetBundleName; hide KeptIndex; hide DeletedIds;
    hide BundleNamed; hide Due;
    var t := Refreshing(name, DeletedIds(m.index, name), {});
    var u' := Updates(u.pending - multiset{name}, u.refreshing[task := t]);
    assert task in u'.refreshing && u'.refreshing[task] == t;
    if d.bundleInfo != "" && !d.unregistered {
      KeyNotEmpty(d.driver.value);
      KeptMeaning(m.index, name, d.bundleInfo);
      if Due(u, m.index, id) {
        EraseDue(u, m.index, task, name, id);
      } else if d.driver.value.bundleName == name {
        DueByTask(u', KeptIndex(m.index, name), task, id);
      }
    }
  }

  lemma EraseKeeps(w: World, task: Task, name: string)
    requires Inv(w) && Enabled(w, Erase(task, name))
    ensures Inv(Step(w, Erase(task, name)).world)
  {
    hide DeviceOk; hide HasDash; hide GetBundleName; hide KeptIndex; hide DeletedIds; hide KeyFor; hide DeviceId;
    var m, u, w' := w.manager, w.updates, Step(w, Erase(task, name)).world;
    forall id | id in m.devices
      ensures DeviceOk(m.devices[id], id, m.callback, w'.manager.index, w'.rows, w'.updates)
    {
      EraseDevice(m, m.devices[id], id, w.rows, u, task, name);
    }
    forall k | k in w'.manager.index
      ensures k in m.index && m.index[k] == w'.manager.index[k] && GetBundleName(k) != name
    {
      KeptMeaning(m.index, name, k);
    }
    forall k, id | k in w'.manager.index && id in w'.manager.index[k]
      ensures EntryOk(m.devices, id, k, w'.updates.pending)
    {
      assert EntryOk(m.devices, id, k, u.pending);
    }
  }

  // --- refresh: a visit ----------------------------------------------------------------------------------------

  /** A visit that does not release the device does not make it less due. */
  lemma DueAfterVisit(u: Updates, task: Task, index: MatchMap, id: Id)
    requires task in u.refreshing && id !in u.refreshing[task].ids && Due(u, index, id)
    ensures Due(MarkVisited(u, task, id), index, id)
  {
    hide GetBundleName;
    var u' := MarkVisited(u, task, id);
    if Waiting(u.refreshing, id) {
      var s :| s in u.refreshing && id in u.refreshing[s].ids && id !in u.refreshing[s].visited;
      assert u'.refreshing[s] == u.refreshing[s];
    }
  }

  /** What a visit may file: nothing for a detached device; otherwise what the guard allows, and under the key under
      which the device still stands unless an update of that bundle is pending or the device is left alone. */
  predicate VisitOk(d: DeviceState, id: Id, ids: set<Id>, index: MatchMap, rows: seq<PkgInfo>, u: Updates,
                    found: Option<DriverInfo>)
  {
    && (found.Some? ==> !d.unregistered && BundleNamed(found.value.bundleName))
    && (!d.unregistered ==>
          && ((found == None && id !in ids && d.bundleInfo != "") || FilingOk(found, rows, d.info, u, index, id))
          && (d.bundleInfo != "" && id in IdsAt(index, d.bundleInfo) ==>
                || KeyFor(found) == Some(d.bundleInfo) || GetBundleName(d.bundleInfo) in u.pending
                || (found == None && id !in ids)))
  }

  /** A search made on the spot finds what may be filed. */
  lemma NowOk(d: DeviceState, id: Id, ids: set<Id>, callback: bool, index: MatchMap, rows: seq<PkgInfo>, u: Updates,
              u': Updates)
    requires WellNamed(rows) && DeviceOk(d, id, callback, index, rows, u) && u'.pending == u.pending
    ensures VisitOk(d, id, ids, index, rows, u', FoundFor(d, id, ids, callback, rows))
  {
    hide KeyOf; hide DeviceId; hide FirstMatch; hide BundleNamed; hide WellNamed; hide GetBundleName; hide Due;
    hide VisitComing; hide IdsAt;
    if FirstMatch(rows, d.info).Some? {
      FirstMatchNamed(rows, d.info);
    }
    if !d.unregistered && d.bundleInfo != "" {
      KeyNotEmpty(d.driver.value);
    }
  }

  lemma Marked(u: Updates, task: Task, id: Id)
    requires task in u.refreshing
    ensures MarkVisited(u, task, id).pending == u.pending && SameBut(u, MarkVisited(u, task, id), id)
  {
  }

  lemma VisitDevice(d: DeviceState, id: Id, task: Task, callback: bool, index: MatchMap, rows: seq<PkgInfo>, u: Updates,
                    found: Option<DriverInfo>, am: nat -> AmResult)
    requires DeviceOk(d, id, callback, index, rows, u) && task in u.refreshing
    requires VisitOk(d, id, u.refreshing[task].ids, index, rows, MarkVisited(u, task, id), found)
    ensures var d' := Rebound(d, id, u.refreshing[task].ids, callback, found, am);
            && d'.unregistered == d.unregistered
            && (found.Some? ==> HasDash(KeyFor(found).value) && d'.bundleInfo == KeyFor(found).value)
            && DeviceOk(d', id, callback, WithKey(index, KeyFor(found), id), rows, MarkVisited(u, task, id))
            && (!d.unregistered && d.bundleInfo !in {"", d'.bundleInfo} && id in IdsAt(index, d.bundleInfo) ==>
                  GetBundleName(d.bundleInfo) in u.pending)
  {
    hide KeyOf; hide DeviceId; hide FirstMatch; hide BundleNamed; hide HasDash; hide GetBundleName; hide Due;
    hide VisitComing; hide IdsAt; hide Connect; hide MarkVisited;
    var ids, u' := u.refreshing[task].ids, MarkVisited(u, task, id);
    var d0 := AfterDelete(d, id, ids, callback);
    assert u'.pending == u.pending by { Marked(u, task, id); }
    if found.Some? {
      ConnectSame(AddBundleInfo(d0, found.value), am);
      FoundFiled(d0, Rebound(d, id, ids, callback, found, am), id, found.value, callback, index, rows, u');
    } else if !d.unregistered && id !in ids && Due(u, index, id) {
      DueAfterVisit(u, task, index, id);
    }
  }

  /** What an earlier search found may be filed when the guard says so. */
  lemma FoundMayBeFiled(w: World, task: Task, id: Id, am: nat -> AmResult)
    requires Inv(w) && Enabled(w, Visit(task, id, am)) && w.search.Some?
    ensures VisitOk(w.manager.devices[id], id, w.updates.refreshing[task].ids, w.manager.index, w.rows,
                    MarkVisited(w.updates, task, id), w.search.value.found)
  {
    hide FilingOk; hide MarkVisited; hide DevicesOk; hide IndexOk; hide WellNamed; hide BundleNamed; hide GetBundleName;
    hide DeviceId; hide KeyFor; hide IdsAt;
    Marked(w.updates, task, id);
  }

  lemma VisitRegistered(d: DeviceState, id: Id, ids: set<Id>, index: MatchMap, rows: seq<PkgInfo>, u: Updates,
                        found: Option<DriverInfo>)
    requires VisitOk(d, id, ids, index, rows, u, found)
    ensures found.Some? ==> !d.unregistered
  {
  }

  lemma NoSearch(w: World)
    requires w.search == None
    ensures SearchOk(w)
  {
  }

  lemma VisitEntries(m: Manager, m': Manager, id: Id, pending: multiset<string>)
    requires IndexOk(m, pending) && id in m.devices && id in m'.devices
    requires m'.devices[id].unregistered == m.devices[id].unregistered
    requires var d := m.devices[id];
             !d.unregistered && d.bundleInfo !in {"", m'.devices[id].bundleInfo} ==>
               id in IdsAt(m.index, d.bundleInfo) ==> GetBundleName(d.bundleInfo) in pending
    ensures forall k | k in m.index && id in m.index[k] :: EntryOk(m'.devices, id, k, pending)
  {
    hide GetBundleName; hide HasDash;
    forall k | k in m.index && id in m.index[k] ensures EntryOk(m'.devices, id, k, pending) {
      assert EntryOk(m.devices, id, k, pending) && HasDash(k);
      DashNotEmpty(k);
    }
  }

  lemma VisitKeeps(w: World, task: Task, id: Id, am: nat -> AmResult)
    requires Inv(w) && Enabled(w, Visit(task, id, am))
    ensures Inv(Step(w, Visit(task, id, am)).world)
  {
    hide Rebound; hide FoundFor; hide DeviceOk; hide WellNamed; hide BundleNamed; hide GetBundleName; hide HasDash;
    hide VisitOk; hide MarkVisited; hide SearchOk; hide Guarded; hide SameBut; hide EntryOk; hide KeyFor;
    var m, u, w' := w.manager, w.updates, Step(w, Visit(task, id, am)).world;
    var d, ids := m.devices[id], u.refreshing[task].ids;
    var found := VisitFinds(w, ids, id);
    Marked(u, task, id);
    if w.search.Some? {
      FoundMayBeFiled(w, task, id, am);
    } else {
      NowOk(d, id, ids, m.callback, m.index, w.rows, u, MarkVisited(u, task, id));
    }
    VisitDevice(d, id, task, m.callback, m.index, w.rows, u, found, am);
    FoundKeyed(found);
    VisitEntries(m, w'.manager, id, u.pending);
    VisitRegistered(d, id, ids, m.index, w.rows, MarkVisited(u, task, id), found);
    FileKeeps(m, w'.manager, id, if found.Some? then KeyFor(found).value else "", w.rows, u, MarkVisited(u, task, id));
    NoSearch(w');
  }

  // --- refresh: the end ----------------------------------------------------------------------------------------

  /** No device waits for a refresh that has visited it. */
  lemma FinishDevice(d: DeviceState, id: Id, callback: bool, index: MatchMap, rows: seq<PkgInfo>, u: Updates,
                     task: Task)
    requires DeviceOk(d, id, callback, index, rows, u) && task in u.refreshing && id in u.refreshing[task].visited
    ensures DeviceOk(d, id, callback, index, rows, u.(refreshing := u.refreshing - {task}))
  {
    hide FirstMatch; hide KeyOf; hide DeviceId; hide IdsAt; hide BundleNamed; hide GetBundleName; hide FirstKey;
    var r := u.refreshing - {task};
    if Waiting(u.refreshing, id) {
      var s :| s in u.refreshing && id in u.refreshing[s].ids && id !in u.refreshing[s].visited;
      assert s in r && r[s] == u.refreshing[s];
    }
    if exists s | s in u.refreshing :: id !in u.refreshing[s].visited {
      var s :| s in u.refreshing && id !in u.refreshing[s].visited;
      assert s in r && r[s] == u.refreshing[s];
    }
  }

  lemma FinishKeeps(w: World, task: Task)
    requires Inv(w) && Enabled(w, Finish(task))
    ensures Inv(Step(w, Finish(task)).world)
  {
    hide DeviceOk; hide EntryOk; hide HasDash; hide FoundOk;
    var m, u, w' := w.manager, w.updates, Step(w, Finish(task)).world;
    forall id | id in m.devices ensures DeviceOk(m.devices[id], id, m.callback, m.index, w.rows, w'.updates) {
      FinishDevice(m.devices[id], id, m.callback, m.index, w.rows, u, task);
    }
  }

  // --- clients and the driver's answers ------------------------------------------------------------------------

  /** Steps that touch only the connection of one device. */
  lemma ClientKeeps(w: World, id: Id, d: DeviceState)
    requires Inv(w) && id in w.manager.devices && SameMatch(w.manager.devices[id], d)
    requires d.remote ==> w.manager.devices[id].remote || d.unregistered || d.bundleInfo != ""
    ensures Inv(w.(manager := WithDevice(w.manager, id, d)))
  {
    hide FirstMatch; hide HasDash; hide GetBundleName; hide KeyOf; hide DeviceId; hide WellNamed; hide BundleNamed;
    hide Waiting; hide Due; hide VisitComing;
    var m, m' := w.manager, WithDevice(w.manager, id, d);
    forall i | i in m'.devices ensures DeviceOk(m'.devices[i], i, m'.callback, m'.index, w.rows, w.updates) {
      assert DeviceOk(m.devices[i], i, m.callback, m.index, w.rows, w.updates);
    }
    forall k, i | k in m'.index && i in m'.index[k] ensures EntryOk(m'.devices, i, k, w.updates.pending) {
      assert EntryOk(m.devices, i, k, w.updates.pending);
    }
  }

  lemma DisconnectKeeps(w: World, id: Id)
    requires Inv(w)
    ensures Inv(Step(w, DisconnectDone(id)).world)
  {
    hide Unserved; hide Served; hide HasDash; hide GetBundleName; hide DeviceId; hide WellNamed; hide BundleNamed;
    var m := w.manager;
    if id in m.devices {
      if m.devices[id].unregistered {
        var m' := Step(w, DisconnectDone(id)).world.manager;
        forall i | i in m'.devices ensures DeviceOk(m'.devices[i], i, m'.callback, m'.index, w.rows, w.updates) {
          assert DeviceOk(m.devices[i], i, m.callback, m.index, w.rows, w.updates);
        }
        forall k, i | k in m'.index && i in m'.index[k] ensures EntryOk(m'.devices, i, k, w.updates.pending) {
          assert EntryOk(m.devices, i, k, w.updates.pending);
        }
      } else {
        ClientKeeps(w, id, OnDisconnect(m.devices[id]));
      }
    }
  }

  // --- every run -----------------------------------------------------------------------------------------------

  lemma StepKeeps(w: World, e: Event)
    requires Inv(w) && Enabled(w, e)
    ensures Inv(Step(w, e).world)
  {
    hide Inv; hide Register; hide UnRegister; hide StepErase; hide StepVisit; hide Committed; hide HasDash;
    hide Guarded;
    match e
    case LookUp(finder, info) => LookUpKeeps(w, finder, info);
    case Attach(info, am) => AttachKeeps(w, info, am);
    case Detach(id, r) => DetachKeeps(w, id, r);
    case Commit(name, added) => CommitKeeps(w, name, added);
    case Erase(task, name) => EraseKeeps(w, task, name);
    case Visit(task, id, am) => VisitKeeps(w, task, id, am);
    case Finish(task) => FinishKeeps(w, task);
    case BindClient(id, token, access, reg, r) =>
      if id in w.manager.devices && access == Ok {
        ClientKeeps(w, id, Bind(w.manager.devices[id], token, reg, r).device);
      }
    case UnbindClient(id, token, byDriver, r) =>
      if id in w.manager.devices {
        ClientKeeps(w, id, Unbind(w.manager.devices[id], token, byDriver, r).device);
      }
    case ConnectDone(id, remote) =>
      if id in w.manager.devices {
        ClientKeeps(w, id, OnConnect(w.manager.devices[id], remote));
      }
    case DisconnectDone(id) => DisconnectKeeps(w, id);
  }

  /** Every run from a state with the invariant keeps it. */
  lemma {:induction false} RunKeeps(w: World, es: seq<Event>)
    requires Inv(w) && RunEnabled(w, es)
    ensures Inv(Run(w, es))
    decreases |es|
  {
    hide Step; hide Enabled; hide Inv;
    if es != [] {
      RunKeeps(w, es[..|es| - 1]);
      StepKeeps(Run(w, es[..|es| - 1]), es[|es| - 1]);
    }
  }

  lemma InitialInv(w: World)
    requires Initial(w)
    ensures Inv(w)
  {
  }

  lemma InvTable(w: World)
    requires Inv(w)
    ensures var m, u := w.manager, w.updates;
            && (forall k | k in m.index :: m.index[k] != {})
            && (forall id | Attached(m, id) && m.devices[id].bundleInfo != "" ::
                  (Filed(m, id) && FirstMatch(w.rows, m.devices[id].info) == m.devices[id].driver)
                  || Due(u, m.index, id))
            && (forall k, id | id in IdsAt(m.index, k) ::
                  (Attached(m, id) && m.devices[id].bundleInfo == k) || GetBundleName(k) in u.pending)
  {
    hide FirstMatch; hide HasDash; hide GetBundleName; hide KeyOf; hide DeviceId; hide WellNamed; hide BundleNamed;
    hide VisitComing; hide Due; hide SearchOk;
    var m, u := w.manager, w.updates;
    forall id | Attached(m, id) && m.devices[id].bundleInfo != ""
      ensures (Filed(m, id) && FirstMatch(w.rows, m.devices[id].info) == m.devices[id].driver) || Due(u, m.index, id)
    {
      assert DeviceOk(m.devices[id], id, m.callback, m.index, w.rows, u);
    }
    forall k, id | id in IdsAt(m.index, k)
      ensures (Attached(m, id) && m.devices[id].bundleInfo == k) || GetBundleName(k) in u.pending
    {
      assert EntryOk(m.devices, id, k, u.pending);
    }
  }

  /** In every run the match table holds no empty set; every attached device that has a driver has the first match and
      is under its key, or is due to be released and matched again; and any other id is only under a bundle whose
      update is pending. */
  lemma TableInEveryRun(w: World, es: seq<Event>)
    requires Initial(w) && RunEnabled(w, es)
    ensures var v := Run(w, es);
            var m, u := v.manager, v.updates;
            && (forall k | k in m.index :: m.index[k] != {})
            && (forall id | Attached(m, id) && m.devices[id].bundleInfo != "" ::
                  (Filed(m, id) && FirstMatch(v.rows, m.devices[id].info) == m.devices[id].driver)
                  || Due(u, m.index, id))
            && (forall k, id | id in IdsAt(m.index, k) ::
                  (Attached(m, id) && m.devices[id].bundleInfo == k) || GetBundleName(k) in u.pending)
  {
    hide Run; hide RunEnabled; hide Inv;
    InitialInv(w);
    RunKeeps(w, es);
    InvTable(Run(w, es));
  }

  // --- when nothing is on its way ------------------------------------------------------------------------------

  /** The device has the driver the plain definition gives it. Without a callback to tell, the record of a former
      driver is kept. */
  predicate HasFirstMatch(w: World, id: Id)
    requires id in w.manager.devices
  {
    var d := w.manager.devices[id];
    match FirstMatch(w.rows, d.info)
    case None => d.bundleInfo == "" && d.driverUid == "" && (w.manager.callback ==> d.driver == None)
    case Some(driver) => d.driver == Some(driver) && d.driverUid == driver.driverUid != ""
                         && d.bundleInfo == KeyOf(driver.bundleName, driver.driverName)
  }

  /** Every attached device has the first match, or none when no row matches, and the match table is the inverse of
      that assignment. */
  ghost predicate Right(w: World) {
    && (forall id | Attached(w.manager, id) :: HasFirstMatch(w, id))
    && (forall k, id ::
          id in IdsAt(w.manager.index, k) <==>
          Attached(w.manager, id) && FirstKey(w.rows, w.manager.devices[id].info) == Some(k))
  }

  lemma QuiescentDevice(w: World, id: Id)
    requires Inv(w) && Quiescent(w) && Attached(w.manager, id)
    ensures HasFirstMatch(w, id)
    ensures FirstMatch(w.rows, w.manager.devices[id].info).Some? ==> Filed(w.manager, id)
  {
    hide FirstMatch; hide HasDash; hide KeyOf; hide DeviceId; hide IndexOk; hide IdsAt; hide GetBundleName;
    var d := w.manager.devices[id];
    assert DeviceOk(d, id, w.manager.callback, w.manager.index, w.rows, w.updates);
    if d.bundleInfo != "" {
      KeyNotEmpty(d.driver.value);
    }
  }

  lemma KeysNotEmpty(w: World, k: string)
    requires Inv(w)
    ensures k in w.manager.index ==> k != ""
  {
    hide DevicesOk; hide EntryOk;
  }

  lemma QuiescentEntry(w: World, k: string, id: Id)
    requires Inv(w) && Quiescent(w)
    ensures id in IdsAt(w.manager.index, k) <==>
            Attached(w.manager, id) && FirstKey(w.rows, w.manager.devices[id].info) == Some(k)
  {
    hide Inv; hide FirstMatch; hide HasDash; hide KeyOf; hide DeviceId; hide Due; hide GetBundleName;
    InvTable(w);
    if Attached(w.manager, id) {
      QuiescentDevice(w, id);
      KeysNotEmpty(w, k);
    }
  }

  lemma QuiescentRight(w: World)
    requires Inv(w) && Quiescent(w)
    ensures Right(w)
  {
    hide Inv; hide HasFirstMatch; hide FirstKey; hide IdsAt; hide Quiescent;
    forall id | Attached(w.manager, id) ensures HasFirstMatch(w, id) {
      QuiescentDevice(w, id);
    }
    forall k, id
      ensures id in IdsAt(w.manager.index, k) <==>
              Attached(w.manager, id) && FirstKey(w.rows, w.manager.devices[id].info) == Some(k)
    {
      QuiescentEntry(w, k, id);
    }
  }

  /** Whenever no update is on its way, every attached device has exactly the first matching driver of the table, or
      none when none matches, and the match table is the inverse of that assignment. */
  lemma QuiescentRun(w: World, es: seq<Event>)
    requires Initial(w) && RunEnabled(w, es) && Quiescent(Run(w, es))
    ensures Right(Run(w, es))
  {
    hide Run; hide RunEnabled; hide Inv; hide Right; hide Quiescent;
    InitialInv(w);
    RunKeeps(w, es);
    QuiescentRight(Run(w, es));
  }

  /** Why a refresh without a bundle name is not among the steps: it empties the table without saying for which
      devices, so a connected device keeps its driver and is missing from the table. */
  lemma NamelessRefreshForgets(m: Manager, rows: seq<PkgInfo>, ams: Id -> nat -> AmResult, id: Id)
    requires id in m.devices
    ensures var m' := BundlesUpdated(m, "", rows, ams);
            && (m.devices[id].remote ==> m'.devices[id] == m.devices[id] && forall k :: id !in IdsAt(m'.index, k))
            && (!m.devices[id].remote ==>
                  forall k :: id in IdsAt(m'.index, k) <==> NewKey(m.devices[id], id, {}, m.callback, rows) == Some(k))
  {
    hide FirstMatch; hide Connect;
    var m' := BundlesUpdated(m, "", rows, ams);
    assert KeptIndex(m.index, "") == map[];
    assert NewKey(m.devices[id], id, {}, m.callback, rows).Some? ==> !m.devices[id].remote;
    forall k ensures id in IdsAt(m'.index, k) <==> NewKey(m.devices[id], id, {}, m.callback, rows) == Some(k) {
      assert id in NewIds(m, m.devices.Keys, {}, rows, k) <==>
             NewKey(m.devices[id], id, {}, m.callback, rows) == Some(k);
    }
  }

  // --- what a refresh leaves alone -----------------------------------------------------------------------------

  /** An erasure takes the entries of exactly one bundle, and returns the ids they held. */
  lemma EraseMeaning(index: MatchMap, name: string)
    requires BundleNamed(name) && forall k | k in index :: HasDash(k)
    ensures forall k :: k in KeptIndex(index, name) <==> k in index && GetBundleName(k) != name
    ensures forall k | k in KeptIndex(index, name) :: KeptIndex(index, name)[k] == index[k]
    ensures forall id :: id in DeletedIds(index, name) <==>
                         exists k | k in index :: GetBundleName(k) == name && id in index[k]
  {
    hide HasDash; hide GetBundleName;
    forall k | k in index ensures OfBundle(k, name) <==> GetBundleName(k) == name {
      PrefixIsBundle(k, name);
    }
  }

  /** A refresh of one bundle leaves a device alone whose driver runs and that is in no entry of that bundle: the
      device keeps its driver, its connection and its clients, and is in the same entries as before. */
  lemma RunningUntouched(w: World, es: seq<Event>, name: string, ams: Id -> nat -> AmResult, id: Id)
    requires Initial(w) && RunEnabled(w, es) && BundleNamed(name)
    requires var m := Run(w, es).manager;
             && id in m.devices && m.devices[id].remote
             && forall k | k in m.index && id in m.index[k] :: GetBundleName(k) != name
    ensures var m, m' := Run(w, es).manager, Refreshed(Run(w, es), name, ams).manager;
            && id in m'.devices && m'.devices[id] == m.devices[id]
            && forall k :: id in IdsAt(m'.index, k) <==> id in IdsAt(m.index, k)
  {
    hide Run; hide RunEnabled; hide DevicesOk; hide SearchOk; hide KeptIndex; hide DeletedIds; hide FirstMatch;
    hide HasDash; hide GetBundleName; hide Connect; hide BundleNamed; hide EntryOk; hide WellNamed;
    InitialInv(w);
    RunKeeps(w, es);
    var v := Run(w, es);
    var m, m' := v.manager, Refreshed(v, name, ams).manager;
    EraseMeaning(m.index, name);
    var ids := DeletedIds(m.index, name);
    assert id !in ids;
    assert NewKey(m.devices[id], id, ids, m.callback, v.rows) == None;
    forall k ensures id in IdsAt(m'.index, k) <==> id in IdsAt(m.index, k) {
      assert id !in NewIds(m.(index := KeptIndex(m.index, name)), m.devices.Keys, ids, v.rows, k);
    }
  }
}
