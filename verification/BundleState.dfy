/** Package events: the table is changed first, and the device manager hears of it later, from a thread of its own. */
module BundleState {
  import opened Options
  import opened DriverPackages
  import opened DeviceSpec
  import opened DeviceManager
  import opened PackageStore
  import R = MatchRefresh
  import S = MatchSpec

  /** The step the service takes at a committed update. Without anyone to tell, the table changes and no refresh is
      ever due. */
  function Told(w: S.World, e: S.Event, registered: bool): S.World
    requires e.Commit?
  {
    if registered then S.Step(w, e).world else w.(rows := Committed(w.rows, e.bundleName, e.added))
  }

  /** None of the operations of an update fails: it begins, deletes, inserts each of `count` rows and commits. And the
      ids of the new rows are not taken for errors. */
  predicate UpdateWorks(fails: nat -> bool, from: nat, nextId: nat, count: nat) {
    (forall k | from <= k < from + 3 + count :: !fails(k)) && forall id | nextId <= id < nextId + count :: IdFits(id)
  }

  /** How many operations the query before a removal takes: up to three, but none after one that fails. */
  function Queried(fails: nat -> bool, from: nat): (n: nat)
    ensures 1 <= n <= 3 && (n > 1 ==> !fails(from)) && (n > 2 ==> !fails(from + 1)) && (n < 3 ==> fails(from + n - 1))
  {
    QueryOps(fails, from)
  }

  /** None of the three operations of a removal fails; whether the query before it does is of no consequence. */
  predicate RemovalWorks(fails: nat -> bool, from: nat) {
    var after := from + Queried(fails, from);
    !fails(after) && !fails(after + 1) && !fails(after + 2)
  }

  class DrvBundleStateCallback {
    const helper: PkgDbHelper
    const manager: ExtDeviceManager

    // Whether the device manager has registered for updates.
    const registered: bool

    // The bundles whose refresh thread was started and has not run yet.
    var pending: multiset<string>

    constructor (helper: PkgDbHelper, manager: ExtDeviceManager, registered: bool)
      ensures this.helper == helper && this.manager == manager && this.registered == registered
      ensures pending == multiset{}
    {
      this.helper, this.manager, this.registered, pending := helper, manager, registered, multiset{};
    }

    /** The state of the whole service. */
    ghost function View(): S.World
      requires manager.Valid()
      reads this, helper.db, manager, manager.objects
    {
      S.World(manager.View(), helper.db.committed.rows, S.Updates(pending, map[]), None)
    }

    /** Starts the refresh thread, if there is anyone to tell. */
    method Announce(bundleName: string)
      modifies this
      ensures pending == old(pending) + if registered then multiset{bundleName} else multiset{}
    {
      if registered {
        pending := pending + multiset{bundleName};
      }
    }

    /** Commits a package update and schedules the refresh; a failed update changes nothing. */
    method UpdateToRdb(pkgInfos: seq<PkgInfo>, bundleName: string) returns (ok: bool)
      requires !helper.db.inTransaction && manager.Valid()
      modifies this, helper.db
      ensures !helper.db.inTransaction && manager.Valid()
      ensures View() == if ok then Told(old(View()), S.Commit(bundleName, pkgInfos), registered) else old(View())
      ensures ok <==> UpdateWorks(helper.db.fails, old(helper.db.ops), old(helper.db.committed).nextId, |pkgInfos|)
    {
      hide Committed; hide ExtDeviceManager.View; hide ExtDeviceManager.Valid;
      var ret := helper.AddOrUpdatePkgInfo(pkgInfos, bundleName);
      if ret < PKG_OK {
        return false;
      }
      Announce(bundleName);
      return true;
    }

    /** A removed package takes its rows along. They are fetched first, for the report, and it does not matter whether
        that works; `readable` is as for the query. */
    method OnBundleDrvRemoved(bundleName: string, readable: bool) returns (ok: bool)
      requires !helper.db.inTransaction && manager.Valid()
      modifies this, helper.db
      ensures !helper.db.inTransaction && manager.Valid()
      ensures ok ==> View().manager == old(View()).manager
                     && View().rows == Deleted(old(View()).rows, BundleIs(bundleName))
                     && pending == old(pending) + if registered then multiset{bundleName} else multiset{}
      ensures !ok ==> View() == old(View())
      ensures ok && bundleName != "" ==> View() == Told(old(View()), S.Commit(bundleName, []), registered)
      ensures ok <==> RemovalWorks(helper.db.fails, old(helper.db.ops))
    {
      hide Committed; hide Deleted; hide QueryOps; hide ExtDeviceManager.View;
      hide ExtDeviceManager.Valid; hide Selected;
      var ret, pkgInfos := helper.QueryPkgInfos(bundleName, readable);
      ret := helper.DeleteRightRecord(bundleName);
      if ret < 0 {
        return false;
      }
      Announce(bundleName);
      return true;
    }

    /** An updated package without drivers is one whose drivers were removed. `found` is None when the package belongs
        to another user or cannot be queried; a package without a name never can. Which updates work is told from the
        input and the failing operations alone; one that does leaves exactly the rows found for its bundle, and the
        refresh due. */
    method OnBundleUpdated(bundleName: string, found: Option<seq<PkgInfo>>, readable: bool) returns (ok: bool)
      requires !helper.db.inTransaction && manager.Valid()
      modifies this, helper.db
      ensures !helper.db.inTransaction && manager.Valid()
      ensures ok <==>
                && bundleName != "" && found.Some?
                && if found.value == [] then RemovalWorks(helper.db.fails, old(helper.db.ops))
                   else UpdateWorks(helper.db.fails, old(helper.db.ops), old(helper.db.committed).nextId, |found.value|)
      ensures ok ==>
                && helper.db.committed.rows == Committed(old(helper.db.committed).rows, bundleName, found.value)
                && pending == old(pending) + if registered then multiset{bundleName} else multiset{}
      ensures View() == if ok then Told(old(View()), S.Commit(bundleName, found.value), registered) else old(View())
    {
      hide UpdateWorks; hide RemovalWorks; hide Deleted;
      if bundleName == "" || found == None {
        return false;
      }
      if found.value == [] {
        ok := OnBundleDrvRemoved(bundleName, readable);
      } else {
        ok := UpdateToRdb(found.value, bundleName);
      }
    }

    /** A scheduled refresh runs. */
    method Refresh(bundleName: string, ams: S.Id -> nat -> AmResult)
      requires bundleName in pending && manager.Valid()
      modifies this, manager, manager.objects
      ensures manager.Valid()
      ensures View() == R.Refreshed(old(View()), bundleName, ams)
    {
      hide R.BundlesUpdated; hide ExtDeviceManager.View; hide ExtDeviceManager.Valid;
      manager.OnBundlesUpdated(bundleName, helper.db.committed.rows, ams);
      pending := pending - multiset{bundleName};
    }
  }
}
