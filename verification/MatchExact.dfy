/** The guards of the steps are exact: a step that meets its guard lets every run end right, and after a step that does
    not some run ends wrong. */
module MatchExact {
  import opened Options
  import opened DriverPackages
  import opened DeviceSpec
  import opened MatchSpec
  import opened MatchRefresh
  import opened MatchState
  import opened MatchInvariant

  /** However the service goes on, once nothing is on its way drivers and table are right. */
  ghost predicate EndsRight(w: World) {
    forall es: seq<Event> :: RunEnabled(w, es) && Quiescent(Run(w, es)) ==> Right(Run(w, es))
  }

  lemma InvEndsRight(w: World)
    requires Inv(w)
    ensures EndsRight(w)
  {
    hide Inv; hide Run; hide RunEnabled; hide Right; hide Quiescent;
    forall es: seq<Event> | RunEnabled(w, es) && Quiescent(Run(w, es)) ensures Right(Run(w, es)) {
      RunKeeps(w, es);
      QuiescentRight(Run(w, es));
    }
  }

  // --- updates can always be carried through -------------------------------------------------------------------

  ghost predicate RefreshSteps(es: seq<Event>) {
    forall e | e in es :: e.Erase? || e.Visit? || e.Finish?
  }

  const NO_ANSWER: nat -> AmResult := k => NoClient

  lemma OneLess(w: World, v: World, task: Task, id: Id)
    requires task in w.updates.refreshing && id in w.manager.devices && id !in w.updates.refreshing[task].visited
    requires v.updates == MarkVisited(w.updates, task, id)
    requires v.manager == VisitedNow(w.manager, id, w.updates.refreshing[task].ids, w.rows, NO_ANSWER)
    ensures task in v.updates.refreshing && v.updates.pending == w.updates.pending
    ensures v.updates.refreshing - {task} == w.updates.refreshing - {task}
    ensures |v.manager.devices.Keys - v.updates.refreshing[task].visited| <
            |w.manager.devices.Keys - w.updates.refreshing[task].visited|
  {
    hide Rebound; hide WithKey; hide FoundFor;
    var before := w.manager.devices.Keys - w.updates.refreshing[task].visited;
    assert v.manager.devices.Keys - v.updates.refreshing[task].visited == before - {id};
  }

  /** A refresh under way can visit the devices it has yet to visit, and end. */
  lemma {:induction false} TaskEnds(w: World, task: Task) returns (es: seq<Event>)
    requires w.search == None && task in w.updates.refreshing
    ensures RefreshSteps(es) && RunEnabled(w, es)
    ensures var v := Run(w, es);
            && v.search == None && v.updates.pending == w.updates.pending
            && v.updates.refreshing == w.updates.refreshing - {task}
    decreases |w.manager.devices.Keys - w.updates.refreshing[task].visited|
  {
    hide Step; hide Enabled; hide Run; hide RunEnabled; hide VisitedNow; hide MarkVisited;
    var m, u := w.manager, w.updates;
    var todo := m.devices.Keys - u.refreshing[task].visited;
    if todo == {} {
      es := [Finish(task)];
      forall id | id in m.devices ensures id in u.refreshing[task].visited {
        assert id !in todo;
      }
      Finished(w, task);
      RunNothing(w);
      RunNext(w, [], Finish(task));
      assert [] + [Finish(task)] == es;
    } else {
      var id :| id in todo;
      var e := Visit(task, id, NO_ANSWER);
      VisitedNext(w, task, id, NO_ANSWER);
      var v := Step(w, e).world;
      OneLess(w, v, task, id);
      var rest := TaskEnds(v, task);
      es := [e] + rest;
      RunAfter(w, e, rest);
    }
  }

  lemma {:induction false} TasksEnd(w: World) returns (es: seq<Event>)
    requires w.search == None
    ensures RefreshSteps(es) && RunEnabled(w, es)
    ensures var v := Run(w, es);
            v.search == None && v.updates.pending == w.updates.pending && v.updates.refreshing == map[]
    decreases |w.updates.refreshing|
  {
    hide Run; hide RunEnabled;
    if w.updates.refreshing == map[] {
      es := [];
      RunNothing(w);
    } else {
      var task :| task in w.updates.refreshing;
      var first := TaskEnds(w, task);
      assert w.updates.refreshing.Keys == (w.updates.refreshing - {task}).Keys + {task};
      var rest := TasksEnd(Run(w, first));
      es := first + rest;
      RunJoined(w, first, rest);
    }
  }

  /** From every state without an unfiled search, refreshes alone lead to one in which nothing is on its way. */
  lemma {:induction false} UpdatesEnd(w: World) returns (es: seq<Event>)
    requires w.search == None
    ensures RefreshSteps(es) && RunEnabled(w, es) && Quiescent(Run(w, es))
    decreases |w.updates.pending|
  {
    hide Run; hide RunEnabled; hide Step; hide Enabled; hide StepErase;
    var first := TasksEnd(w);
    var v := Run(w, first);
    if v.updates.pending == multiset{} {
      es := first;
    } else {
      var name :| name in v.updates.pending;
      var e := Erase(0, name);
      Erased(v, 0, name);
      var rest := UpdatesEnd(Step(v, e).world);
      RunAfter(v, e, rest);
      RunJoined(w, first, [e] + rest);
      es := first + ([e] + rest);
    }
  }

  // --- states that no refresh puts right -----------------------------------------------------------------------

  /** The device stands under a key that is not that of its first match, and whose bundle no update is coming for. */
  predicate Stuck(w: World, id: Id, k: string) {
    && Attached(w.manager, id) && id in IdsAt(w.manager.index, k) && GetBundleName(k) !in w.updates.pending
    && FirstKey(w.rows, w.manager.devices[id].info) != Some(k)
  }

  /** The driver of the device runs, so that visits pass it by, no refresh is going to release it, and it has not its
      first match or is not in the table. */
  predicate Neglected(w: World, id: Id) {
    && Attached(w.manager, id)
    && var d := w.manager.devices[id];
       && d.remote && d.bundleInfo != "" && !Due(w.updates, w.manager.index, id)
       && !(Filed(w.manager, id) && FirstMatch(w.rows, d.info) == d.driver)
  }

  /** A row matches the device, which has no driver and will not be visited. */
  predicate Ignored(w: World, id: Id) {
    && Attached(w.manager, id) && w.manager.devices[id].bundleInfo == ""
    && FirstMatch(w.rows, w.manager.devices[id].info).Some? && !VisitComing(w.updates, id)
  }

  predicate Bad(w: World, id: Id, k: string) {
    Stuck(w, id, k) || Neglected(w, id) || Ignored(w, id)
  }

  /** Bad in the same way. */
  predicate AsBad(w: World, v: World, id: Id, k: string) {
    && (Stuck(w, id, k) ==> Stuck(v, id, k)) && (Neglected(w, id) ==> Neglected(v, id))
    && (Ignored(w, id) ==> Ignored(v, id))
  }

  /** Names are as the service makes them, and no search waits to be filed. */
  predicate Settled(w: World) {
    && w.search == None && WellNamed(w.rows) && (forall name | name in w.updates.pending :: BundleNamed(name))
    && forall k | k in w.manager.index :: HasDash(k)
  }

  lemma SettledVisit(w: World, task: Task, i: Id, am: nat -> AmResult)
    requires Settled(w) && Plausible(w, Visit(task, i, am))
    ensures Settled(Step(w, Visit(task, i, am)).world)
    ensures var v, ids := Step(w, Visit(task, i, am)).world, w.updates.refreshing[task].ids;
            && v.manager == VisitedNow(w.manager, i, ids, w.rows, am) && v.rows == w.rows
            && v.updates == MarkVisited(w.updates, task, i)
  {
    hide Rebound; hide HasDash; hide BundleNamed; hide KeyOf;
    var m, ids := w.manager, w.updates.refreshing[task].ids;
    var found := FoundFor(m.devices[i], i, ids, m.callback, w.rows);
    if found.Some? {
      FirstMatchNamed(w.rows, m.devices[i].info);
      KeyNotEmpty(found.value);
    }
  }

  /** A visit leaves a running device alone that it does not release, and never removes an id. */
  lemma VisitMeaning(w: World, task: Task, i: Id, am: nat -> AmResult, id: Id)
    requires Settled(w) && Plausible(w, Visit(task, i, am)) && Attached(w.manager, id)
    ensures var v, ids := Step(w, Visit(task, i, am)).world, w.updates.refreshing[task].ids;
            && v.rows == w.rows && v.updates == MarkVisited(w.updates, task, i)
            && Attached(v.manager, id) && v.manager.devices[id].info == w.manager.devices[id].info
            && (i != id || (id !in ids && w.manager.devices[id].remote) ==>
                  && v.manager.devices[id] == w.manager.devices[id]
                  && forall k :: id in IdsAt(v.manager.index, k) <==> id in IdsAt(w.manager.index, k))
            && forall k | id in IdsAt(w.manager.index, k) :: id in IdsAt(v.manager.index, k)
  {
    hide KeyOf; hide FirstMatch; hide Connect; hide MarkVisited; hide Settled;
    SettledVisit(w, task, i, am);
    var m, ids := w.manager, w.updates.refreshing[task].ids;
    var d0 := AfterDelete(m.devices[i], i, ids, m.callback);
    var found := FoundFor(m.devices[i], i, ids, m.callback, w.rows);
    if found.Some? {
      ConnectSame(AddBundleInfo(d0, found.value), am);
    }
  }

  lemma NotDueAfter(u: Updates, u': Updates, index: MatchMap, index': MatchMap, task: Task, i: Id, id: Id)
    requires !Due(u, index, id) && task in u.refreshing && u' == MarkVisited(u, task, i)
    requires forall k :: id in IdsAt(index', k) <==> id in IdsAt(index, k)
    ensures !Due(u', index', id)
  {
    hide GetBundleName;
    forall k | k in index' && id in index'[k] ensures GetBundleName(k) !in u'.pending {
      assert id in IdsAt(index', k);
      assert k in index && id in index[k];
    }
  }

  lemma VisitedStays(u: Updates, task: Task, i: Id, id: Id)
    requires task in u.refreshing && forall t | t in u.refreshing :: id in u.refreshing[t].visited
    ensures forall t | t in MarkVisited(u, task, i).refreshing :: id in MarkVisited(u, task, i).refreshing[t].visited
  {
  }

  lemma BadVisit(w: World, task: Task, i: Id, am: nat -> AmResult, id: Id, k: string)
    requires Settled(w) && Plausible(w, Visit(task, i, am)) && Bad(w, id, k)
    ensures AsBad(w, Step(w, Visit(task, i, am)).world, id, k)
  {
    hide Step; hide FirstMatch; hide FirstKey; hide GetBundleName; hide Due; hide Settled; hide IdsAt;
    var v := Step(w, Visit(task, i, am)).world;
    VisitMeaning(w, task, i, am, id);
    Marked(w.updates, task, i);
    if Neglected(w, id) {
      if i == id && id in w.updates.refreshing[task].ids {
        DueByTask(w.updates, w.manager.index, task, id);
      }
      NotDueAfter(w.updates, v.updates, w.manager.index, v.manager.index, task, i, id);
    }
    if Ignored(w, id) {
      assert id in w.updates.refreshing[task].visited;
      assert forall t | t in v.updates.refreshing :: id in v.updates.refreshing[t].visited by {
        VisitedStays(w.updates, task, i, id);
      }
    }
  }

  lemma ErasedUpdates(w: World, task: Task, name: string)
    ensures Step(w, Erase(task, name)).world == StepErase(w, task, name)
  {
  }

  lemma EraseNotDue(u: Updates, index: MatchMap, task: Task, name: string, id: Id)
    requires !Due(u, index, id) && task !in u.refreshing && name in u.pending && BundleNamed(name)
    requires forall k | k in index :: HasDash(k)
    ensures !Due(Updates(u.pending - multiset{name},
                         u.refreshing[task := Refreshing(name, DeletedIds(index, name), {})]),
                 KeptIndex(index, name), id)
  {
    hide HasDash; hide GetBundleName;
    if id in DeletedIds(index, name) {
      var k :| k in index && OfBundle(k, name) && id in index[k];
      PrefixIsBundle(k, name);
    }
  }

  lemma BadErase(w: World, task: Task, name: string, id: Id, k: string)
    requires Settled(w) && Plausible(w, Erase(task, name)) && Bad(w, id, k)
    ensures var v := Step(w, Erase(task, name)).world; Settled(v) && AsBad(w, v, id, k)
  {
    hide Step; hide FirstMatch; hide FirstKey; hide GetBundleName; hide HasDash; hide KeptIndex; hide DeletedIds;
    hide WellNamed; hide BundleNamed;
    var m, u, v := w.manager, w.updates, Step(w, Erase(task, name)).world;
    Erased(w, task, name);
    forall j ensures j in v.manager.index <==> j in m.index && GetBundleName(j) != name
             ensures j in v.manager.index ==> v.manager.index[j] == m.index[j]
             ensures j in m.index && GetBundleName(j) == name ==> m.index[j] <= DeletedIds(m.index, name)
    {
      KeptMeaning(m.index, name, j);
    }
    assert BundleNamed(name);
    if Neglected(w, id) {
      EraseNotDue(u, m.index, task, name, id);
      assert v.updates == Updates(u.pending - multiset{name},
                                  u.refreshing[task := Refreshing(name, DeletedIds(m.index, name), {})]) by {
        ErasedUpdates(w, task, name);
      }
    }
  }

  lemma BadFinish(w: World, task: Task, id: Id, k: string)
    requires Settled(w) && Plausible(w, Finish(task)) && Bad(w, id, k)
    ensures var v := Step(w, Finish(task)).world; Settled(v) && AsBad(w, v, id, k)
  {
    hide FirstMatch; hide FirstKey; hide GetBundleName; hide HasDash; hide WellNamed; hide BundleNamed;
    var v := Step(w, Finish(task)).world;
    assert forall t | t in v.updates.refreshing :: t in w.updates.refreshing
                                                   && v.updates.refreshing[t] == w.updates.refreshing[t];
  }

  /** Every step of a refresh leaves the state as bad as it was. */
  lemma BadStep(w: World, e: Event, id: Id, k: string)
    requires Settled(w) && (e.Erase? || e.Visit? || e.Finish?) && Plausible(w, e) && Bad(w, id, k)
    ensures var v := Step(w, e).world; Settled(v) && AsBad(w, v, id, k)
  {
    match e
    case Erase(task, name) => BadErase(w, task, name, id, k);
    case Visit(task, i, am) =>
      SettledVisit(w, task, i, am);
      BadVisit(w, task, i, am, id, k);
    case Finish(task) => BadFinish(w, task, id, k);
  }

  /** However refreshes go on, the state stays bad. */
  lemma {:induction false} BadForGood(w: World, es: seq<Event>, id: Id, k: string)
    requires Settled(w) && Bad(w, id, k) && RefreshSteps(es) && RunEnabled(w, es)
    ensures Settled(Run(w, es)) && AsBad(w, Run(w, es), id, k)
    decreases |es|
  {
    hide Step; hide Guarded; hide Plausible; hide Stuck; hide Neglected; hide Ignored; hide Settled;
    if es != [] {
      var prefix, e := es[..|es| - 1], es[|es| - 1];
      assert forall f | f in prefix :: f in es;
      assert e in es;
      BadForGood(w, prefix, id, k);
      BadStep(Run(w, prefix), e, id, k);
    }
  }

  /** When refreshes have ended, a bad state is not right. */
  lemma BadNotRight(w: World, id: Id, k: string)
    requires Bad(w, id, k) && Quiescent(w)
    ensures !Right(w)
  {
    hide FirstMatch; hide KeyOf; hide IdsAt; hide GetBundleName; hide Due;
    var d := w.manager.devices[id];
    FoundKeyed(FirstMatch(w.rows, d.info));
  }

  lemma BadEndsWrong(w: World, id: Id, k: string)
    requires Settled(w) && Bad(w, id, k)
    ensures !EndsRight(w)
  {
    hide Run; hide RunEnabled; hide Right; hide Stuck; hide Neglected; hide Ignored; hide Quiescent;
    var es := UpdatesEnd(w);
    BadForGood(w, es, id, k);
    BadNotRight(Run(w, es), id, k);
  }

  // --- a step that does not meet its guard ---------------------------------------------------------------------

  lemma InvSettled(w: World)
    requires Inv(w) && w.search == None
    ensures Settled(w)
  {
    hide DevicesOk; hide HasDash; hide EntryOk; hide BundleNamed;
  }

  lemma EndsAfter(w: World, e: Event)
    requires Enabled(w, e) && !EndsRight(Step(w, e).world)
    ensures !EndsRight(w)
  {
    hide Step; hide Enabled; hide Run; hide RunEnabled; hide Right; hide Quiescent;
    var v := Step(w, e).world;
    var es: seq<Event> :| RunEnabled(v, es) && Quiescent(Run(v, es)) && !Right(Run(v, es));
    RunAfter(w, e, es);
  }

  /** The driver of a device comes up that is due for nothing and not as it should be. */
  lemma Connected(w: World, id: Id)
    requires Settled(w) && Attached(w.manager, id) && w.manager.devices[id].bundleInfo != ""
    requires !Due(w.updates, w.manager.index, id)
    requires !(Filed(w.manager, id) && FirstMatch(w.rows, w.manager.devices[id].info) == w.manager.devices[id].driver)
    ensures !EndsRight(w)
  {
    hide FirstMatch; hide Due; hide EndsRight; hide AllBound; hide IdsAt;
    var e := ConnectDone(id, true);
    var v := Step(w, e).world;
    assert Settled(v) by { hide Filed; }
    assert Neglected(v, id);
    BadEndsWrong(v, id, "");
    EndsAfter(w, e);
  }

  /** A driver was filed that is not the first match, and no update of its bundle is pending. */
  lemma FiledWrong(w: World, id: Id, driver: DriverInfo, k: string)
    requires Settled(w) && Attached(w.manager, id) && BundleNamed(driver.bundleName)
    requires k == KeyOf(driver.bundleName, driver.driverName)
    requires w.manager.devices[id].bundleInfo == k && w.manager.devices[id].driver == Some(driver)
    requires id in IdsAt(w.manager.index, k) && driver.bundleName !in w.updates.pending
    requires FirstMatch(w.rows, w.manager.devices[id].info) != Some(driver)
    requires FirstKey(w.rows, w.manager.devices[id].info) == Some(k) ==> !Due(w.updates, w.manager.index, id)
    ensures !EndsRight(w)
  {
    hide FirstMatch; hide FirstKey; hide Due; hide EndsRight; hide KeyOf; hide Settled; hide GetBundleName; hide IdsAt;
    KeyNotEmpty(driver);
    if FirstKey(w.rows, w.manager.devices[id].info) == Some(k) {
      Connected(w, id);
    } else {
      assert Stuck(w, id, k);
      BadEndsWrong(w, id, k);
    }
  }

  /** One more id under a key whose bundle has no pending update makes nobody due. */
  lemma NotDueWithKey(u: Updates, index: MatchMap, key: string, id: Id, i: Id)
    requires !Due(u, index, i) && GetBundleName(key) !in u.pending
    ensures !Due(u, index[key := IdsAt(index, key) + {id}], i)
  {
    hide GetBundleName; hide Waiting;
  }

  /** Filing a device again under a key that is not right, and whose bundle no update is pending of. */
  lemma RefiledWrong(w: World, info: DeviceInfo, am: nat -> AmResult)
    requires Inv(w) && Plausible(w, Attach(info, am)) && !Guarded(w, Attach(info, am))
    requires var m, id := w.manager, DeviceId(info); id in m.devices && m.devices[id].bundleInfo != ""
    ensures var id, v := DeviceId(info), Step(w, Attach(info, am)).world;
            Settled(v) && Stuck(v, id, w.manager.devices[id].bundleInfo)
  {
    hide FirstMatch; hide FirstKey; hide Due; hide KeyOf; hide GetBundleName; hide HasDash; hide DeviceId;
    hide Connect; hide WellNamed; hide BundleNamed; hide VisitComing;
    var m, id := w.manager, DeviceId(info);
    var d := m.devices[id];
    assert DeviceOk(d, id, m.callback, m.index, w.rows, w.updates);
    ConnectSame(d, am);
    KeyNotEmpty(d.driver.value);
    InvSettled(w.(search := None));
  }

  /** After that the device stays under the old key through every refresh, while the plain definition gives it another
      key or none. */
  lemma RefiledForGood(w: World, info: DeviceInfo, am: nat -> AmResult, es: seq<Event>)
    requires Inv(w) && Plausible(w, Attach(info, am)) && !Guarded(w, Attach(info, am))
    requires var m, id := w.manager, DeviceId(info); id in m.devices && m.devices[id].bundleInfo != ""
    requires RefreshSteps(es) && RunEnabled(Step(w, Attach(info, am)).world, es)
    ensures var id, v := DeviceId(info), Run(Step(w, Attach(info, am)).world, es);
            && Stuck(v, id, w.manager.devices[id].bundleInfo)
            && (Quiescent(v) ==> !Right(v))
  {
    hide Inv; hide Plausible; hide Guarded; hide Step; hide Run; hide RunEnabled; hide Right; hide Stuck; hide Settled;
    hide Neglected; hide Ignored; hide DeviceId; hide Quiescent;
    var id := DeviceId(info);
    var k := w.manager.devices[id].bundleInfo;
    RefiledWrong(w, info, am);
    var v := Step(w, Attach(info, am)).world;
    BadForGood(v, es, id, k);
    if Quiescent(Run(v, es)) {
      BadNotRight(Run(v, es), id, k);
    }
  }

  /** What announcing a device without a driver makes of the manager. */
  lemma BareRegister(m: Manager, info: DeviceInfo, found: Option<DriverInfo>, am: nat -> AmResult)
    requires found.Some? ==> BundleNamed(found.value.bundleName)
    requires DeviceId(info) in m.devices ==>
               var d := m.devices[DeviceId(info)]; !d.unregistered && d.info == info && d.bundleInfo == "" && !d.remote
    ensures var id, m' := DeviceId(info), Register(m, info, found, am).manager;
            && Attached(m', id) && m'.index == WithKey(m.index, KeyFor(found), id) && m'.devices[id].info == info
            && m'.devices[id].bundleInfo == (if found.Some? then KeyFor(found).value else "")
            && (found.Some? ==> m'.devices[id].driver == found && HasDash(KeyFor(found).value))
  {
    hide KeyOf; hide HasDash; hide DeviceId; hide Connect; hide BundleNamed; hide IdsAt; hide GetBundleName;
    var id := DeviceId(info);
    var d := if id in m.devices then m.devices[id] else NewDevice(info);
    if found.Some? {
      KeyNotEmpty(found.value);
      ConnectSame(AddBundleInfo(d, found.value), am);
    }
  }

  lemma BareStep(w: World, info: DeviceInfo, am: nat -> AmResult)
    requires Inv(w) && Plausible(w, Attach(info, am))
    requires DeviceId(info) in w.manager.devices ==> w.manager.devices[DeviceId(info)].bundleInfo == ""
    ensures var found := AttachFinds(w, info);
            && (found.Some? ==> BundleNamed(found.value.bundleName))
            && Step(w, Attach(info, am)).world ==
               w.(manager := Register(w.manager, info, found, am).manager, search := None)
            && Settled(Step(w, Attach(info, am)).world)
    ensures DeviceId(info) in w.manager.devices ==> !w.manager.devices[DeviceId(info)].remote
  {
    hide FirstMatch; hide HasDash; hide DeviceId; hide Register; hide WellNamed; hide BundleNamed; hide VisitComing;
    hide EntryOk; hide Served;
    var m, id, found := w.manager, DeviceId(info), AttachFinds(w, info);
    if w.search == None && found.Some? {
      FirstMatchNamed(w.rows, info);
    }
    if id in m.devices {
      assert DeviceOk(m.devices[id], id, m.callback, m.index, w.rows, w.updates);
    }
    BareRegister(m, info, found, am);
    InvSettled(w.(search := None));
  }

  /** A device was given what the guard does not allow. */
  lemma FiledOrIgnored(index: MatchMap, rows: seq<PkgInfo>, u: Updates, info: DeviceInfo, found: Option<DriverInfo>,
                       v: World, id: Id)
    requires !FilingOk(found, rows, info, u, index, id) && (found.Some? ==> BundleNamed(found.value.bundleName))
    requires Settled(v) && v.rows == rows && v.updates == u && Attached(v.manager, id)
    requires v.manager.index == WithKey(index, KeyFor(found), id) && v.manager.devices[id].info == info
    requires v.manager.devices[id].bundleInfo == if found.Some? then KeyFor(found).value else ""
    requires found.Some? ==> v.manager.devices[id].driver == found
    ensures !EndsRight(v)
  {
    hide FirstMatch; hide Due; hide EndsRight; hide KeyOf; hide GetBundleName; hide Settled; hide VisitComing;
    hide BundleNamed; hide IdsAt;
    if found == None {
      assert Ignored(v, id);
      BadEndsWrong(v, id, "");
    } else {
      var driver := found.value;
      var k := KeyOf(driver.bundleName, driver.driverName);
      KeyNotEmpty(driver);
      FiledAt(index, k, id);
      if FirstKey(rows, info) == Some(k) {
        NotDueWithKey(u, index, k, id, id);
      }
      FiledWrong(v, id, driver, k);
    }
  }

  lemma AttachWrong(w: World, info: DeviceInfo, am: nat -> AmResult)
    requires Inv(w) && Plausible(w, Attach(info, am)) && !Guarded(w, Attach(info, am))
    ensures !EndsRight(Step(w, Attach(info, am)).world)
  {
    hide FirstMatch; hide Due; hide EndsRight; hide KeyOf; hide GetBundleName; hide DeviceId; hide Inv; hide Step;
    hide Settled; hide VisitComing; hide IdsAt; hide BundleNamed; hide Register; hide FilingOk; hide KeyFor;
    var m, id, found := w.manager, DeviceId(info), AttachFinds(w, info);
    if id in m.devices && m.devices[id].bundleInfo != "" {
      RefiledWrong(w, info, am);
      BadEndsWrong(Step(w, Attach(info, am)).world, id, m.devices[id].bundleInfo);
    } else {
      BareStep(w, info, am);
      BareRegister(m, info, found, am);
      var v := Step(w, Attach(info, am)).world;
      FiledOrIgnored(m.index, w.rows, w.updates, info, found, v, id);
    }
  }

  /** Detaching a device takes the entry of another along that cannot do without it. */
  lemma RemovedWrong(w: World, id: Id, r: AmResult) returns (i: Id)
    requires Inv(w) && Plausible(w, Detach(id, r)) && !Guarded(w, Detach(id, r))
    ensures var v := Step(w, Detach(id, r)).world;
            && Settled(v) && Attached(v.manager, i) && v.manager.devices[i].bundleInfo != ""
            && !Due(v.updates, v.manager.index, i)
            && !(Filed(v.manager, i) && FirstMatch(v.rows, v.manager.devices[i].info) == v.manager.devices[i].driver)
  {
    hide FirstMatch; hide Due; hide KeyOf; hide GetBundleName; hide HasDash; hide UnRegister;
    hide WellNamed; hide BundleNamed; hide DevicesOk; hide EntryOk;
    var m, u, v := w.manager, w.updates, Step(w, Detach(id, r)).world;
    var key := m.devices[id].bundleInfo;
    i :| i in m.index[key] && i != id && !DoesWithout(m, w.rows, u, key, i);
    UnRegistered(m, id, r);
    DashNotEmpty(key);
    assert i in m.devices - {id} && (v.manager.devices - {id})[i] == m.devices[i];
    assert v.manager.index == m.index - {key};
  }

  lemma DetachWrong(w: World, id: Id, r: AmResult)
    requires Inv(w) && Plausible(w, Detach(id, r)) && !Guarded(w, Detach(id, r))
    ensures !EndsRight(Step(w, Detach(id, r)).world)
  {
    hide Inv; hide Plausible; hide Guarded; hide Step; hide FirstMatch; hide Due; hide EndsRight; hide Settled;
    hide Filed;
    var i := RemovedWrong(w, id, r);
    Connected(Step(w, Detach(id, r)).world, i);
  }

  lemma VisitWrong(w: World, task: Task, id: Id, am: nat -> AmResult)
    requires Inv(w) && Plausible(w, Visit(task, id, am)) && !Guarded(w, Visit(task, id, am))
    ensures !EndsRight(Step(w, Visit(task, id, am)).world)
  {
    hide FirstMatch; hide Due; hide EndsRight; hide KeyOf; hide GetBundleName; hide DeviceId; hide HasDash;
    hide VisitComing; hide BundleNamed; hide WellNamed; hide Connect; hide FilingOk; hide MarkVisited; hide DevicesOk;
    hide EntryOk; hide IdsAt;
    var m, u, v := w.manager, w.updates, Step(w, Visit(task, id, am)).world;
    var d, ids, found := m.devices[id], u.refreshing[task].ids, w.search.value.found;
    Marked(u, task, id);
    if found.Some? {
      KeyNotEmpty(found.value);
      ConnectSame(AddBundleInfo(AfterDelete(d, id, ids, m.callback), found.value), am);
    }
    InvSettled(w.(search := None));
    assert Settled(v);
    FiledOrIgnored(m.index, w.rows, MarkVisited(u, task, id), d.info, found, v, id);
  }

  lemma OtherStepsGuarded(w: World, e: Event)
    requires Plausible(w, e) && !e.Attach? && !e.Detach? && !e.Visit?
    ensures Guarded(w, e)
  {
    hide Plausible;
  }

  /** A step that can happen meets its guard if and only if, however the service goes on, drivers and table are right
      whenever nothing is on its way. */
  lemma GuardExactly(w: World, e: Event)
    requires Inv(w) && Plausible(w, e)
    ensures Guarded(w, e) <==> EndsRight(Step(w, e).world)
  {
    hide Inv; hide EndsRight; hide Step; hide Plausible; hide Guarded;
    if Guarded(w, e) {
      StepKeeps(w, e);
      InvEndsRight(Step(w, e).world);
    } else if e.Attach? {
      AttachWrong(w, e.info, e.am);
    } else if e.Detach? {
      DetachWrong(w, e.id, e.r);
    } else if e.Visit? {
      VisitWrong(w, e.task, e.id, e.am);
    } else {
      OtherStepsGuarded(w, e);
    }
  }

  // --- what comes between a search and its filing --------------------------------------------------------------

  /** What may happen while a search waits to be filed, other than an erasure. */
  ghost predicate NoErasure(es: seq<Event>) {
    forall e | e in es :: e.Commit? || e.ConnectDone? || e.DisconnectDone?
  }

  /** The search would still find the same, or an update has been committed that has not reached the manager. */
  predicate Fresh(w: World) {
    && w.search.Some?
    && var s := w.search.value;
       || FirstMatch(w.rows, s.info) == s.found
       || (s.found == None && w.updates.pending != multiset{})
       || (s.found.Some? && s.found.value.bundleName in w.updates.pending)
  }

  lemma FreshStep(w: World, e: Event)
    requires Fresh(w) && (e.Commit? || e.ConnectDone? || e.DisconnectDone?) && Plausible(w, e)
    ensures Fresh(Step(w, e).world) && Step(w, e).world.search == w.search
  {
    hide FirstMatch; hide Committed; hide AllBound;
    if e.Commit? {
      var s, name := w.search.value, e.bundleName;
      var u := Step(w, e).world.updates;
      assert u.pending == w.updates.pending + multiset{name} && name in u.pending;
      if FirstMatch(w.rows, s.info) == s.found && s.found.Some? && s.found.value.bundleName != name {
        CommitKeepsOtherMatches(w.rows, name, e.added, s.info);
      }
    }
  }

  lemma {:induction false} FreshRun(w: World, es: seq<Event>)
    requires Fresh(w) && NoErasure(es) && RunEnabled(w, es)
    ensures Fresh(Run(w, es)) && Run(w, es).search == w.search
    decreases |es|
  {
    hide Step; hide Guarded; hide Plausible; hide Fresh;
    if es != [] {
      var prefix, e := es[..|es| - 1], es[|es| - 1];
      assert forall f | f in prefix :: f in es;
      assert e in es;
      FreshRun(w, prefix);
      FreshStep(Run(w, prefix), e);
    }
  }

  lemma FreshGuarded(w: World, e: Event)
    requires Inv(w) && Fresh(w) && Plausible(w, e) && (e.Attach? || e.Visit?)
    ensures Guarded(w, e)
  {
    hide FirstMatch; hide MarkVisited; hide DeviceId; hide Due; hide DevicesOk; hide IndexOk; hide WellNamed;
    hide FoundOk;
    if e.Visit? {
      Marked(w.updates, e.task, e.id);
    }
  }

  /** A search and its filing go wrong only if an erasure comes between them: whatever else does, the filing meets its
      guard, for a device that is announced as for one that is visited. */
  lemma SearchThenFile(w: World, finder: Option<Task>, info: DeviceInfo, es: seq<Event>, e: Event)
    requires Inv(w) && Plausible(w, LookUp(finder, info)) && NoErasure(es) && (e.Attach? || e.Visit?)
    requires var v := Step(w, LookUp(finder, info)).world; RunEnabled(v, es) && Plausible(Run(v, es), e)
    ensures Guarded(Run(Step(w, LookUp(finder, info)).world, es), e)
  {
    hide FirstMatch; hide Run; hide RunEnabled; hide Inv; hide Plausible;
    var v := Step(w, LookUp(finder, info)).world;
    StepKeeps(w, LookUp(finder, info));
    RunKeeps(v, es);
    FreshRun(v, es);
    FreshGuarded(Run(v, es), e);
  }
}
