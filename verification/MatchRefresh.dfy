/** A whole refresh, with nothing in between: its steps, one after the other, in any order of the devices. */
module MatchRefresh {
  import opened Options
  import opened DriverPackages
  import opened DeviceSpec
  import opened MatchSpec

  /** A visit that searches and files at once. */
  function RefreshOne(d: DeviceState, id: Id, ids: set<Id>, callback: bool, rows: seq<PkgInfo>, am: nat -> AmResult)
    : DeviceState
  {
    Rebound(d, id, ids, callback, FoundFor(d, id, ids, callback, rows), am)
  }

  /** The key such a visit records for a device, if any. */
  function NewKey(d: DeviceState, id: Id, ids: set<Id>, callback: bool, rows: seq<PkgInfo>): Option<string> {
    KeyFor(FoundFor(d, id, ids, callback, rows))
  }

  /** Such a visit. */
  function VisitedNow(m: Manager, id: Id, ids: set<Id>, rows: seq<PkgInfo>, am: nat -> AmResult): Manager
    requires id in m.devices
  {
    Visited(m, id, ids, FoundFor(m.devices[id], id, ids, m.callback, rows), am)
  }

  lemma VisitedParts(m: Manager, id: Id, ids: set<Id>, rows: seq<PkgInfo>, am: nat -> AmResult)
    requires id in m.devices
    ensures VisitedNow(m, id, ids, rows, am) ==
            Manager(m.devices[id := RefreshOne(m.devices[id], id, ids, m.callback, rows, am)],
                    WithKey(m.index, NewKey(m.devices[id], id, ids, m.callback, rows), id), m.callback)
  {
    hide Rebound; hide FoundFor; hide KeyFor; hide WithKey;
  }

  /** The devices, among `over`, for which a refresh records `key`. */
  function NewIds(m: Manager, over: set<Id>, ids: set<Id>, rows: seq<PkgInfo>, key: string): set<Id> {
    set id | id in over && id in m.devices && NewKey(m.devices[id], id, ids, m.callback, rows) == Some(key)
  }

  function NewKeys(m: Manager, over: set<Id>, ids: set<Id>, rows: seq<PkgInfo>): set<string> {
    set id | id in over && id in m.devices && NewKey(m.devices[id], id, ids, m.callback, rows).Some? ::
      NewKey(m.devices[id], id, ids, m.callback, rows).value
  }

  function MatchedDevices(m: Manager, over: set<Id>, ids: set<Id>, rows: seq<PkgInfo>, ams: Id -> nat -> AmResult)
    : map<Id, DeviceState>
  {
    map id | id in m.devices ::
      if id in over then RefreshOne(m.devices[id], id, ids, m.callback, rows, ams(id)) else m.devices[id]
  }

  function MatchedIndex(m: Manager, over: set<Id>, ids: set<Id>, rows: seq<PkgInfo>): MatchMap {
    map k | k in m.index.Keys + NewKeys(m, over, ids, rows) :: IdsAt(m.index, k) + NewIds(m, over, ids, rows, k)
  }

  /** MatchDriverInfos, having visited the devices `over`: the order in which they are visited does not show. */
  function Matched(m: Manager, over: set<Id>, ids: set<Id>, rows: seq<PkgInfo>, ams: Id -> nat -> AmResult): Manager {
    Manager(MatchedDevices(m, over, ids, rows, ams), MatchedIndex(m, over, ids, rows), m.callback)
  }

  /** OnBundlesUpdated. */
  function BundlesUpdated(m: Manager, bundleName: string, rows: seq<PkgInfo>, ams: Id -> nat -> AmResult): Manager {
    Matched(m.(index := KeptIndex(m.index, bundleName)), m.devices.Keys, DeletedIds(m.index, bundleName), rows, ams)
  }

  lemma MatchedNone(m: Manager, ids: set<Id>, rows: seq<PkgInfo>, ams: Id -> nat -> AmResult)
    ensures Matched(m, {}, ids, rows, ams) == m
  {
    hide RefreshOne; hide NewKey;
    var r := Matched(m, {}, ids, rows, ams);
    assert NewKeys(m, {}, ids, rows) == {};
    forall k | k in m.index ensures r.index[k] == m.index[k] {
      assert NewIds(m, {}, ids, rows, k) == {};
    }
  }

  lemma MatchedDevicesStep(m: Manager, over: set<Id>, id: Id, ids: set<Id>, rows: seq<PkgInfo>,
                           ams: Id -> nat -> AmResult)
    requires id in m.devices && id !in over
    ensures MatchedDevices(m, over, ids, rows, ams).Keys == m.devices.Keys
    ensures MatchedDevices(m, over, ids, rows, ams)[id] == m.devices[id]
    ensures MatchedDevices(m, over + {id}, ids, rows, ams) ==
            MatchedDevices(m, over, ids, rows, ams)[id :=
              RefreshOne(m.devices[id], id, ids, m.callback, rows, ams(id))]
  {
    hide RefreshOne;
  }

  lemma NewKeysStep(m: Manager, over: set<Id>, id: Id, ids: set<Id>, rows: seq<PkgInfo>)
    requires id in m.devices
    ensures var key := NewKey(m.devices[id], id, ids, m.callback, rows);
            NewKeys(m, over + {id}, ids, rows) ==
            NewKeys(m, over, ids, rows) + (if key.Some? then {key.value} else {})
  {
    hide NewKey;
  }

  lemma NewIdsStep(m: Manager, over: set<Id>, id: Id, ids: set<Id>, rows: seq<PkgInfo>, k: string)
    requires id in m.devices
    ensures var key := NewKey(m.devices[id], id, ids, m.callback, rows);
            NewIds(m, over + {id}, ids, rows, k) ==
            NewIds(m, over, ids, rows, k) + (if key == Some(k) then {id} else {})
  {
    hide NewKey;
  }

  lemma NoNewIds(m: Manager, over: set<Id>, ids: set<Id>, rows: seq<PkgInfo>, k: string)
    requires k !in NewKeys(m, over, ids, rows)
    ensures NewIds(m, over, ids, rows, k) == {}
  {
    hide NewKey;
  }

  lemma MatchedIndexStep(m: Manager, over: set<Id>, id: Id, ids: set<Id>, rows: seq<PkgInfo>)
    requires id in m.devices && id !in over
    ensures MatchedIndex(m, over + {id}, ids, rows) ==
            WithKey(MatchedIndex(m, over, ids, rows), NewKey(m.devices[id], id, ids, m.callback, rows), id)
  {
    hide NewKey; hide NewKeys; hide NewIds;
    var before, after := MatchedIndex(m, over, ids, rows), MatchedIndex(m, over + {id}, ids, rows);
    var key := NewKey(m.devices[id], id, ids, m.callback, rows);
    var index := WithKey(before, key, id);
    NewKeysStep(m, over, id, ids, rows);
    assert after.Keys == index.Keys;
    forall k | k in index ensures after[k] == index[k] {
      NewIdsStep(m, over, id, ids, rows, k);
      if k !in before {
        NoNewIds(m, over, ids, rows, k);
      }
    }
  }

  /** Visiting one more device: the order does not matter, because each visit adds its own id only. */
  lemma MatchedStep(m: Manager, over: set<Id>, id: Id, ids: set<Id>, rows: seq<PkgInfo>,
                    ams: Id -> nat -> AmResult)
    requires id in m.devices && id !in over
    ensures Matched(m, over, ids, rows, ams).devices.Keys == m.devices.Keys
    ensures Matched(m, over + {id}, ids, rows, ams) ==
            VisitedNow(Matched(m, over, ids, rows, ams), id, ids, rows, ams(id))
  {
    hide Rebound; hide FoundFor; hide KeyFor; hide MatchedDevices; hide MatchedIndex; hide WithKey;
    MatchedDevicesStep(m, over, id, ids, rows, ams);
    MatchedIndexStep(m, over, id, ids, rows);
  }

  // --- the refresh as steps of the service ---------------------------------------------------------------------

  /** The service after a whole refresh. */
  function Refreshed(w: World, name: string, ams: Id -> nat -> AmResult): World {
    w.(manager := BundlesUpdated(w.manager, name, w.rows, ams),
       updates := w.updates.(pending := w.updates.pending - multiset{name}))
  }

  function Elements(order: seq<Id>): set<Id> {
    set id | id in order
  }

  predicate NoRepeats(order: seq<Id>) {
    forall i, j | 0 <= i < j < |order| :: order[i] != order[j]
  }

  function Visits(task: Task, order: seq<Id>, ams: Id -> nat -> AmResult): seq<Event> {
    if order == [] then []
    else
      var id := order[|order| - 1];
      Visits(task, order[..|order| - 1], ams) + [Visit(task, id, ams(id))]
  }

  /** An erasure, a visit to every device, and the end. */
  function RefreshEvents(task: Task, name: string, order: seq<Id>, ams: Id -> nat -> AmResult): seq<Event> {
    [Erase(task, name)] + Visits(task, order, ams) + [Finish(task)]
  }

  lemma VisitedNext(w: World, task: Task, id: Id, am: nat -> AmResult)
    requires task in w.updates.refreshing && id in w.manager.devices && id !in w.updates.refreshing[task].visited
    requires w.search == None
    ensures Enabled(w, Visit(task, id, am))
    ensures Step(w, Visit(task, id, am)).world ==
            w.(manager := VisitedNow(w.manager, id, w.updates.refreshing[task].ids, w.rows, am),
               updates := MarkVisited(w.updates, task, id))
  {
    hide KeptIndex; hide DeletedIds; hide Register; hide UnRegister; hide Visited; hide ConnectClient;
    hide DisconnectClient; hide DriverConnected; hide DriverDisconnected; hide Committed; hide WellNamed;
    hide FilingOk; hide RefilingOk; hide RemovalOk; hide MarkVisited;
  }

  lemma {:induction false} VisitsMatch(w: World, task: Task, order: seq<Id>, ams: Id -> nat -> AmResult)
    requires task in w.updates.refreshing && w.updates.refreshing[task].visited == {} && w.search == None
    requires NoRepeats(order) && Elements(order) <= w.manager.devices.Keys
    ensures var t := w.updates.refreshing[task];
            Run(w, Visits(task, order, ams)) ==
            w.(manager := Matched(w.manager, Elements(order), t.ids, w.rows, ams),
               updates := w.updates.(refreshing := w.updates.refreshing[task := t.(visited := Elements(order))]))
    ensures RunEnabled(w, Visits(task, order, ams))
    decreases |order|
  {
    hide Matched; hide VisitedNow; hide Run; hide RunEnabled; hide Step; hide Enabled; hide StepVisit;
    var m, u, t := w.manager, w.updates, w.updates.refreshing[task];
    if order == [] {
      assert Run(w, []) == w && RunEnabled(w, []) by { RunNothing(w); }
      MatchedNone(m, t.ids, w.rows, ams);
      assert Elements(order) == {} && u.refreshing[task := t] == u.refreshing;
    } else {
      var prefix, id := order[..|order| - 1], order[|order| - 1];
      assert order == prefix + [id] && Elements(order) == Elements(prefix) + {id};
      assert id !in Elements(prefix);
      VisitsMatch(w, task, prefix, ams);
      MatchedStep(m, Elements(prefix), id, t.ids, w.rows, ams);
      var v := Run(w, Visits(task, prefix, ams));
      RunNext(w, Visits(task, prefix, ams), Visit(task, id, ams(id)));
      VisitedNext(v, task, id, ams(id));
      assert v.updates.refreshing[task := v.updates.refreshing[task].(visited := Elements(order))] ==
             u.refreshing[task := t.(visited := Elements(order))];
    }
  }

  lemma Erased(w: World, task: Task, name: string)
    requires task !in w.updates.refreshing
    ensures Step(w, Erase(task, name)).world == StepErase(w, task, name)
    ensures name in w.updates.pending ==> Enabled(w, Erase(task, name))
    ensures var m, e := w.manager, StepErase(w, task, name);
            && e.manager == m.(index := KeptIndex(m.index, name)) && e.rows == w.rows && e.search == w.search
            && e.updates.pending == w.updates.pending - multiset{name}
            && task in e.updates.refreshing
            && e.updates.refreshing[task] == Refreshing(name, DeletedIds(m.index, name), {})
            && e.updates.refreshing - {task} == w.updates.refreshing
  {
    hide KeptIndex; hide DeletedIds; hide Register; hide UnRegister; hide Visited; hide ConnectClient;
    hide DisconnectClient; hide DriverConnected; hide DriverDisconnected; hide Committed; hide WellNamed;
    hide FilingOk; hide RefilingOk; hide RemovalOk;
  }

  lemma Finished(w: World, task: Task)
    requires task in w.updates.refreshing
    ensures Step(w, Finish(task)).world == w.(updates := w.updates.(refreshing := w.updates.refreshing - {task}))
    ensures Enabled(w, Finish(task)) <==>
            w.search == None && w.manager.devices.Keys <= w.updates.refreshing[task].visited
  {
    hide KeptIndex; hide DeletedIds; hide Register; hide UnRegister; hide Visited; hide ConnectClient;
    hide DisconnectClient; hide DriverConnected; hide DriverDisconnected; hide Committed; hide WellNamed;
    hide FilingOk; hide RefilingOk; hide RemovalOk;
  }

  lemma MatchedKeys(m: Manager, over: set<Id>, ids: set<Id>, rows: seq<PkgInfo>, ams: Id -> nat -> AmResult)
    ensures Matched(m, over, ids, rows, ams).devices.Keys == m.devices.Keys
  {
  }

  /** The erasure, the visits and the end, with nothing in between, are the whole refresh, whatever the order of the
      devices; and they are steps the service can take. */
  lemma RefreshIsSteps(w: World, task: Task, name: string, order: seq<Id>, ams: Id -> nat -> AmResult)
    requires w.search == None && task !in w.updates.refreshing
    requires NoRepeats(order) && Elements(order) == w.manager.devices.Keys
    ensures Run(w, RefreshEvents(task, name, order, ams)) == Refreshed(w, name, ams)
    ensures name in w.updates.pending ==> RunEnabled(w, RefreshEvents(task, name, order, ams))
  {
    hide Matched; hide StepErase; hide Run; hide RunEnabled; hide Step; hide Enabled; hide Visits; hide Elements;
    var visits, erased := Visits(task, order, ams), StepErase(w, task, name);
    Erased(w, task, name);
    VisitsMatch(erased, task, order, ams);
    RunAfter(w, Erase(task, name), visits + [Finish(task)]);
    assert [Erase(task, name)] + (visits + [Finish(task)]) == RefreshEvents(task, name, order, ams);
    RunNext(erased, visits, Finish(task));
    MatchedKeys(erased.manager, Elements(order), erased.updates.refreshing[task].ids, w.rows, ams);
    Finished(Run(erased, visits), task);
    assert Run(erased, visits).updates.refreshing - {task} == w.updates.refreshing;
  }
}
