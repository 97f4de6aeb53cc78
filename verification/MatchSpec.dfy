/** The device manager as steps over its devices and its match table, and the runs of the whole matching service.
    Every method that holds the manager's lock is one step, with two exceptions. A package refresh erases the bundle's
    entries in one step and visits each device in another, so that anything may happen in between. And a search for a
    driver may be a step of its own, after which the lock stays with whoever files the driver found, so that only what
    needs no lock may happen in between: package updates, erasures, and answers of drivers. */
module MatchSpec {
  import opened Options
  import opened DriverPackages
  import opened DeviceSpec

  type Id = nat

  const BUS_TYPES: nat := 0x1_0000_0000

  /** A device id packs the bus type into the low half and the device id of the bus into the high half. */
  function DeviceId(info: DeviceInfo): Id {
    info.busType + info.busDevId * BUS_TYPES
  }

  lemma Unpack(info: DeviceInfo)
    requires info.busType < 0x1_0000_0000
    ensures DeviceId(info) % 0x1_0000_0000 == info.busType && DeviceId(info) / 0x1_0000_0000 == info.busDevId
  {
  }

  /** The manager keeps one map of devices per bus type and reads the bus type off an id, so ids name their map. */
  lemma IdNamesItsBus(info: DeviceInfo, other: DeviceInfo)
    requires info.busType < 0x1_0000_0000 && other.busType < 0x1_0000_0000
    ensures DeviceId(info) % 0x1_0000_0000 == info.busType && DeviceId(info) / 0x1_0000_0000 == info.busDevId
    ensures DeviceId(info) == DeviceId(other) <==> info.busType == other.busType && info.busDevId == other.busDevId
  {
    Unpack(info);
    Unpack(other);
  }

  type MatchMap = map<string, set<Id>>

  /** `callback` says that a driver change callback is registered; without one a removed driver is not forgotten. */
  datatype Manager = Manager(devices: map<Id, DeviceState>, index: MatchMap, callback: bool)

  function IdsAt(index: MatchMap, key: string): set<Id> {
    if key in index then index[key] else {}
  }

  // --- one device and the match table --------------------------------------------------------------------------

  function AddBundleInfo(d: DeviceState, driver: DriverInfo): DeviceState {
    d.(bundleInfo := KeyOf(driver.bundleName, driver.driverName), driverUid := driver.driverUid, driver := Some(driver))
  }

  function RemoveDriverInfo(d: DeviceState, callback: bool): DeviceState {
    if callback then d.(driver := None) else d
  }

  datatype TableResult = TableResult(index: MatchMap, device: DeviceState, status: Status)

  /** AddDevIdOfBundleInfoMap: records the device under its bundle and starts the driver unless a client is to. */
  function AddDevId(index: MatchMap, d: DeviceState, id: Id, am: nat -> AmResult): TableResult
  {
    if d.bundleInfo == "" then TableResult(index, d, InvalidParam)
    else
      var index' := index[d.bundleInfo := IdsAt(index, d.bundleInfo) + {id}];
      if d.driver == None then TableResult(index', d, Nok)
      else if d.driver.value.meta.launchOnBind then TableResult(index', d, Ok)
      else
        var c := Connect(d, am);
        TableResult(index', c.device, if c.status == Ok then Ok else Nok)
  }

  /** RemoveDevIdOfBundleInfoMap: the last device of a bundle takes the entry with it and stops the driver. */
  function RemoveDevId(index: MatchMap, d: DeviceState, id: Id, callback: bool, r: AmResult): TableResult
  {
    if d.bundleInfo == "" then TableResult(index, d, InvalidParam)
    else if d.bundleInfo !in index then TableResult(index, d, Ok)
    else if |index[d.bundleInfo]| > 1 then TableResult(index[d.bundleInfo := index[d.bundleInfo] - {id}], d, Ok)
    else
      var status := Disconnect(d, r);
      TableResult(index - {d.bundleInfo}, if status == Ok then RemoveDriverInfo(d, callback) else d, status)
  }

  // --- the manager's steps -------------------------------------------------------------------------------------

  datatype ManagerResult = ManagerResult(manager: Manager, status: Status)

  /** Registering a device object: unless it has a driver, it gets the one found, and is started. */
  function RegisterFound(index: MatchMap, d: DeviceState, id: Id, found: Option<DriverInfo>, am: nat -> AmResult)
    : TableResult
  {
    var d' := if d.bundleInfo == "" && found.Some? then AddBundleInfo(d, found.value) else d;
    if d'.bundleInfo == "" then TableResult(index, d', Ok)
    else
      var r := AddDevId(index, d', id, am);
      TableResult(r.index, r.device, if r.status == Ok then Ok else Nok)
  }

  function Register(m: Manager, info: DeviceInfo, found: Option<DriverInfo>, am: nat -> AmResult): ManagerResult {
    var id := DeviceId(info);
    var d := if id in m.devices then m.devices[id] else NewDevice(info);
    if d.remote then ManagerResult(m, Ok)
    else
      var r := RegisterFound(m.index, d, id, found, am);
      ManagerResult(m.(devices := m.devices[id := r.device], index := r.index), r.status)
  }

  /** A device that a running driver still holds stays behind, marked, until the driver has disconnected. */
  function UnRegister(m: Manager, id: Id, r: AmResult): ManagerResult {
    if id !in m.devices then ManagerResult(m, Ok)
    else
      var d := m.devices[id];
      var d' := if d.remote then d.(unregistered := true) else d;
      var t := if d.bundleInfo == "" then TableResult(m.index, d', Ok) else RemoveDevId(m.index, d', id, m.callback, r);
      ManagerResult(m.(devices := if d.remote then m.devices[id := t.device] else m.devices - {id}, index := t.index),
                    t.status)
  }

  predicate OfBundle(key: string, bundleName: string) {
    bundleName == "" || bundleName + [STITCHING] <= key
  }

  /** DeleteBundlesOfBundleInfoMap: the table without the entries of a bundle, and the ids they held. Clearing the
      whole table returns no ids. */
  function KeptIndex(index: MatchMap, bundleName: string): MatchMap {
    map k | k in index && !OfBundle(k, bundleName) :: index[k]
  }

  function DeletedIds(index: MatchMap, bundleName: string): set<Id> {
    if bundleName == "" then {} else set k, id | k in index && OfBundle(k, bundleName) && id in index[k] :: id
  }

  /** What a refresh does to one device before it looks for a driver. */
  function Released(d: DeviceState, callback: bool): DeviceState {
    RemoveDriverInfo(d.(bundleInfo := "", driverUid := "", remote := false), callback)
  }

  function AfterDelete(d: DeviceState, id: Id, ids: set<Id>, callback: bool): DeviceState {
    if id in ids then Released(d, callback) else d
  }

  /** The driver a refresh finds for a device, if it looks for one. */
  function Rematch(d: DeviceState, rows: seq<PkgInfo>): Option<DriverInfo> {
    if d.unregistered || d.remote then None else FirstMatch(rows, d.info)
  }

  function Started(d: DeviceState, am: nat -> AmResult): DeviceState {
    if d.driver.Some? && d.driver.value.meta.launchOnBind then d else Connect(d, am).device
  }

  function FoundFor(d: DeviceState, id: Id, ids: set<Id>, callback: bool, rows: seq<PkgInfo>): Option<DriverInfo> {
    Rematch(AfterDelete(d, id, ids, callback), rows)
  }

  /** The device after a visit that found a driver, or none. */
  function Rebound(d: DeviceState, id: Id, ids: set<Id>, callback: bool, found: Option<DriverInfo>, am: nat -> AmResult)
    : DeviceState
  {
    var d0 := AfterDelete(d, id, ids, callback);
    if found.Some? then Started(AddBundleInfo(d0, found.value), am) else d0
  }

  function KeyFor(found: Option<DriverInfo>): Option<string> {
    if found.Some? then Some(KeyOf(found.value.bundleName, found.value.driverName)) else None
  }

  function WithKey(index: MatchMap, key: Option<string>, id: Id): MatchMap {
    match key
    case None => index
    case Some(k) => index[k := IdsAt(index, k) + {id}]
  }

  /** A refresh visits one device. */
  function Visited(m: Manager, id: Id, ids: set<Id>, found: Option<DriverInfo>, am: nat -> AmResult): Manager
    requires id in m.devices
  {
    Manager(m.devices[id := Rebound(m.devices[id], id, ids, m.callback, found, am)],
            WithKey(m.index, KeyFor(found), id), m.callback)
  }

  function WithDevice(m: Manager, id: Id, d: DeviceState): Manager {
    m.(devices := m.devices[id := d])
  }

  /** A client binds to a device; `access` is the result of the permission check. */
  function ConnectClient(m: Manager, id: Id, token: Token, access: Status, reg: Status, r: AmResult): ManagerResult {
    if id !in m.devices then ManagerResult(m, Nok)
    else if access != Ok then ManagerResult(m, access)
    else
      var b := Bind(m.devices[id], token, reg, r);
      ManagerResult(WithDevice(m, id, b.device), b.status)
  }

  datatype UnbindOutcome = UnbindOutcome(manager: Manager, status: Status, unbinding: Unbinding)

  function DisconnectClient(m: Manager, id: Id, token: Token, byDriver: bool, r: AmResult): UnbindOutcome {
    if id !in m.devices then UnbindOutcome(m, Nok, Refused)
    else
      var u := Unbind(m.devices[id], token, byDriver, r);
      UnbindOutcome(WithDevice(m, id, u.device), u.status, u.unbinding)
  }

  function DriverConnected(m: Manager, id: Id, remote: bool): ManagerResult {
    if id !in m.devices then ManagerResult(m, InvalidObject)
    else ManagerResult(WithDevice(m, id, OnConnect(m.devices[id], remote)), Ok)
  }

  /** A detached device goes once its driver has disconnected. */
  function DriverDisconnected(m: Manager, id: Id): ManagerResult {
    if id !in m.devices then ManagerResult(m, InvalidObject)
    else if m.devices[id].unregistered then ManagerResult(m.(devices := m.devices - {id}), Ok)
    else ManagerResult(WithDevice(m, id, OnDisconnect(m.devices[id])), Ok)
  }

  // --- the service ---------------------------------------------------------------------------------------------

  type Task = nat

  /** A refresh under way: the entries of its bundle are erased, `ids` are the devices they held, and `visited` those
      matched again so far. */
  datatype Refreshing = Refreshing(bundleName: string, ids: set<Id>, visited: set<Id>)

  /** The bundles whose committed update has not reached the manager yet, and the refreshes under way. */
  datatype Updates = Updates(pending: multiset<string>, refreshing: map<Task, Refreshing>)

  /** A search whose result is not filed yet, by a refresh or for a device that was announced. */
  datatype Search = Search(finder: Option<Task>, info: DeviceInfo, found: Option<DriverInfo>)

  datatype World = World(manager: Manager, rows: seq<PkgInfo>, updates: Updates, search: Option<Search>)

  datatype Event =
    | LookUp(finder: Option<Task>, info: DeviceInfo)
    | Attach(info: DeviceInfo, am: nat -> AmResult)
    | Detach(id: Id, r: AmResult)
    | Commit(bundleName: string, added: seq<PkgInfo>)
    | Erase(task: Task, bundleName: string)
    | Visit(task: Task, id: Id, am: nat -> AmResult)
    | Finish(task: Task)
    | BindClient(id: Id, token: Token, access: Status, reg: Status, r: AmResult)
    | UnbindClient(id: Id, token: Token, byDriver: bool, r: AmResult)
    | ConnectDone(id: Id, remote: bool)
    | DisconnectDone(id: Id)

  datatype StepResult = StepResult(world: World, status: Status)

  /** The driver a device that is announced gets: the one found before, or the one found now. */
  function AttachFinds(w: World, info: DeviceInfo): Option<DriverInfo> {
    if w.search.Some? then w.search.value.found else FirstMatch(w.rows, info)
  }

  /** The driver a visited device gets. */
  function VisitFinds(w: World, ids: set<Id>, id: Id): Option<DriverInfo>
    requires id in w.manager.devices
  {
    if w.search.Some? then w.search.value.found
    else FoundFor(w.manager.devices[id], id, ids, w.manager.callback, w.rows)
  }

  function StepErase(w: World, task: Task, name: string): World {
    var m, u := w.manager, w.updates;
    w.(manager := m.(index := KeptIndex(m.index, name)),
       updates := Updates(u.pending - multiset{name},
                          u.refreshing[task := Refreshing(name, DeletedIds(m.index, name), {})]))
  }

  /** The updates once a refresh has visited one more device. */
  function MarkVisited(u: Updates, task: Task, id: Id): Updates
    requires task in u.refreshing
  {
    u.(refreshing := u.refreshing[task := u.refreshing[task].(visited := u.refreshing[task].visited + {id})])
  }

  function StepVisit(w: World, task: Task, id: Id, am: nat -> AmResult): World {
    var m, u := w.manager, w.updates;
    if task !in u.refreshing || id !in m.devices then w
    else
      var ids := u.refreshing[task].ids;
      World(Visited(m, id, ids, VisitFinds(w, ids, id), am), w.rows, MarkVisited(u, task, id), None)
  }

  function Step(w: World, e: Event): StepResult {
    var m, u := w.manager, w.updates;
    match e
    case LookUp(finder, info) => StepResult(w.(search := Some(Search(finder, info, FirstMatch(w.rows, info)))), Ok)
    case Attach(info, am) =>
      var r := Register(m, info, AttachFinds(w, info), am);
      StepResult(w.(manager := r.manager, search := None), r.status)
    case Detach(id, a) =>
      var r := UnRegister(m, id, a);
      StepResult(w.(manager := r.manager), r.status)
    case Commit(name, added) =>
      var u' := u.(pending := u.pending + multiset{name});
      StepResult(w.(rows := Committed(w.rows, name, added), updates := u'), Ok)
    case Erase(task, name) => StepResult(StepErase(w, task, name), Ok)
    case Visit(task, id, am) => StepResult(StepVisit(w, task, id, am), Ok)
    case Finish(task) => StepResult(w.(updates := u.(refreshing := u.refreshing - {task})), Ok)
    case BindClient(id, token, access, reg, a) =>
      var r := ConnectClient(m, id, token, access, reg, a);
      StepResult(w.(manager := r.manager), r.status)
    case UnbindClient(id, token, byDriver, a) =>
      var r := DisconnectClient(m, id, token, byDriver, a);
      StepResult(w.(manager := r.manager), r.status)
    case ConnectDone(id, remote) =>
      var r := DriverConnected(m, id, remote);
      StepResult(w.(manager := r.manager), r.status)
    case DisconnectDone(id) =>
      var r := DriverDisconnected(m, id);
      StepResult(w.(manager := r.manager), r.status)
  }

  /** What an unbind of a client does in a world. */
  function UnbindingOf(w: World, id: Id, token: Token, byDriver: bool, r: AmResult): Unbinding {
    DisconnectClient(w.manager, id, token, byDriver, r).unbinding
  }

  /** A bundle's name, as the package manager gives it. */
  predicate BundleNamed(name: string) {
    name != "" && !HasDash(name)
  }

  predicate WellNamed(rows: seq<PkgInfo>) {
    forall row | row in rows :: BundleNamed(row.bundleName)
  }

  predicate Attached(m: Manager, id: Id) {
    id in m.devices && !m.devices[id].unregistered
  }

  /** Who looks for a driver: an announcement, for a device that has none, or a refresh, for a device it has yet to
      visit and that runs no driver or is about to be released. */
  predicate MaySearch(m: Manager, u: Updates, finder: Option<Task>, info: DeviceInfo) {
    var id := DeviceId(info);
    && (id in m.devices ==> Attached(m, id) && m.devices[id].info == info)
    && match finder
       case None => id in m.devices ==> m.devices[id].bundleInfo == ""
       case Some(task) =>
         && id in m.devices && task in u.refreshing && id !in u.refreshing[task].visited
         && (m.devices[id].remote ==> id in u.refreshing[task].ids)
  }

  /** What the environment may do: a device is announced again only as the same device and not while its detach waits
      for the driver; it is detached once; a driver connects only to a device that has one; an update names its bundle
      and brings rows of that bundle; a refresh answers an update, looks for drivers only for devices that run none or
      whose entry it erased, and visits every device once before it ends. While a search waits to be filed, only who
      made it takes a step that needs the lock. */
  predicate Plausible(w: World, e: Event) {
    var m, u := w.manager, w.updates;
    match e
    case LookUp(finder, info) => w.search == None && MaySearch(m, u, finder, info)
    case Attach(info, am) =>
      && (DeviceId(info) in m.devices ==> Attached(m, DeviceId(info)) && m.devices[DeviceId(info)].info == info)
      && (w.search.Some? ==> w.search.value.finder == None && w.search.value.info == info)
    case Detach(id, r) => w.search == None && (id in m.devices ==> Attached(m, id))
    case Commit(name, added) => BundleNamed(name) && forall row | row in added :: row.bundleName == name
    case Erase(task, name) => name in u.pending && task !in u.refreshing
    case Visit(task, id, am) =>
      && task in u.refreshing && id in m.devices && id !in u.refreshing[task].visited
      && (w.search.Some? ==> w.search.value.finder == Some(task) && DeviceId(w.search.value.info) == id)
    case Finish(task) => w.search == None && task in u.refreshing && m.devices.Keys <= u.refreshing[task].visited
    case BindClient(_, _, _, _, _) => w.search == None
    case UnbindClient(_, _, _, _) => w.search == None
    case ConnectDone(id, remote) => remote && Attached(m, id) ==> m.devices[id].bundleInfo != ""
    case DisconnectDone(id) => id in m.devices && m.devices[id].unregistered ==> w.search == None
  }

  // --- what must not come between an erasure and a visit, or between a search and its filing ---------------------

  /** The device is in the table under the key it has. */
  predicate Filed(m: Manager, id: Id)
    requires id in m.devices
  {
    id in IdsAt(m.index, m.devices[id].bundleInfo)
  }

  /** The key the plain definition gives a device. */
  function FirstKey(rows: seq<PkgInfo>, info: DeviceInfo): Option<string> {
    KeyFor(FirstMatch(rows, info))
  }

  /** A refresh under way erased an entry of the device and has yet to visit it. */
  predicate Waiting(refreshing: map<Task, Refreshing>, id: Id) {
    exists t | t in refreshing :: id in refreshing[t].ids && id !in refreshing[t].visited
  }

  /** A refresh will release the device and match it again: one that has erased an entry of it, or one that is going
      to. */
  predicate Due(u: Updates, index: MatchMap, id: Id) {
    Waiting(u.refreshing, id) || exists k | k in index :: id in index[k] && GetBundleName(k) in u.pending
  }

  /** A refresh will visit the device. */
  predicate VisitComing(u: Updates, id: Id) {
    u.pending != multiset{} || exists t | t in u.refreshing :: id !in u.refreshing[t].visited
  }

  /** What was found may be filed: it is still what the search would find, or the refresh that will put it right is
      still to come. */
  predicate FilingOk(found: Option<DriverInfo>, rows: seq<PkgInfo>, info: DeviceInfo, u: Updates, index: MatchMap,
                     id: Id) {
    match found
    case None => FirstMatch(rows, info) == None || VisitComing(u, id)
    case Some(driver) =>
      || driver.bundleName in u.pending || FirstMatch(rows, info) == found
      || (FirstKey(rows, info) == KeyFor(found) && Due(u, index, id))
  }

  /** A device that has a driver may be filed again under its key: it is filed already, or the key is the right one, or
      its bundle is being updated. */
  predicate RefilingOk(m: Manager, rows: seq<PkgInfo>, u: Updates, id: Id)
    requires id in m.devices
  {
    var d := m.devices[id];
    Filed(m, id) || GetBundleName(d.bundleInfo) in u.pending || FirstKey(rows, d.info) == Some(d.bundleInfo)
  }

  /** The device does without the entry at `key`: it has no driver, or has its first match under another key, or is due
      all the same. */
  predicate DoesWithout(m: Manager, rows: seq<PkgInfo>, u: Updates, key: string, id: Id) {
    Attached(m, id) && m.devices[id].bundleInfo != "" ==>
      var d := m.devices[id];
      (d.bundleInfo != key && Filed(m, id) && FirstMatch(rows, d.info) == d.driver) || Due(u, m.index - {key}, id)
  }

  /** Removing the last id of an entry removes the entry, whoever stands in it. */
  predicate RemovalOk(m: Manager, rows: seq<PkgInfo>, u: Updates, id: Id)
    requires id in m.devices
  {
    var key := m.devices[id].bundleInfo;
    |IdsAt(m.index, key)| == 1 ==> forall i | i in m.index[key] && i != id :: DoesWithout(m, rows, u, key, i)
  }

  /** The guard of each step. Steps that search and file at once always meet it. */
  predicate Guarded(w: World, e: Event)
    requires Plausible(w, e)
  {
    var m, u := w.manager, w.updates;
    match e
    case Attach(info, am) =>
      var id := DeviceId(info);
      if id in m.devices && m.devices[id].remote then true
      else if id in m.devices && m.devices[id].bundleInfo != "" then RefilingOk(m, w.rows, u, id)
      else FilingOk(AttachFinds(w, info), w.rows, info, u, m.index, id)
    case Detach(id, r) => id in m.devices ==> RemovalOk(m, w.rows, u, id)
    case Visit(task, id, am) =>
      w.search.Some? ==>
        var d, found := m.devices[id], w.search.value.found;
        || (found == None && id !in u.refreshing[task].ids && d.bundleInfo != "")
        || FilingOk(found, w.rows, d.info, MarkVisited(u, task, id), m.index, id)
    case _ => true
  }

  predicate Enabled(w: World, e: Event) {
    Plausible(w, e) && Guarded(w, e)
  }

  /** No update is on its way. */
  predicate Quiescent(w: World) {
    w.updates == Updates(multiset{}, map[]) && w.search == None
  }

  /** Before the first device arrives, with the table as the initial load left it. */
  predicate Initial(w: World) {
    w.manager.devices == map[] && w.manager.index == map[] && Quiescent(w) && WellNamed(w.rows)
  }

  function Run(w: World, es: seq<Event>): World {
    if es == [] then w else Step(Run(w, es[..|es| - 1]), es[|es| - 1]).world
  }

  predicate RunEnabled(w: World, es: seq<Event>) {
    es == [] || (RunEnabled(w, es[..|es| - 1]) && Enabled(Run(w, es[..|es| - 1]), es[|es| - 1]))
  }

  lemma RunNext(w: World, es: seq<Event>, e: Event)
    ensures Run(w, es + [e]) == Step(Run(w, es), e).world
    ensures RunEnabled(w, es + [e]) <==> RunEnabled(w, es) && Enabled(Run(w, es), e)
  {
    hide Step; hide Enabled;
    assert (es + [e])[..|es + [e]| - 1] == es;
  }

  lemma RunNothing(w: World)
    ensures Run(w, []) == w && RunEnabled(w, [])
  {
  }

  /** A run after a first event. */
  lemma {:induction false} RunAfter(w: World, e: Event, es: seq<Event>)
    ensures Run(w, [e] + es) == Run(Step(w, e).world, es)
    ensures RunEnabled(w, [e] + es) <==> Enabled(w, e) && RunEnabled(Step(w, e).world, es)
    decreases |es|
  {
    hide Step; hide Enabled; hide Run; hide RunEnabled;
    RunNothing(w);
    RunNothing(Step(w, e).world);
    if es == [] {
      assert [e] + es == [] + [e];
      RunNext(w, [], e);
    } else {
      var prefix, last := es[..|es| - 1], es[|es| - 1];
      RunAfter(w, e, prefix);
      assert [e] + es == ([e] + prefix) + [last] && es == prefix + [last];
      RunNext(w, [e] + prefix, last);
      RunNext(Step(w, e).world, prefix, last);
    }
  }

  /** A run after a run. */
  lemma {:induction false} RunJoined(w: World, es: seq<Event>, fs: seq<Event>)
    ensures Run(w, es + fs) == Run(Run(w, es), fs)
    ensures RunEnabled(w, es + fs) <==> RunEnabled(w, es) && RunEnabled(Run(w, es), fs)
    decreases |fs|
  {
    hide Step; hide Enabled; hide Run; hide RunEnabled;
    if fs == [] {
      assert es + fs == es;
      RunNothing(Run(w, es));
    } else {
      var prefix, last := fs[..|fs| - 1], fs[|fs| - 1];
      RunJoined(w, es, prefix);
      assert es + fs == (es + prefix) + [last] && fs == prefix + [last];
      RunNext(w, es + prefix, last);
      RunNext(Run(w, es), prefix, last);
    }
  }
}
