/** Runs that show what the conditions of the other results are for. One driver package is installed; its driver is
    launched on bind and matches every device used here. */
module MatchExamples {
  import opened Options
  import opened DriverPackages
  import opened DeviceSpec
  import opened MatchSpec
  import opened MatchExact
  import opened BoundCallers

  const META := DriverMeta("usb", [1], [2], true)
  const ROW := PkgInfo("uid", 100, 0, "b-d", "b", "d", META)
  const DRIVER := DriverInfo("b", "d", "uid", META)
  const KEY := "b-d"

  function Camera(n: nat): DeviceInfo {
    DeviceInfo(BUS_TYPE_USB, n, 1, 2)
  }

  /** The camera once its driver is known. */
  function WithDriver(n: nat): DeviceState {
    NewDevice(Camera(n)).(bundleInfo := KEY, driverUid := "uid", driver := Some(DRIVER))
  }

  function Start(): World {
    World(Manager(map[], map[], true), [ROW], Updates(multiset{}, map[]), None)
  }

  lemma Names()
    ensures KeyOf("b", "d") == KEY && BundleNamed("b") && HasDash(KEY) && GetBundleName(KEY) == "b"
    ensures OfBundle(KEY, "b")
  {
    assert KeyOf("b", "d") == KEY && DashAt("") == 0;
    SplitKey("b", "d");
    PrefixIsBundle(KEY, "b");
  }

  lemma StartIsInitial()
    ensures Initial(Start())
  {
    Names();
  }

  lemma RowMatches(n: nat)
    ensures FirstMatch([ROW], Camera(n)) == Some(DRIVER) && FirstMatch([], Camera(n)) == None
    ensures AddBundleInfo(NewDevice(Camera(n)), DRIVER) == WithDriver(n)
  {
    assert KeyOf("b", "d") == KEY by { Names(); }
    assert Lower("usb") == "usb" by {
      assert Lower("") == "" && Lower("b") == "b" && Lower("sb") == "sb";
    }
  }

  /** Announcing a camera for the first time, while the driver is installed. */
  lemma AttachStep(w: World, n: nat)
    requires w.rows == [ROW] && DeviceId(Camera(n)) !in w.manager.devices && w.search == None
    ensures var m, id := w.manager, DeviceId(Camera(n));
            Step(w, Attach(Camera(n), NO_ANSWER)).world ==
            w.(manager := Manager(m.devices[id := WithDriver(n)], m.index[KEY := IdsAt(m.index, KEY) + {id}],
                                  m.callback))
    ensures Enabled(w, Attach(Camera(n), NO_ANSWER))
  {
    hide FirstMatch; hide DeviceId; hide AddBundleInfo; hide Connect;
    RowMatches(n);
  }

  // --- a client left behind ------------------------------------------------------------------------------------

  /** The camera after its driver disconnected, connected again unasked, and a second client bound at once. */
  function Reconnected(n: nat): DeviceState {
    WithDriver(n).(notify := Notify(None), remote := true, callers := map[2 := true])
  }

  function ReconnectEvents(id: Id): seq<Event> {
    [Attach(Camera(5), NO_ANSWER), BindClient(id, 1, Ok, Ok, Code(0)), DisconnectDone(id), ConnectDone(id, true),
     BindClient(id, 2, Ok, Ok, Code(0))]
  }

  lemma ReconnectDevice()
    ensures var b := Bind(WithDriver(5), 1, Ok, Code(0));
            && b.status == Ok && b.device.notify.Notify?
            && Bind(OnConnect(OnDisconnect(b.device), true), 2, Ok, Code(0)) == BindResult(Reconnected(5), Ok)
            && OnDisconnect(b.device).bundleInfo == KEY && !b.device.unregistered
            && OnDisconnect(b.device).unregistered == false
  {
    hide Target;
    assert AllBound(map[]) == map[];
  }

  /** One event on a device already there. */
  lemma ClientStep(w: World, e: Event, id: Id, d': DeviceState)
    requires id in w.manager.devices
    requires var d := w.manager.devices[id];
             match e
             case BindClient(i, t, access, reg, r) =>
               i == id && access == Ok && w.search == None && d' == Bind(d, t, reg, r).device
             case DisconnectDone(i) => i == id && !d.unregistered && d' == OnDisconnect(d)
             case ConnectDone(i, remote) => i == id && d.bundleInfo != "" && d' == OnConnect(d, remote)
             case _ => false
    ensures Step(w, e).world == w.(manager := WithDevice(w.manager, id, d')) && Enabled(w, e)
  {
    hide Bind; hide OnDisconnect; hide OnConnect;
  }

  lemma ReconnectedUnbind()
    ensures Unbind(Reconnected(5), 2, false, NoClient).unbinding == LeftBehind
  {
  }

  /** The only client of a camera unbinds, is told that it succeeded, and stays recorded: the driver is not asked to
      disconnect, because its connection record was cleared when it disconnected, and connecting again made none. */
  lemma LeftBehindExample()
    ensures var id := DeviceId(Camera(5));
            var v, e := Run(Start(), ReconnectEvents(id)), UnbindClient(id, 2, false, NoClient);
            && Initial(Start()) && RunEnabled(Start(), ReconnectEvents(id))
            && UnbindingOf(v, id, 2, false, NoClient) == LeftBehind
            && Step(v, e) == StepResult(v, Ok) && CallersOf(v, id) == {2}
  {
    hide Step; hide Enabled; hide Run; hide RunEnabled; hide Bind; hide OnDisconnect; hide OnConnect; hide DeviceId;
    hide Unbind; hide Initial;
    var id := DeviceId(Camera(5));
    var es := ReconnectEvents(id);
    var d1 := Bind(WithDriver(5), 1, Ok, Code(0)).device;
    var d2 := OnDisconnect(d1);
    var d3 := OnConnect(d2, true);
    StartIsInitial();
    ReconnectDevice();
    var w0 := Start();
    RunNothing(w0);
    AttachStep(w0, 5);
    RunNext(w0, [], es[0]);
    var w1 := Step(w0, es[0]).world;
    ClientStep(w1, es[1], id, d1);
    RunNext(w0, es[..1], es[1]);
    var w2 := Step(w1, es[1]).world;
    ClientStep(w2, es[2], id, d2);
    RunNext(w0, es[..2], es[2]);
    var w3 := Step(w2, es[2]).world;
    ClientStep(w3, es[3], id, d3);
    RunNext(w0, es[..3], es[3]);
    var w4 := Step(w3, es[3]).world;
    ClientStep(w4, es[4], id, Reconnected(5));
    RunNext(w0, es[..4], es[4]);
    assert [] + [es[0]] == es[..1] && es[..1] + [es[1]] == es[..2] && es[..2] + [es[2]] == es[..3];
    assert es[..3] + [es[3]] == es[..4] && es[..4] + [es[4]] == es;
    var v := Run(w0, es);
    assert v.manager.devices[id] == Reconnected(5);
    assert UnbindingOf(v, id, 2, false, NoClient) == LeftBehind by {
      assert Unbind(Reconnected(5), 2, false, NoClient).unbinding == LeftBehind by { ReconnectedUnbind(); }
    }
    LeftBehindStays(w0, es, id, 2, false, NoClient);
  }

  // --- what a refresh under way must not meet ------------------------------------------------------------------

  function Under(ids: set<Id>): Refreshing {
    Refreshing("b", ids, {})
  }

  /** An update of the only bundle is committed and its refresh begins. */
  lemma UpdateBegins(w: World, added: seq<PkgInfo>, id: Id)
    requires w.rows == [ROW] && Quiescent(w) && w.manager.index == map[KEY := {id}]
    requires forall row | row in added :: row.bundleName == "b"
    ensures var c := Step(w, Commit("b", added)).world;
            && Enabled(w, Commit("b", added)) && Enabled(c, Erase(0, "b"))
            && Step(c, Erase(0, "b")).world ==
               World(w.manager.(index := map[]), added, Updates(multiset{}, map[0 := Under({id})]), None)
  {
    hide HasDash;
    Names();
    assert Committed([ROW], "b", added) == added by {
      assert [ROW][1..] == [] && Deleted([], BundleIs("b")) == [] && [] + added == added;
    }
    var c := Step(w, Commit("b", added)).world;
    assert c.rows == added && c.manager == w.manager && c.updates == Updates(multiset{"b"}, map[]);
    assert OfBundle(KEY, "b");
    assert KeptIndex(w.manager.index, "b") == map[];
    assert DeletedIds(w.manager.index, "b") == {id} by {
      assert KEY in w.manager.index && id in w.manager.index[KEY];
    }
  }

  lemma FirstAttached(n: nat)
    ensures var id := DeviceId(Camera(n));
            && Step(Start(), Attach(Camera(n), NO_ANSWER)).world ==
               Start().(manager := Manager(map[id := WithDriver(n)], map[KEY := {id}], true))
            && Enabled(Start(), Attach(Camera(n), NO_ANSWER))
  {
    hide Step; hide Enabled; hide DeviceId;
    var id := DeviceId(Camera(n));
    AttachStep(Start(), n);
    var index: MatchMap := map[];
    assert IdsAt(index, KEY) + {id} == {id};
    assert index[KEY := {id}] == map[KEY := {id}];
  }

  /** The camera is there, the driver is removed, and the entry of the camera is erased. */
  function ErasedWorld(n: nat, added: seq<PkgInfo>): World {
    var id := DeviceId(Camera(n));
    World(Manager(map[id := WithDriver(n)], map[], true), added, Updates(multiset{}, map[0 := Under({id})]), None)
  }

  function EraseEvents(n: nat, added: seq<PkgInfo>): seq<Event> {
    [Attach(Camera(n), NO_ANSWER), Commit("b", added), Erase(0, "b")]
  }

  lemma ErasedRun(n: nat, added: seq<PkgInfo>)
    requires forall row | row in added :: row.bundleName == "b"
    ensures Initial(Start()) && RunEnabled(Start(), EraseEvents(n, added))
    ensures Run(Start(), EraseEvents(n, added)) == ErasedWorld(n, added)
  {
    hide Step; hide Enabled; hide Run; hide RunEnabled; hide DeviceId; hide Initial;
    var es := EraseEvents(n, added);
    var w1 := Step(Start(), es[0]).world;
    StartIsInitial();
    FirstAttached(n);
    UpdateBegins(w1, added, DeviceId(Camera(n)));
    RunNothing(Start());
    RunNext(Start(), [], es[0]);
    RunNext(Start(), es[..1], es[1]);
    RunNext(Start(), es[..2], es[2]);
    assert [] + [es[0]] == es[..1] && es[..1] + [es[1]] == es[..2] && es[..2] + [es[2]] == es;
  }

  lemma TwoEvents(w: World, e: Event, f: Event)
    ensures Run(w, [e, f]) == Step(Step(w, e).world, f).world
    ensures RunEnabled(w, [e, f]) <==> Enabled(w, e) && Enabled(Step(w, e).world, f)
  {
    hide Step; hide Enabled; hide Run; hide RunEnabled;
    RunNothing(w);
    RunNext(w, [], e);
    RunNext(w, [e], f);
    assert [] + [e] == [e] && [e] + [f] == [e, f];
  }

  lemma AnnouncedAgain(v: World, id: Id)
    requires id == DeviceId(Camera(5)) && v == ErasedWorld(5, [])
    ensures Step(v, Attach(Camera(5), NO_ANSWER)).world == v.(manager := v.manager.(index := map[KEY := {id}]))
  {
    hide FirstMatch; hide DeviceId; hide Connect;
    var index: MatchMap := map[];
    assert IdsAt(index, KEY) + {id} == {id} && index[KEY := {id}] == map[KEY := {id}];
    assert v.manager.devices[id := WithDriver(5)] == v.manager.devices;
  }

  lemma OneVisited(u: Updates, t: Refreshing, id: Id)
    requires u == Updates(multiset{}, map[0 := t]) && t.visited == {}
    ensures u.(refreshing := u.refreshing[0 := t.(visited := t.visited + {id})]) ==
            Updates(multiset{}, map[0 := t.(visited := {id})])
  {
    assert t.visited + {id} == {id};
    var r: map<Task, Refreshing> := map[0 := t];
    assert r[0 := t.(visited := {id})] == map[0 := t.(visited := {id})];
  }

  lemma VisitUnmatched(w: World, id: Id)
    requires id == DeviceId(Camera(5)) && w.rows == [] && w.updates == Updates(multiset{}, map[0 := Under({id})])
    requires w.search == None
    requires w.manager == Manager(map[id := WithDriver(5)], map[KEY := {id}], true)
    ensures Enabled(w, Visit(0, id, NO_ANSWER))
    ensures var w' := Step(w, Visit(0, id, NO_ANSWER)).world;
            && w'.manager == Manager(map[id := NewDevice(Camera(5))], map[KEY := {id}], true) && w'.rows == []
            && w'.updates == Updates(multiset{}, map[0 := Under({id}).(visited := {id})]) && w'.search == None
  {
    hide DeviceId; hide Connect; hide AddBundleInfo;
    RowMatches(5);
    assert AfterDelete(WithDriver(5), id, {id}, true) == NewDevice(Camera(5));
    OneVisited(w.updates, Under({id}), id);
  }

  lemma FinishLast(w: World)
    requires w.search == None && exists t: Refreshing ::
               w.updates == Updates(multiset{}, map[0 := t]) && w.manager.devices.Keys <= t.visited
    ensures Enabled(w, Finish(0)) && Quiescent(Step(w, Finish(0)).world)
    ensures Step(w, Finish(0)).world.manager == w.manager && Step(w, Finish(0)).world.rows == w.rows
  {
    var t: Refreshing :| w.updates == Updates(multiset{}, map[0 := t]) && w.manager.devices.Keys <= t.visited;
    assert w.updates.refreshing[0] == t;
    var none: map<Task, Refreshing> := map[];
    assert w.updates.refreshing - {0} == none;
  }

  /** Why a device without a driver running is not to be announced again while its entry is erased: the entry comes
      back under the old key, the visit finds that no driver matches, and once the refresh has ended the table still
      holds the device under a bundle that is gone. */
  lemma AnnouncedWhileErased()
    ensures var id := DeviceId(Camera(5));
            var v := Run(Start(), EraseEvents(5, []));
            var again := Step(v, Attach(Camera(5), NO_ANSWER)).world;
            var rest := [Visit(0, id, NO_ANSWER), Finish(0)];
            && Initial(Start()) && RunEnabled(Start(), EraseEvents(5, []))
            && Plausible(v, Attach(Camera(5), NO_ANSWER)) && !Guarded(v, Attach(Camera(5), NO_ANSWER))
            && RunEnabled(again, rest) && Quiescent(Run(again, rest))
            && id in IdsAt(Run(again, rest).manager.index, KEY)
            && Attached(Run(again, rest).manager, id) && FirstKey(Run(again, rest).rows, Camera(5)) == None
  {
    hide Step; hide Enabled; hide Run; hide RunEnabled; hide DeviceId; hide Initial;
    var id := DeviceId(Camera(5));
    ErasedRun(5, []);
    var v := ErasedWorld(5, []);
    AnnouncedAgain(v, id);
    var again := Step(v, Attach(Camera(5), NO_ANSWER)).world;
    VisitUnmatched(again, id);
    var w1 := Step(again, Visit(0, id, NO_ANSWER)).world;
    FinishLast(w1);
    TwoEvents(again, Visit(0, id, NO_ANSWER), Finish(0));
    RowMatches(5);
  }

  lemma TwoCameras()
    ensures DeviceId(Camera(5)) != DeviceId(Camera(6))
  {
  }

  /** The second camera took the place of the first in the table, and its driver runs. */
  function Running(n: nat): DeviceState {
    WithDriver(n).(remote := true)
  }

  function DisplacedWorld(a: Id, b: Id): World {
    World(Manager(map[a := WithDriver(5), b := Running(6)], map[KEY := {b}], true), [ROW],
          Updates(multiset{}, map[0 := Under({a})]), None)
  }

  lemma SecondConnected(u: World, v: World, a: Id, b: Id)
    requires a == DeviceId(Camera(5)) && b == DeviceId(Camera(6)) && a != b && u == ErasedWorld(5, [ROW])
    requires v.rows == u.rows && v.updates == u.updates && v.search == None
    requires v.manager == Manager(u.manager.devices[b := WithDriver(6)][b := OnConnect(WithDriver(6), true)],
                                  u.manager.index[KEY := IdsAt(u.manager.index, KEY) + {b}], true)
    ensures v == DisplacedWorld(a, b)
  {
    hide DeviceId; hide Under;
    assert AllBound(map[]) == map[];
    assert u.manager.devices == map[a := WithDriver(5)];
    assert IdsAt(u.manager.index, KEY) + {b} == {b};
  }

  /** The second camera cannot do without the entry. */
  lemma CannotDoWithout(v: World, a: Id, b: Id)
    requires v == DisplacedWorld(a, b) && a != b
    ensures !DoesWithout(v.manager, v.rows, v.updates, KEY, b)
  {
    hide FirstMatch;
    assert v.manager.index - {KEY} == map[];
  }

  lemma DetachDisplaced(v: World, a: Id, b: Id)
    requires v == DisplacedWorld(a, b) && a != b
    ensures Plausible(v, Detach(a, NoClient)) && !Guarded(v, Detach(a, NoClient))
    ensures Step(v, Detach(a, NoClient)).world == v.(manager := Manager(map[b := Running(6)], map[], true))
  {
    hide Under; hide DoesWithout;
    CannotDoWithout(v, a, b);
    var devices: map<Id, DeviceState> := map[a := WithDriver(5), b := Running(6)];
    assert devices - {a} == map[b := Running(6)];
    assert v.manager.index - {KEY} == map[];
    assert b in v.manager.index[KEY];
  }

  lemma VisitConnected(w: World, b: Id)
    requires w.manager == Manager(map[b := Running(6)], map[], true) && b == DeviceId(Camera(6))
    requires w.updates == Updates(multiset{}, map[0 := Under({DeviceId(Camera(5))})]) && w.search == None
    ensures Enabled(w, Visit(0, b, NO_ANSWER))
    ensures var w' := Step(w, Visit(0, b, NO_ANSWER)).world;
            && w'.manager == w.manager && w'.rows == w.rows
            && w'.updates == Updates(multiset{}, map[0 := Under({DeviceId(Camera(5))}).(visited := {b})])
            && w'.search == None
  {
    hide DeviceId; hide Connect;
    assert DeviceId(Camera(5)) != b by { TwoCameras(); }
    assert w.manager.devices[b := Running(6)] == w.manager.devices;
    OneVisited(w.updates, Under({DeviceId(Camera(5))}), b);
  }

  /** Why a device is not to be detached while it is displaced: the entry that goes is that of the other device, and if
      the driver of that one runs, the visit leaves it alone; once the refresh has ended it has its first match and is
      missing from the table. */
  lemma DetachedWhileDisplaced()
    ensures var a, b := DeviceId(Camera(5)), DeviceId(Camera(6));
            var es := [Attach(Camera(6), NO_ANSWER), ConnectDone(b, true)];
            var v := Run(Run(Start(), EraseEvents(5, [ROW])), es);
            var gone := Step(v, Detach(a, NoClient)).world;
            var rest := [Visit(0, b, NO_ANSWER), Finish(0)];
            && Initial(Start()) && RunEnabled(Start(), EraseEvents(5, [ROW]))
            && RunEnabled(Run(Start(), EraseEvents(5, [ROW])), es)
            && Plausible(v, Detach(a, NoClient)) && !Guarded(v, Detach(a, NoClient))
            && RunEnabled(gone, rest) && Quiescent(Run(gone, rest))
            && Attached(Run(gone, rest).manager, b) && FirstKey(Run(gone, rest).rows, Camera(6)) == Some(KEY)
            && Run(gone, rest).manager.index == map[]
  {
    hide Step; hide Enabled; hide Run; hide RunEnabled; hide DeviceId; hide Initial; hide Under;
    var a, b := DeviceId(Camera(5)), DeviceId(Camera(6));
    assert a != b by { TwoCameras(); }
    ErasedRun(5, [ROW]);
    var u := ErasedWorld(5, [ROW]);
    AttachStep(u, 6);
    var u1 := Step(u, Attach(Camera(6), NO_ANSWER)).world;
    ClientStep(u1, ConnectDone(b, true), b, OnConnect(WithDriver(6), true));
    TwoEvents(u, Attach(Camera(6), NO_ANSWER), ConnectDone(b, true));
    var v := Step(u1, ConnectDone(b, true)).world;
    SecondConnected(u, v, a, b);
    DetachDisplaced(v, a, b);
    var gone := Step(v, Detach(a, NoClient)).world;
    VisitConnected(gone, b);
    var w1 := Step(gone, Visit(0, b, NO_ANSWER)).world;
    FinishLast(w1);
    TwoEvents(gone, Visit(0, b, NO_ANSWER), Finish(0));
    RowMatches(6);
    Names();
  }

  // --- a search that is filed too late -------------------------------------------------------------------------

  /** A driver is found for a camera; before it is filed, the driver is removed and its refresh begins. */
  function LateEvents(): seq<Event> {
    [LookUp(None, Camera(5)), Commit("b", []), Erase(0, "b")]
  }

  function LateWorld(): World {
    World(Manager(map[], map[], true), [], Updates(multiset{}, map[0 := Under({})]),
          Some(Search(None, Camera(5), Some(DRIVER))))
  }

  lemma LateRun()
    ensures Initial(Start()) && RunEnabled(Start(), LateEvents()) && Run(Start(), LateEvents()) == LateWorld()
  {
    hide Run; hide RunEnabled; hide Initial; hide HasDash; hide FirstMatch; hide DeviceId;
    var es := LateEvents();
    StartIsInitial();
    RowMatches(5);
    Names();
    assert Committed([ROW], "b", []) == [] by {
      assert [ROW][1..] == [] && Deleted([], BundleIs("b")) == [];
    }
    var w1 := Step(Start(), es[0]).world;
    var w2 := Step(w1, es[1]).world;
    assert w2 == World(Manager(map[], map[], true), [], Updates(multiset{"b"}, map[]), w1.search);
    assert KeptIndex(map[], "b") == map[] && DeletedIds(map[], "b") == {};
    RunNothing(Start());
    RunNext(Start(), [], es[0]);
    RunNext(Start(), es[..1], es[1]);
    RunNext(Start(), es[..2], es[2]);
    assert [] + [es[0]] == es[..1] && es[..1] + [es[1]] == es[..2] && es[..2] + [es[2]] == es;
  }

  lemma VisitStale(w: World, id: Id)
    requires id == DeviceId(Camera(5)) && w.rows == [] && w.updates == Updates(multiset{}, map[0 := Under({})])
    requires w.search == None && w.manager == Manager(map[id := WithDriver(5)], map[KEY := {id}], true)
    ensures Enabled(w, Visit(0, id, NO_ANSWER))
    ensures var w' := Step(w, Visit(0, id, NO_ANSWER)).world;
            && w'.manager == w.manager && w'.rows == [] && w'.search == None
            && w'.updates == Updates(multiset{}, map[0 := Under({}).(visited := {id})])
  {
    hide DeviceId; hide Connect; hide AddBundleInfo;
    RowMatches(5);
    assert w.manager.devices[id := WithDriver(5)] == w.manager.devices;
    OneVisited(w.updates, Under({}), id);
  }

  lemma FiledLate(id: Id)
    requires id == DeviceId(Camera(5))
    ensures var e := Attach(Camera(5), NO_ANSWER);
            && Plausible(LateWorld(), e) && !Guarded(LateWorld(), e)
            && Step(LateWorld(), e).world ==
               World(Manager(map[id := WithDriver(5)], map[KEY := {id}], true), [], LateWorld().updates, None)
  {
    hide FirstMatch; hide DeviceId; hide AddBundleInfo; hide Connect;
    RowMatches(5);
    Names();
    var index: MatchMap := map[];
    assert IdsAt(index, KEY) + {id} == {id} && index[KEY := {id}] == map[KEY := {id}];
  }

  /** Why a search and its filing are not to have an erasure between them: the key is filed after the erasure, the visit
      finds no driver and lets the old one be, and once the refresh has ended the camera still has a driver that is
      gone. */
  lemma FiledTooLate()
    ensures var id, v, e := DeviceId(Camera(5)), Run(Start(), LateEvents()), Attach(Camera(5), NO_ANSWER);
            var late, rest := Step(v, e).world, [Visit(0, id, NO_ANSWER), Finish(0)];
            && Initial(Start()) && RunEnabled(Start(), LateEvents()) && Plausible(v, e) && !Guarded(v, e)
            && RunEnabled(late, rest) && Quiescent(Run(late, rest))
            && Attached(Run(late, rest).manager, id) && FirstKey(Run(late, rest).rows, Camera(5)) == None
            && Run(late, rest).manager.devices[id].driver == Some(DRIVER)
            && id in IdsAt(Run(late, rest).manager.index, KEY)
  {
    hide Run; hide RunEnabled; hide DeviceId; hide Initial; hide Step; hide Enabled; hide Plausible; hide Guarded;
    var id, e := DeviceId(Camera(5)), Attach(Camera(5), NO_ANSWER);
    LateRun();
    FiledLate(id);
    var late := Step(LateWorld(), e).world;
    VisitStale(late, id);
    FinishLast(Step(late, Visit(0, id, NO_ANSWER)).world);
    TwoEvents(late, Visit(0, id, NO_ANSWER), Finish(0));
    RowMatches(5);
  }

  // --- without a callback --------------------------------------------------------------------------------------

  /** No one is told of a driver that goes. */
  function Silent(): World {
    Start().(manager := Manager(map[], map[], false))
  }

  function RemovalEvents(id: Id): seq<Event> {
    [Attach(Camera(5), NO_ANSWER), Commit("b", []), Erase(0, "b"), Visit(0, id, NO_ANSWER), Finish(0)]
  }

  /** The camera after its driver is gone: it has none, but the record stays. */
  function Remembering(): DeviceState {
    NewDevice(Camera(5)).(driver := Some(DRIVER))
  }

  lemma VisitRemembering(w: World, id: Id)
    requires id == DeviceId(Camera(5)) && w.rows == [] && w.updates == Updates(multiset{}, map[0 := Under({id})])
    requires w.search == None && w.manager == Manager(map[id := WithDriver(5)], map[], false)
    ensures Enabled(w, Visit(0, id, NO_ANSWER))
    ensures Step(w, Visit(0, id, NO_ANSWER)).world ==
            World(Manager(map[id := Remembering()], map[], false), [],
                  Updates(multiset{}, map[0 := Under({id}).(visited := {id})]), None)
  {
    hide DeviceId; hide Connect; hide AddBundleInfo;
    RowMatches(5);
    assert AfterDelete(WithDriver(5), id, {id}, false) == Remembering();
    assert w.manager.devices[id := Remembering()] == map[id := Remembering()];
    OneVisited(w.updates, Under({id}), id);
  }

  lemma SilentIsInitial()
    ensures Initial(Silent())
  {
    Names();
  }

  lemma FirstFiled(id: Id)
    ensures var index: MatchMap := map[]; index[KEY := IdsAt(index, KEY) + {id}] == map[KEY := {id}]
  {
    var index: MatchMap := map[];
    assert IdsAt(index, KEY) + {id} == {id};
  }

  /** A run that ends with no update on its way and a device that no row matches any more, but that keeps the record of
      its driver, because there is no callback. */
  lemma RecordKeptExample()
    ensures var id := DeviceId(Camera(5));
            var v := Run(Silent(), RemovalEvents(id));
            && Initial(Silent()) && RunEnabled(Silent(), RemovalEvents(id)) && Quiescent(v)
            && Attached(v.manager, id) && FirstMatch(v.rows, Camera(5)) == None
            && v.manager.devices[id].bundleInfo == "" && v.manager.devices[id].driver == Some(DRIVER)
  {
    hide Step; hide Enabled; hide Run; hide RunEnabled; hide DeviceId; hide Initial; hide Under;
    var id, w0 := DeviceId(Camera(5)), Silent();
    var es := RemovalEvents(id);
    assert Initial(w0) by { SilentIsInitial(); }
    AttachStep(w0, 5);
    var w1 := Step(w0, es[0]).world;
    assert w1.manager == Manager(map[id := WithDriver(5)], map[KEY := {id}], false) by { FirstFiled(id); }
    UpdateBegins(w1, [], id);
    var w2 := Step(w1, es[1]).world;
    var w3 := Step(w2, es[2]).world;
    VisitRemembering(w3, id);
    var w4 := Step(w3, es[3]).world;
    FinishLast(w4);
    RowMatches(5);
    RunNothing(w0);
    RunNext(w0, [], es[0]);
    RunNext(w0, es[..1], es[1]);
    RunNext(w0, es[..2], es[2]);
    RunNext(w0, es[..3], es[3]);
    RunNext(w0, es[..4], es[4]);
    assert [] + [es[0]] == es[..1] && es[..1] + [es[1]] == es[..2] && es[..2] + [es[2]] == es[..3];
    assert es[..3] + [es[3]] == es[..4] && es[..4] + [es[4]] == es;
  }
}
