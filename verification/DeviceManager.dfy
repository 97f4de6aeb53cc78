/** The device manager as it runs: its devices are objects, its tables are updated in place. Every method is proved
    to take the step of MatchSpec. */
module DeviceManager {
  import opened Options
  import opened DriverPackages
  import opened DeviceSpec
  import opened DeviceObject
  import R = MatchRefresh
  import S = MatchSpec

  /** Registering is finding or making the device, and matching it unless its driver runs. */
  lemma RegisterParts(m: S.Manager, info: DeviceInfo, found: Option<DriverInfo>, am: nat -> AmResult, d: DeviceState,
                      t: S.TableResult)
    requires d == if S.DeviceId(info) in m.devices then m.devices[S.DeviceId(info)] else NewDevice(info)
    requires t == if d.remote then S.TableResult(m.index, d, Ok)
                  else S.RegisterFound(m.index, d, S.DeviceId(info), found, am)
    ensures S.Register(m, info, found, am) ==
            S.ManagerResult(S.Manager(m.devices[S.DeviceId(info) := t.device], t.index, m.callback), t.status)
  {
    hide S.RegisterFound; hide S.DeviceId;
  }

  lemma EverythingGoes(index: S.MatchMap)
    ensures S.KeptIndex(index, "") == map[]
  {
  }

  class ExtDeviceManager {
    var deviceMap: map<S.Id, Device>
    var bundleMatchMap: S.MatchMap
    const driverChangeCallback: bool
    ghost var objects: set<Device>

    constructor (callback: bool)
      ensures Valid() && View() == S.Manager(map[], map[], callback)
    {
      deviceMap, bundleMatchMap, driverChangeCallback := map[], map[], callback;
      objects := {};
    }

    /** Every device is filed under its own id, so no two ids share a device object. */
    ghost predicate Valid()
      reads this`deviceMap, this`objects
    {
      forall i | i in deviceMap :: deviceMap[i] in objects && S.DeviceId(deviceMap[i].info) == i
    }

    ghost function Devices(): (devices: map<S.Id, DeviceState>)
      requires Valid()
      reads this`deviceMap, this`objects, objects
      ensures devices.Keys == deviceMap.Keys
      ensures forall i | i in deviceMap :: devices[i] == deviceMap[i].View()
    {
      map i | i in deviceMap :: deviceMap[i].View()
    }

    ghost function View(): S.Manager
      requires Valid()
      reads this, objects
    {
      S.Manager(Devices(), bundleMatchMap, driverChangeCallback)
    }

    /** Only one device object changed. */
    twostate lemma OneChanged(new device: Device, id: S.Id)
      requires old(Valid()) && Valid()
      requires id in deviceMap && deviceMap[id] == device
      requires deviceMap == old(deviceMap)[id := device]
      requires forall i | i in old(deviceMap) && i != id ::
                 old(allocated(deviceMap[i])) && deviceMap[i].View() == old(deviceMap[i].View())
      ensures Devices() == old(Devices())[id := device.View()]
    {
    }

    twostate lemma OneRemoved(id: S.Id)
      requires old(Valid()) && Valid()
      requires deviceMap == old(deviceMap) - {id}
      requires forall i | i in deviceMap ::
                 old(allocated(deviceMap[i])) && deviceMap[i].View() == old(deviceMap[i].View())
      ensures Devices() == old(Devices()) - {id}
    {
    }

    // --- the match table -----------------------------------------------------------------------------------------

    method AddDevIdOfBundleInfoMap(device: Device, am: nat -> AmResult) returns (status: Status)
      modifies this`bundleMatchMap, device
      ensures S.TableResult(bundleMatchMap, device.View(), status) ==
              S.AddDevId(old(bundleMatchMap), old(device.View()), S.DeviceId(device.info), am)
    {
      hide DeviceSpec.Connect; hide S.DeviceId;
      var bundleInfo := device.bundleInfo;
      if bundleInfo == "" {
        return InvalidParam;
      }
      var deviceId := S.DeviceId(device.info);
      if bundleInfo !in bundleMatchMap {
        assert S.IdsAt(bundleMatchMap, bundleInfo) + {deviceId} == {deviceId};
        bundleMatchMap := bundleMatchMap[bundleInfo := {deviceId}];
      } else {
        bundleMatchMap := bundleMatchMap[bundleInfo := bundleMatchMap[bundleInfo] + {deviceId}];
      }
      if device.driverInfo == None {
        return Nok;
      }
      if device.driverInfo.value.meta.launchOnBind {
        return Ok;
      }
      var ret := device.Connect(am);
      return if ret != Ok then Nok else Ok;
    }

    method RemoveDriverInfo(device: Device)
      modifies device
      ensures device.View() == S.RemoveDriverInfo(old(device.View()), driverChangeCallback)
    {
      if device.driverInfo != None && driverChangeCallback {
        device.driverInfo := None;
      }
    }

    method RemoveDevIdOfBundleInfoMap(device: Device, r: AmResult) returns (status: Status)
      modifies this`bundleMatchMap, device
      ensures S.TableResult(bundleMatchMap, device.View(), status) ==
              S.RemoveDevId(old(bundleMatchMap), old(device.View()), S.DeviceId(device.info), driverChangeCallback, r)
    {
      hide DeviceSpec.Disconnect; hide S.DeviceId;
      var bundleInfo := device.bundleInfo;
      if bundleInfo == "" {
        return InvalidParam;
      }
      if bundleInfo !in bundleMatchMap {
        return Ok;
      }
      if |bundleMatchMap[bundleInfo]| > 1 {
        bundleMatchMap := bundleMatchMap[bundleInfo := bundleMatchMap[bundleInfo] - {S.DeviceId(device.info)}];
        return Ok;
      }
      bundleMatchMap := bundleMatchMap - {bundleInfo};
      var unbinding;
      status, unbinding := device.Disconnect(r);
      if status != Ok {
        return;
      }
      RemoveDriverInfo(device);
    }

    // --- devices come and go -------------------------------------------------------------------------------------

    /** Looks for a driver unless the device has one, and starts it. */
    method MatchAndStart(device: Device, rows: seq<PkgInfo>, devInfo: DeviceInfo, am: nat -> AmResult)
      returns (status: Status)
      modifies this`bundleMatchMap, device
      ensures S.TableResult(bundleMatchMap, device.View(), status) ==
              S.RegisterFound(old(bundleMatchMap), old(device.View()), S.DeviceId(device.info),
                              FirstMatch(rows, devInfo), am)
    {
      hide S.AddDevId; hide FirstMatch; hide S.DeviceId; hide S.AddBundleInfo;
      if device.bundleInfo == "" {
        var matchedDriverInfo := QueryMatchDriver(rows, devInfo);
        if matchedDriverInfo.Some? {
          device.AddBundleInfo(matchedDriverInfo.value);
        }
      }
      if device.bundleInfo == "" {
        return Ok;
      }
      var ret := AddDevIdOfBundleInfoMap(device, am);
      return if ret != Ok then Nok else ret;
    }

    /** The registered device, or a new object for it. */
    method FindOrAdd(devInfo: DeviceInfo) returns (device: Device)
      requires Valid()
      modifies this`deviceMap, this`objects
      ensures Valid() && objects == old(objects) + {device}
      ensures deviceMap == old(deviceMap)[S.DeviceId(devInfo) := device]
      ensures S.DeviceId(devInfo) in old(deviceMap) ==> device == old(deviceMap)[S.DeviceId(devInfo)]
      ensures S.DeviceId(devInfo) !in old(deviceMap) ==> fresh(device) && device.View() == NewDevice(devInfo)
    {
      hide S.DeviceId;
      var deviceId := S.DeviceId(devInfo);
      if deviceId in deviceMap {
        return deviceMap[deviceId];
      }
      device := new Device(devInfo);
      deviceMap := deviceMap[deviceId := device];
      objects := objects + {device};
    }

    method RegisterDevice(rows: seq<PkgInfo>, devInfo: DeviceInfo, am: nat -> AmResult) returns (status: Status)
      requires Valid()
      modifies this, objects
      ensures Valid() && fresh(objects - old(objects))
      ensures S.ManagerResult(View(), status) == S.Register(old(View()), devInfo, FirstMatch(rows, devInfo), am)
    {
      hide S.RegisterFound; hide S.DeviceId; hide S.Register; hide NewDevice; hide ExtDeviceManager.Devices;
      ghost var m := View();
      var device := FindOrAdd(devInfo);
      ghost var d := device.View();
      status := Ok;
      if !device.drvExtRemote {
        status := MatchAndStart(device, rows, devInfo, am);
      }
      OneChanged(device, S.DeviceId(devInfo));
      RegisterParts(m, devInfo, FirstMatch(rows, devInfo), am, d, S.TableResult(bundleMatchMap, device.View(), status));
    }

    method UnRegisterDevice(deviceId: S.Id, r: AmResult) returns (status: Status)
      requires Valid()
      modifies this, objects
      ensures Valid() && objects == old(objects)
      ensures S.ManagerResult(View(), status) == S.UnRegister(old(View()), deviceId, r)
    {
      hide S.RemoveDevId; hide S.DeviceId; hide ExtDeviceManager.Devices;
      if deviceId !in deviceMap {
        return Ok;
      }
      var device := deviceMap[deviceId];
      var bundleInfo := device.bundleInfo;
      if device.drvExtRemote {
        device.isUnRegistered := true;
      } else {
        deviceMap := deviceMap - {deviceId};
      }
      status := Ok;
      if bundleInfo != "" {
        status := RemoveDevIdOfBundleInfoMap(device, r);
      }
      if deviceId in deviceMap {
        OneChanged(device, deviceId);
      } else {
        OneRemoved(deviceId);
      }
    }

    method RemoveDeviceOfDeviceMap(device: Device)
      requires Valid()
      modifies this`deviceMap
      ensures Valid() && deviceMap == old(deviceMap) - {S.DeviceId(device.info)}
    {
      deviceMap := deviceMap - {S.DeviceId(device.info)};
    }

    // --- a package update arrives --------------------------------------------------------------------------------

    method DeleteBundlesOfBundleInfoMap(bundleName: string) returns (deviceIds: set<S.Id>)
      requires Valid()
      modifies this`bundleMatchMap
      ensures Valid() && View() == old(View()).(index := S.KeptIndex(old(View()).index, bundleName))
      ensures deviceIds == S.DeletedIds(old(View()).index, bundleName)
    {
      hide ExtDeviceManager.Devices; hide ExtDeviceManager.Valid; hide S.OfBundle;
      if bundleName == "" {
        assert S.KeptIndex(bundleMatchMap, "") == map[] by { EverythingGoes(bundleMatchMap); }
        bundleMatchMap := map[];
        return {};
      }
      deviceIds := EraseEntries(bundleName);
    }

    /** Walks over the table, erasing the entries of one bundle. */
    method EraseEntries(bundleName: string) returns (deviceIds: set<S.Id>)
      requires bundleName != ""
      modifies this`bundleMatchMap
      ensures bundleMatchMap == S.KeptIndex(old(bundleMatchMap), bundleName)
      ensures deviceIds == S.DeletedIds(old(bundleMatchMap), bundleName)
    {
      deviceIds := {};
      var startStr := bundleName + [STITCHING];
      var todo := bundleMatchMap.Keys;
      while todo != {}
        invariant todo <= bundleMatchMap.Keys <= old(bundleMatchMap).Keys
        invariant forall k | k in old(bundleMatchMap) ::
                    k in bundleMatchMap <==> k in todo || !S.OfBundle(k, bundleName)
        invariant forall k | k in bundleMatchMap :: bundleMatchMap[k] == old(bundleMatchMap)[k]
        invariant deviceIds == set k, id | k in old(bundleMatchMap) && k !in todo && S.OfBundle(k, bundleName)
                                           && id in old(bundleMatchMap)[k] :: id
        decreases |todo|
      {
        var key :| key in todo;
        todo := todo - {key};
        if |key| >= |startStr| && key[..|startStr|] == startStr {
          deviceIds := deviceIds + bundleMatchMap[key];
          bundleMatchMap := bundleMatchMap - {key};
        }
      }
    }

    /** One device of a refresh. */
    method MatchOneDevice(device: Device, deviceIds: set<S.Id>, rows: seq<PkgInfo>, am: nat -> AmResult)
      modifies this`bundleMatchMap, device
      ensures var d, id := old(device.View()), S.DeviceId(device.info);
              && device.View() == R.RefreshOne(d, id, deviceIds, driverChangeCallback, rows, am)
              && bundleMatchMap ==
                 S.WithKey(old(bundleMatchMap), R.NewKey(d, id, deviceIds, driverChangeCallback, rows), id)
    {
      hide FirstMatch; hide DeviceSpec.Connect; hide S.DeviceId;
      if S.DeviceId(device.info) in deviceIds {
        device.RemoveBundleInfo();
        device.drvExtRemote := false;
        RemoveDriverInfo(device);
      }
      if device.isUnRegistered || device.drvExtRemote {
        return;
      }
      var matchedDriverInfo := QueryMatchDriver(rows, device.info);
      if matchedDriverInfo == None {
        return;
      }
      device.AddBundleInfo(matchedDriverInfo.value);
      assert device.bundleInfo != "";
      var status := AddDevIdOfBundleInfoMap(device, am);
    }

    /** Every device, in any order. */
    method MatchDriverInfos(deviceIds: set<S.Id>, rows: seq<PkgInfo>, ams: S.Id -> nat -> AmResult)
      requires Valid()
      modifies this`bundleMatchMap, objects
      ensures Valid() && View() == R.Matched(old(View()), deviceMap.Keys, deviceIds, rows, ams)
    {
      hide R.Matched; hide S.DeviceId; hide ExtDeviceManager.Devices; hide ExtDeviceManager.View;
      hide ExtDeviceManager.Valid;
      ghost var m := View();
      KeysAre();
      var todo := deviceMap.Keys;
      R.MatchedNone(m, deviceIds, rows, ams);
      assert m.devices.Keys - todo == {};
      while todo != {}
        invariant Valid() && deviceMap.Keys == m.devices.Keys && todo <= deviceMap.Keys
        invariant View() == R.Matched(m, m.devices.Keys - todo, deviceIds, rows, ams)
        decreases |todo|
      {
        var deviceId :| deviceId in todo;
        MatchAfter(m, todo, deviceId, deviceIds, rows, ams);
        todo := todo - {deviceId};
      }
      assert m.devices.Keys - todo == deviceMap.Keys;
    }

    method MatchAfter(ghost m: S.Manager, ghost todo: set<S.Id>, deviceId: S.Id, deviceIds: set<S.Id>,
                      rows: seq<PkgInfo>, ams: S.Id -> nat -> AmResult)
      requires Valid() && deviceId in todo && todo <= deviceMap.Keys == m.devices.Keys
      requires View() == R.Matched(m, m.devices.Keys - todo, deviceIds, rows, ams)
      modifies this`bundleMatchMap, objects
      ensures Valid() && View() == R.Matched(m, m.devices.Keys - (todo - {deviceId}), deviceIds, rows, ams)
    {
      hide R.Matched; hide R.VisitedNow; hide S.DeviceId; hide ExtDeviceManager.Devices;
      ghost var visited := m.devices.Keys - todo;
      R.MatchedStep(m, visited, deviceId, deviceIds, rows, ams);
      assert visited + {deviceId} == m.devices.Keys - (todo - {deviceId});
      MatchNext(deviceId, deviceIds, rows, ams(deviceId));
    }

    lemma KeysAre()
      requires Valid()
      ensures View().devices.Keys == deviceMap.Keys
    {
    }

    method MatchNext(deviceId: S.Id, deviceIds: set<S.Id>, rows: seq<PkgInfo>, am: nat -> AmResult)
      requires Valid() && deviceId in deviceMap
      modifies this`bundleMatchMap, deviceMap[deviceId]
      ensures Valid()
      ensures View() == R.VisitedNow(old(View()), deviceId, deviceIds, rows, am)
    {
      hide R.RefreshOne; hide R.NewKey; hide R.VisitedNow; hide S.WithKey; hide S.DeviceId;
      hide ExtDeviceManager.Devices;
      R.VisitedParts(View(), deviceId, deviceIds, rows, am);
      MatchOneDevice(deviceMap[deviceId], deviceIds, rows, am);
      OneChanged(deviceMap[deviceId], deviceId);
    }

    /** OnBundlesUpdated: forgets the bundle's entries, then matches every device again. */
    method OnBundlesUpdated(bundleName: string, rows: seq<PkgInfo>, ams: S.Id -> nat -> AmResult)
      requires Valid()
      modifies this`bundleMatchMap, objects
      ensures Valid() && View() == R.BundlesUpdated(old(View()), bundleName, rows, ams)
    {
      hide R.Matched; hide S.KeptIndex; hide S.DeletedIds; hide ExtDeviceManager.View; hide ExtDeviceManager.Valid;
      KeysAre();
      var deviceIds := DeleteBundlesOfBundleInfoMap(bundleName);
      MatchDriverInfos(deviceIds, rows, ams);
    }

    // --- clients and the driver's answers ------------------------------------------------------------------------

    method ConnectDevice(deviceId: S.Id, token: Token, access: Status, reg: Status, r: AmResult)
      returns (status: Status)
      requires Valid()
      modifies objects
      ensures Valid()
      ensures S.ManagerResult(View(), status) == S.ConnectClient(old(View()), deviceId, token, access, reg, r)
    {
      hide Bind; hide ExtDeviceManager.Devices;
      if deviceId !in deviceMap {
        return Nok;
      }
      if access != Ok {
        return access;
      }
      status := deviceMap[deviceId].ConnectClient(token, reg, r);
      OneChanged(deviceMap[deviceId], deviceId);
    }

    method DisconnectDevice(deviceId: S.Id, token: Token, byDriver: bool, r: AmResult)
      returns (status: Status, unbinding: Unbinding)
      requires Valid()
      modifies objects
      ensures Valid()
      ensures S.UnbindOutcome(View(), status, unbinding) ==
              S.DisconnectClient(old(View()), deviceId, token, byDriver, r)
    {
      hide Unbind; hide ExtDeviceManager.Devices;
      if deviceId !in deviceMap {
        return Nok, Refused;
      }
      status, unbinding := deviceMap[deviceId].DisconnectClient(token, byDriver, r);
      OneChanged(deviceMap[deviceId], deviceId);
    }

    method OnConnectDone(deviceId: S.Id, remote: bool) returns (status: Status)
      requires Valid()
      modifies objects
      ensures Valid()
      ensures S.ManagerResult(View(), status) == S.DriverConnected(old(View()), deviceId, remote)
    {
      hide OnConnect; hide ExtDeviceManager.Devices;
      if deviceId !in deviceMap {
        return InvalidObject;
      }
      deviceMap[deviceId].OnConnect(remote);
      OneChanged(deviceMap[deviceId], deviceId);
      return Ok;
    }

    method OnDisconnectDone(deviceId: S.Id) returns (status: Status)
      requires Valid()
      modifies this`deviceMap, objects
      ensures Valid()
      ensures S.ManagerResult(View(), status) == S.DriverDisconnected(old(View()), deviceId)
    {
      hide ExtDeviceManager.Devices; hide S.DeviceId;
      if deviceId !in deviceMap {
        return InvalidObject;
      }
      var device := deviceMap[deviceId];
      device.OnDisconnect();
      if device.isUnRegistered {
        RemoveDeviceOfDeviceMap(device);
        OneRemoved(deviceId);
      } else {
        OneChanged(device, deviceId);
      }
      return Ok;
    }
  }
}
