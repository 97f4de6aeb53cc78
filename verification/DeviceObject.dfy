/** A device as the service keeps it: an object whose fields its methods update. */
module DeviceObject {
  import opened Options
  import opened DriverPackages
  import opened DeviceSpec
  import S = MatchSpec

  /** Every client that was waiting for the driver is bound now. */
  method MarkBound(callers: map<Token, bool>) returns (bound: map<Token, bool>)
    ensures bound == AllBound(callers)
  {
    bound := callers;
    var todo := callers.Keys;
    while todo != {}
      invariant todo <= callers.Keys == bound.Keys
      invariant forall t | t in bound && t !in todo :: bound[t]
      decreases |todo|
    {
      var t :| t in todo;
      bound := bound[t := true];
      todo := todo - {t};
    }
  }

  lemma RetryStep(d: DeviceState, status: Status, retry: nat, am: nat -> AmResult)
    requires status != Ok && retry < RETRY_TIMES
    ensures var c := DeviceSpec.ConnectDriverExtension(ClearInfo(d.notify), Target(d), am(retry + 1));
            Retry(d, status, retry, am) == Retry(d.(remote := false, notify := c.notify), c.status, retry + 1, am)
  {
    hide DeviceSpec.ConnectDriverExtension;
  }

  lemma RetryEnd(d: DeviceState, status: Status, retry: nat, am: nat -> AmResult)
    requires retry <= RETRY_TIMES && (status == Ok || retry == RETRY_TIMES)
    ensures Retry(d, status, retry, am) == ConnectResult(d, status, retry + 1)
  {
  }

  class Device {
    const info: DeviceInfo
    var bundleInfo: string
    var driverUid: string
    var driverInfo: Option<DriverInfo>
    var drvExtRemote: bool
    var connectNotifier: Notify
    var isUnRegistered: bool
    var boundCallerInfos: map<Token, bool>

    constructor (info: DeviceInfo)
      ensures View() == NewDevice(info)
    {
      this.info := info;
      bundleInfo, driverUid, driverInfo, drvExtRemote := "", "", None, false;
      connectNotifier, isUnRegistered, boundCallerInfos := NoNotify, false, map[];
    }

    ghost function View(): DeviceState
      reads this
    {
      DeviceState(info, bundleInfo, driverUid, driverInfo, drvExtRemote, connectNotifier, isUnRegistered,
                  boundCallerInfos)
    }

    // --- matching ------------------------------------------------------------------------------------------------

    method AddBundleInfo(driver: DriverInfo)
      modifies this
      ensures View() == S.AddBundleInfo(old(View()), driver)
    {
      bundleInfo := KeyOf(driver.bundleName, driver.driverName);
      driverInfo := Some(driver);
      driverUid := driver.driverUid;
    }

    method RemoveBundleInfo()
      modifies this
      ensures View() == old(View()).(bundleInfo := "", driverUid := "")
    {
      bundleInfo := "";
      driverUid := "";
    }

    // --- the controller's side of a connection -------------------------------------------------------------------

    method ConnectDriverExtension(bundleName: string, abilityName: string, busDevId: nat, r: AmResult)
      returns (status: Status)
      modifies this
      ensures var conn := ConnInfo(bundleName, abilityName, busDevId);
              var c := DeviceSpec.ConnectDriverExtension(old(connectNotifier), conn, r);
              View() == old(View()).(notify := c.notify) && status == c.status
    {
      if connectNotifier.NoNotify? {
        return InvalidParam;
      }
      if connectNotifier.info != None {
        return InvalidObject;
      }
      connectNotifier := Notify(Some(ConnInfo(bundleName, abilityName, busDevId)));
      if r.NoClient? {
        return InvalidObject;
      }
      if r.code != 0 {
        return Ability(r.code);
      }
      return Ok;
    }

    method DisconnectDriverExtension(bundleName: string, abilityName: string, busDevId: nat, r: AmResult)
      returns (status: Status)
      ensures status ==
              DeviceSpec.DisconnectDriverExtension(connectNotifier, ConnInfo(bundleName, abilityName, busDevId), r)
    {
      if connectNotifier.NoNotify? || connectNotifier.info == None {
        return InvalidParam;
      }
      var conn := connectNotifier.info.value;
      if conn.bundleName != bundleName || conn.abilityName != abilityName || conn.busDevId != busDevId {
        return InvalidObject;
      }
      if r.NoClient? {
        return InvalidObject;
      }
      if r.code != 0 {
        return Ability(r.code);
      }
      return Ok;
    }

    // --- connecting and disconnecting ----------------------------------------------------------------------------

    /** Starts the driver: one attempt, and up to thirty more, each on a cleared connection. */
    method Connect(am: nat -> AmResult) returns (status: Status)
      modifies this
      ensures var r := DeviceSpec.Connect(old(View()), am); View() == r.device && status == r.status
    {
      hide DeviceSpec.ConnectDriverExtension; hide GetBundleName; hide GetAbilityName; hide Retry;
      var bundleName, abilityName := GetBundleName(bundleInfo), GetAbilityName(bundleInfo);
      if connectNotifier.NoNotify? {
        connectNotifier := Notify(None);
      }
      status := ConnectDriverExtension(bundleName, abilityName, info.busDevId, am(0));
      var retry := 0;
      while status != Ok && retry < RETRY_TIMES
        invariant 0 <= retry <= RETRY_TIMES
        invariant Target(View()) == ConnInfo(bundleName, abilityName, info.busDevId)
        invariant var r := Retry(View(), status, retry, am);
                  var c := DeviceSpec.Connect(old(View()), am);
                  r.device == c.device && r.status == c.status
      {
        RetryStep(View(), status, retry, am);
        drvExtRemote := false;
        if !connectNotifier.NoNotify? {
          connectNotifier := Notify(None);
        }
        status := ConnectDriverExtension(bundleName, abilityName, info.busDevId, am(retry + 1));
        retry := retry + 1;
      }
      RetryEnd(View(), status, retry, am);
    }

    /** A client binds. */
    method ConnectClient(token: Token, reg: Status, r: AmResult) returns (status: Status)
      modifies this
      ensures var b := Bind(old(View()), token, reg, r); View() == b.device && status == b.status
    {
      hide DeviceSpec.ConnectDriverExtension; hide GetBundleName; hide GetAbilityName;
      if drvExtRemote {
        if reg != Ok {
          return reg;
        }
        boundCallerInfos := boundCallerInfos[token := true];
        return Ok;
      }
      if reg != Ok {
        return reg;
      }
      connectNotifier := Notify(None);
      boundCallerInfos := boundCallerInfos[token := false];
      status := ConnectDriverExtension(GetBundleName(bundleInfo), GetAbilityName(bundleInfo), info.busDevId, r);
      if status != Ok {
        boundCallerInfos := boundCallerInfos - {token};
      }
    }

    /** Calls the controller, unless the connection was cleared already. */
    method Disconnect(r: AmResult) returns (status: Status, unbinding: Unbinding)
      ensures status == DeviceSpec.Disconnect(View(), r)
      ensures unbinding == if connectNotifier == Notify(None) then LeftBehind else Asked
    {
      hide DeviceSpec.DisconnectDriverExtension; hide GetBundleName; hide GetAbilityName;
      if connectNotifier == Notify(None) {
        return Ok, LeftBehind;
      }
      unbinding := Asked;
      status := DisconnectDriverExtension(GetBundleName(bundleInfo), GetAbilityName(bundleInfo), info.busDevId, r);
    }

    /** A client unbinds; the variant by driver refuses clients that are not bound. */
    method DisconnectClient(token: Token, byDriver: bool, r: AmResult) returns (status: Status, unbinding: Unbinding)
      modifies this
      ensures var u := Unbind(old(View()), token, byDriver, r);
              View() == u.device && status == u.status && unbinding == u.unbinding
    {
      hide DeviceSpec.Disconnect; hide DeviceSpec.DisconnectDriverExtension; hide Target;
      if byDriver && token !in boundCallerInfos {
        return NotBound, Refused;
      }
      if driverInfo == None {
        return Nok, Refused;
      }
      if !driverInfo.value.meta.launchOnBind || |boundCallerInfos| > 1 || token !in boundCallerInfos {
        boundCallerInfos := boundCallerInfos - {token};
        return Ok, Forgotten;
      }
      status, unbinding := Disconnect(r);
    }

    method OnConnect(remote: bool)
      modifies this
      ensures View() == DeviceSpec.OnConnect(old(View()), remote)
    {
      hide AllBound;
      drvExtRemote := remote;
      boundCallerInfos := MarkBound(boundCallerInfos);
    }

    method OnDisconnect()
      modifies this
      ensures View() == DeviceSpec.OnDisconnect(old(View()))
    {
      drvExtRemote := false;
      if !connectNotifier.NoNotify? {
        connectNotifier := Notify(None);
      }
      boundCallerInfos := map[];
    }
  }
}
