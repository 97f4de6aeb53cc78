/** One device and its connection to the driver extension, as functions of its state. What the ability manager
    answers is a parameter: `am(k)` answers the k-th attempt of a connect. */
module DeviceSpec {
  import opened Options
  import opened DriverPackages

  type Token = nat

  datatype Status = Ok | Nok | InvalidParam | InvalidObject | NotBound | Ability(code: int)

  /** NoClient: the ability manager client cannot be obtained. */
  datatype AmResult = NoClient | Code(code: int)

  function StatusOf(r: AmResult): Status {
    match r
    case NoClient => InvalidObject
    case Code(code) => if code == 0 then Ok else Ability(code)
  }

  datatype ConnInfo = ConnInfo(bundleName: string, abilityName: string, busDevId: nat)
  datatype Notify = NoNotify | Notify(info: Option<ConnInfo>)

  datatype DeviceState = DeviceState(info: DeviceInfo, bundleInfo: string, driverUid: string,
                                     driver: Option<DriverInfo>, remote: bool, notify: Notify,
                                     unregistered: bool, callers: map<Token, bool>)

  function NewDevice(info: DeviceInfo): DeviceState {
    DeviceState(info, "", "", None, false, NoNotify, false, map[])
  }

  // --- the controller's guards ---------------------------------------------------------------------------------

  datatype Connected = Connected(notify: Notify, status: Status)

  function ConnectDriverExtension(notify: Notify, conn: ConnInfo, r: AmResult): Connected {
    match notify
    case NoNotify => Connected(notify, InvalidParam)
    case Notify(Some(_)) => Connected(notify, InvalidObject)
    case Notify(None) => Connected(Notify(Some(conn)), StatusOf(r))
  }

  function DisconnectDriverExtension(notify: Notify, conn: ConnInfo, r: AmResult): Status {
    match notify
    case NoNotify => InvalidParam
    case Notify(None) => InvalidParam
    case Notify(Some(info)) => if info != conn then InvalidObject else StatusOf(r)
  }

  // --- connecting ----------------------------------------------------------------------------------------------

  /** The names the device's current bundle stands for. */
  function Target(d: DeviceState): ConnInfo {
    ConnInfo(GetBundleName(d.bundleInfo), GetAbilityName(d.bundleInfo), d.info.busDevId)
  }

  function ClearInfo(n: Notify): Notify {
    if n.NoNotify? then n else Notify(None)
  }

  const RETRY_TIMES: nat := 30

  datatype ConnectResult = ConnectResult(device: DeviceState, status: Status, attempts: nat)

  /** Up to `RETRY_TIMES` more attempts, each on a cleared connection. */
  function Retry(d: DeviceState, status: Status, retry: nat, am: nat -> AmResult): ConnectResult
    requires retry <= RETRY_TIMES
    decreases RETRY_TIMES - retry
  {
    if status == Ok || retry == RETRY_TIMES then ConnectResult(d, status, retry + 1)
    else
      var c := ConnectDriverExtension(ClearInfo(d.notify), Target(d), am(retry + 1));
      Retry(d.(remote := false, notify := c.notify), c.status, retry + 1, am)
  }

  /** Connect(): the manager starts the driver of a matched device. */
  function Connect(d: DeviceState, am: nat -> AmResult): ConnectResult {
    var n := if d.notify.NoNotify? then Notify(None) else d.notify;
    var c := ConnectDriverExtension(n, Target(d), am(0));
    Retry(d.(notify := c.notify), c.status, 0, am)
  }

  datatype BindResult = BindResult(device: DeviceState, status: Status)

  /** Connect(callback, token): a client binds. `reg` is the result of registering its callback. */
  function Bind(d: DeviceState, token: Token, reg: Status, r: AmResult): BindResult {
    if reg != Ok then BindResult(d, reg)
    else if d.remote then BindResult(d.(callers := d.callers[token := true]), Ok)
    else
      var c := ConnectDriverExtension(Notify(None), Target(d), r);
      var callers := d.callers[token := false];
      BindResult(d.(notify := c.notify, callers := if c.status == Ok then callers else callers - {token}), c.status)
  }

  /** Disconnect: nothing to do when the connection was already cleared. */
  function Disconnect(d: DeviceState, r: AmResult): Status {
    if d.notify == Notify(None) then Ok else DisconnectDriverExtension(d.notify, Target(d), r)
  }

  predicate IsLastCaller(callers: map<Token, bool>, token: Token) {
    |callers| <= 1 && token in callers
  }

  /** What an unbind does: nothing, because it is refused; forgets the client; finds the connection cleared already
      and leaves the client recorded; or calls the controller to disconnect the driver. */
  datatype Unbinding = Refused | Forgotten | LeftBehind | Asked

  datatype UnbindResult = UnbindResult(device: DeviceState, status: Status, unbinding: Unbinding)

  /** A client unbinds. The variant by driver first checks that the client is bound. */
  function Unbind(d: DeviceState, token: Token, byDriver: bool, r: AmResult): UnbindResult {
    if byDriver && token !in d.callers then UnbindResult(d, NotBound, Refused)
    else if d.driver == None then UnbindResult(d, Nok, Refused)
    else if !d.driver.value.meta.launchOnBind || !IsLastCaller(d.callers, token) then
      UnbindResult(d.(callers := d.callers - {token}), Ok, Forgotten)
    else UnbindResult(d, Disconnect(d, r), if d.notify == Notify(None) then LeftBehind else Asked)
  }

  // --- the driver extension answers ----------------------------------------------------------------------------

  function AllBound(callers: map<Token, bool>): map<Token, bool> {
    map t | t in callers :: true
  }

  function OnConnect(d: DeviceState, remote: bool): DeviceState {
    d.(remote := remote, callers := AllBound(d.callers))
  }

  function OnDisconnect(d: DeviceState): DeviceState {
    d.(remote := false, notify := ClearInfo(d.notify), callers := map[])
  }

  // --- what connecting achieves --------------------------------------------------------------------------------

  /** The first attempt is refused without asking when a connection is still recorded. */
  predicate Stale(n: Notify) {
    n.Notify? && n.info.Some?
  }

  lemma RetryOnce(d: DeviceState, r: AmResult)
    requires d.notify.Notify?
    ensures var c := ConnectDriverExtension(ClearInfo(d.notify), Target(d), r);
            && c == Connected(Notify(Some(Target(d))), StatusOf(r)) && (c.status == Ok <==> r == Code(0))
            && Target(d.(remote := false, notify := c.notify)) == Target(d)
  {
  }

  lemma {:induction false} RetryMeaning(d: DeviceState, status: Status, retry: nat, am: nat -> AmResult)
    requires retry <= RETRY_TIMES && d.notify.Notify?
    requires status == Ok ==> d.notify == Notify(Some(Target(d)))
    ensures var r := Retry(d, status, retry, am);
            && retry < r.attempts <= RETRY_TIMES + 1
            && (r.attempts == retry + 1 <==> status == Ok || retry == RETRY_TIMES)
            && (r.status == Ok <==> status == Ok || exists k | retry < k <= RETRY_TIMES :: am(k) == Code(0))
            && r.status == (if r.attempts == retry + 1 then status else StatusOf(am(r.attempts - 1)))
            && (forall k | retry < k < r.attempts - 1 :: am(k) != Code(0))
            && (r.status != Ok ==> r.attempts == RETRY_TIMES + 1)
            && r.device == d.(remote := d.remote && r.attempts == retry + 1,
                              notify := if r.attempts == retry + 1 then d.notify else Notify(Some(Target(d))))
    decreases RETRY_TIMES - retry
  {
    hide ConnectDriverExtension; hide Target; hide ClearInfo; hide StatusOf;
    if status != Ok && retry < RETRY_TIMES {
      RetryOnce(d, am(retry + 1));
      var c := ConnectDriverExtension(ClearInfo(d.notify), Target(d), am(retry + 1));
      var d' := d.(remote := false, notify := c.notify);
      RetryMeaning(d', c.status, retry + 1, am);
      var r := Retry(d', c.status, retry + 1, am);
      assert Retry(d, status, retry, am) == r;
      forall k | retry < k <= RETRY_TIMES && am(k) == Code(0) ensures r.status == Ok {
        assert k == retry + 1 || retry + 1 < k;
      }
      forall k | retry < k < r.attempts - 1 ensures am(k) != Code(0) {
        assert k == retry + 1 || retry + 1 < k;
      }
    }
  }

  /** The status that an answer of the ability manager comes to. */
  predicate Answered(status: Status, r: AmResult) {
    match r
    case NoClient => status == InvalidObject
    case Code(code) => status == if code == 0 then Ok else Ability(code)
  }

  /** Connecting makes at most 31 attempts. The first asks the ability manager unless a connection is still
      recorded; every later one asks it, and the first positive answer is the result. In the end the connection
      recorded is that of the device's current bundle, whether or not an attempt succeeded, and the remote is lost
      after the first. Nothing else changes. */
  lemma ConnectMeaning(d: DeviceState, am: nat -> AmResult)
    ensures var r := Connect(d, am);
            && 1 <= r.attempts <= 31
            && (r.status == Ok <==>
                  (!Stale(d.notify) && am(0) == Code(0)) || exists k | 1 <= k <= 30 :: am(k) == Code(0))
            && (r.attempts == 1 <==> !Stale(d.notify) && am(0) == Code(0))
            && (r.attempts > 1 ==> Answered(r.status, am(r.attempts - 1)))
            && (forall k | 1 <= k < r.attempts - 1 :: am(k) != Code(0))
            && (r.status != Ok ==> r.attempts == 31)
            && r.device == d.(notify := Notify(Some(Target(d))), remote := d.remote && r.attempts == 1)
  {
    hide Retry;
    var n := if d.notify.NoNotify? then Notify(None) else d.notify;
    var c := ConnectDriverExtension(n, Target(d), am(0));
    RetryMeaning(d.(notify := c.notify), c.status, 0, am);
  }

  /** As long as the device keeps its bundle, a disconnect after a successful connect passes the controller's check
      of names and gets the ability manager's own answer. */
  lemma DisconnectAfterConnect(d: DeviceState, am: nat -> AmResult, later: DeviceState, r: AmResult)
    requires Connect(d, am).status == Ok
    requires later.notify == Connect(d, am).device.notify && later.bundleInfo == d.bundleInfo && later.info == d.info
    ensures Disconnect(later, r) == StatusOf(r)
  {
    hide Connect;
    ConnectMeaning(d, am);
  }

  /** A disconnect succeeds exactly when the connection was cleared already, or is that of the current bundle and the
      ability manager agrees. */
  lemma DisconnectMeaning(d: DeviceState, r: AmResult)
    ensures var recorded := Notify(Some(ConnInfo(GetBundleName(d.bundleInfo), GetAbilityName(d.bundleInfo),
                                                 d.info.busDevId)));
            && (Disconnect(d, r) == Ok <==> d.notify == Notify(None) || (d.notify == recorded && r == Code(0)))
            && (d.notify == recorded ==> Answered(Disconnect(d, r), r))
            && (d.notify == NoNotify ==> Disconnect(d, r) == InvalidParam)
            && (d.notify.Notify? && d.notify.info.Some? && d.notify != recorded ==> Disconnect(d, r) == InvalidObject)
  {
  }

  /** A client whose callback is not registered is turned away. One that finds the driver running is bound at once;
      otherwise the outcome is the ability manager's, on a fresh connection, and a refused client is forgotten. Other
      clients are never touched, and nothing else changes. */
  lemma BindMeaning(d: DeviceState, token: Token, reg: Status, r: AmResult)
    ensures var b := Bind(d, token, reg, r);
            && (reg != Ok ==> b == BindResult(d, reg))
            && (reg == Ok && d.remote ==> b == BindResult(d.(callers := d.callers[token := true]), Ok))
            && (reg == Ok && !d.remote ==>
                  && Answered(b.status, r)
                  && b.device == d.(notify := Notify(Some(Target(d))), callers := b.device.callers)
                  && b.device.callers == if r == Code(0) then d.callers[token := false] else d.callers - {token})
  {
    var callers := d.callers[token := false];
    assert callers - {token} == d.callers - {token};
  }
}
