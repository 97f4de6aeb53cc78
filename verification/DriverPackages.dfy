/** The installed driver packages and the search for the driver of a device. */
module DriverPackages {
  import opened Options

  // --- bundle and ability names --------------------------------------------------------------------------------

  const STITCHING: char := '-'

  /** Position of the first '-', or |s|. */
  function DashAt(s: string): (i: nat)
    ensures i <= |s|
    ensures i < |s| ==> s[i] == STITCHING
    ensures forall j | 0 <= j < i :: s[j] != STITCHING
  {
    if s == [] || s[0] == STITCHING then 0 else 1 + DashAt(s[1..])
  }

  predicate HasDash(s: string) { DashAt(s) < |s| }

  function GetBundleName(bundleInfo: string): string {
    if HasDash(bundleInfo) then bundleInfo[..DashAt(bundleInfo)] else ""
  }

  function GetAbilityName(bundleInfo: string): string {
    if HasDash(bundleInfo) then bundleInfo[DashAt(bundleInfo) + 1..] else ""
  }

  function KeyOf(bundleName: string, driverName: string): string {
    bundleName + [STITCHING] + driverName
  }

  lemma DashUnique(s: string, i: nat)
    requires i < |s| && s[i] == STITCHING && forall j | 0 <= j < i :: s[j] != STITCHING
    ensures DashAt(s) == i
  {
  }

  /** Splitting a key gives back the names it was made of, provided the bundle name has no dash. */
  lemma SplitKey(bundleName: string, driverName: string)
    requires !HasDash(bundleName)
    ensures KeyOf(bundleName, driverName) == bundleName + "-" + driverName
    ensures GetBundleName(KeyOf(bundleName, driverName)) == bundleName
    ensures GetAbilityName(KeyOf(bundleName, driverName)) == driverName
    ensures HasDash(KeyOf(bundleName, driverName))
  {
    var k, n := KeyOf(bundleName, driverName), |bundleName|;
    assert k[n] == STITCHING && forall j | 0 <= j < n :: k[j] == bundleName[j];
    DashUnique(k, n);
    assert k[..n] == bundleName && k[n + 1..] == driverName;
  }

  /** The prefix test of the refresh finds the keys of exactly one bundle. */
  lemma PrefixIsBundle(key: string, bundleName: string)
    requires HasDash(key) && !HasDash(bundleName)
    ensures bundleName + [STITCHING] <= key <==> GetBundleName(key) == bundleName
  {
    var n, i := |bundleName|, DashAt(key);
    if bundleName + [STITCHING] <= key {
      assert forall j | 0 <= j <= n :: key[j] == (bundleName + [STITCHING])[j];
      DashUnique(key, n);
      assert key[..n] == (bundleName + [STITCHING])[..n] == bundleName;
    }
    if key[..i] == bundleName {
      assert key[..i + 1] == bundleName + [STITCHING];
    }
  }

  // --- rows and devices ----------------------------------------------------------------------------------------

  /** What the serialized driver information says; a row whose text cannot be read back has an empty bus. */
  datatype DriverMeta = DriverMeta(bus: string, vids: seq<nat>, pids: seq<nat>, launchOnBind: bool)

  datatype PkgInfo = PkgInfo(driverUid: string, userId: int, appIndex: int, bundleAbility: string,
                             bundleName: string, driverName: string, driverInfo: DriverMeta)

  datatype DriverInfo = DriverInfo(bundleName: string, driverName: string, driverUid: string, meta: DriverMeta)

  const BUS_TYPE_USB: nat := 1

  /** A device as announced by its bus. */
  datatype DeviceInfo = DeviceInfo(busType: nat, busDevId: nat, idVendor: nat, idProduct: nat)

  /** The driver of a row; one stored without a uid gets its key for a uid. */
  function DriverOf(row: PkgInfo): (driver: DriverInfo)
    ensures driver.driverUid != ""
  {
    DriverInfo(row.bundleName, row.driverName,
               if row.driverUid == "" then KeyOf(row.bundleName, row.driverName) else row.driverUid, row.driverInfo)
  }

  function LowerChar(c: char): char {
    if 'A' <= c <= 'Z' then (c as int + 32) as char else c
  }

  function Lower(s: string): (r: string)
    ensures |r| == |s| && forall i | 0 <= i < |s| :: r[i] == LowerChar(s[i])
  {
    if s == [] then [] else [LowerChar(s[0])] + Lower(s[1..])
  }

  predicate MatchDriver(driver: DriverInfo, device: DeviceInfo) {
    && Lower(driver.meta.bus) == "usb"
    && device.busType == BUS_TYPE_USB
    && device.idVendor in driver.meta.vids
    && device.idProduct in driver.meta.pids
  }

  predicate Matches(row: PkgInfo, device: DeviceInfo) {
    MatchDriver(DriverOf(row), device)
  }

  // --- the first match -----------------------------------------------------------------------------------------

  /** The driver of a device: the first row of the table that matches it. */
  function FirstMatch(rows: seq<PkgInfo>, device: DeviceInfo): (r: Option<DriverInfo>)
    ensures r.Some? ==> r.value.driverUid != ""
  {
    if rows == [] then None
    else if Matches(rows[0], device) then Some(DriverOf(rows[0]))
    else FirstMatch(rows[1..], device)
  }

  // --- which driver is found, from the fields of rows and device -----------------------------------------------

  /** The three letters u, s and b, each small or capital. */
  predicate SpellsUsb(s: string) {
    && |s| == 3 && (s[0] == 'u' || s[0] == 'U') && (s[1] == 's' || s[1] == 'S') && (s[2] == 'b' || s[2] == 'B')
  }

  /** The row is for USB and lists the vendor and the product of the device, which is one of the USB bus. */
  predicate Serves(row: PkgInfo, device: DeviceInfo) {
    && SpellsUsb(row.driverInfo.bus) && device.busType == 1
    && device.idVendor in row.driverInfo.vids && device.idProduct in row.driverInfo.pids
  }

  /** The driver has the names of the row, its uid or else its key, and what its text says. */
  predicate IsDriverOf(driver: DriverInfo, row: PkgInfo) {
    && driver.bundleName == row.bundleName && driver.driverName == row.driverName && driver.meta == row.driverInfo
    && driver.driverUid == if row.driverUid != "" then row.driverUid else row.bundleName + "-" + row.driverName
  }

  /** Row `i` is the first that serves the device. */
  predicate FirstServing(rows: seq<PkgInfo>, device: DeviceInfo, i: nat)
    requires i < |rows|
  {
    Serves(rows[i], device) && forall j | 0 <= j < i :: !Serves(rows[j], device)
  }

  lemma LowerUsb(s: string)
    ensures Lower(s) == "usb" <==> SpellsUsb(s)
  {
    var r := Lower(s);
    if |s| == 3 && r[0] == 'u' && r[1] == 's' && r[2] == 'b' {
      assert r == "usb";
    }
  }

  lemma MatchesMeaning(row: PkgInfo, device: DeviceInfo)
    ensures Matches(row, device) <==> Serves(row, device)
    ensures IsDriverOf(DriverOf(row), row)
  {
    hide Lower; hide SpellsUsb;
    LowerUsb(row.driverInfo.bus);
  }

  /** A device gets the driver of the first row that serves it, and none exactly when no row does. */
  lemma {:induction false} FirstMatchMeaning(rows: seq<PkgInfo>, device: DeviceInfo)
    ensures FirstMatch(rows, device) == None <==> forall i | 0 <= i < |rows| :: !Serves(rows[i], device)
    ensures forall i | 0 <= i < |rows| && FirstServing(rows, device, i) ::
              FirstMatch(rows, device).Some? && IsDriverOf(FirstMatch(rows, device).value, rows[i])
    decreases |rows|
  {
    hide Matches; hide Serves; hide DriverOf; hide IsDriverOf;
    if rows != [] {
      var rest := rows[1..];
      MatchesMeaning(rows[0], device);
      FirstMatchMeaning(rest, device);
      assert forall i | 0 < i < |rows| :: rows[i] == rest[i - 1];
      forall i | 0 <= i < |rows| && FirstServing(rows, device, i)
        ensures FirstMatch(rows, device).Some? && IsDriverOf(FirstMatch(rows, device).value, rows[i])
      {
        if i > 0 {
          assert !Serves(rows[0], device);
          assert forall j | 0 <= j < i - 1 :: rest[j] == rows[j + 1];
          assert FirstServing(rest, device, i - 1);
        }
      }
    }
  }

  /** Without a row for USB that lists both vendor and product, and for a device of another bus, there is no driver. */
  lemma NothingServes(rows: seq<PkgInfo>, device: DeviceInfo)
    requires
      || device.busType != 1
      || (forall row | row in rows :: !SpellsUsb(row.driverInfo.bus))
      || (forall row | row in rows :: device.idVendor !in row.driverInfo.vids)
      || (forall row | row in rows :: device.idProduct !in row.driverInfo.pids)
    ensures FirstMatch(rows, device) == None
  {
    hide SpellsUsb;
    FirstMatchMeaning(rows, device);
    assert forall i | 0 <= i < |rows| :: rows[i] in rows;
  }

  /** The search as it runs: row after row, returning at the first match. */
  method QueryMatchDriver(rows: seq<PkgInfo>, device: DeviceInfo) returns (driver: Option<DriverInfo>)
    ensures driver == FirstMatch(rows, device)
    ensures driver == None <==> forall i | 0 <= i < |rows| :: !Serves(rows[i], device)
    ensures forall i | 0 <= i < |rows| && FirstServing(rows, device, i) ::
              driver.Some? && IsDriverOf(driver.value, rows[i])
  {
    hide MatchDriver; hide FirstServing; hide Serves; hide IsDriverOf; hide DriverOf;
    FirstMatchMeaning(rows, device);
    var i := 0;
    while i < |rows|
      invariant 0 <= i <= |rows| && FirstMatch(rows, device) == FirstMatch(rows[i..], device)
    {
      var driverInfo := DriverOf(rows[i]);
      if MatchDriver(driverInfo, device) {
        return Some(driverInfo);
      }
      i := i + 1;
    }
    return None;
  }

  // --- package updates -----------------------------------------------------------------------------------------

  datatype Where = Everything | BundleIs(name: string)

  /** DELETE: the rows of one bundle, or all. */
  function Deleted(rows: seq<PkgInfo>, where: Where): seq<PkgInfo> {
    if rows == [] then []
    else (if where == Everything || rows[0].bundleName == where.name then [] else [rows[0]]) + Deleted(rows[1..], where)
  }

  lemma {:induction false} DeletedMeaning(rows: seq<PkgInfo>, where: Where, row: PkgInfo)
    ensures row in Deleted(rows, where) <==> row in rows && where != Everything && row.bundleName != where.name
    decreases |rows|
  {
    if rows != [] { DeletedMeaning(rows[1..], where, row); }
  }

  /** The rows an update replaces: those of its bundle, or all when it names none. */
  function Replaced(bundleName: string): Where {
    if bundleName == "" then Everything else BundleIs(bundleName)
  }

  /** A committed update: the old rows go, the new ones are appended. */
  function Committed(rows: seq<PkgInfo>, bundleName: string, added: seq<PkgInfo>): seq<PkgInfo> {
    Deleted(rows, Replaced(bundleName)) + added
  }

  /** A row is in the table after an update if it is new, or was there and the update is of another bundle; an update
      without a name leaves no old row. The new rows come last, in their order. */
  lemma CommittedMeaning(rows: seq<PkgInfo>, bundleName: string, added: seq<PkgInfo>, row: PkgInfo)
    ensures var r := Committed(rows, bundleName, added);
            && (row in r <==> row in added || (row in rows && bundleName != "" && row.bundleName != bundleName))
            && |added| <= |r| && r[|r| - |added|..] == added
  {
    DeletedMeaning(rows, Replaced(bundleName), row);
  }

  /** Updating bundle X never changes the driver of a device that another bundle serves: whatever X had before the
      first match did not match, and whatever X gets comes after it. */
  lemma {:induction false} CommitKeepsOtherMatches(rows: seq<PkgInfo>, bundleName: string, added: seq<PkgInfo>,
                                                   device: DeviceInfo)
    requires bundleName != ""
    requires FirstMatch(rows, device).Some? && FirstMatch(rows, device).value.bundleName != bundleName
    ensures FirstMatch(Committed(rows, bundleName, added), device) == FirstMatch(rows, device)
    decreases |rows|
  {
    hide Matches;
    var kept, rest := Deleted(rows, BundleIs(bundleName)), Deleted(rows[1..], BundleIs(bundleName));
    if Matches(rows[0], device) {
      assert (kept + added)[0] == rows[0];
    } else {
      CommitKeepsOtherMatches(rows[1..], bundleName, added, device);
      if rows[0].bundleName == bundleName {
        assert kept + added == rest + added;
      } else {
        assert (kept + added)[0] == rows[0] && (kept + added)[1..] == rest + added;
      }
    }
  }
}
