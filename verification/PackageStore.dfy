/** The package table in its database, and the helper that changes it. Any operation of the database may fail;
    which ones do is an oracle. */
module PackageStore {
  import opened Options
  import opened DriverPackages

  const PKG_OK: int := 0
  const PKG_FAILURE: int := -1
  const PKG_RDB_EXECUTE_FAILTURE: int := -2

  /** The rows in insertion order, and the id the next row gets. */
  datatype Table = Table(rows: seq<PkgInfo>, nextId: nat)

  /** A 64-bit value kept in 32 bits. */
  function Truncated(n: int): (r: int)
    ensures -0x8000_0000 <= r < 0x8000_0000 && (n - r) % 0x1_0000_0000 == 0
    ensures -0x8000_0000 <= n < 0x8000_0000 ==> r == n
  {
    (n + 0x8000_0000) % 0x1_0000_0000 - 0x8000_0000
  }

  // --- what the statements do to the rows ----------------------------------------------------------------------

  /** UPDATE of the three columns of the rows with one bundle ability. */
  function Updated(rows: seq<PkgInfo>, name: string, ability: string, info: DriverMeta): (r: seq<PkgInfo>)
    ensures |r| == |rows|
  {
    if rows == [] then []
    else [if rows[0].bundleAbility == ability then rows[0].(bundleName := name, driverInfo := info) else rows[0]]
         + Updated(rows[1..], name, ability, info)
  }

  predicate HasAbility(rows: seq<PkgInfo>, ability: string) {
    exists row | row in rows :: row.bundleAbility == ability
  }

  /** INSERT of three columns only. */
  function NewRecord(name: string, ability: string, info: DriverMeta): PkgInfo {
    PkgInfo("", 0, 0, ability, name, "", info)
  }

  /** An update, which changes nothing when no row has the ability, or an insertion, whether or not one has. */
  function Written(rows: seq<PkgInfo>, isUpdate: bool, name: string, ability: string, info: DriverMeta): seq<PkgInfo> {
    if isUpdate then Updated(rows, name, ability, info) else rows + [NewRecord(name, ability, info)]
  }

  function Upserted(rows: seq<PkgInfo>, name: string, ability: string, info: DriverMeta): seq<PkgInfo> {
    Written(rows, HasAbility(rows, ability), name, ability, info)
  }

  lemma {:induction false} UpdatedAt(rows: seq<PkgInfo>, name: string, ability: string, info: DriverMeta, i: nat)
    requires i < |rows|
    ensures Updated(rows, name, ability, info)[i] ==
            if rows[i].bundleAbility == ability then rows[i].(bundleName := name, driverInfo := info) else rows[i]
    decreases |rows|
  {
    if i > 0 { UpdatedAt(rows[1..], name, ability, info, i - 1); }
  }

  lemma NotThere(rows: seq<PkgInfo>, ability: string, i: nat)
    requires !HasAbility(rows, ability) && i < |rows|
    ensures rows[i].bundleAbility != ability
  {
    assert rows[i] in rows;
  }

  lemma UpsertTwice(rows: seq<PkgInfo>, r: seq<PkgInfo>, name: string, ability: string, info: DriverMeta,
                    name': string, info': DriverMeta)
    requires r == Upserted(rows, name, ability, info) && HasAbility(r, ability)
    ensures Upserted(r, name', ability, info') == Upserted(rows, name', ability, info')
  {
    hide Updated; hide HasAbility;
    var s, t := Upserted(r, name', ability, info'), Upserted(rows, name', ability, info');
    forall i | 0 <= i < |r| ensures s[i] == t[i] {
      UpdatedAt(r, name', ability, info', i);
      if i < |rows| {
        UpdatedAt(rows, name, ability, info, i);
        UpdatedAt(rows, name', ability, info', i);
        if !HasAbility(rows, ability) { NotThere(rows, ability, i); }
      }
    }
  }

  /** After an upsert the ability is there: in the rows that had it, of which only the two columns written change, or
      else in a new row, with its other columns empty. Every other row is as before, and a second upsert of the same
      ability overwrites the first. */
  lemma UpsertMeaning(rows: seq<PkgInfo>, name: string, ability: string, info: DriverMeta, name': string,
                      info': DriverMeta)
    ensures var r := Upserted(rows, name, ability, info);
            && HasAbility(r, ability)
            && (forall i | 0 <= i < |rows| ::
                  if rows[i].bundleAbility == ability then
                    && r[i].bundleName == name && r[i].driverInfo == info && r[i].bundleAbility == ability
                    && r[i].driverUid == rows[i].driverUid && r[i].userId == rows[i].userId
                    && r[i].appIndex == rows[i].appIndex && r[i].driverName == rows[i].driverName
                  else r[i] == rows[i])
            && |r| == |rows| + (if HasAbility(rows, ability) then 0 else 1)
            && (!HasAbility(rows, ability) ==> r[|rows|] == PkgInfo("", 0, 0, ability, name, "", info))
            && Upserted(r, name', ability, info') == Upserted(rows, name', ability, info')
  {
    hide Updated;
    var r := Upserted(rows, name, ability, info);
    forall i | 0 <= i < |rows| ensures r[i] == rows[i] || r[i] == Updated(rows, name, ability, info)[i] {
    }
    forall i | 0 <= i < |rows|
      ensures Updated(rows, name, ability, info)[i] ==
              if rows[i].bundleAbility == ability then rows[i].(bundleName := name, driverInfo := info) else rows[i]
    {
      UpdatedAt(rows, name, ability, info, i);
    }
    if HasAbility(rows, ability) {
      var i :| 0 <= i < |rows| && rows[i].bundleAbility == ability;
      assert r[i] in r && r[i].bundleAbility == ability;
    } else {
      assert r[|rows|] in r && r[|rows|].bundleAbility == ability;
    }
    UpsertTwice(rows, r, name, ability, info, name', info');
  }

  // --- the database --------------------------------------------------------------------------------------------

  class PkgDataBase {
    const fails: nat -> bool
    var ops: nat
    var committed: Table
    var working: Table
    var inTransaction: bool

    constructor (fails: nat -> bool, rows: seq<PkgInfo>, nextId: nat)
      ensures committed == Table(rows, nextId) && !inTransaction && this.fails == fails && ops == 0
    {
      this.fails, ops, committed, working, inTransaction := fails, 0, Table(rows, nextId), Table([], 0), false;
    }

    method BeginTransaction() returns (ret: int)
      requires !inTransaction
      modifies this
      ensures ops == old(ops) + 1 && committed == old(committed)
      ensures ret == if fails(old(ops)) then PKG_RDB_EXECUTE_FAILTURE else PKG_OK
      ensures inTransaction == !fails(old(ops)) && (inTransaction ==> working == committed)
    {
      ops := ops + 1;
      if fails(ops - 1) {
        return PKG_RDB_EXECUTE_FAILTURE;
      }
      inTransaction, working := true, committed;
      return PKG_OK;
    }

    method Delete(where: Where) returns (ret: int)
      requires inTransaction
      modifies this
      ensures ops == old(ops) + 1 && committed == old(committed) && inTransaction
      ensures ret == if fails(old(ops)) then PKG_RDB_EXECUTE_FAILTURE else PKG_OK
      ensures working == if fails(old(ops)) then old(working)
                         else old(working).(rows := Deleted(old(working).rows, where))
    {
      ops := ops + 1;
      if fails(ops - 1) {
        return PKG_RDB_EXECUTE_FAILTURE;
      }
      working := working.(rows := Deleted(working.rows, where));
      return PKG_OK;
    }

    /** Returns the id of the new row. */
    method Insert(row: PkgInfo) returns (ret: int)
      requires inTransaction
      modifies this
      ensures ops == old(ops) + 1 && committed == old(committed) && inTransaction
      ensures ret == if fails(old(ops)) then PKG_RDB_EXECUTE_FAILTURE else old(working).nextId
      ensures working == if fails(old(ops)) then old(working)
                         else Table(old(working).rows + [row], old(working).nextId + 1)
    {
      ops := ops + 1;
      if fails(ops - 1) {
        return PKG_RDB_EXECUTE_FAILTURE;
      }
      ret := working.nextId;
      working := Table(working.rows + [row], working.nextId + 1);
    }

    method Update(name: string, ability: string, info: DriverMeta) returns (ret: int)
      requires inTransaction
      modifies this
      ensures ops == old(ops) + 1 && committed == old(committed) && inTransaction
      ensures ret == if fails(old(ops)) then PKG_RDB_EXECUTE_FAILTURE else PKG_OK
      ensures working == if fails(old(ops)) then old(working)
                         else old(working).(rows := Updated(old(working).rows, name, ability, info))
    {
      ops := ops + 1;
      if fails(ops - 1) {
        return PKG_RDB_EXECUTE_FAILTURE;
      }
      working := working.(rows := Updated(working.rows, name, ability, info));
      return PKG_OK;
    }

    method Query() returns (rows: Option<seq<PkgInfo>>)
      requires inTransaction
      modifies this
      ensures ops == old(ops) + 1 && committed == old(committed) && working == old(working) && inTransaction
      ensures rows == if fails(old(ops)) then None else Some(working.rows)
    {
      ops := ops + 1;
      return if fails(ops - 1) then None else Some(working.rows);
    }

    /** A commit that fails leaves the transaction open. */
    method Commit() returns (ret: int)
      requires inTransaction
      modifies this
      ensures ops == old(ops) + 1 && inTransaction == fails(old(ops)) && working == old(working)
      ensures ret == if fails(old(ops)) then PKG_RDB_EXECUTE_FAILTURE else PKG_OK
      ensures committed == if fails(old(ops)) then old(committed) else working
    {
      ops := ops + 1;
      if fails(ops - 1) {
        return PKG_RDB_EXECUTE_FAILTURE;
      }
      inTransaction, committed := false, working;
      return PKG_OK;
    }

    method RollBack()
      modifies this
      ensures ops == old(ops) && committed == old(committed) && !inTransaction
    {
      inTransaction := false;
    }
  }

  /** None of the operations numbered from..to failed. */
  predicate NoneFailed(fails: nat -> bool, from: nat, to: nat) {
    forall k | from <= k < to :: !fails(k)
  }

  /** The low 32 bits of the id, as a signed number, are not negative. */
  predicate IdFits(id: nat) {
    id % 0x1_0000_0000 < 0x8000_0000
  }

  lemma IdFitsMeaning(id: nat)
    ensures IdFits(id) <==> Truncated(id) >= 0
  {
    var q, r := id / 0x1_0000_0000, id % 0x1_0000_0000;
    assert id + 0x8000_0000 == q * 0x1_0000_0000 + (r + 0x8000_0000);
  }

  /** No id given out is taken for an error. */
  predicate IdsFit(first: nat, count: nat) {
    forall id | first <= id < first + count :: IdFits(id)
  }

  /** One row at the first id past 31 bits does not fit: it is taken for an error code. */
  lemma FirstIdTooLarge()
    ensures IdsFit(0x7FFF_FFFF, 1) && !IdsFit(0x7FFF_FFFF, 2) && !IdsFit(0x8000_0000, 1)
  {
    assert !IdFits(0x8000_0000);
  }

  // --- the helper ----------------------------------------------------------------------------------------------

  /** How many operations a query takes: it begins, selects and commits, and stops at the first failure. */
  function QueryOps(fails: nat -> bool, from: nat): nat {
    if fails(from) then 1 else if fails(from + 1) then 2 else 3
  }

  datatype Fetched = Fetched(driverUid: string, userId: int, bundleName: string, driverName: string,
                             driverInfo: DriverMeta)

  function Columns(row: PkgInfo): Fetched {
    Fetched(row.driverUid, row.userId, row.bundleName, row.driverName, row.driverInfo)
  }

  predicate Wanted(row: PkgInfo, bundleName: string) {
    bundleName == "" || row.bundleName == bundleName
  }

  function Selected(rows: seq<PkgInfo>, bundleName: string): seq<Fetched> {
    if rows == [] then []
    else Selected(rows[..|rows| - 1], bundleName)
         + (if Wanted(rows[|rows| - 1], bundleName) then [Columns(rows[|rows| - 1])] else [])
  }

  method Fetch(rows: seq<PkgInfo>, bundleName: string) returns (pkgInfos: seq<Fetched>)
    ensures pkgInfos == Selected(rows, bundleName)
  {
    pkgInfos := [];
    var i := 0;
    while i < |rows|
      invariant 0 <= i <= |rows| && pkgInfos == Selected(rows[..i], bundleName)
    {
      assert rows[..i + 1][..i] == rows[..i];
      if Wanted(rows[i], bundleName) {
        pkgInfos := pkgInfos + [Columns(rows[i])];
      }
      i := i + 1;
    }
    assert rows[..i] == rows;
  }

  /** Every method starts and ends without an open transaction, reports failure by a negative value, and then
      leaves the table as it was. */
  class PkgDbHelper {
    const db: PkgDataBase

    constructor (db: PkgDataBase)
      ensures this.db == db
    {
      this.db := db;
    }

    method DeleteAndNoOtherOperation(where: Where) returns (ret: int)
      requires !db.inTransaction
      modifies db
      ensures !db.inTransaction
      ensures db.committed == if ret < 0 then old(db.committed)
                              else old(db.committed).(rows := Deleted(old(db.committed).rows, where))
      ensures ret >= 0 <==> NoneFailed(db.fails, old(db.ops), old(db.ops) + 3)
    {
      ret := db.BeginTransaction();
      if ret < PKG_OK {
        return;
      }
      ret := db.Delete(where);
      if ret < PKG_OK {
        db.RollBack();
        return;
      }
      ret := db.Commit();
      if ret < PKG_OK {
        db.RollBack();
      }
    }

    method DeleteRightRecord(bundleName: string) returns (ret: int)
      requires !db.inTransaction
      modifies db
      ensures !db.inTransaction
      ensures db.committed == if ret < 0 then old(db.committed)
                              else old(db.committed).(rows := Deleted(old(db.committed).rows, BundleIs(bundleName)))
      ensures ret >= 0 <==> NoneFailed(db.fails, old(db.ops), old(db.ops) + 3)
      ensures ret >= 0 && bundleName != "" ==>
                db.committed.rows == Committed(old(db.committed).rows, bundleName, [])
    {
      ret := DeleteAndNoOtherOperation(BundleIs(bundleName));
    }

    /** Replaces the rows of one bundle, or the whole table when the name is empty. */
    method AddOrUpdatePkgInfo(pkgInfos: seq<PkgInfo>, bundleName: string) returns (ret: int)
      requires !db.inTransaction
      modifies db
      ensures !db.inTransaction
      ensures ret < 0 ==> db.committed == old(db.committed)
      ensures ret >= 0 ==> db.committed.rows == Committed(old(db.committed).rows, bundleName, pkgInfos)
      ensures ret >= 0 <==>
                && NoneFailed(db.fails, old(db.ops), old(db.ops) + 3 + |pkgInfos|)
                && IdsFit(old(db.committed).nextId, |pkgInfos|)
    {
      hide Truncated; hide Deleted; hide IdFits;
      ret := db.BeginTransaction();
      if ret < PKG_OK {
        return;
      }
      ret := db.Delete(Replaced(bundleName));
      if ret < PKG_OK {
        db.RollBack();
        return;
      }
      ghost var kept := db.working.rows;
      var i := 0;
      while i < |pkgInfos|
        invariant 0 <= i <= |pkgInfos| && db.inTransaction && db.committed == old(db.committed)
        invariant db.working == Table(kept + pkgInfos[..i], old(db.committed).nextId + i)
        invariant NoneFailed(db.fails, old(db.ops), db.ops) && IdsFit(old(db.committed).nextId, i)
        invariant db.ops == old(db.ops) + 2 + i
      {
        IdFitsMeaning(db.working.nextId);
        var rowId := db.Insert(pkgInfos[i]);
        ret := Truncated(rowId);
        if ret < PKG_OK {
          db.RollBack();
          return;
        }
        i := i + 1;
      }
      assert pkgInfos[..i] == pkgInfos;
      ret := db.Commit();
      if ret < PKG_OK {
        db.RollBack();
      }
    }

    method CheckIfNeedUpdateEx(bundleAbility: string) returns (ret: int, isUpdate: bool)
      requires db.inTransaction
      modifies db
      ensures ret == if db.fails(old(db.ops)) then PKG_RDB_EXECUTE_FAILTURE else PKG_OK
      ensures db.committed == old(db.committed) && db.ops == old(db.ops) + 1
      ensures db.inTransaction == (ret == PKG_OK)
      ensures ret == PKG_OK ==> isUpdate == HasAbility(db.working.rows, bundleAbility) && db.working == old(db.working)
    {
      isUpdate := false;
      var rows := db.Query();
      if rows == None {
        db.RollBack();
        return PKG_RDB_EXECUTE_FAILTURE, isUpdate;
      }
      return PKG_OK, HasAbility(rows.value, bundleAbility);
    }

    method AddOrUpdateRightRecordEx(isUpdate: bool, name: string, ability: string, info: DriverMeta) returns (ret: int)
      requires db.inTransaction
      modifies db
      ensures db.inTransaction == (ret >= 0) && db.committed == old(db.committed) && db.ops == old(db.ops) + 1
      ensures ret >= 0 ==> db.working.rows == Written(old(db.working).rows, isUpdate, name, ability, info)
      ensures ret >= 0 <==> !db.fails(old(db.ops)) && (isUpdate || IdFits(old(db.working).nextId))
    {
      hide Truncated;
      IdFitsMeaning(db.working.nextId);
      if isUpdate {
        ret := db.Update(name, ability, info);
      } else {
        var rowId := db.Insert(NewRecord(name, ability, info));
        ret := Truncated(rowId);
      }
      if ret < PKG_OK {
        db.RollBack();
      }
    }

    method AddOrUpdateRightRecord(name: string, ability: string, info: DriverMeta) returns (ret: int)
      requires !db.inTransaction
      modifies db
      ensures !db.inTransaction
      ensures ret < 0 ==> db.committed == old(db.committed)
      ensures ret >= 0 ==> db.committed.rows == Upserted(old(db.committed).rows, name, ability, info)
      ensures ret >= 0 <==> NoneFailed(db.fails, old(db.ops), old(db.ops) + 4)
                            && (HasAbility(old(db.committed).rows, ability) || IdFits(old(db.committed).nextId))
    {
      hide Truncated; hide HasAbility; hide Written;
      ret := db.BeginTransaction();
      if ret < PKG_OK {
        return;
      }
      var isUpdate;
      ret, isUpdate := CheckIfNeedUpdateEx(ability);
      if ret < PKG_OK {
        return;
      }
      ret := AddOrUpdateRightRecordEx(isUpdate, name, ability, info);
      if ret < PKG_OK {
        return;
      }
      ret := db.Commit();
      if ret < PKG_OK {
        db.RollBack();
      }
    }

    /** The columns a query fetches of the rows of one bundle, or of all; `readable` says that they can be fetched. */
    method QueryPkgInfos(bundleName: string, readable: bool) returns (ret: int, pkgInfos: seq<Fetched>)
      requires !db.inTransaction
      modifies db
      ensures !db.inTransaction && db.committed == old(db.committed)
      ensures NoneFailed(db.fails, old(db.ops), old(db.ops) + 3) && readable ==>
                pkgInfos == Selected(db.committed.rows, bundleName) && ret == Truncated(|pkgInfos|)
      ensures !(NoneFailed(db.fails, old(db.ops), old(db.ops) + 3) && readable) ==> ret < 0 && pkgInfos == []
      ensures db.ops == old(db.ops) + QueryOps(db.fails, old(db.ops))
    {
      hide Truncated;
      pkgInfos := [];
      ret := db.BeginTransaction();
      if ret < PKG_OK {
        return;
      }
      var rows := db.Query();
      if rows == None {
        db.RollBack();
        return PKG_RDB_EXECUTE_FAILTURE, pkgInfos;
      }
      ret := db.Commit();
      if ret < PKG_OK {
        db.RollBack();
        return;
      }
      if !readable {
        return PKG_FAILURE, pkgInfos;
      }
      pkgInfos := Fetch(rows.value, bundleName);
      return Truncated(|pkgInfos|), pkgInfos;
    }
  }

  lemma {:induction false} SelectedGrow(rows: seq<PkgInfo>, more: seq<PkgInfo>, bundleName: string)
    ensures Selected(rows + more, bundleName) == Selected(rows, bundleName) + Selected(more, bundleName)
    decreases |more|
  {
    hide Wanted;
    if more == [] {
      assert rows + more == rows;
    } else {
      var n := |more| - 1;
      SelectedGrow(rows, more[..n], bundleName);
      assert (rows + more)[..|rows + more| - 1] == rows + more[..n];
    }
  }

  /** A query fetches, row by row, the columns of the rows of the bundle, or of all rows when it names none. */
  lemma {:induction false} SelectedMeaning(rows: seq<PkgInfo>, bundleName: string, f: Fetched)
    ensures f in Selected(rows, bundleName) <==>
            exists row | row in rows ::
              && (bundleName == "" || row.bundleName == bundleName)
              && f.driverUid == row.driverUid && f.userId == row.userId && f.bundleName == row.bundleName
              && f.driverName == row.driverName && f.driverInfo == row.driverInfo
    ensures |Selected(rows, "")| == |rows|
    decreases |rows|
  {
    if rows != [] {
      var n := |rows| - 1;
      SelectedMeaning(rows[..n], bundleName, f);
      assert rows == rows[..n] + [rows[n]];
    }
  }

  lemma SelectedNone(other: string)
    ensures Selected([], other) == []
  {
  }

  lemma SelectedOne(row: PkgInfo, other: string)
    ensures Selected([row], other) == if Wanted(row, other) then [Columns(row)] else []
  {
    assert [row][..0] == [];
  }

  lemma {:induction false} SelectedDeleted(rows: seq<PkgInfo>, bundleName: string, other: string)
    requires bundleName != "" && other != ""
    ensures Selected(Deleted(rows, BundleIs(bundleName)), other) ==
            if other == bundleName then [] else Selected(rows, other)
    decreases |rows|
  {
    hide Selected;
    if rows == [] {
      assert Deleted(rows, BundleIs(bundleName)) == rows;
      SelectedNone(other);
    } else {
      var rest := Deleted(rows[1..], BundleIs(bundleName));
      SelectedDeleted(rows[1..], bundleName, other);
      SelectedGrow([rows[0]], rows[1..], other);
      SelectedOne(rows[0], other);
      assert rows == [rows[0]] + rows[1..];
      if rows[0].bundleName == bundleName {
        assert Deleted(rows, BundleIs(bundleName)) == [] + rest == rest;
      } else {
        SelectedGrow([rows[0]], rest, other);
        assert Deleted(rows, BundleIs(bundleName)) == [rows[0]] + rest;
      }
    }
  }

  lemma {:induction false} SelectedSame(added: seq<PkgInfo>, bundleName: string, other: string)
    requires other != "" && forall row | row in added :: row.bundleName == bundleName
    ensures Selected(added, other) == if other == bundleName then Selected(added, "") else []
    decreases |added|
  {
    if added != [] {
      assert added[|added| - 1] in added;
      SelectedSame(added[..|added| - 1], bundleName, other);
    }
  }

  /** After an update of one bundle, asking for that bundle finds exactly the new rows, and asking for any other
      finds what it found before. */
  lemma QueryAfterUpdate(rows: seq<PkgInfo>, bundleName: string, added: seq<PkgInfo>, other: string)
    requires bundleName != "" && other != "" && forall row | row in added :: row.bundleName == bundleName
    ensures Selected(Committed(rows, bundleName, added), other) ==
            if other == bundleName then Selected(added, "") else Selected(rows, other)
  {
    hide Selected; hide Deleted;
    SelectedGrow(Deleted(rows, BundleIs(bundleName)), added, other);
    SelectedDeleted(rows, bundleName, other);
    SelectedSame(added, bundleName, other);
  }
}
