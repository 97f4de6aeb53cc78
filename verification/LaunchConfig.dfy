/** The configuration of applications to launch for a device: which of two files is used, and how entries are found.
    Files are given by what was read from them; the JSON text itself is not part of this model. */
module LaunchConfig {
  import opened Options

  const VERSION_LEN: nat := 4
  const INT32_MAX: nat := 0x7FFF_FFFF
  const UINT16_MAX: nat := 0xFFFF

  // --- digits --------------------------------------------------------------------------------------------------

  predicate IsDigit(c: char) { '0' <= c <= '9' }

  predicate IsNumber(s: string) {
    s != "" && forall i | 0 <= i < |s| :: IsDigit(s[i])
  }

  /** The value of a string of digits. */
  function Value(s: string): nat
    requires forall i | 0 <= i < |s| :: IsDigit(s[i])
  {
    if s == "" then 0
    else
      assert IsDigit(s[|s| - 1]);
      Value(s[..|s| - 1]) * 10 + (s[|s| - 1] as nat - '0' as nat)
  }

  /** Decimal notation. */
  function ToString(n: nat): (s: string)
    ensures IsNumber(s) && Value(s) == n
  {
    var digit := ('0' as nat + n % 10) as char;
    if n < 10 then
      assert [digit][..0] == "";
      [digit]
    else
      assert (ToString(n / 10) + [digit])[..|ToString(n / 10)|] == ToString(n / 10);
      ToString(n / 10) + [digit]
  }

  // --- versions ------------------------------------------------------------------------------------------------

  /** Every segment is a number that a 32-bit integer holds. */
  predicate Numeric(v: seq<string>) {
    forall i | 0 <= i < |v| :: IsNumber(v[i]) && Value(v[i]) <= 0x7FFF_FFFF
  }

  /** The comparison as the loop makes it: the first segments that differ as text decide. */
  function Compare(l: seq<string>, c: seq<string>): bool
    requires |l| == |c|
  {
    if l == [] then true
    else if l[0] == c[0] then Compare(l[1..], c[1..])
    else
      && IsNumber(l[0]) && IsNumber(c[0])
      && Value(l[0]) <= INT32_MAX && Value(c[0]) <= INT32_MAX && Value(l[0]) < Value(c[0])
  }

  /** Segment by segment, by number. */
  function AtMost(l: seq<string>, c: seq<string>): bool
    requires |l| == |c| && Numeric(l) && Numeric(c)
  {
    if l == [] then true
    else if Value(l[0]) == Value(c[0]) then AtMost(l[1..], c[1..])
    else Value(l[0]) < Value(c[0])
  }

  /** The first segments that differ as text are the same number, written with different leading zeros. */
  predicate ZerosDecide(l: seq<string>, c: seq<string>)
    requires |l| == |c| && Numeric(l) && Numeric(c)
  {
    l != [] && (if l[0] == c[0] then ZerosDecide(l[1..], c[1..]) else Value(l[0]) == Value(c[0]))
  }

  /** No segment has a leading zero. */
  predicate Canonical(v: seq<string>) {
    forall i | 0 <= i < |v| :: v[i] == "0" || (IsNumber(v[i]) && v[i][0] != '0')
  }

  lemma NumericRest(v: seq<string>)
    requires Numeric(v) && v != []
    ensures Numeric(v[1..])
  {
  }

  /** The comparison is the one by number, unless leading zeros decide it and the local version is not the higher. */
  lemma {:induction false} CompareMeaning(l: seq<string>, c: seq<string>)
    requires |l| == |c| && Numeric(l) && Numeric(c)
    ensures (Compare(l, c) <==> AtMost(l, c)) <==> !(ZerosDecide(l, c) && AtMost(l, c))
    ensures ZerosDecide(l, c) ==> !Compare(l, c)
    decreases |l|
  {
    if l != [] && l[0] == c[0] {
      NumericRest(l);
      NumericRest(c);
      CompareMeaning(l[1..], c[1..]);
    }
  }

  lemma {:induction false} PositiveValue(s: string)
    requires IsNumber(s) && s[0] != '0'
    ensures Value(s) > 0
    decreases |s|
  {
    if |s| > 1 {
      PositiveValue(s[..|s| - 1]);
    } else {
      assert s[..0] == "";
    }
  }

  /** Numbers without leading zeros are equal only if their texts are. */
  lemma {:induction false} CanonicalValue(s: string, t: string)
    requires IsNumber(s) && IsNumber(t) && (s == "0" || s[0] != '0') && (t == "0" || t[0] != '0')
    requires Value(s) == Value(t)
    ensures s == t
    decreases |s|
  {
    var m, n := |s| - 1, |t| - 1;
    if m > 0 { PositiveValue(s[..m]); }
    if n > 0 { PositiveValue(t[..n]); }
    if m > 0 && n > 0 {
      CanonicalValue(s[..m], t[..n]);
      assert s == s[..m] + [s[m]] && t == t[..n] + [t[n]];
    } else {
      assert m == 0 ==> s[..m] == "";
      assert n == 0 ==> t[..n] == "";
      assert s == s[..m] + [s[m]] && t == t[..n] + [t[n]];
    }
  }

  lemma {:induction false} NoZerosDecide(l: seq<string>, c: seq<string>)
    requires |l| == |c| && Numeric(l) && Numeric(c) && Canonical(l) && Canonical(c)
    ensures !ZerosDecide(l, c)
    decreases |l|
  {
    hide Value;
    if l != [] {
      if l[0] == c[0] {
        NumericRest(l);
        NumericRest(c);
        assert Canonical(l[1..]) && Canonical(c[1..]);
        NoZerosDecide(l[1..], c[1..]);
      } else if Value(l[0]) == Value(c[0]) {
        CanonicalValue(l[0], c[0]);
      }
    }
  }

  /** The updated file is taken. */
  function UsesCloud(l: seq<string>, c: seq<string>): bool {
    if |l| != VERSION_LEN && |c| == VERSION_LEN then true
    else if |l| == VERSION_LEN && |c| != VERSION_LEN then false
    else if |l| != VERSION_LEN then true
    else Compare(l, c)
  }

  /** For versions of four numbers the updated file is taken exactly when the preset one is not higher, unless the
      first difference is one of leading zeros; canonical versions have no such difference. */
  lemma UsesCloudMeaning(l: seq<string>, c: seq<string>)
    requires |l| == |c| == 4 && Numeric(l) && Numeric(c)
    ensures (UsesCloud(l, c) <==> AtMost(l, c)) <==> !(ZerosDecide(l, c) && AtMost(l, c))
    ensures Canonical(l) && Canonical(c) ==> (UsesCloud(l, c) <==> AtMost(l, c))
  {
    hide Compare; hide AtMost; hide ZerosDecide; hide Numeric; hide Canonical;
    CompareMeaning(l, c);
    if Canonical(l) && Canonical(c) {
      NoZerosDecide(l, c);
    }
  }

  /** The versions differ first in segment `i`. */
  predicate DifferFirst(l: seq<string>, c: seq<string>, i: nat) {
    i < |l| && i < |c| && l[..i] == c[..i] && l[i] != c[i]
  }

  lemma {:induction false} CompareExactly(l: seq<string>, c: seq<string>)
    requires |l| == |c|
    ensures l == c ==> Compare(l, c)
    ensures forall i | 0 <= i < |l| && DifferFirst(l, c, i) ::
              Compare(l, c) <==>
                && IsNumber(l[i]) && IsNumber(c[i])
                && Value(l[i]) <= 0x7FFF_FFFF && Value(c[i]) <= 0x7FFF_FFFF && Value(l[i]) < Value(c[i])
    decreases |l|
  {
    hide Value; hide IsNumber;
    if l != [] {
      if l[0] == c[0] {
        CompareExactly(l[1..], c[1..]);
      }
      forall i | 0 < i < |l| && DifferFirst(l, c, i) ensures l[0] == c[0] && DifferFirst(l[1..], c[1..], i - 1) {
        assert l[0] == l[..i][0] == c[..i][0] == c[0];
        assert l[1..][..i - 1] == l[..i][1..] && c[1..][..i - 1] == c[..i][1..];
      }
    }
  }

  /** Which file is taken for any two versions. When the preset version has not four segments it is the updated one, and
      when only the updated version has not it is the preset one. Otherwise the first segments that differ decide: the
      updated file is taken exactly when both are numbers of 32 bits and the preset one is the smaller; with no
      difference it is taken. */
  lemma UsesCloudExactly(l: seq<string>, c: seq<string>)
    ensures |l| != 4 ==> UsesCloud(l, c)
    ensures |l| == 4 && |c| != 4 ==> !UsesCloud(l, c)
    ensures |l| == 4 && l == c ==> UsesCloud(l, c)
    ensures |l| == |c| == 4 ==>
              forall i | 0 <= i < 4 && DifferFirst(l, c, i) ::
                UsesCloud(l, c) <==>
                  && IsNumber(l[i]) && IsNumber(c[i])
                  && Value(l[i]) <= 0x7FFF_FFFF && Value(c[i]) <= 0x7FFF_FFFF && Value(l[i]) < Value(c[i])
  {
    hide Compare; hide Value; hide IsNumber;
    if |l| == |c| {
      CompareExactly(l, c);
    }
  }

  /** Segments are compared as numbers, not as texts. */
  lemma TenExceedsNine()
    ensures UsesCloud(["1", "9", "0", "0"], ["1", "10", "0", "0"])
    ensures !UsesCloud(["1", "10", "0", "0"], ["1", "9", "0", "0"])
  {
    assert Value("") == 0;
    assert "9"[..0] == "" && "1"[..0] == "" && "10"[..1] == "1";
    assert Value("9") == 9 && Value("1") == 1 && Value("10") == 10;
    var l, c := ["1", "9", "0", "0"], ["1", "10", "0", "0"];
    assert DifferFirst(l, c, 1) && DifferFirst(c, l, 1) by { assert l[..1] == ["1"] == c[..1]; }
    UsesCloudExactly(l, c);
    UsesCloudExactly(c, l);
  }

  lemma {:induction false} SameVersion(v: seq<string>)
    requires Numeric(v)
    ensures AtMost(v, v)
    decreases |v|
  {
    if v != [] { SameVersion(v[1..]); }
  }

  /** A version with leading zeros: equal by number, yet the preset file is taken. */
  lemma LeadingZeroExample()
    ensures var l, c := ["1", "01", "0", "0"], ["1", "1", "0", "0"];
            Numeric(l) && Numeric(c) && AtMost(l, c) && !UsesCloud(l, c)
  {
    assert Value("") == 0;
    assert "1"[..0] == "" && "01"[..1] == "0" && "0"[..0] == "";
    assert Value("0") == 0 && Value("1") == 1 && Value("01") == 1;
    var l, c := ["1", "01", "0", "0"], ["1", "1", "0", "0"];
    assert l[1..] == ["01", "0", "0"] && c[1..] == ["1", "0", "0"];
    assert l[1..][1..] == ["0", "0"] && c[1..][1..] == ["0", "0"];
    SameVersion(["0", "0"]);
  }

  lemma Digits(s: string)
    requires IsNumber(s)
    ensures forall i | 0 <= i < |s| :: IsDigit(s[i])
  {
  }

  method CompareVersion(localVersion: seq<string>, cloudVersion: seq<string>) returns (r: bool)
    ensures r == (|localVersion| == |cloudVersion| == VERSION_LEN && Compare(localVersion, cloudVersion))
  {
    hide Value; hide IsNumber;
    if |localVersion| != VERSION_LEN || |cloudVersion| != VERSION_LEN {
      return false;
    }
    var i := 0;
    while i < VERSION_LEN
      invariant 0 <= i <= VERSION_LEN
      invariant Compare(localVersion, cloudVersion) == Compare(localVersion[i..], cloudVersion[i..])
    {
      if localVersion[i] != cloudVersion[i] {
        if !IsNumber(localVersion[i]) || !IsNumber(cloudVersion[i]) {
          return false;
        }
        Digits(localVersion[i]);
        Digits(cloudVersion[i]);
        var localValue := Value(localVersion[i]);
        if localValue > INT32_MAX {
          return false;
        }
        var cloudValue := Value(cloudVersion[i]);
        if cloudValue > INT32_MAX {
          return false;
        }
        return localValue < cloudValue;
      }
      i := i + 1;
    }
    return true;
  }

  method GetHigherVersionPath(localVersion: seq<string>, cloudVersion: seq<string>) returns (cloud: bool)
    ensures cloud == UsesCloud(localVersion, cloudVersion)
  {
    hide Compare;
    var localValid, cloudValid := |localVersion| == VERSION_LEN, |cloudVersion| == VERSION_LEN;
    if !localValid && cloudValid {
      return true;
    }
    if localValid && !cloudValid {
      return false;
    }
    if !localValid && !cloudValid {
      return true;
    }
    cloud := CompareVersion(localVersion, cloudVersion);
  }

  // --- entries -------------------------------------------------------------------------------------------------

  datatype Entry = Entry(vid: nat, pid: nat, bundleName: string, abilityName: string, appStoreUri: string)

  /** One element of the array: the numbers and the texts found in it, if any. */
  datatype Item = Item(vid: Option<nat>, pid: Option<nat>, bundleName: Option<string>, abilityName: Option<string>,
                       appStoreUri: Option<string>)

  predicate IsSpace(c: char) { c == ' ' || '\t' <= c <= '\r' }

  function TrimLeft(s: string): string {
    if s != "" && IsSpace(s[0]) then TrimLeft(s[1..]) else s
  }

  function TrimRight(s: string): string {
    if s != "" && IsSpace(s[|s| - 1]) then TrimRight(s[..|s| - 1]) else s
  }

  function Trimmed(s: string): string { TrimRight(TrimLeft(s)) }

  method Trim(input: string) returns (s: string)
    ensures s == Trimmed(input)
  {
    s := input;
    while s != "" && IsSpace(s[0])
      invariant TrimLeft(s) == TrimLeft(input)
      decreases |s|
    {
      s := s[1..];
    }
    while s != "" && IsSpace(s[|s| - 1])
      invariant TrimRight(s) == Trimmed(input)
      decreases |s|
    {
      s := s[..|s| - 1];
    }
  }

  /** Blank, tab, line feed, vertical tab, form feed or carriage return. */
  predicate White(c: char) {
    c as int == 32 || 9 <= c as int <= 13
  }

  predicate AllSpace(s: string) {
    forall i | 0 <= i < |s| :: White(s[i])
  }

  lemma {:induction false} TrimLeftMeaning(s: string)
    ensures var u := TrimLeft(s);
            |u| <= |s| && s[|s| - |u|..] == u && AllSpace(s[..|s| - |u|]) && (u != "" ==> !White(u[0]))
    decreases |s|
  {
    if s != "" && IsSpace(s[0]) {
      TrimLeftMeaning(s[1..]);
      var u := TrimLeft(s);
      assert s[1..][|s| - 1 - |u|..] == s[|s| - |u|..];
      assert s[..|s| - |u|] == [s[0]] + s[1..][..|s| - 1 - |u|];
    }
  }

  lemma {:induction false} TrimRightMeaning(s: string)
    ensures var u := TrimRight(s);
            |u| <= |s| && s[..|u|] == u && AllSpace(s[|u|..]) && (u != "" ==> !White(u[|u| - 1]))
    decreases |s|
  {
    if s != "" && IsSpace(s[|s| - 1]) {
      var n := |s| - 1;
      TrimRightMeaning(s[..n]);
      var u := TrimRight(s);
      assert s[..n][..|u|] == s[..|u|];
      assert s[|u|..] == s[..n][|u|..] + [s[n]];
    }
  }

  /** Trimming removes white space at both ends and nothing else. */
  lemma {:induction false} TrimmedMeaning(s: string)
    ensures var t := Trimmed(s);
            && (t != "" ==> !White(t[0]) && !White(t[|t| - 1]))
            && exists i | 0 <= i <= |s| - |t| :: t == s[i..i + |t|] && AllSpace(s[..i]) && AllSpace(s[i + |t|..])
  {
    var u, t := TrimLeft(s), Trimmed(s);
    TrimLeftMeaning(s);
    TrimRightMeaning(u);
    var i, j := |s| - |u|, |t|;
    assert s[i..] == u && t == u[..j];
    assert t == s[i..i + |t|] && s[i + |t|..] == u[j..];
  }

  predicate Valid(item: Item) {
    && item.vid.Some? && item.pid.Some? && item.vid.value <= UINT16_MAX && item.pid.value <= UINT16_MAX
    && item.bundleName.Some? && Trimmed(item.bundleName.value) != ""
    && item.abilityName.Some? && Trimmed(item.abilityName.value) != ""
    && item.appStoreUri.Some? && Trimmed(item.appStoreUri.value) != ""
  }

  function EntryOf(item: Item): Entry
    requires Valid(item)
  {
    Entry(item.vid.value, item.pid.value, Trimmed(item.bundleName.value), Trimmed(item.abilityName.value),
          Trimmed(item.appStoreUri.value))
  }

  function MakeKey(vid: nat, pid: nat): string {
    ToString(vid) + "_" + ToString(pid)
  }

  /** Different devices have different keys. */
  lemma KeysDiffer(vid: nat, pid: nat, vid': nat, pid': nat)
    requires MakeKey(vid, pid) == MakeKey(vid', pid')
    ensures vid == vid' && pid == pid'
  {
    var k, a, b := MakeKey(vid, pid), ToString(vid), ToString(vid');
    assert k[|a|] == '_' && k[|b|] == '_';
    assert k[..|a|] == a && k[..|b|] == b;
    assert k[|a| + 1..] == ToString(pid) && k[|b| + 1..] == ToString(pid');
  }

  /** The entry of the last valid item for a device. */
  function LastEntry(items: seq<Item>, vid: nat, pid: nat): Option<Entry> {
    if items == [] then None
    else
      var last := items[|items| - 1];
      if Valid(last) && last.vid.value == vid && last.pid.value == pid then Some(EntryOf(last))
      else LastEntry(items[..|items| - 1], vid, pid)
  }

  /** The item is for the device, whose numbers have 16 bits, and none of its three texts is missing or white only. */
  predicate UsableFor(item: Item, vid: nat, pid: nat) {
    && item.vid == Some(vid) && item.pid == Some(pid) && vid < 0x1_0000 && pid < 0x1_0000
    && item.bundleName.Some? && !AllSpace(item.bundleName.value)
    && item.abilityName.Some? && !AllSpace(item.abilityName.value)
    && item.appStoreUri.Some? && !AllSpace(item.appStoreUri.value)
  }

  lemma NothingLeft(s: string)
    ensures Trimmed(s) == "" <==> AllSpace(s)
  {
    hide White;
    TrimmedMeaning(s);
    var t := Trimmed(s);
    var i :| 0 <= i <= |s| - |t| && t == s[i..i + |t|] && AllSpace(s[..i]) && AllSpace(s[i + |t|..]);
    if t == "" {
      assert s == s[..i] + s[i..];
    } else {
      assert s[i] == t[0];
    }
  }

  lemma ValidMeaning(item: Item, vid: nat, pid: nat)
    ensures Valid(item) && item.vid.value == vid && item.pid.value == pid <==> UsableFor(item, vid, pid)
  {
    hide Trimmed; hide AllSpace;
    if item.bundleName.Some? { NothingLeft(item.bundleName.value); }
    if item.abilityName.Some? { NothingLeft(item.abilityName.value); }
    if item.appStoreUri.Some? { NothingLeft(item.appStoreUri.value); }
  }

  /** Item `i` is the last that can be used for the device. */
  predicate LastUsable(items: seq<Item>, vid: nat, pid: nat, i: nat)
    requires i < |items|
  {
    UsableFor(items[i], vid, pid) && forall j | i < j < |items| :: !UsableFor(items[j], vid, pid)
  }

  lemma ValidParts(item: Item, vid: nat, pid: nat)
    requires UsableFor(item, vid, pid)
    ensures item.bundleName.Some? && item.abilityName.Some? && item.appStoreUri.Some?
    ensures item.vid == Some(vid) && item.pid == Some(pid)
  {
  }

  /** A device has the entry of the last item that can be used for it, with each text trimmed, and none exactly when no
      item can. */
  lemma {:induction false} EntryExactly(items: seq<Item>, vid: nat, pid: nat)
    ensures LastEntry(items, vid, pid) == None <==> forall i | 0 <= i < |items| :: !UsableFor(items[i], vid, pid)
    ensures forall i | 0 <= i < |items| && LastUsable(items, vid, pid, i) ::
              LastEntry(items, vid, pid) ==
              Some(Entry(vid, pid, Trimmed(items[i].bundleName.value), Trimmed(items[i].abilityName.value),
                         Trimmed(items[i].appStoreUri.value)))
    decreases |items|
  {
    hide Trimmed; hide Valid; hide UsableFor;
    if items != [] {
      var n := |items| - 1;
      ValidMeaning(items[n], vid, pid);
      EntryExactly(items[..n], vid, pid);
      if UsableFor(items[n], vid, pid) {
        ValidParts(items[n], vid, pid);
      } else {
        forall i | 0 <= i < |items| && LastUsable(items, vid, pid, i) ensures LastUsable(items[..n], vid, pid, i) {
          assert forall j | 0 <= j < n :: items[..n][j] == items[j];
        }
      }
    }
  }

  ghost predicate Reflects(m: map<string, Entry>, items: seq<Item>) {
    forall vid: nat, pid: nat ::
      LastEntry(items, vid, pid) == if MakeKey(vid, pid) in m then Some(m[MakeKey(vid, pid)]) else None
  }

  lemma ReflectsNothing()
    ensures Reflects(map[], [])
  {
  }

  lemma ReflectsMore(m: map<string, Entry>, items: seq<Item>, item: Item)
    requires Reflects(m, items)
    ensures Reflects(if Valid(item) then m[MakeKey(item.vid.value, item.pid.value) := EntryOf(item)] else m,
                     items + [item])
  {
    hide EntryOf; hide MakeKey;
    var m' := if Valid(item) then m[MakeKey(item.vid.value, item.pid.value) := EntryOf(item)] else m;
    forall vid: nat, pid: nat
      ensures LastEntry(items + [item], vid, pid) ==
              if MakeKey(vid, pid) in m' then Some(m'[MakeKey(vid, pid)]) else None
    {
      assert (items + [item])[..|items|] == items;
      assert LastEntry(items, vid, pid) == if MakeKey(vid, pid) in m then Some(m[MakeKey(vid, pid)]) else None;
      if Valid(item) && MakeKey(vid, pid) == MakeKey(item.vid.value, item.pid.value) {
        KeysDiffer(vid, pid, item.vid.value, item.pid.value);
      }
    }
  }

  class AppLaunchConfig {
    var entryMap: map<string, Entry>

    constructor ()
      ensures entryMap == map[] && Holds([])
    {
      entryMap := map[];
    }

    /** What a lookup finds is the last valid item of `items` for each device. */
    ghost predicate Holds(items: seq<Item>)
      reads this
    {
      Reflects(entryMap, items)
    }

    method ParseStringField(field: Option<string>) returns (ok: bool, out: string)
      ensures ok == (field.Some? && Trimmed(field.value) != "")
      ensures ok ==> out == Trimmed(field.value)
    {
      out := "";
      if field.Some? {
        var value := Trim(field.value);
        if value != "" {
          return true, value;
        }
      }
      return false, out;
    }

    method ParseDeviceItemTo(item: Item, outMap: map<string, Entry>) returns (r: map<string, Entry>)
      ensures r == if Valid(item) then outMap[MakeKey(item.vid.value, item.pid.value) := EntryOf(item)] else outMap
    {
      hide Trimmed; hide MakeKey;
      r := outMap;
      if item.vid == None || item.pid == None {
        return;
      }
      if item.vid.value > UINT16_MAX || item.pid.value > UINT16_MAX {
        return;
      }
      var ok, bundleName := ParseStringField(item.bundleName);
      if !ok { return; }
      var ok', abilityName := ParseStringField(item.abilityName);
      if !ok' { return; }
      var ok'', appStoreUri := ParseStringField(item.appStoreUri);
      if !ok'' { return; }
      r := outMap[MakeKey(item.vid.value, item.pid.value) :=
                    Entry(item.vid.value, item.pid.value, bundleName, abilityName, appStoreUri)];
    }

    /** Reads a configuration file, which is None when it cannot be read or is not an array. */
    method ParseConfigFileTo(file: Option<seq<Item>>) returns (ok: bool, newMap: map<string, Entry>)
      ensures ok == file.Some?
      ensures ok ==> Reflects(newMap, file.value)
    {
      hide Valid; hide EntryOf; hide Reflects;
      newMap := map[];
      if file == None {
        return false, newMap;
      }
      var i := 0;
      ReflectsNothing();
      while i < |file.value|
        invariant 0 <= i <= |file.value| && Reflects(newMap, file.value[..i])
      {
        ReflectsMore(newMap, file.value[..i], file.value[i]);
        newMap := ParseDeviceItemTo(file.value[i], newMap);
        assert file.value[..i + 1] == file.value[..i] + [file.value[i]];
        i := i + 1;
      }
      assert file.value[..i] == file.value;
      return true, newMap;
    }

    /** Loads the configuration that goes with the higher version, preset or cloud. When that one cannot be read the
        other is not tried, and the entries loaded before stay. */
    method LoadConfig(localVersion: seq<string>, cloudVersion: seq<string>, preset: Option<seq<Item>>,
                      cloud: Option<seq<Item>>) returns (ok: bool)
      modifies this
      ensures var file := if UsesCloud(localVersion, cloudVersion) then cloud else preset;
              && ok == file.Some?
              && (ok ==> Holds(file.value))
              && (!ok ==> entryMap == old(entryMap))
    {
      hide Reflects; hide UsesCloud;
      var higher := GetHigherVersionPath(localVersion, cloudVersion);
      var newMap;
      ok, newMap := ParseConfigFileTo(if higher then cloud else preset);
      if ok {
        entryMap := newMap;
      }
    }

    method FindEntry(vid: nat, pid: nat, ghost items: seq<Item>) returns (r: Option<Entry>)
      requires Holds(items)
      ensures r == LastEntry(items, vid, pid)
    {
      var key := MakeKey(vid, pid);
      r := if key in entryMap then Some(entryMap[key]) else None;
    }
  }
}
