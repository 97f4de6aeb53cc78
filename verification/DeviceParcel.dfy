/** Marshalling of USB device infos. A parcel is a sequence of typed cells with a read cursor; reading a cell of
    another type, or past the end, fails, and an unchecked read then yields zero. */
module DeviceParcel {
  import P = DriverPackages
  import S = MatchSpec

  datatype Cell = Uint64(n: nat) | Uint16(n: nat) | Uint8(n: nat) | Bool(b: bool) | Str(s: string)

  datatype InterfaceDesc = InterfaceDesc(bInterfaceNumber: nat, bClass: nat, bSubClass: nat, bProtocol: nat)

  datatype DeviceInfoData = DeviceInfoData(deviceId: nat, isDriverMatched: bool, driverUid: string, productId: nat,
                                           vendorId: nat, interfaceDescList: seq<InterfaceDesc>)

  const MAX_INTERFACE_DESC_SIZE: nat := 512
  const BUS_TYPE_INVALID: nat := 0
  const BUS_TYPE_MAX: nat := 2

  /** The mask keeps 28 bits, not the 32 that the bus type has. */
  function GetBusTypeByDeviceId(deviceId: nat): nat {
    deviceId % 0x1000_0000
  }

  // --- what is written -----------------------------------------------------------------------------------------

  function DescCells(d: InterfaceDesc): seq<Cell> {
    [Uint8(d.bInterfaceNumber), Uint8(d.bClass), Uint8(d.bSubClass), Uint8(d.bProtocol)]
  }

  function DescsCells(ds: seq<InterfaceDesc>): seq<Cell> {
    if ds == [] then [] else DescsCells(ds[..|ds| - 1]) + DescCells(ds[|ds| - 1])
  }

  function InfoCells(x: DeviceInfoData): seq<Cell> {
    [Uint64(x.deviceId), Bool(x.isDriverMatched), Str(x.driverUid), Uint16(x.productId), Uint16(x.vendorId),
     Uint64(|x.interfaceDescList|)] + DescsCells(x.interfaceDescList)
  }

  function AllCells(xs: seq<DeviceInfoData>): seq<Cell> {
    if xs == [] then [] else InfoCells(xs[0]) + AllCells(xs[1..])
  }

  // --- what is read back ---------------------------------------------------------------------------------------

  datatype Read<T> = Fail(pos: nat) | Value(value: T, pos: nat)

  function U8At(cells: seq<Cell>, pos: nat): nat {
    if pos < |cells| && cells[pos].Uint8? then cells[pos].n else 0
  }

  function U16At(cells: seq<Cell>, pos: nat): nat {
    if pos < |cells| && cells[pos].Uint16? then cells[pos].n else 0
  }

  function U64At(cells: seq<Cell>, pos: nat): nat {
    if pos < |cells| && cells[pos].Uint64? then cells[pos].n else 0
  }

  function DescAt(cells: seq<Cell>, pos: nat): InterfaceDesc {
    InterfaceDesc(U8At(cells, pos), U8At(cells, pos + 1), U8At(cells, pos + 2), U8At(cells, pos + 3))
  }

  function DescsAt(cells: seq<Cell>, pos: nat, n: nat): (ds: seq<InterfaceDesc>)
    ensures |ds| == n
  {
    if n == 0 then [] else DescsAt(cells, pos, n - 1) + [DescAt(cells, pos + 4 * (n - 1))]
  }

  /** Reads one device info at `pos`. */
  function InfoAt(cells: seq<Cell>, pos: nat): Read<DeviceInfoData> {
    if pos >= |cells| || !cells[pos].Uint64? then Fail(pos + 1)
    else if !(BUS_TYPE_INVALID < GetBusTypeByDeviceId(cells[pos].n) < BUS_TYPE_MAX) then Fail(pos + 1)
    else if pos + 1 >= |cells| || !cells[pos + 1].Bool? then Fail(pos + 2)
    else if pos + 2 >= |cells| || !cells[pos + 2].Str? then Fail(pos + 3)
    else
      var n := U64At(cells, pos + 5);
      if n > MAX_INTERFACE_DESC_SIZE then Fail(pos + 6)
      else Value(DeviceInfoData(cells[pos].n, cells[pos + 1].b, cells[pos + 2].s, U16At(cells, pos + 3),
                                U16At(cells, pos + 4), DescsAt(cells, pos + 6, n)), pos + 6 + 4 * n)
  }

  function InfosAt(cells: seq<Cell>, pos: nat, n: nat): Read<seq<DeviceInfoData>>
    decreases n
  {
    if n == 0 then Value([], pos)
    else
      match InfoAt(cells, pos)
      case Fail(p) => Fail(p)
      case Value(x, p) =>
        match InfosAt(cells, p, n - 1)
        case Fail(q) => Fail(q)
        case Value(xs, q) => Value([x] + xs, q)
  }

  // --- round trip ----------------------------------------------------------------------------------------------

  predicate CellsAt(cells: seq<Cell>, pos: nat, w: seq<Cell>) {
    pos + |w| <= |cells| && cells[pos..pos + |w|] == w
  }

  lemma DescRoundTrip(cells: seq<Cell>, pos: nat, d: InterfaceDesc)
    requires CellsAt(cells, pos, DescCells(d))
    ensures DescAt(cells, pos) == d
  {
    var w := cells[pos..pos + 4];
    assert cells[pos] == w[0] && cells[pos + 1] == w[1] && cells[pos + 2] == w[2] && cells[pos + 3] == w[3];
  }

  lemma {:induction false} DescsRoundTrip(cells: seq<Cell>, pos: nat, ds: seq<InterfaceDesc>)
    requires CellsAt(cells, pos, DescsCells(ds))
    ensures DescsAt(cells, pos, |ds|) == ds && |DescsCells(ds)| == 4 * |ds|
    decreases |ds|
  {
    if ds != [] {
      var n := |ds| - 1;
      var w := DescsCells(ds);
      var v := DescsCells(ds[..n]);
      assert cells[pos..pos + |w|][..|v|] == cells[pos..pos + |v|];
      DescsRoundTrip(cells, pos, ds[..n]);
      DescRoundTrip(cells, pos + 4 * n, ds[n]) by {
        assert cells[pos..pos + |w|][|v|..] == cells[pos + |v|..pos + |w|];
      }
      assert ds == ds[..n] + [ds[n]];
    }
  }

  /** A device info the reader accepts: of the USB bus, with at most 512 interfaces. */
  predicate Readable(x: DeviceInfoData) {
    x.deviceId % 0x1000_0000 == 1 && |x.interfaceDescList| <= 512
  }

  /** What was written is read back, and exactly that much is consumed, if and only if it is readable. */
  lemma InfoRoundTrip(cells: seq<Cell>, pos: nat, x: DeviceInfoData)
    requires CellsAt(cells, pos, InfoCells(x))
    ensures InfoAt(cells, pos) == Value(x, pos + |InfoCells(x)|) <==> Readable(x)
    ensures !Readable(x) ==> InfoAt(cells, pos).Fail?
  {
    hide DescsCells; hide DescsAt;
    var w, tail := InfoCells(x), DescsCells(x.interfaceDescList);
    var c := cells[pos..pos + |w|];
    assert cells[pos] == c[0] && cells[pos + 1] == c[1] && cells[pos + 2] == c[2];
    assert cells[pos + 3] == c[3] && cells[pos + 4] == c[4] && cells[pos + 5] == c[5];
    assert c[6..] == tail && cells[pos + 6..pos + |w|] == c[6..];
    DescsRoundTrip(cells, pos + 6, x.interfaceDescList);
  }

  lemma {:induction false} NothingRead(cells: seq<Cell>, pos: nat, n: nat)
    requires pos >= |cells|
    ensures forall d | d in DescsAt(cells, pos, n) :: d == InterfaceDesc(0, 0, 0, 0)
    decreases n
  {
    if n > 0 { NothingRead(cells, pos, n - 1); }
  }

  /** A parcel that was cut off after `k` cells of an info: without id, match state and uid nothing is read; a number
      missing after them is read as zero, and if that is the number of interfaces, none is read. */
  lemma CutOffReads(cells: seq<Cell>, x: DeviceInfoData, k: nat)
    requires Readable(x) && k <= 6 && |cells| >= k && cells[|cells| - k..] == InfoCells(x)[..k]
    ensures var pos := |cells| - k;
            if k < 3 then InfoAt(cells, pos).Fail?
            else if k < 6 then
              InfoAt(cells, pos) ==
              Value(DeviceInfoData(x.deviceId, x.isDriverMatched, x.driverUid, if k > 3 then x.productId else 0,
                                   if k > 4 then x.vendorId else 0, []), pos + 6)
            else
              && InfoAt(cells, pos).Value? && |InfoAt(cells, pos).value.interfaceDescList| == |x.interfaceDescList|
              && forall d | d in InfoAt(cells, pos).value.interfaceDescList :: d == InterfaceDesc(0, 0, 0, 0)
  {
    hide DescsCells;
    var pos, w := |cells| - k, InfoCells(x);
    assert forall j | 0 <= j < k :: cells[pos + j] == cells[pos..][j] == w[j];
    if k == 6 {
      NothingRead(cells, pos + 6, |x.interfaceDescList|);
    }
  }

  predicate AllReadable(xs: seq<DeviceInfoData>) {
    forall i | 0 <= i < |xs| :: Readable(xs[i])
  }

  /** Any number of device infos, one after the other and with anything behind them. */
  lemma {:induction false} ListRoundTrip(cells: seq<Cell>, pos: nat, xs: seq<DeviceInfoData>)
    requires CellsAt(cells, pos, AllCells(xs))
    ensures InfosAt(cells, pos, |xs|) == Value(xs, pos + |AllCells(xs)|) <==> AllReadable(xs)
    ensures !AllReadable(xs) ==> InfosAt(cells, pos, |xs|).Fail?
    decreases |xs|
  {
    hide InfoAt; hide InfoCells; hide Readable;
    if xs != [] {
      var x, rest := xs[0], xs[1..];
      var w := cells[pos..pos + |AllCells(xs)|];
      var n := |InfoCells(x)|;
      assert w[..n] == cells[pos..pos + n] == InfoCells(x);
      assert w[n..] == cells[pos + n..pos + |AllCells(xs)|] == AllCells(rest);
      InfoRoundTrip(cells, pos, x);
      ListRoundTrip(cells, pos + n, rest);
      assert AllReadable(xs) <==> Readable(x) && AllReadable(rest) by {
        assert forall i | 0 <= i < |rest| :: rest[i] == xs[i + 1];
      }
      assert xs == [x] + rest;
    }
  }

  lemma {:induction false} MultipleDropped(t: nat, q: nat)
    ensures (t + q * 0x1000_0000) % 0x1000_0000 == t % 0x1000_0000
    decreases q
  {
    if q > 0 {
      MultipleDropped(t, q - 1);
      assert t + q * 0x1000_0000 == (t + (q - 1) * 0x1000_0000) + 0x1000_0000;
    }
  }

  /** The bus type read off a packed id is the one packed into it exactly when it fits the 28 bits of the mask; the
      ids of USB devices do. */
  lemma MaskReadsBusType(info: P.DeviceInfo)
    requires info.busType < S.BUS_TYPES
    ensures GetBusTypeByDeviceId(S.DeviceId(info)) == info.busType <==> info.busType < 0x1000_0000
    ensures info.busType == P.BUS_TYPE_USB ==> GetBusTypeByDeviceId(S.DeviceId(info)) == P.BUS_TYPE_USB
  {
    var q := 16 * info.busDevId;
    assert S.DeviceId(info) == info.busType + q * 0x1000_0000;
    MultipleDropped(info.busType, q);
  }

  /** The first bus type past the mask that reads as USB. */
  lemma MaskedToUsb()
    ensures GetBusTypeByDeviceId(S.DeviceId(P.DeviceInfo(0x1000_0001, 0, 0, 0))) == P.BUS_TYPE_USB != 0x1000_0001
    ensures forall t: nat | P.BUS_TYPE_USB < t < 0x1000_0001 :: GetBusTypeByDeviceId(t) != P.BUS_TYPE_USB
  {
  }

  // --- the parcel ----------------------------------------------------------------------------------------------

  class Parcel {
    var cells: seq<Cell>
    var readPos: nat

    constructor ()
      ensures cells == [] && readPos == 0
    {
      cells, readPos := [], 0;
    }

    method Write(c: Cell)
      modifies this`cells
      ensures cells == old(cells) + [c]
    {
      cells := cells + [c];
    }

    method ReadUint8() returns (n: nat)
      modifies this`readPos
      ensures n == U8At(cells, old(readPos)) && readPos == old(readPos) + 1
    {
      n := U8At(cells, readPos);
      readPos := readPos + 1;
    }

    method ReadUint16() returns (n: nat)
      modifies this`readPos
      ensures n == U16At(cells, old(readPos)) && readPos == old(readPos) + 1
    {
      n := U16At(cells, readPos);
      readPos := readPos + 1;
    }

    method ReadUint64() returns (ok: bool, n: nat)
      modifies this`readPos
      ensures n == U64At(cells, old(readPos)) && readPos == old(readPos) + 1
      ensures ok == (old(readPos) < |cells| && cells[old(readPos)].Uint64?)
    {
      ok := readPos < |cells| && cells[readPos].Uint64?;
      n := U64At(cells, readPos);
      readPos := readPos + 1;
    }

    method MarshalDesc(d: InterfaceDesc)
      modifies this`cells
      ensures cells == old(cells) + DescCells(d)
    {
      Write(Uint8(d.bInterfaceNumber));
      Write(Uint8(d.bClass));
      Write(Uint8(d.bSubClass));
      Write(Uint8(d.bProtocol));
    }

    method Marshalling(x: DeviceInfoData)
      modifies this`cells
      ensures cells == old(cells) + InfoCells(x)
    {
      Write(Uint64(x.deviceId));
      Write(Bool(x.isDriverMatched));
      Write(Str(x.driverUid));
      Write(Uint16(x.productId));
      Write(Uint16(x.vendorId));
      Write(Uint64(|x.interfaceDescList|));
      ghost var head := cells;
      var i := 0;
      while i < |x.interfaceDescList|
        invariant 0 <= i <= |x.interfaceDescList| && cells == head + DescsCells(x.interfaceDescList[..i])
      {
        assert x.interfaceDescList[..i + 1][..i] == x.interfaceDescList[..i];
        MarshalDesc(x.interfaceDescList[i]);
        i := i + 1;
      }
      assert x.interfaceDescList[..i] == x.interfaceDescList;
    }

    method UnmarshalDesc() returns (d: InterfaceDesc)
      modifies this`readPos
      ensures d == DescAt(cells, old(readPos)) && readPos == old(readPos) + 4
    {
      var number := ReadUint8();
      var cls := ReadUint8();
      var subClass := ReadUint8();
      var protocol := ReadUint8();
      return InterfaceDesc(number, cls, subClass, protocol);
    }

    method Unmarshalling() returns (ok: bool, x: DeviceInfoData)
      modifies this`readPos
      ensures InfoAt(cells, old(readPos)) == if ok then Value(x, readPos) else Fail(readPos)
    {
      hide DescAt;
      x := DeviceInfoData(0, false, "", 0, 0, []);
      var read, deviceId := ReadUint64();
      if !read {
        return false, x;
      }
      var busType := GetBusTypeByDeviceId(deviceId);
      if busType <= BUS_TYPE_INVALID || busType >= BUS_TYPE_MAX {
        return false, x;
      }
      readPos := readPos + 1;
      if readPos > |cells| || !cells[readPos - 1].Bool? {
        return false, x;
      }
      var isDriverMatched := cells[readPos - 1].b;
      readPos := readPos + 1;
      if readPos > |cells| || !cells[readPos - 1].Str? {
        return false, x;
      }
      var driverUid := cells[readPos - 1].s;
      var productId := ReadUint16();
      var vendorId := ReadUint16();
      var _, interfaceDescSize := ReadUint64();
      if interfaceDescSize > MAX_INTERFACE_DESC_SIZE {
        return false, x;
      }
      var start, i, descs := readPos, 0, [];
      while i < interfaceDescSize
        invariant 0 <= i <= interfaceDescSize && readPos == start + 4 * i && descs == DescsAt(cells, start, i)
      {
        var desc := UnmarshalDesc();
        descs := descs + [desc];
        i := i + 1;
      }
      return true, DeviceInfoData(deviceId, isDriverMatched, driverUid, productId, vendorId, descs);
    }
  }
}
