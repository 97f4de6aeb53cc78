/** Buffers with an offset: the window of the caller is moved to the front for the device, and what the device left
    at the front is moved back. The two ranges may overlap. */
module ScsiMemMap {
  import opened Bytes
  import opened ScsiErrors

  // --- what the moves do ---------------------------------------------------------------------------------------

  /** `n` bytes from `src` put at `dst`. */
  function Moved(b: bytes, dst: nat, src: nat, n: nat): (r: bytes)
    requires dst + n <= |b| && src + n <= |b|
    ensures |r| == |b|
  {
    b[..dst] + b[src..src + n] + b[dst + n..]
  }

  predicate ValidWindow(size: nat, offset: nat, length: nat) {
    offset <= size && length <= size - offset && length != 0
  }

  function Normalized(b: bytes, offset: nat, length: nat): (r: bytes)
    requires ValidWindow(|b|, offset, length)
    ensures |r| == |b|
  {
    if offset == 0 then b else Moved(b, 0, offset, length)
  }

  function Restored(b: bytes, offset: nat, transferred: nat): (r: bytes)
    requires offset <= |b|
    ensures |r| == |b|
  {
    if offset == 0 || transferred == 0 then b else Moved(b, offset, 0, Min(transferred, |b| - offset))
  }

  // --- transparency --------------------------------------------------------------------------------------------

  lemma MovedIndex(b: bytes, dst: nat, src: nat, n: nat, i: nat)
    requires dst + n <= |b| && src + n <= |b| && i < |b|
    ensures Moved(b, dst, src, n)[i] == if dst <= i < dst + n then b[i - dst + src] else b[i]
  {
  }

  /** The device sees the caller's window at index 0, and the rest of the buffer as it was. */
  lemma DeviceSeesWindow(b: bytes, offset: nat, length: nat)
    requires ValidWindow(|b|, offset, length)
    ensures Normalized(b, offset, length)[..length] == b[offset..offset + length]
    ensures Normalized(b, offset, length)[length..] == b[length..]
  {
  }

  /** Whatever the device left in the buffer, its first bytes end up at the offset, as many as were transferred and
      fit; every byte outside that range stays as the device left it. */
  lemma CallerSeesTransfer(d: bytes, offset: nat, transferred: nat)
    requires offset <= |d|
    ensures var t := Min(transferred, |d| - offset);
            && Restored(d, offset, transferred)[offset..offset + t] == d[..t]
            && Restored(d, offset, transferred)[..offset] == d[..offset]
            && Restored(d, offset, transferred)[offset + t..] == d[offset + t..]
  {
  }

  /** A whole exchange in which the device wrote nothing and reports the full length: the window is unchanged, the
      bytes before it that the move to the front covered hold the window's first bytes, all others are unchanged. */
  lemma IdleExchange(b: bytes, offset: nat, length: nat, i: nat)
    requires ValidWindow(|b|, offset, length) && i < |b|
    ensures var r := Restored(Normalized(b, offset, length), offset, length);
            r[i] == if i < offset && i < length then b[offset + i] else b[i]
  {
    hide Moved;
    if offset != 0 {
      var d := Normalized(b, offset, length);
      MovedIndex(d, offset, 0, length, i);
      MovedIndex(b, 0, offset, length, i);
      if offset <= i < offset + length {
        MovedIndex(b, 0, offset, length, i - offset);
      }
    }
  }

  /** A whole exchange in which the device replaced the front of the buffer by `w`, byte by byte: a byte of the range
      written back is the one the device left that far from the front, any other byte is where the device left it; and
      the device left what it wrote, behind that the rest of the window, and behind that what was there before. */
  lemma Exchange(b: bytes, offset: nat, length: nat, w: bytes, transferred: nat, i: nat)
    requires ValidWindow(|b|, offset, length) && |w| <= |b| && i < |b|
    ensures var d := w + Normalized(b, offset, length)[|w|..];
            var t := Min(transferred, |b| - offset);
            var j := if offset <= i < offset + t then i - offset else i;
            && |d| == |b|
            && Restored(d, offset, transferred)[i] ==
               if j < |w| then w[j] else if j < length then b[offset + j] else b[j]
  {
    hide Moved;
    var n := Normalized(b, offset, length);
    var d := w + n[|w|..];
    var t := Min(transferred, |b| - offset);
    var j := if offset <= i < offset + t then i - offset else i;
    assert d[j] == if j < |w| then w[j] else n[j];
    if offset != 0 {
      MovedIndex(b, 0, offset, length, j);
      MovedIndex(d, offset, 0, t, i);
    }
  }

  // --- the moves as they run -----------------------------------------------------------------------------------

  lemma MovedAt(r: bytes, b: bytes, dst: nat, src: nat, n: nat)
    requires dst + n <= |b| && src + n <= |b| && |r| == |b|
    requires forall k | dst <= k < dst + n :: r[k] == b[k - dst + src]
    requires forall k | 0 <= k < |b| && !(dst <= k < dst + n) :: r[k] == b[k]
    ensures r == Moved(b, dst, src, n)
  {
  }

  method MoveForwards(a: array<byte>, dst: nat, src: nat, n: nat)
    requires dst <= src && src + n <= a.Length
    modifies a
    ensures a[..] == Moved(old(a[..]), dst, src, n)
  {
    ghost var was := a[..];
    var i := 0;
    while i < n
      invariant 0 <= i <= n
      invariant forall k | dst <= k < dst + i :: a[k] == was[k - dst + src]
      invariant forall k | 0 <= k < a.Length && !(dst <= k < dst + i) :: a[k] == was[k]
    {
      assert a[src + i] == was[src + i];
      a[dst + i] := a[src + i];
      i := i + 1;
    }
    MovedAt(a[..], was, dst, src, n);
  }

  method MoveBackwards(a: array<byte>, dst: nat, src: nat, n: nat)
    requires src <= dst && dst + n <= a.Length
    modifies a
    ensures a[..] == Moved(old(a[..]), dst, src, n)
  {
    ghost var was := a[..];
    var i := n;
    while i > 0
      invariant 0 <= i <= n
      invariant forall k | dst + i <= k < dst + n :: a[k] == was[k - dst + src]
      invariant forall k | 0 <= k < a.Length && !(dst + i <= k < dst + n) :: a[k] == was[k]
    {
      i := i - 1;
      a[dst + i] := a[src + i];
    }
    MovedAt(a[..], was, dst, src, n);
  }

  /** memmove: forwards or backwards, so that no byte is overwritten before it is copied. */
  method MemMove(a: array<byte>, dst: nat, src: nat, n: nat)
    requires dst + n <= a.Length && src + n <= a.Length
    modifies a
    ensures a[..] == Moved(old(a[..]), dst, src, n)
  {
    if dst <= src {
      MoveForwards(a, dst, src, n);
    } else {
      MoveBackwards(a, dst, src, n);
    }
  }

  class DeviceMemMap {
    const address: array<byte>
    var offset: nat
    var bufferLength: nat

    constructor (address: array<byte>, offset: nat, bufferLength: nat)
      ensures this.address == address && this.offset == offset && this.bufferLength == bufferLength
    {
      this.address, this.offset, this.bufferLength := address, offset, bufferLength;
    }

    method ValidateMemMap() returns (ret: int)
      ensures ret == if offset + bufferLength <= address.Length && bufferLength > 0 then 31700000 else 401
    {
      if offset > address.Length || bufferLength > address.Length - offset {
        return SCSIPERIPHERAL_DDK_INVALID_PARAMETER;
      }
      if bufferLength == 0 {
        return SCSIPERIPHERAL_DDK_INVALID_PARAMETER;
      }
      return SCSIPERIPHERAL_DDK_SUCCESS;
    }

    method NormalizeMemMap() returns (ret: int)
      modifies address
      ensures ret == if offset + bufferLength <= address.Length && bufferLength > 0 then 31700000 else 401
      ensures address[..] ==
              if ret == 31700000 then Normalized(old(address[..]), offset, bufferLength)
              else old(address[..])
    {
      ret := ValidateMemMap();
      if ret != SCSIPERIPHERAL_DDK_SUCCESS {
        return;
      }
      if offset != 0 && bufferLength > 0 {
        MemMove(address, 0, offset, bufferLength);
      }
    }

    method RestoreMemMap(transferredLength: nat)
      requires offset <= address.Length
      modifies address
      ensures address[..] == Restored(old(address[..]), offset, transferredLength)
    {
      if offset == 0 || transferredLength == 0 {
        return;
      }
      var len := transferredLength;
      if len > address.Length - offset {
        len := address.Length - offset;
      }
      MemMove(address, offset, 0, len);
    }
  }
}
