/** The client side of the shared segment: attaching, bounds, raw and by-index access. */
module NekoEcatClient {
  import opened Words
  import opened Memory
  import opened DataPlane
  import opened PlaneRuns
  import opened FreeRun

  const UINT32_MAX: UInt32 := 0xFFFF_FFFF
  const HEADER_BYTES: nat := 56

  /** The layout a client works with; its entries have the shape of the daemon's. */
  datatype ShmLayout = ShmLayout(entries: seq<MirrorEntry>, dataSize: UInt32, truncated: bool)

  predicate Names(e: MirrorEntry, slave: UInt16, index: UInt16, sub: UInt8) {
    e.slave == slave && e.index == index && e.sub == sub
  }

  predicate FirstNamed(layout: ShmLayout, k: nat, slave: UInt16, index: UInt16, sub: UInt8)
    requires k < |layout.entries|
  {
    && Names(layout.entries[k], slave, index, sub)
    && forall j :: 0 <= j < k ==> !Names(layout.entries[j], slave, index, sub)
  }

  /** `off` is the offset of the first entry with the given address, or UINT32_MAX when there is none. */
  predicate Located(layout: ShmLayout, slave: UInt16, index: UInt16, sub: UInt8, off: UInt32) {
    && ((forall e :: e in layout.entries ==> !Names(e, slave, index, sub)) ==> off == UINT32_MAX)
    && (forall k :: 0 <= k < |layout.entries| && FirstNamed(layout, k, slave, index, sub) ==> off == layout.entries[k].offset)
  }

  /** The size in the header if it is a size inside the mapping, and the mapped size if it is not. */
  lemma EffectiveSizeIs(c: Client)
    requires c.Mapped()
    ensures 0 < c.seg.dataSize <= c.mappedDataSize ==> c.EffectiveDataSize() == c.seg.dataSize
    ensures c.seg.dataSize == 0 || c.seg.dataSize > c.mappedDataSize ==> c.EffectiveDataSize() == c.mappedDataSize
  {
  }

  lemma {:induction false} SomeFirstNamed(layout: ShmLayout, i: nat, slave: UInt16, index: UInt16, sub: UInt8) returns (k: nat)
    requires i < |layout.entries| && Names(layout.entries[i], slave, index, sub)
    ensures k < |layout.entries| && FirstNamed(layout, k, slave, index, sub)
  {
    k := i;
    if j :| 0 <= j < i && Names(layout.entries[j], slave, index, sub) {
      k := SomeFirstNamed(layout, j, slave, index, sub);
    }
  }

  /** Every address has one location. */
  lemma LocatedOnce(layout: ShmLayout, slave: UInt16, index: UInt16, sub: UInt8, a: UInt32, b: UInt32)
    requires Located(layout, slave, index, sub, a) && Located(layout, slave, index, sub, b)
    ensures a == b
  {
    if e :| e in layout.entries && Names(e, slave, index, sub) {
      var i :| 0 <= i < |layout.entries| && layout.entries[i] == e;
      var k := SomeFirstNamed(layout, i, slave, index, sub);
    }
  }

  method LayoutByteOffset(layout: ShmLayout, slave: UInt16, index: UInt16, sub: UInt8) returns (off: UInt32)
    ensures Located(layout, slave, index, sub, off)
    ensures forall k :: 0 <= k < |layout.entries| && FirstNamed(layout, k, slave, index, sub) ==>
      && off == layout.entries[k].offset && layout.entries[k].slave == slave && layout.entries[k].index == index
      && layout.entries[k].sub == sub
    ensures off == 0xFFFF_FFFF || exists k :: 0 <= k < |layout.entries| && FirstNamed(layout, k, slave, index, sub)
    ensures (exists e :: e in layout.entries && e.slave == slave && e.index == index && e.sub == sub) ==>
      exists k :: 0 <= k < |layout.entries| && FirstNamed(layout, k, slave, index, sub)
  {
    for i := 0 to |layout.entries|
      invariant forall j :: 0 <= j < i ==> !Names(layout.entries[j], slave, index, sub)
    {
      if layout.entries[i].slave == slave && layout.entries[i].index == index && layout.entries[i].sub == sub {
        assert FirstNamed(layout, i, slave, index, sub);
        return layout.entries[i].offset;
      }
    }
    off := UINT32_MAX;
  }

  /** The stride attach() derives from a parsed layout. */
  function LayoutStride(layout: ShmLayout): (r: UInt32)
    ensures 0 < r <= MAX_PROCESS_DATA_SIZE
    ensures 0 < layout.dataSize <= 4096 <==> r == layout.dataSize
    ensures r != layout.dataSize ==> r == 4096
  {
    if layout.dataSize == 0 || layout.dataSize > MAX_PROCESS_DATA_SIZE then MAX_PROCESS_DATA_SIZE else layout.dataSize
  }

  /** The position, counted from the start of the mapping, of byte `off` of buffer `b`. */
  function BytePosition(stride: nat, b: nat, off: nat): (p: nat)
    ensures b < 2 ==> p == 56 + b * stride + off
  {
    HEADER_BYTES + (if b == 0 then 0 else stride) + off
  }

  class Client {
    var seg: ShmSegment?
    var attached: bool
    var stale: bool
    var stateError: bool
    var mappedDataSize: UInt32
    var knownLayoutVersion: UInt32
    var lastVersion: UInt64
    var layout: ShmLayout

    /** `stale` marks a header pointer into a mapping that is gone. */
    predicate Mapped()
      reads this
    {
      attached && seg != null && !stale && 0 < mappedDataSize <= MAX_PROCESS_DATA_SIZE
    }

    ghost predicate Valid()
      reads this
    {
      attached ==> Mapped() && 2 * mappedDataSize <= seg.data.Length
    }

    constructor ()
      ensures Valid() && !attached
    {
      seg, attached, stale, stateError := null, false, false, false;
      mappedDataSize, knownLayoutVersion, lastVersion := 0, 0, 0;
      layout := ShmLayout([], 0, false);
    }

    /** attach() once the layout text is parsed. `obj` is what shm_open finds, if anything; `statOk` and `mapOk` are
        the outcomes of fstat and mmap. A failed size check leaves the header pointer to the mapping it has undone;
        where the client was attached before, it still counts as attached. */
    method Attach(parsed: ShmLayout, layoutVersion: UInt32, obj: ShmSegment?, statOk: bool, mapOk: bool)
      returns (ok: bool)
      requires Valid()
      modifies this
      ensures ok == (obj != null && statOk && mapOk && obj.dataSize == LayoutStride(parsed))
      ensures obj == null || !statOk || !mapOk ==> unchanged(this)
      ensures obj != null && statOk && mapOk && !ok ==> attached == old(attached) && stale
      ensures ok ==> attached && !stale && 0 < mappedDataSize <= 4096
      ensures ok ==> Mapped() && seg == obj && mappedDataSize == LayoutStride(parsed) && layout == parsed
      ensures ok ==> knownLayoutVersion == layoutVersion && lastVersion == obj.version
      ensures ok ==> stateError == (layoutVersion != 0 && obj.layoutVersion != layoutVersion)
    {
      var dsize := parsed.dataSize;
      if dsize == 0 || dsize > MAX_PROCESS_DATA_SIZE {
        dsize := MAX_PROCESS_DATA_SIZE;
      }
      if obj == null || !statOk || !mapOk {
        return false;
      }
      seg := obj;
      // The daemon may have recreated the object with another size since the layout was fetched.
      if obj.dataSize != dsize {
        stale := true;
        return false;
      }
      mappedDataSize, layout, knownLayoutVersion := dsize, parsed, layoutVersion;
      attached, stale, stateError, lastVersion := true, false, false, obj.version;
      if layoutVersion != 0 && obj.layoutVersion != layoutVersion {
        stateError := true;
      }
      ok := true;
    }

    function EffectiveDataSize(): (r: UInt32)
      requires Mapped()
      reads this, seg
      ensures 0 < r <= mappedDataSize
      ensures seg.dataSize == mappedDataSize ==> r == mappedDataSize
    {
      var mapped := mappedDataSize;
      var hsz := seg.dataSize;
      if hsz == 0 || hsz > MAX_PROCESS_DATA_SIZE || hsz > mapped then mapped else hsz
    }

    predicate CheckBounds(off: UInt32, width: UInt32)
      requires Mapped()
      reads this, seg
      ensures CheckBounds(off, width) <==> off != UINT32_MAX && off + width <= EffectiveDataSize()
    {
      var sz := EffectiveDataSize();
      if off == UINT32_MAX then false
      else if width > sz then false
      else off <= sz - width
    }

    /** read_raw_at with nobody publishing meanwhile; the concurrent case is the step machine's. */
    method ReadRawAt(off: UInt32, nbytes: UInt32) returns (r: Option<seq<Byte>>)
      requires Valid()
      ensures r.Some? <==> attached && CheckBounds(off, nbytes) && seg.activeBuffer <= 1
      ensures r.Some? ==> r.value == seg.Buffers(mappedDataSize)[seg.activeBuffer][off..off + nbytes]
    {
      if !attached || seg == null {
        return None;
      }
      if !CheckBounds(off, nbytes) {
        return None;
      }
      for attempt := 0 to 4
        invariant attempt == 0
      {
        var v1 := seg.version;
        var b := seg.activeBuffer;
        if b > 1 {
          return None;
        }
        var base: nat := if b == 0 then 0 else mappedDataSize;
        var bytes := seg.data[base + off..base + off + nbytes];
        SliceOfSlice(seg.data[..], base, mappedDataSize, off, nbytes);
        var v2 := seg.version;
        if v1 == v2 {
          return Some(bytes);
        }
      }
      assert false;
    }

    method WriteRawAt(off: UInt32, bytes: seq<Byte>) returns (ok: bool)
      requires Valid() && |bytes| <= UINT32_MAX
      modifies if seg == null then {} else {seg.data}
      ensures Valid()
      ensures ok <==> attached && CheckBounds(off, |bytes|) && seg.activeBuffer <= 1
      ensures ok ==>
        var b := old(seg.Buffers(mappedDataSize));
        seg.Buffers(mappedDataSize) == b[seg.activeBuffer := Patch(b[seg.activeBuffer], off, bytes)]
      ensures ok ==> seg.data[2 * mappedDataSize..] == old(seg.data[2 * mappedDataSize..])
      ensures !ok && seg != null ==> seg.data[..] == old(seg.data[..])
    {
      if !attached || seg == null {
        return false;
      }
      if !CheckBounds(off, |bytes|) {
        return false;
      }
      var b := seg.activeBuffer;
      if b > 1 {
        return false;
      }
      var base: nat := if b == 0 then 0 else mappedDataSize;
      StoreInHalf(seg.data[..], mappedDataSize, b, off, bytes);
      StoreBytes(seg.data, base + off, bytes);
      ok := true;
    }

    /** The by-index accessors for unsigned values of 1, 2, 4 or 8 bytes. */
    method WriteByIndex(slave: UInt16, index: UInt16, sub: UInt8, v: nat, width: UInt32) returns (ok: bool, off: UInt32)
      requires Valid() && width <= 8 && v < Pow256(width)
      modifies if seg == null then {} else {seg.data}
      ensures Valid() && Located(layout, slave, index, sub, off)
      ensures ok <==> off != UINT32_MAX && attached && CheckBounds(off, width) && seg.activeBuffer <= 1
      ensures ok ==>
        var b := old(seg.Buffers(mappedDataSize));
        seg.Buffers(mappedDataSize) == b[seg.activeBuffer := Patch(b[seg.activeBuffer], off, ToBytes(v, width))]
      ensures ok ==> FromBytes(seg.Buffers(mappedDataSize)[seg.activeBuffer][off..off + width]) == v
      ensures ok ==> seg.data[2 * mappedDataSize..] == old(seg.data[2 * mappedDataSize..])
      ensures !ok && seg != null ==> seg.data[..] == old(seg.data[..])
    {
      off := LayoutByteOffset(layout, slave, index, sub);
      ghost var before := if attached then seg.Buffers(mappedDataSize) else [];
      hide Located, ToBytes, FromBytes, Pow256, Halves, Patch;
      if off == UINT32_MAX {
        return false, off;
      }
      var bytes := ToBytes(v, width);
      ok := WriteRawAt(off, bytes);
      if ok {
        StoredValue(before[seg.activeBuffer], off, v, width);
      }
    }

    method ReadByIndex(slave: UInt16, index: UInt16, sub: UInt8, width: UInt32) returns (r: Option<nat>, off: UInt32)
      requires Valid() && width <= 8
      ensures Located(layout, slave, index, sub, off)
      ensures r.Some? <==> off != UINT32_MAX && attached && CheckBounds(off, width) && seg.activeBuffer <= 1
      ensures r.Some? ==> r.value == FromBytes(seg.Buffers(mappedDataSize)[seg.activeBuffer][off..off + width])
    {
      off := LayoutByteOffset(layout, slave, index, sub);
      hide Located, FromBytes, Halves;
      if off == UINT32_MAX {
        return None, off;
      }
      var bytes := ReadRawAt(off, width);
      r := match bytes case None => None case Some(b) => Some(FromBytes(b));
    }
  }

  /** The bytes a typed store leaves hold the value. */
  lemma StoredValue(buffer: seq<Byte>, off: nat, v: nat, width: nat)
    requires off + width <= |buffer| && v < Pow256(width)
    ensures FromBytes(Patch(buffer, off, ToBytes(v, width))[off..off + width]) == v
  {
    ToBytesThenFromBytes(v, width);
    SmallMod(v, Pow256(width));
    PatchItself(buffer, off, ToBytes(v, width));
    hide Patch, ToBytes, FromBytes, Pow256;
  }

  method StoreBytes(data: array<Byte>, at: nat, bytes: seq<Byte>)
    requires at + |bytes| <= data.Length
    modifies data
    ensures data[..] == Patch(old(data[..]), at, bytes)
  {
    forall i | 0 <= i < |bytes| {
      data[at + i] := bytes[i];
    }
  }

  /** A store inside one buffer, seen in the block that holds both. */
  lemma StoreInHalf(shm: seq<Byte>, stride: nat, b: nat, off: nat, bytes: seq<Byte>)
    requires 2 * stride <= |shm| && b < 2 && off + |bytes| <= stride
    ensures var after := Patch(shm, (if b == 0 then 0 else stride) + off, bytes);
      && Halves(after, stride) == Halves(shm, stride)[b := Patch(Halves(shm, stride)[b], off, bytes)]
      && after[2 * stride..] == shm[2 * stride..]
  {
    var base := if b == 0 then 0 else stride;
    var after, half := Patch(shm, base + off, bytes), Halves(shm, stride)[b];
    assert after[base..base + stride] == Patch(half, off, bytes);
    assert after[stride - base..2 * stride - base] == shm[stride - base..2 * stride - base];
  }
}
