/** The daemon side of the shared segment: sizing, creation, the per-cycle mirror and the final stop. */
module FreeRun {
  import opened Words
  import opened DataPlane
  import opened Memory
  import opened PlaneBits
  import opened PlaneRuns

  const LAYOUT_VERSION: UInt32 := 1

  /** The shared-memory object: its header fields and the two data buffers, laid end to end. */
  class ShmSegment {
    var version: UInt64
    var cycleCount: UInt64
    var timestampNs: UInt64
    var activeBuffer: UInt32
    var dataSize: UInt32
    var layoutVersion: UInt32
    var statusFlags: UInt32
    var ignoredWrites: UInt32
    const data: array<Byte>

    constructor (bytes: nat, stride: UInt32)
      ensures data.Length == bytes && fresh(data) && dataSize == stride
      ensures version == 0 && cycleCount == 0 && timestampNs == 0 && activeBuffer == 0
      ensures layoutVersion == LAYOUT_VERSION && statusFlags == 0 && ignoredWrites == 0
    {
      data := new Byte[bytes];
      version, cycleCount, timestampNs, activeBuffer := 0, 0, 0, 0;
      dataSize, layoutVersion, statusFlags, ignoredWrites := stride, LAYOUT_VERSION, 0, 0;
    }

    ghost function Buffers(stride: nat): (b: seq<seq<Byte>>)
      requires 2 * stride <= data.Length
      reads this, data
      ensures |b| == 2 && |b[0]| == |b[1]| == stride
    {
      Halves(data[..], stride)
    }

    /** The plane formed by this segment, cut at `stride`, and a bus-side image. */
    ghost function PlaneOf(stride: nat, domain: seq<Byte>): (pl: Plane)
      requires 2 * stride <= data.Length
      reads this, data
      ensures |pl.buffers| == 2 && |pl.buffers[0]| == |pl.buffers[1]| == stride
    {
      Plane(Buffers(stride), domain, activeBuffer, version, cycleCount,
            timestampNs, statusFlags, ignoredWrites)
    }
  }

  method ComputeProcessDataSize(entries: seq<MirrorEntry>) returns (maxEnd: nat)
    ensures forall e :: e in entries ==> End(e) <= maxEnd
    ensures maxEnd == 0 || exists e :: e in entries && End(e) == maxEnd
    ensures forall e :: e in entries ==> e.offset <= maxEnd
    ensures forall e :: e in entries && e.bitLength > 0 ==> e.offset + (e.bitLength - 1) / 8 < maxEnd
    ensures maxEnd == 0 || exists e ::
      e in entries && maxEnd == if e.bitLength == 0 then e.offset else e.offset + (e.bitLength - 1) / 8 + 1
  {
    forall e | e in entries {
      EndByBits(e);
    }
    maxEnd := 0;
    for i := 0 to |entries|
      invariant forall e :: e in entries[..i] ==> End(e) <= maxEnd
      invariant maxEnd == 0 || exists e :: e in entries && End(e) == maxEnd
    {
      assert entries[i] in entries && End(entries[i]) == End(entries[i]);
      var bytes := (entries[i].bitLength + 7) / 8;
      var end := entries[i].offset + bytes;
      if end > maxEnd {
        maxEnd := end;
      }
    }
  }

  /** The image once entry `e` is applied: unchanged unless `e` is an output that fits. */
  function Applied(image: seq<Byte>, e: MirrorEntry, outputs: seq<Byte>): (r: seq<Byte>)
    requires |image| <= |outputs|
    ensures |r| == |image|
  {
    if IsOutput(e) && End(e) <= |image| then Patch(image, e.offset, outputs[e.offset..End(e)]) else image
  }

  /** One round of the overlay loop: the copies client buffer (at `from`) to prepared buffer (at `to`) and client
      buffer to bus-side image. `image` is what both destinations held before on the first `n` bytes. */
  method ApplyEntry(domainData: array<Byte>, shmData: array<Byte>, from: nat, to: nat, n: nat, e: MirrorEntry,
                    ghost dom: seq<Byte>, ghost shm: seq<Byte>, ghost image: seq<Byte>)
    returns (refused: bool)
    requires domainData != shmData && |image| == n <= |dom|
    requires from + n <= |shm| && to + n <= |shm|
    requires from + n <= to || to + n <= from
    requires domainData[..] == Patch(dom, 0, image) && shmData[..] == Patch(shm, to, image)
    modifies domainData, shmData
    ensures domainData[..] == Patch(dom, 0, Applied(image, e, shm[from..from + n]))
    ensures shmData[..] == Patch(shm, to, Applied(image, e, shm[from..from + n]))
    ensures refused == Ignored(e, n)
    ensures refused <==> e.direction == "RxPDO" && e.bitLength > 0 && e.offset + (e.bitLength - 1) / 8 >= n
  {
    hide Patch;
    IgnoredByBits(e, n);
    if e.direction != "RxPDO" {
      return false;
    }
    var bl := (e.bitLength + 7) / 8;
    if bl == 0 {
      return false;
    }
    // A client must never drive a copy outside the shared data area.
    if e.offset > n || bl > n - e.offset {
      return true;
    }
    SliceOfSlice(shm, from, n, e.offset, bl);
    PatchElsewhere(shm, to, image, from + e.offset, from + e.offset + bl);
    CopyIntoBlock(shmData, to, e.offset, shmData, from + e.offset, bl, shm, image);
    CopyIntoBlock(domainData, 0, e.offset, shmData, from + e.offset, bl, dom, image);
    refused := false;
  }

  /** The overlay loop. Out-of-bounds outputs are ignored and counted. */
  method OverlayOutputs(domainData: array<Byte>, shmData: array<Byte>, from: nat, to: nat, n: nat,
                        entries: seq<MirrorEntry>)
    returns (ignored: UInt32)
    requires domainData != shmData && n <= domainData.Length
    requires from + n <= shmData.Length && to + n <= shmData.Length
    requires from + n <= to || to + n <= from
    requires shmData[to..to + n] == domainData[..n]
    modifies domainData, shmData
    ensures var image := old(Overlay(entries, n, shmData[from..from + n], domainData[..n]));
      && domainData[..] == Patch(old(domainData[..]), 0, image)
      && shmData[..] == Patch(old(shmData[..]), to, image)
    ensures ignored == IgnoredCount(entries, n) % TWO_32
  {
    ghost var dom, shm := domainData[..], shmData[..];
    ghost var outputs, image := shm[from..from + n], dom[..n];
    NoEntries(entries, n, outputs, image);
    PatchSame(dom, 0, image);
    PatchSame(shm, to, image);
    hide Overlay, Patch, IgnoredCount, Applied, Ignored;
    ignored := 0;
    for i := 0 to |entries|
      invariant |image| == n && image == Overlay(entries[..i], n, outputs, dom[..n])
      invariant domainData[..] == Patch(dom, 0, image)
      invariant shmData[..] == Patch(shm, to, image)
      invariant ignored == IgnoredCount(entries[..i], n) % TWO_32
    {
      OneMoreEntry(entries, i, n, outputs, dom[..n]);
      var refused := ApplyEntry(domainData, shmData, from, to, n, entries[i], dom, shm, image);
      if refused {
        ignored := (ignored + 1) % TWO_32;
      }
      image := Applied(image, entries[i], outputs);
    }
    assert entries[..|entries|] == entries;
  }

  /** Steps 1 and 2 of a cycle: copy the bus data into the inactive buffer, then overlay the outputs. */
  method PrepareImage(domainData: array<Byte>, shmData: array<Byte>, from: nat, to: nat, n: nat,
                      entries: seq<MirrorEntry>)
    returns (ignored: UInt32)
    requires domainData != shmData && n <= domainData.Length
    requires from + n <= shmData.Length && to + n <= shmData.Length
    requires from + n <= to || to + n <= from
    modifies domainData, shmData
    ensures var image := old(Overlay(entries, n, shmData[from..from + n], domainData[..n]));
      && domainData[..] == Patch(old(domainData[..]), 0, image)
      && shmData[..] == Patch(old(shmData[..]), to, image)
    ensures ignored == IgnoredCount(entries, n) % TWO_32
  {
    ghost var shm, dom := shmData[..], domainData[..];
    CopyBytes(shmData, to, domainData, 0, n);
    PatchElsewhere(shm, to, dom[..n], from, from + n);
    PatchItself(shm, to, dom[..n]);
    ignored := OverlayOutputs(domainData, shmData, from, to, n, entries);
    PatchInside(shm, to, dom[..n], 0, Overlay(entries, n, shm[from..from + n], dom[..n]));
  }

  /** Step 3 of a cycle: the header stores, in publish order. */
  method Publish(seg: ShmSegment, inactive: UInt32, ignored: UInt32, timestampNs: UInt64)
    modifies seg
    ensures seg.version == (old(seg.version) + 1) % TWO_64
    ensures seg.cycleCount == (old(seg.cycleCount) + 1) % TWO_64
    ensures seg.timestampNs == timestampNs && seg.activeBuffer == inactive
    ensures seg.statusFlags == SetRunning(old(seg.statusFlags))
    ensures seg.statusFlags % 2 == 1 && seg.statusFlags / 2 == old(seg.statusFlags) / 2
    ensures seg.ignoredWrites == (old(seg.ignoredWrites) + ignored) % TWO_32
    ensures seg.dataSize == old(seg.dataSize) && seg.layoutVersion == old(seg.layoutVersion)
  {
    if ignored > 0 {
      seg.ignoredWrites := (seg.ignoredWrites + ignored) % TWO_32;
    }
    seg.timestampNs := timestampNs;
    seg.statusFlags := SetRunning(seg.statusFlags);
    seg.cycleCount := (seg.cycleCount + 1) % TWO_64;
    seg.activeBuffer := inactive;
    seg.version := (seg.version + 1) % TWO_64;
  }

  /** One mirror cycle. A null pointer on either side leaves everything as it was. */
  method MirrorToShm(seg: ShmSegment, domainData: array?<Byte>, shmData: array?<Byte>, stride: nat,
                     entries: seq<MirrorEntry>, dataSize: nat, timestampNs: UInt64)
    requires 2 * stride <= seg.data.Length
    requires shmData != null ==> shmData == seg.data
    requires domainData != null ==> domainData != seg.data && stride <= domainData.Length
    requires Clamp(dataSize) <= stride
    modifies seg, domainData, shmData
    ensures domainData == null || shmData == null ==>
      unchanged(seg) && unchanged(seg.data) && (domainData != null ==> unchanged(domainData))
    ensures seg.dataSize == old(seg.dataSize) && seg.layoutVersion == old(seg.layoutVersion)
    ensures domainData != null && shmData != null ==>
      && seg.PlaneOf(stride, domainData[..])
         == Cycle(old(seg.PlaneOf(stride, domainData[..])), entries, dataSize, timestampNs)
      && seg.data[2 * stride..] == old(seg.data[2 * stride..])
  {
    if domainData == null || shmData == null {
      return;
    }
    var n := dataSize;
    if n > MAX_PROCESS_DATA_SIZE {
      n := MAX_PROCESS_DATA_SIZE;
    }
    if n == 0 {
      return;
    }
    RunCycle(seg, domainData, stride, entries, n, timestampNs);
  }

  /** The cycle proper, over `n` bytes that both sides have. */
  method RunCycle(seg: ShmSegment, domainData: array<Byte>, stride: nat, entries: seq<MirrorEntry>, n: nat,
                  timestampNs: UInt64)
    requires 2 * stride <= seg.data.Length && domainData != seg.data
    requires 0 < n <= MAX_PROCESS_DATA_SIZE && n <= stride <= domainData.Length
    modifies seg, seg.data, domainData
    ensures seg.dataSize == old(seg.dataSize) && seg.layoutVersion == old(seg.layoutVersion)
    ensures seg.PlaneOf(stride, domainData[..])
      == Cycle(old(seg.PlaneOf(stride, domainData[..])), entries, n, timestampNs)
    ensures seg.data[2 * stride..] == old(seg.data[2 * stride..])
  {
    hide Overlay, Patch, Halves, Cycle, IgnoredCount;
    // A corrupt index must not address a third buffer.
    var active := seg.activeBuffer;
    if active > 1 {
      active := 0;
    }
    var from, to := if active == 0 then 0 else stride, if active == 0 then stride else 0;
    CycleOfBlock(seg.PlaneOf(stride, domainData[..]), seg.data[..], stride, entries, n, timestampNs);
    var ignored := PrepareImage(domainData, seg.data, from, to, n, entries);
    Publish(seg, 1 - active, ignored, timestampNs);
  }

  lemma NoEntries(entries: seq<MirrorEntry>, n: nat, outputs: seq<Byte>, bus: seq<Byte>)
    requires n <= |outputs| && n == |bus|
    ensures Overlay(entries[..0], n, outputs, bus) == bus && IgnoredCount(entries[..0], n) == 0
  {
  }

  /** What the loop adds in round `i`. */
  lemma OneMoreEntry(entries: seq<MirrorEntry>, i: nat, n: nat, outputs: seq<Byte>, bus: seq<Byte>)
    requires i < |entries| && n <= |outputs| && n <= |bus|
    ensures Overlay(entries[..i + 1], n, outputs, bus)
      == Applied(Overlay(entries[..i], n, outputs, bus), entries[i], outputs)
    ensures var before := IgnoredCount(entries[..i], n) % TWO_32;
      IgnoredCount(entries[..i + 1], n) % TWO_32 == if Ignored(entries[i], n) then (before + 1) % TWO_32 else before
  {
    assert entries[..i + 1] == entries[..i] + [entries[i]];
    assert entries[..i + 1][..i] == entries[..i];
    forall p | 0 <= p < n
      ensures Driven(entries[..i + 1], n, p) <==> Driven(entries[..i], n, p) || Drives(entries[i], n, p)
    {
      DrivenSnoc(entries[..i], entries[i], n, p);
    }
  }

  function Halves(shm: seq<Byte>, stride: nat): (r: seq<seq<Byte>>)
    requires 2 * stride <= |shm|
    ensures |r| == 2 && |r[0]| == |r[1]| == stride
  {
    [shm[..stride], shm[stride..2 * stride]]
  }

  /** A new image in one buffer, seen in the block that holds both. */
  lemma PatchHalf(shm: seq<Byte>, stride: nat, n: nat, active: nat, image: seq<Byte>)
    requires 2 * stride <= |shm| && |image| == n <= stride && active < 2
    ensures var to := if active == 0 then stride else 0;
      var buffers := Halves(shm, stride);
      var after := Patch(shm, to, image);
      && Halves(after, stride) == buffers[1 - active := image + buffers[1 - active][n..]]
      && after[2 * stride..] == shm[2 * stride..]
  {
    var from, to := if active == 0 then 0 else stride, if active == 0 then stride else 0;
    var after, buffers := Patch(shm, to, image), Halves(shm, stride);
    assert after[from..from + stride] == buffers[active];
    assert after[to..to + stride] == image + buffers[1 - active][n..];
  }

  /** The plane after a cycle, as changes of the block that holds both buffers. */
  lemma CycleOfBlock(pl: Plane, shm: seq<Byte>, stride: nat, entries: seq<MirrorEntry>, n: nat, timestampNs: UInt64)
    requires 2 * stride <= |shm| && 0 < n <= MAX_PROCESS_DATA_SIZE && n <= stride <= |pl.domain|
    requires pl.buffers == Halves(shm, stride)
    ensures var a := DaemonIndex(pl.active);
      var from, to := if a == 0 then 0 else stride, if a == 0 then stride else 0;
      var image := Overlay(entries, n, shm[from..from + n], pl.domain[..n]);
      var after := Patch(shm, to, image);
      && Cycle(pl, entries, n, timestampNs)
         == Plane(Halves(after, stride), Patch(pl.domain, 0, image), 1 - a, (pl.version + 1) % TWO_64,
                  (pl.cycleCount + 1) % TWO_64, timestampNs, SetRunning(pl.status),
                  (pl.ignored + IgnoredCount(entries, n) % TWO_32) % TWO_32)
      && after[2 * stride..] == shm[2 * stride..]
  {
    var a := DaemonIndex(pl.active);
    var from := if a == 0 then 0 else stride;
    HalfPrefix(shm, stride, a, n);
    hide Overlay, IgnoredCount, Halves, Patch;
    var image := Overlay(entries, n, shm[from..from + n], pl.domain[..n]);
    OverlayPrefix(entries, n, pl.buffers[a], pl.domain);
    PatchHalf(shm, stride, n, a, image);
    PatchFront(pl.domain, image);
    AddMod(pl.ignored, IgnoredCount(entries, n), TWO_32);
  }

  lemma HalfPrefix(shm: seq<Byte>, stride: nat, a: nat, n: nat)
    requires 2 * stride <= |shm| && a < 2 && n <= stride
    ensures var from := if a == 0 then 0 else stride; Halves(shm, stride)[a][..n] == shm[from..from + n]
  {
    SliceOfSlice(shm, if a == 0 then 0 else stride, stride, 0, n);
  }

  lemma PatchFront(s: seq<Byte>, b: seq<Byte>)
    requires |b| <= |s|
    ensures Patch(s, 0, b) == b + s[|b|..]
  {
  }

  lemma OverlayPrefix(entries: seq<MirrorEntry>, n: nat, outputs: seq<Byte>, bus: seq<Byte>)
    requires n <= |outputs| && n <= |bus|
    ensures Overlay(entries, n, outputs, bus) == Overlay(entries, n, outputs[..n], bus[..n])
  {
  }

  lemma DrivenSnoc(entries: seq<MirrorEntry>, e: MirrorEntry, n: nat, p: nat)
    ensures Driven(entries + [e], n, p) <==> Driven(entries, n, p) || Drives(e, n, p)
  {
    if Driven(entries, n, p) {
      var k :| 0 <= k < |entries| && Drives(entries[k], n, p);
      assert (entries + [e])[k] == entries[k];
    }
    if Drives(e, n, p) {
      assert (entries + [e])[|entries|] == e;
    }
  }

  /** The size a cycle goes by: the header's, unless it is zero or past the true stride. */
  function TrustedSize(headerSize: UInt32, stride: nat): (r: nat)
    ensures r <= stride && (r == headerSize || r == stride)
    ensures 0 < headerSize <= stride ==> r == headerSize
    ensures 0 < stride ==> 0 < r
  {
    if headerSize == 0 || headerSize > stride then stride else headerSize
  }

  class FreeRunController {
    var seg: ShmSegment?
    var shmStride: nat
    var domainData: array?<Byte>
    var mirrorEntries: seq<MirrorEntry>

    ghost predicate Valid()
      reads this, seg
    {
      seg != null ==>
        && 0 < shmStride <= MAX_PROCESS_DATA_SIZE && seg.data.Length == 2 * shmStride
        && (domainData != null ==>
             domainData != seg.data && (mirrorEntries != [] ==> shmStride <= domainData.Length))
    }

    constructor ()
      ensures Valid() && seg == null && domainData == null && mirrorEntries == []
    {
      seg, shmStride, domainData, mirrorEntries := null, 0, null, [];
    }

    /** The part of start() that sizes and creates the segment. `created`, `sized` and `mapped` are the outcomes
        of shm_open, ftruncate and mmap; `domain` is the image the master hands out, which holds every entry. */
    method StartMirror(domain: array<Byte>, entries: seq<MirrorEntry>, created: bool, sized: bool, mapped: bool)
      returns (ok: bool)
      requires Valid() && seg == null
      requires forall e :: e in entries ==> 1 <= domain.Length && End(e) <= domain.Length
      modifies this
      ensures Valid() && ok == (created && sized && mapped)
      ensures ok ==> seg != null && fresh(seg) && fresh(seg.data) && domainData == domain && mirrorEntries == entries
      ensures ok ==> seg.dataSize == shmStride && seg.activeBuffer == 0 && seg.version == 0 && seg.ignoredWrites == 0
      ensures ok ==> seg.layoutVersion == LAYOUT_VERSION == 1 && seg.statusFlags == 0
      ensures ok ==> exists m :: IsMaxEnd(entries, m) && shmStride == StartSize(m)
      ensures ok ==> 1 <= shmStride <= 4096 && forall e :: e in entries ==>
        || shmStride == 4096
        || if e.bitLength == 0 then e.offset <= shmStride else e.offset + (e.bitLength - 1) / 8 < shmStride
      ensures ok && shmStride > 1 ==> exists e ::
        e in entries && shmStride <= if e.bitLength == 0 then e.offset else e.offset + (e.bitLength - 1) / 8 + 1
      ensures !ok ==> seg == null
    {
      var computedSize := ComputeProcessDataSize(entries);
      ghost var m := computedSize;
      if computedSize == 0 {
        computedSize := 1;
      }
      if computedSize > MAX_PROCESS_DATA_SIZE {
        computedSize := MAX_PROCESS_DATA_SIZE;
      }
      if !created || !sized || !mapped {
        return false;
      }
      domainData, mirrorEntries, shmStride := domain, entries, computedSize;
      seg := new ShmSegment(2 * computedSize, computedSize);
      assert IsMaxEnd(entries, m) && shmStride == StartSize(m);
      assert entries != [] ==> entries[0] in entries;
      ok := true;
    }

    /** One cycle's mirror step; nothing happens before start() or without entries. */
    method MirrorCycle(timestampNs: UInt64)
      requires Valid()
      modifies seg, domainData, if seg == null then {} else {seg.data}
      ensures Valid()
      ensures seg != null ==> seg.dataSize == old(seg.dataSize)
      ensures seg != null && (domainData == null || mirrorEntries == []) ==>
        unchanged(seg) && unchanged(seg.data) && (domainData != null ==> unchanged(domainData))
      ensures seg != null && domainData != null && mirrorEntries != [] ==>
        seg.PlaneOf(shmStride, domainData[..])
        == Cycle(old(seg.PlaneOf(shmStride, domainData[..])), mirrorEntries,
                 old(TrustedSize(seg.dataSize, shmStride)), timestampNs)
    {
      if seg == null || domainData == null || mirrorEntries == [] {
        return;
      }
      // The header lies in memory clients can write, so its size is never taken past the true stride.
      var dataSize: nat := seg.dataSize;
      if dataSize == 0 || dataSize > shmStride {
        dataSize := shmStride;
      }
      MirrorToShm(seg, domainData, seg.data, shmStride, mirrorEntries, dataSize, timestampNs);
    }

    /** The last publish before the segment is torn down: clear RUNNING, then bump the version. */
    method Stop()
      requires Valid()
      modifies this, seg
      ensures Valid() && seg == null && domainData == null && mirrorEntries == []
      ensures old(seg) != null ==>
        && old(seg).statusFlags == ClearRunning(old(seg.statusFlags))
        && old(seg).statusFlags % 2 == 0 && old(seg).statusFlags / 2 == old(seg.statusFlags) / 2
        && old(seg).version == (old(seg.version) + 1) % TWO_64
        && old(seg).activeBuffer == old(seg.activeBuffer) && old(seg).dataSize == old(seg.dataSize)
        && old(seg).ignoredWrites == old(seg.ignoredWrites) && old(seg).cycleCount == old(seg.cycleCount)
        && old(seg).timestampNs == old(seg.timestampNs) && old(seg).layoutVersion == old(seg.layoutVersion)
    {
      if seg != null {
        seg.statusFlags := ClearRunning(seg.statusFlags);
        seg.version := (seg.version + 1) % TWO_64;
      }
      domainData, mirrorEntries, shmStride := null, [], 0;
      seg := null;
    }
  }
}
