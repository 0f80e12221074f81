/** Daemon and client on one segment: geometry after an attach, and typed values across whole sessions. */
module SharedSession {
  import opened Words
  import opened Memory
  import opened DataPlane
  import opened PlaneRuns
  import opened FreeRun
  import opened NekoEcatClient

  // ---- Geometry ----

  /** What may happen between the start of the daemon and the attach of a client: cycles on any bus data, and stores
      to the size in the header, which lies in memory that clients can write. */
  datatype Before = CycleDone(bus: seq<Byte>, timestampNs: UInt64) | HeaderStore(size: UInt32)

  function HeaderSize(ops: seq<Before>, start: UInt32): UInt32 {
    if ops == [] then start
    else match ops[|ops| - 1]
      case CycleDone(_, _) => HeaderSize(ops[..|ops| - 1], start)
      case HeaderStore(size) => size
  }

  /** The bus hands over a new process image; a shorter one leaves the rest as it was. */
  method Deliver(domain: array<Byte>, bus: seq<Byte>)
    modifies domain
    ensures |bus| == domain.Length ==> domain[..] == bus
  {
    forall i | 0 <= i < |bus| && i < domain.Length {
      domain[i] := bus[i];
    }
  }

  method RunBefore(d: FreeRunController, ops: seq<Before>)
    requires d.Valid() && d.seg != null && d.domainData != null
    modifies d.seg, d.seg.data, d.domainData
    ensures d.Valid() && d.seg.dataSize == HeaderSize(ops, old(d.seg.dataSize))
  {
    for i := 0 to |ops|
      invariant d.Valid() && d.seg.dataSize == HeaderSize(ops[..i], old(d.seg.dataSize))
    {
      assert ops[..i + 1][..i] == ops[..i];
      match ops[i] {
        case CycleDone(bus, ts) =>
          Deliver(d.domainData, bus);
          d.MirrorCycle(ts);
        case HeaderStore(size) =>
          d.seg.dataSize := size;
      }
    }
    assert ops[..|ops|] == ops;
  }

  /** Client and daemon mean the same byte of the object by every buffer and offset that the client's bounds check
      accepts. */
  predicate SameBytes(c: Client, d: FreeRunController)
    requires c.Mapped()
    reads c, c.seg, d
  {
    forall b: nat, off: UInt32 :: b < 2 && c.CheckBounds(off, 1) ==>
      BytePosition(c.mappedDataSize, b, off) == BytePosition(d.shmStride, b, off)
  }

  lemma SameBytesIff(c: Client, d: FreeRunController)
    requires c.Mapped()
    ensures SameBytes(c, d) <==> c.mappedDataSize == d.shmStride
  {
    assert c.CheckBounds(0, 1);
    if SameBytes(c, d) {
      assert BytePosition(c.mappedDataSize, 1, 0) == BytePosition(d.shmStride, 1, 0);
    }
  }

  /** Start, any run, attach: the attach succeeds exactly when the header then agrees with the layout; and after it
      both sides mean the same bytes, all inside the object, if and only if the header still holds the stride. */
  method AttachAfterRun(d: FreeRunController, domain: array<Byte>, entries: seq<MirrorEntry>, ops: seq<Before>,
                        c: Client, parsed: ShmLayout, layoutVersion: UInt32)
    returns (ok: bool)
    requires d.Valid() && d.seg == null && c.Valid()
    requires forall e :: e in entries ==> 1 <= domain.Length && End(e) <= domain.Length
    modifies d, c, domain
    ensures d.Valid() && d.seg != null && exists m :: IsMaxEnd(entries, m) && d.shmStride == StartSize(m)
    ensures ok <==> LayoutStride(parsed) == HeaderSize(ops, d.shmStride)
    ensures ok ==> c.Mapped() && c.seg == d.seg
    ensures ok ==> (SameBytes(c, d) <==> HeaderSize(ops, d.shmStride) == d.shmStride)
    ensures ok && SameBytes(c, d) ==> c.Valid() && d.seg.data.Length == 2 * d.shmStride
  {
    var started := d.StartMirror(domain, entries, true, true, true);
    ghost var stride := d.shmStride;
    RunBefore(d, ops);
    ok := c.Attach(parsed, layoutVersion, d.seg, true, true);
    if ok {
      SameBytesIff(c, d);
    }
  }

  /** A header overwritten before the layout text is printed passes the cross-check of the attach, and puts the
      client's second buffer elsewhere than the daemon's. */
  lemma OverwrittenHeaderMisplaces()
    ensures var ops, stride := [HeaderStore(4)], StartSize(8);
      && LayoutStride(ShmLayout([], 4, false)) == HeaderSize(ops, stride)
      && BytePosition(LayoutStride(ShmLayout([], 4, false)), 1, 0) != BytePosition(stride, 1, 0)
  {
    assert [HeaderStore(4)][0] == HeaderStore(4);
  }

  // ---- Values across a session ----

  /** Both sides run on one segment, and nobody has touched its header's size or index. */
  ghost predicate Linked(c: Client, d: FreeRunController)
    reads c, d, d.seg
  {
    && c.Valid() && d.Valid() && c.attached && d.seg != null && c.seg == d.seg && d.domainData != null
    && c.mappedDataSize == d.shmStride == d.seg.dataSize && d.seg.activeBuffer < 2 && d.mirrorEntries != []
  }

  ghost function SessionOf(d: FreeRunController): (se: Session)
    reads d
    ensures se.stride == d.shmStride
  {
    Session(d.mirrorEntries, d.shmStride)
  }

  ghost function PlaneNow(c: Client, d: FreeRunController): (pl: Plane)
    requires Linked(c, d)
    reads c, d, d.seg, d.domainData, if d.seg == null then {} else {d.seg.data}
    ensures Fitting(SessionOf(d), pl) && pl.domain == d.domainData[..]
  {
    d.seg.PlaneOf(d.shmStride, d.domainData[..])
  }

  /** One event of a run, performed by the two sides. */
  method Happen(c: Client, d: FreeRunController, ev: Event)
    requires Linked(c, d) && Fits(SessionOf(d), PlaneNow(c, d), ev)
    modifies d.seg, d.seg.data, d.domainData
    ensures Linked(c, d) && PlaneNow(c, d) == Step(SessionOf(d), old(PlaneNow(c, d)), ev)
  {
    hide Halves, Patch, Overlay;
    match ev
    case BusCycle(bus, ts) =>
      Deliver(d.domainData, bus);
      d.MirrorCycle(ts);
    case ClientWrite(off, bytes) =>
      var ok := c.WriteRawAt(off, bytes);
  }

  lemma PlayStep(se: Session, pl: Plane, evs: seq<Event>, i: nat)
    requires Fitting(se, pl) && FitsAll(se, |pl.domain|, evs) && i < |evs|
    ensures FitsAll(se, |pl.domain|, evs[..i]) && FitsAll(se, |pl.domain|, evs[..i + 1])
    ensures Fits(se, Play(se, pl, evs[..i]), evs[i])
    ensures Play(se, pl, evs[..i + 1]) == Step(se, Play(se, pl, evs[..i]), evs[i])
  {
    assert evs[..i + 1][..i] == evs[..i];
    hide Step;
  }

  method HappenAll(c: Client, d: FreeRunController, evs: seq<Event>)
    requires Linked(c, d) && FitsAll(SessionOf(d), d.domainData.Length, evs)
    modifies d.seg, d.seg.data, d.domainData
    ensures Linked(c, d) && PlaneNow(c, d) == Play(SessionOf(d), old(PlaneNow(c, d)), evs)
  {
    ghost var se, start := SessionOf(d), PlaneNow(c, d);
    assert evs[..0] == [];
    hide Step, FitsAll, Linked, PlaneNow;
    for i := 0 to |evs|
      invariant Linked(c, d) && FitsAll(se, |start.domain|, evs[..i])
      invariant PlaneNow(c, d) == Play(se, start, evs[..i])
    {
      PlayStep(se, start, evs, i);
      Happen(c, d, evs[i]);
    }
    assert evs[..|evs|] == evs;
  }

  /** The first entry of its address. */
  predicate Leads(c: Client, k: nat)
    reads c
  {
    k < |c.layout.entries|
    && FirstNamed(c.layout, k, c.layout.entries[k].slave, c.layout.entries[k].index, c.layout.entries[k].sub)
  }

  /** A write by index is the event of a run that stores the value's bytes at the entry's offset. */
  method WriteHappens(c: Client, d: FreeRunController, k: nat, v: nat, width: UInt32) returns (wrote: bool)
    requires Linked(c, d) && Leads(c, k) && width <= 8 && v < Pow256(width)
    requires c.layout.entries[k].offset + width <= d.shmStride
    modifies d.seg.data
    ensures wrote && Linked(c, d)
    ensures PlaneNow(c, d) == Step(SessionOf(d), old(PlaneNow(c, d)), ClientWrite(c.layout.entries[k].offset, ToBytes(v, width)))
  {
    hide Halves, Patch, Overlay, ToBytes, Pow256;
    var e := c.layout.entries[k];
    var at;
    wrote, at := c.WriteByIndex(e.slave, e.index, e.sub, v, width);
  }

  /** A read by index gives the value visible at the entry's offset. */
  method ReadSees(c: Client, d: FreeRunController, k: nat, width: UInt32) returns (r: Option<nat>)
    requires Linked(c, d) && Leads(c, k) && width <= 8 && c.layout.entries[k].offset + width <= d.shmStride
    ensures r == Some(FromBytes(Visible(PlaneNow(c, d), c.layout.entries[k].offset, width)))
  {
    hide Halves, FromBytes;
    var e := c.layout.entries[k];
    var at;
    r, at := c.ReadByIndex(e.slave, e.index, e.sub, width);
  }

  /** A value written by index to an output is what a read by index gives and what the bus carries, after any run of
      cycles on any bus data and of client writes elsewhere. */
  method WriteRunRead(c: Client, d: FreeRunController, k: nat, v: nat, width: UInt32, evs: seq<Event>)
    returns (wrote: bool, r: Option<nat>)
    requires Linked(c, d) && Leads(c, k) && width <= 8 && v < Pow256(width)
    requires DrivenRange(SessionOf(d), c.layout.entries[k].offset, width)
    requires FitsAll(SessionOf(d), d.domainData.Length, evs) && Elsewhere(evs, c.layout.entries[k].offset, width)
    modifies d.seg, d.seg.data, d.domainData
    ensures Linked(c, d) && wrote && r == Some(v)
    ensures var off := c.layout.entries[k].offset;
      off + width <= d.domainData.Length && (CycleTotal(evs) > 0 ==> FromBytes(d.domainData[off..off + width]) == v)
  {
    assert k < |c.layout.entries|;
    hide *;
    ghost var off, se, start := c.layout.entries[k].offset, SessionOf(d), PlaneNow(c, d);
    RangeFits(se, off, width);
    wrote := WriteHappens(c, d, k, v, width);
    ghost var written := PlaneNow(c, d);
    HappenAll(c, d, evs);
    r := ReadSees(c, d, k, width);
    WriteSurvives(se, start, written, PlaneNow(c, d), off, v, width, evs);
  }

  lemma RangeFits(se: Session, off: nat, n: nat)
    requires DrivenRange(se, off, n)
    ensures off + n <= se.stride
  {
  }

  lemma WriteSurvives(se: Session, start: Plane, written: Plane, end: Plane, off: nat, v: nat, n: nat, evs: seq<Event>)
    requires Fitting(se, start) && DrivenRange(se, off, n) && v < Pow256(n)
    requires FitsAll(se, |start.domain|, evs) && Elsewhere(evs, off, n)
    requires written == Step(se, start, ClientWrite(off, ToBytes(v, n))) && end == Play(se, written, evs)
    ensures Fitting(se, end) && FromBytes(Visible(end, off, n)) == v && off + n <= |end.domain|
    ensures CycleTotal(evs) > 0 ==> FromBytes(end.domain[off..off + n]) == v
  {
    WriteReadsBack(se, start, off, v, n, evs);
    hide Step, Play, Visible, FromBytes, ToBytes, Pow256, FitsAll, Elsewhere, CycleTotal, Driven;
  }
}
