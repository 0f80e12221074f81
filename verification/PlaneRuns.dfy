/** Whole runs of mirror cycles and client writes, one after the other. */
module PlaneRuns {
  import opened Words
  import opened Memory
  import opened DataPlane

  /** `BusCycle`: the bus delivers a new process image (all of it arbitrary) and one mirror cycle follows. */
  datatype Event = BusCycle(bus: seq<Byte>, timestampNs: UInt64) | ClientWrite(off: nat, bytes: seq<Byte>)

  /** The fixed part of a Free Run session. */
  datatype Session = Session(entries: seq<MirrorEntry>, stride: nat)

  predicate Fitting(se: Session, pl: Plane) {
    WellFormed(pl, se.stride) && 0 < se.stride <= MAX_PROCESS_DATA_SIZE && pl.active < 2
  }

  predicate Fits(se: Session, pl: Plane, ev: Event) {
    match ev
    case BusCycle(bus, _) => |bus| == |pl.domain|
    case ClientWrite(off, bytes) => off + |bytes| <= se.stride
  }

  function Step(se: Session, pl: Plane, ev: Event): (r: Plane)
    requires Fitting(se, pl) && Fits(se, pl, ev)
    ensures Fitting(se, r) && |r.domain| == |pl.domain|
  {
    match ev
    case BusCycle(bus, ts) => Cycle(pl.(domain := bus), se.entries, se.stride, ts)
    case ClientWrite(off, bytes) => pl.(buffers := pl.buffers[pl.active := Patch(pl.buffers[pl.active], off, bytes)])
  }

  predicate FitsAll(se: Session, domainSize: nat, evs: seq<Event>) {
    forall i :: 0 <= i < |evs| ==>
      match evs[i]
      case BusCycle(bus, _) => |bus| == domainSize
      case ClientWrite(off, bytes) => off + |bytes| <= se.stride
  }

  function Play(se: Session, pl: Plane, evs: seq<Event>): (r: Plane)
    requires Fitting(se, pl) && FitsAll(se, |pl.domain|, evs)
    ensures Fitting(se, r) && |r.domain| == |pl.domain|
  {
    if evs == [] then pl
    else Step(se, Play(se, pl, evs[..|evs| - 1]), evs[|evs| - 1])
  }

  function CycleTotal(evs: seq<Event>): nat {
    if evs == [] then 0
    else CycleTotal(evs[..|evs| - 1]) + if evs[|evs| - 1].BusCycle? then 1 else 0
  }

  // ---- What one cycle publishes ----

  /** The new active buffer and the bus-side image agree; both show the client's bytes exactly where an output
      entry drives them and the fresh bus data elsewhere; the client's own buffer is left alone. */
  lemma CyclePublishes(se: Session, pl: Plane, bus: seq<Byte>, timestampNs: UInt64)
    requires Fitting(se, pl) && |bus| == |pl.domain|
    ensures var s := Step(se, pl, BusCycle(bus, timestampNs));
      && s.active == 1 - pl.active && s.buffers[pl.active] == pl.buffers[pl.active]
      && s.buffers[s.active] == s.domain[..se.stride] && s.domain[se.stride..] == bus[se.stride..]
      && forall p :: 0 <= p < se.stride ==>
        s.domain[p] == if Driven(se.entries, se.stride, p) then pl.buffers[pl.active][p] else bus[p]
  {
    assert pl.active == 0 || pl.active == 1;
    var image := Overlay(se.entries, se.stride, pl.buffers[pl.active], bus);
    assert image + pl.buffers[1 - pl.active][se.stride..] == image;
    assert (image + bus[se.stride..])[..se.stride] == image;
  }

  /** Neither the order of the entries nor their overlaps matter. */
  lemma OverlayIgnoresOrder(es: seq<MirrorEntry>, fs: seq<MirrorEntry>, n: nat, outputs: seq<Byte>, bus: seq<Byte>)
    requires n <= |outputs| && n <= |bus| && multiset(es) == multiset(fs)
    ensures Overlay(es, n, outputs, bus) == Overlay(fs, n, outputs, bus)
    ensures IgnoredCount(es, n) == IgnoredCount(fs, n)
  {
    forall p | 0 <= p < n ensures Driven(es, n, p) <==> Driven(fs, n, p) {
      SameDriven(es, fs, n, p);
      SameDriven(fs, es, n, p);
    }
    SameCount(es, fs, n);
  }

  lemma SameDriven(es: seq<MirrorEntry>, fs: seq<MirrorEntry>, n: nat, p: nat)
    requires multiset(es) == multiset(fs)
    ensures Driven(es, n, p) ==> Driven(fs, n, p)
  {
    if Driven(es, n, p) {
      var k :| 0 <= k < |es| && Drives(es[k], n, p);
      assert es[k] in multiset(es);
      assert es[k] in fs;
      var j :| 0 <= j < |fs| && fs[j] == es[k];
    }
  }

  lemma {:induction false} SameCount(es: seq<MirrorEntry>, fs: seq<MirrorEntry>, n: nat)
    requires multiset(es) == multiset(fs)
    ensures IgnoredCount(es, n) == IgnoredCount(fs, n)
  {
    if es == [] {
      assert |fs| == |multiset(fs)| == |multiset(es)|;
    } else {
      var last := |es| - 1;
      var j := MatchLast(es, fs);
      SameCount(es[..last], fs[..j] + fs[j + 1..], n);
      TakeOut(fs, j, n);
    }
  }

  lemma MatchLast(es: seq<MirrorEntry>, fs: seq<MirrorEntry>) returns (j: nat)
    requires multiset(es) == multiset(fs) && es != []
    ensures j < |fs| && fs[j] == es[|es| - 1]
    ensures multiset(es[..|es| - 1]) == multiset(fs[..j] + fs[j + 1..])
  {
    var e := es[|es| - 1];
    assert e in multiset(es);
    assert e in fs;
    j :| 0 <= j < |fs| && fs[j] == e;
    assert es == es[..|es| - 1] + [e];
    assert fs == fs[..j] + [e] + fs[j + 1..];
    assert multiset(es[..|es| - 1]) == multiset(es) - multiset{e};
  }

  lemma {:induction false} TakeOut(fs: seq<MirrorEntry>, j: nat, n: nat)
    requires j < |fs|
    ensures IgnoredCount(fs, n) == IgnoredCount(fs[..j] + fs[j + 1..], n) + if Ignored(fs[j], n) then 1 else 0
  {
    var last := |fs| - 1;
    var rest := fs[..j] + fs[j + 1..];
    if j == last {
      assert rest == fs[..last];
    } else {
      TakeOut(fs[..last], j, n);
      assert rest[..|rest| - 1] == fs[..last][..j] + fs[..last][j + 1..];
      assert rest[|rest| - 1] == fs[last];
    }
  }

  // ---- A client value across cycles ----

  predicate DrivenRange(se: Session, off: nat, len: nat) {
    off + len <= se.stride && forall p :: off <= p < off + len ==> Driven(se.entries, se.stride, p)
  }

  /** Later client writes stay clear of the range. */
  predicate Elsewhere(evs: seq<Event>, off: nat, len: nat) {
    forall i :: 0 <= i < |evs| && evs[i].ClientWrite? ==>
      evs[i].off + |evs[i].bytes| <= off || off + len <= evs[i].off
  }

  function Visible(pl: Plane, off: nat, len: nat): seq<Byte>
    requires pl.active < |pl.buffers| && off + len <= |pl.buffers[pl.active]|
  {
    pl.buffers[pl.active][off..off + len]
  }

  lemma CycleKeeps(se: Session, s: Plane, bus: seq<Byte>, ts: UInt64, off: nat, bytes: seq<Byte>)
    requires Fitting(se, s) && |bus| == |s.domain| && DrivenRange(se, off, |bytes|)
    requires Visible(s, off, |bytes|) == bytes
    ensures var s' := Step(se, s, BusCycle(bus, ts));
      Visible(s', off, |bytes|) == bytes && s'.domain[off..off + |bytes|] == bytes
  {
    CyclePublishes(se, s, bus, ts);
    var s' := Step(se, s, BusCycle(bus, ts));
    hide Step;
    assert forall p :: off <= p < off + |bytes| ==> s'.domain[p] == s.buffers[s.active][p];
    assert s'.domain[off..off + |bytes|] == bytes;
    assert Visible(s', off, |bytes|) == s'.domain[..se.stride][off..off + |bytes|] == bytes;
  }

  /** Whatever the bus delivers and however often the buffers swap, driven bytes keep the client's value on the
      client side, and from the first cycle on they carry it on the bus side too. */
  lemma {:induction false} ValueKept(se: Session, pl: Plane, evs: seq<Event>, off: nat, bytes: seq<Byte>)
    requires Fitting(se, pl) && FitsAll(se, |pl.domain|, evs) && DrivenRange(se, off, |bytes|)
    requires Visible(pl, off, |bytes|) == bytes && Elsewhere(evs, off, |bytes|)
    ensures var s := Play(se, pl, evs);
      && Visible(s, off, |bytes|) == bytes
      && (CycleTotal(evs) > 0 ==> s.domain[off..off + |bytes|] == bytes)
  {
    if evs != [] {
      var front, ev := evs[..|evs| - 1], evs[|evs| - 1];
      ValueKept(se, pl, front, off, bytes);
      var s := Play(se, pl, front);
      assert Play(se, pl, evs) == Step(se, s, ev) && evs[|front|] == ev;
      match ev
      case BusCycle(bus, ts) =>
        hide Play, Step, Visible, FitsAll;
        CycleKeeps(se, s, bus, ts, off, bytes);
      case ClientWrite(at, b) =>
        hide Play, FitsAll;
        PatchElsewhere(s.buffers[s.active], at, b, off, off + |bytes|);
    }
  }

  /** The plane after an `n`-byte little-endian store of `v` followed by `evs`. */
  function PlayAfterWrite(se: Session, pl: Plane, off: nat, v: nat, n: nat, evs: seq<Event>): (r: Plane)
    requires Fitting(se, pl) && off + n <= se.stride && FitsAll(se, |pl.domain|, evs)
    ensures Fitting(se, r) && |r.domain| == |pl.domain|
  {
    Play(se, Step(se, pl, ClientWrite(off, ToBytes(v, n))), evs)
  }

  /** An `n`-byte unsigned value written by a client is read back by every client and sent on the bus, after
      any number of cycles, until some client writes to one of its bytes. */
  lemma WriteReadsBack(se: Session, pl: Plane, off: nat, v: nat, n: nat, evs: seq<Event>)
    requires Fitting(se, pl) && DrivenRange(se, off, n) && v < Pow256(n)
    requires FitsAll(se, |pl.domain|, evs) && Elsewhere(evs, off, n)
    ensures FromBytes(Visible(PlayAfterWrite(se, pl, off, v, n, evs), off, n)) == v
    ensures CycleTotal(evs) > 0 ==> FromBytes(PlayAfterWrite(se, pl, off, v, n, evs).domain[off..off + n]) == v
  {
    var bytes := ToBytes(v, n);
    WriteIsVisible(se, pl, off, bytes);
    ToBytesThenFromBytes(v, n);
    SmallMod(v, Pow256(n));
    hide Step, Play, FromBytes, ToBytes, Pow256, DrivenRange, Driven;
    ValueKept(se, Step(se, pl, ClientWrite(off, bytes)), evs, off, bytes);
  }

  lemma WriteIsVisible(se: Session, pl: Plane, off: nat, bytes: seq<Byte>)
    requires Fitting(se, pl) && off + |bytes| <= se.stride
    ensures Visible(Step(se, pl, ClientWrite(off, bytes)), off, |bytes|) == bytes
  {
    PatchItself(pl.buffers[pl.active], off, bytes);
  }

  // ---- Refused entries ----

  /** `m` is what ComputeProcessDataSize promises. */
  predicate IsMaxEnd(entries: seq<MirrorEntry>, m: nat) {
    (forall e :: e in entries ==> End(e) <= m) && (m == 0 || exists e :: e in entries && End(e) == m)
  }

  /** The stride start() settles on. */
  function StartSize(maxEnd: nat): (r: nat)
    ensures 0 < r <= MAX_PROCESS_DATA_SIZE
  {
    Clamp(if maxEnd == 0 then 1 else maxEnd)
  }

  /** With that stride, exactly the nonempty outputs ending past the arena cap are refused. */
  lemma {:induction false} RefusedAtStartSize(entries: seq<MirrorEntry>, m: nat)
    requires forall e :: e in entries ==> End(e) <= m
    ensures IgnoredCount(entries, StartSize(m)) == IgnoredCount(entries, MAX_PROCESS_DATA_SIZE)
    ensures IgnoredCount(entries, StartSize(m)) == 0
      <==> forall e :: e in entries && IsOutput(e) ==> End(e) <= MAX_PROCESS_DATA_SIZE
  {
    if entries != [] {
      var front, e := entries[..|entries| - 1], entries[|entries| - 1];
      assert forall x :: x in entries <==> x in front || x == e;
      RefusedAtStartSize(front, m);
    }
  }

  /** The diagnostic counter after any run, modulo its 32 bits. */
  lemma {:induction false} RefusedOverRun(se: Session, pl: Plane, evs: seq<Event>)
    requires Fitting(se, pl) && FitsAll(se, |pl.domain|, evs)
    ensures Play(se, pl, evs).ignored == (pl.ignored + CycleTotal(evs) * IgnoredCount(se.entries, se.stride)) % TWO_32
  {
    if evs != [] {
      var front, ev := evs[..|evs| - 1], evs[|evs| - 1];
      RefusedOverRun(se, pl, front);
      hide Step, IgnoredCount;
      RefusedInStep(se, Play(se, pl, front), ev);
      OneMoreCycle(pl.ignored, CycleTotal(front), IgnoredCount(se.entries, se.stride));
    }
  }

  lemma RefusedInStep(se: Session, pl: Plane, ev: Event)
    requires Fitting(se, pl) && Fits(se, pl, ev)
    ensures Step(se, pl, ev).ignored
      == if ev.BusCycle? then (pl.ignored + IgnoredCount(se.entries, se.stride)) % TWO_32 else pl.ignored
  {
  }

  lemma OneMoreCycle(start: nat, k: nat, m: nat)
    ensures ((start + k * m) % TWO_32 + m) % TWO_32 == (start + (k + 1) * m) % TWO_32
  {
    AddMod(m, start + k * m, TWO_32);
    assert (k + 1) * m == k * m + m;
  }

  lemma {:induction false} AtMostAll(entries: seq<MirrorEntry>, n: nat)
    ensures IgnoredCount(entries, n) <= |entries|
  {
    if entries != [] {
      AtMostAll(entries[..|entries| - 1], n);
    }
  }

  predicate OutputsFit(entries: seq<MirrorEntry>) {
    forall e :: e in entries && IsOutput(e) ==> End(e) <= MAX_PROCESS_DATA_SIZE
  }

  /** Sizing across start(), the mirror and the whole session. No cycle refuses anything if and only if every output
      ends by the cap; each cycle adds the same number of refusals to the counter, which then stays 0 over every run;
      and otherwise one cycle is enough to show it. */
  lemma SizingOverRun(se: Session, pl: Plane, evs: seq<Event>, m: nat)
    requires Fitting(se, pl) && FitsAll(se, |pl.domain|, evs) && pl.ignored == 0
    requires IsMaxEnd(se.entries, m) && se.stride == StartSize(m)
    ensures Play(se, pl, evs).ignored
      == (CycleTotal(evs) * IgnoredCount(se.entries, MAX_PROCESS_DATA_SIZE)) % TWO_32
    ensures IgnoredCount(se.entries, se.stride) == 0 <==> OutputsFit(se.entries)
    ensures OutputsFit(se.entries) ==> Play(se, pl, evs).ignored == 0
    ensures CycleTotal(evs) == 1 && |se.entries| < TWO_32 ==>
      (Play(se, pl, evs).ignored == 0 <==> OutputsFit(se.entries))
  {
    RefusedAtStartSize(se.entries, m);
    RefusedOverRun(se, pl, evs);
    AtMostAll(se.entries, MAX_PROCESS_DATA_SIZE);
    hide Play, FitsAll, IgnoredCount, CycleTotal, Fitting, IsMaxEnd;
    CountShows(CycleTotal(evs), IgnoredCount(se.entries, MAX_PROCESS_DATA_SIZE));
  }

  lemma CountShows(cycles: nat, count: nat)
    ensures count == 0 ==> (cycles * count) % TWO_32 == 0
    ensures cycles == 1 && count < TWO_32 ==> (cycles * count) % TWO_32 == count
  {
    if cycles == 1 && count < TWO_32 {
      assert cycles * count == count;
      SmallMod(count, TWO_32);
    }
  }
}
