/** One mirror cycle, said of the bits of the entry table. */
module PlaneBits {
  import opened Words
  import opened DataPlane

  // An entry has `bitLength` bits from byte `offset` on: bit i lies in byte offset + i / 8. No statement here goes through
  // the byte lengths and ends the cycle computes with.

  /** The bytes of an entry are just enough for its bits. */
  lemma EndByBits(e: MirrorEntry)
    ensures 8 * (End(e) - e.offset) - 8 < e.bitLength <= 8 * (End(e) - e.offset)
    ensures End(e) == if e.bitLength == 0 then e.offset else e.offset + (e.bitLength - 1) / 8 + 1
  {
  }

  lemma IgnoredByBits(e: MirrorEntry, n: nat)
    ensures Ignored(e, n) <==> e.direction == "RxPDO" && e.bitLength > 0 && e.offset + (e.bitLength - 1) / 8 >= n
  {
    EndByBits(e);
  }

  /** Byte `p` is driven if and only if one of its bits belongs to an output all of whose bits lie below `n`. */
  lemma DrivesByBits(e: MirrorEntry, n: nat, p: nat)
    ensures Drives(e, n, p)
      <==> e.direction == "RxPDO" && e.offset <= p && 8 * (p - e.offset) < e.bitLength <= 8 * (n - e.offset)
  {
    EndByBits(e);
  }

  /** The refused entries are counted one by one: outputs with a bit at or past byte `n`. */
  lemma {:induction false} CountByBits(entries: seq<MirrorEntry>, n: nat)
    ensures IgnoredCount(entries, n)
      == |set k | 0 <= k < |entries| && entries[k].direction == "RxPDO"
                  && 8 * (n - entries[k].offset) < entries[k].bitLength && entries[k].bitLength > 0|
  {
    var refused := set k | 0 <= k < |entries| && entries[k].direction == "RxPDO"
                           && 8 * (n - entries[k].offset) < entries[k].bitLength && entries[k].bitLength > 0;
    if entries == [] {
      assert refused == {};
    } else {
      var last := |entries| - 1;
      var front := entries[..last];
      CountByBits(front, n);
      IgnoredByBits(entries[last], n);
      var before := set k | 0 <= k < |front| && front[k].direction == "RxPDO"
                            && 8 * (n - front[k].offset) < front[k].bitLength && front[k].bitLength > 0;
      assert refused == if Ignored(entries[last], n) then before + {last} else before;
    }
  }

  /** A cycle over at most 4096 bytes. Every byte of the new active buffer and of the bus-side image is the client's
      byte if one of its bits belongs to an output that fits, and the bus's byte if not. */
  lemma CycleByBits(pl: Plane, entries: seq<MirrorEntry>, dataSize: nat, timestampNs: UInt64, n: nat, a: nat)
    requires n == (if dataSize > 4096 then 4096 else dataSize) && n > 0
    requires a == if pl.active == 1 then 1 else 0
    requires |pl.buffers| == 2 && n <= |pl.buffers[0]| == |pl.buffers[1]| && n <= |pl.domain|
    ensures var s := Cycle(pl, entries, dataSize, timestampNs);
      && s.active == 1 - a && s.buffers[a] == pl.buffers[a]
      && s.buffers[1 - a][..n] == s.domain[..n]
      && s.buffers[1 - a][n..] == pl.buffers[1 - a][n..] && s.domain[n..] == pl.domain[n..]
      && forall p :: 0 <= p < n ==>
        s.domain[p] ==
          if exists k :: 0 <= k < |entries| && entries[k].direction == "RxPDO" && entries[k].offset <= p
                         && 8 * (p - entries[k].offset) < entries[k].bitLength <= 8 * (n - entries[k].offset)
          then pl.buffers[a][p] else pl.domain[p]
  {
    var s := Cycle(pl, entries, dataSize, timestampNs);
    var image := Overlay(entries, n, pl.buffers[a], pl.domain);
    assert s.domain[..n] == image == s.buffers[1 - a][..n];
    assert s.domain[n..] == pl.domain[n..];
    forall p | 0 <= p < n
      ensures s.domain[p] ==
          if exists k :: 0 <= k < |entries| && entries[k].direction == "RxPDO" && entries[k].offset <= p
                         && 8 * (p - entries[k].offset) < entries[k].bitLength <= 8 * (n - entries[k].offset)
          then pl.buffers[a][p] else pl.domain[p]
    {
      assert s.domain[p] == s.domain[..n][p];
      forall k | 0 <= k < |entries| {
        DrivesByBits(entries[k], n, p);
      }
    }
  }

  /** The header after a cycle, and a cycle over no bytes. */
  lemma HeaderAfterCycle(pl: Plane, entries: seq<MirrorEntry>, dataSize: nat, timestampNs: UInt64, n: nat)
    requires n == if dataSize > 4096 then 4096 else dataSize
    requires |pl.buffers| == 2 && n <= |pl.buffers[0]| == |pl.buffers[1]| && n <= |pl.domain|
    ensures n == 0 ==> Cycle(pl, entries, dataSize, timestampNs) == pl
    ensures n > 0 ==>
      var s := Cycle(pl, entries, dataSize, timestampNs);
      && s.version == (pl.version + 1) % 0x1_0000_0000_0000_0000
      && s.cycleCount == (pl.cycleCount + 1) % 0x1_0000_0000_0000_0000 && s.timestampNs == timestampNs
      && s.status % 2 == 1 && s.status / 2 == pl.status / 2
      && s.ignored ==
         (pl.ignored
          + |set k | 0 <= k < |entries| && entries[k].direction == "RxPDO"
                     && 8 * (n - entries[k].offset) < entries[k].bitLength && entries[k].bitLength > 0|)
         % 0x1_0000_0000
  {
    CountByBits(entries, n);
    hide Overlay, IgnoredCount;
  }

  /** Every bit of an output that fits reaches the bus and the new active buffer, a single one included. */
  lemma OutputBitArrives(pl: Plane, entries: seq<MirrorEntry>, dataSize: nat, timestampNs: UInt64, k: nat, i: nat)
    requires 0 < dataSize <= 4096 && dataSize <= |pl.domain|
    requires |pl.buffers| == 2 && dataSize <= |pl.buffers[0]| == |pl.buffers[1]|
    requires k < |entries| && entries[k].direction == "RxPDO" && i < entries[k].bitLength
    requires entries[k].offset + (entries[k].bitLength - 1) / 8 < dataSize
    ensures var s, a, p := Cycle(pl, entries, dataSize, timestampNs), if pl.active == 1 then 1 else 0,
                           entries[k].offset + i / 8;
      s.domain[p] == s.buffers[1 - a][p] == pl.buffers[a][p]
  {
    var s, a, p := Cycle(pl, entries, dataSize, timestampNs), if pl.active == 1 then 1 else 0,
                   entries[k].offset + i / 8;
    CycleByBits(pl, entries, dataSize, timestampNs, dataSize, a);
    hide Cycle;
    assert s.domain[p] == s.domain[..dataSize][p] && s.buffers[1 - a][p] == s.buffers[1 - a][..dataSize][p];
  }
}
