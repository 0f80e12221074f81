/** From a tree of slaves to the bytes its clients drive. */
module TreeToPlane {
  import opened Words
  import opened DataPlane
  import opened FreeRunTables
  import opened PlaneBits

  // Everything here is read off the tree: which of its entries row k of every table is, what that row holds, and which
  // bytes of the process image a cycle takes from the client.

  // ---- Which entry row k is ----

  lemma {:induction false} SlaveRows(slaves: seq<SlaveSpec>, a: nat)
    requires a < |slaves|
    ensures var at, rows := |Rows(slaves[..a])|, SyncsRows(slaves[a], slaves[a].syncs);
      at + |rows| <= |Rows(slaves)| && Rows(slaves)[at..at + |rows|] == rows
    decreases |slaves|
  {
    var front := slaves[..|slaves| - 1];
    if a < |front| {
      SlaveRows(front, a);
      assert front[..a] == slaves[..a];
    }
  }

  lemma {:induction false} SyncRows(slave: SlaveSpec, syncs: seq<SyncSpec>, b: nat)
    requires b < |syncs|
    ensures var at, rows := |SyncsRows(slave, syncs[..b])|, PdosRows(slave, syncs[b], syncs[b].pdos);
      at + |rows| <= |SyncsRows(slave, syncs)| && SyncsRows(slave, syncs)[at..at + |rows|] == rows
    decreases |syncs|
  {
    var front := syncs[..|syncs| - 1];
    if b < |front| {
      SyncRows(slave, front, b);
      assert front[..b] == syncs[..b];
    }
  }

  lemma {:induction false} EntryRows(slave: SlaveSpec, sync: SyncSpec, pdos: seq<PdoSpec>, c: nat)
    requires c < |pdos|
    ensures var at, n := |PdosRows(slave, sync, pdos[..c])|, |pdos[c].entries|;
      && at + n <= |PdosRows(slave, sync, pdos)|
      && PdosRows(slave, sync, pdos)[at..at + n] == PdoRows(slave, sync, pdos[c], n)
    decreases |pdos|
  {
    var front := pdos[..|pdos| - 1];
    if c < |front| {
      EntryRows(slave, sync, front, c);
      assert front[..c] == pdos[..c];
    }
  }

  lemma InPart<T>(s: seq<T>, at: nat, part: seq<T>, i: nat)
    requires at + |part| <= |s| && s[at..at + |part|] == part && i < |part|
    ensures s[at + i] == part[i]
  {
    assert s[at + i] == s[at..at + |part|][i];
  }

  lemma PdoRowAt(slave: SlaveSpec, sync: SyncSpec, pdo: PdoSpec, d: nat)
    requires d < |pdo.entries|
    ensures PdoRows(slave, sync, pdo, |pdo.entries|)[d] == Row(slave, sync, pdo, pdo.entries[d])
  {
  }

  lemma RowInSync(slave: SlaveSpec, sync: SyncSpec, c: nat, d: nat) returns (k: nat)
    requires c < |sync.pdos| && d < |sync.pdos[c].entries|
    ensures k == |PdosRows(slave, sync, sync.pdos[..c])| + d && k < |PdosRows(slave, sync, sync.pdos)|
    ensures PdosRows(slave, sync, sync.pdos)[k] == Row(slave, sync, sync.pdos[c], sync.pdos[c].entries[d])
  {
    hide PdosRows, PdoRows;
    var pdo := sync.pdos[c];
    EntryRows(slave, sync, sync.pdos, c);
    PdoRowAt(slave, sync, pdo, d);
    var at := |PdosRows(slave, sync, sync.pdos[..c])|;
    InPart(PdosRows(slave, sync, sync.pdos), at, PdoRows(slave, sync, pdo, |pdo.entries|), d);
    k := at + d;
  }

  /** Entry d of PDO c of sync b of slave a is the row that has exactly the entries met before it in front. */
  lemma RowOfPath(slaves: seq<SlaveSpec>, a: nat, b: nat, c: nat, d: nat) returns (k: nat)
    requires a < |slaves| && b < |slaves[a].syncs|
    requires c < |slaves[a].syncs[b].pdos| && d < |slaves[a].syncs[b].pdos[c].entries|
    ensures var slave := slaves[a];
      var sync := slave.syncs[b];
      var pdo := sync.pdos[c];
      && k == |Rows(slaves[..a])| + |SyncsRows(slave, slave.syncs[..b])| + |PdosRows(slave, sync, sync.pdos[..c])| + d
      && k < |Rows(slaves)| && Rows(slaves)[k] == Row(slave, sync, pdo, pdo.entries[d])
  {
    hide Rows, SyncsRows, PdosRows;
    var slave := slaves[a];
    var sync := slave.syncs[b];
    var inSync := RowInSync(slave, sync, c, d);
    SyncRows(slave, slave.syncs, b);
    var before := |SyncsRows(slave, slave.syncs[..b])|;
    InPart(SyncsRows(slave, slave.syncs), before, PdosRows(slave, sync, sync.pdos), inSync);
    SlaveRows(slaves, a);
    InPart(Rows(slaves), |Rows(slaves[..a])|, SyncsRows(slave, slave.syncs), before + inSync);
    k := |Rows(slaves[..a])| + before + inSync;
  }

  lemma {:induction false} PathInSync(slave: SlaveSpec, sync: SyncSpec, pdos: seq<PdoSpec>, k: nat)
    returns (c: nat, d: nat)
    requires k < |PdosRows(slave, sync, pdos)|
    ensures c < |pdos| && d < |pdos[c].entries|
    ensures PdosRows(slave, sync, pdos)[k] == Row(slave, sync, pdos[c], pdos[c].entries[d])
    decreases |pdos|
  {
    var front := pdos[..|pdos| - 1];
    if k < |PdosRows(slave, sync, front)| {
      c, d := PathInSync(slave, sync, front, k);
    } else {
      c, d := |front|, k - |PdosRows(slave, sync, front)|;
    }
  }

  lemma {:induction false} PathInSlave(slave: SlaveSpec, syncs: seq<SyncSpec>, k: nat) returns (b: nat, c: nat, d: nat)
    requires k < |SyncsRows(slave, syncs)|
    ensures b < |syncs| && c < |syncs[b].pdos| && d < |syncs[b].pdos[c].entries|
    ensures SyncsRows(slave, syncs)[k] == Row(slave, syncs[b], syncs[b].pdos[c], syncs[b].pdos[c].entries[d])
    decreases |syncs|
  {
    var front := syncs[..|syncs| - 1];
    if k < |SyncsRows(slave, front)| {
      b, c, d := PathInSlave(slave, front, k);
    } else {
      b := |front|;
      c, d := PathInSync(slave, syncs[b], syncs[b].pdos, k - |SyncsRows(slave, front)|);
    }
  }

  /** And every row is such an entry. */
  lemma {:induction false} PathOfRow(slaves: seq<SlaveSpec>, k: nat) returns (a: nat, b: nat, c: nat, d: nat)
    requires k < |Rows(slaves)|
    ensures a < |slaves| && b < |slaves[a].syncs|
    ensures c < |slaves[a].syncs[b].pdos| && d < |slaves[a].syncs[b].pdos[c].entries|
    ensures Rows(slaves)[k] == Row(slaves[a], slaves[a].syncs[b], slaves[a].syncs[b].pdos[c],
                                   slaves[a].syncs[b].pdos[c].entries[d])
    decreases |slaves|
  {
    var front := slaves[..|slaves| - 1];
    if k < |Rows(front)| {
      a, b, c, d := PathOfRow(front, k);
    } else {
      a := |front|;
      b, c, d := PathInSlave(slaves[a], slaves[a].syncs, k - |Rows(front)|);
    }
  }

  // ---- What row k holds ----

  /** What start() and buildMirrorEntries() leave behind for entry d of PDO c of sync b of slave a, given what they
      promise: every field of its registration, runtime entry and mirror entry is the tree's. */
  lemma TablesFromTree(slaves: seq<SlaveSpec>, registrations: seq<Registration>, entries: seq<RuntimeEntry>,
                       offsets: seq<UInt32>, out: seq<MirrorEntry>, a: nat, b: nat, c: nat, d: nat)
    returns (k: nat)
    requires Agree(registrations, entries, Rows(slaves)) && |out| == |offsets| == |Rows(slaves)|
    requires forall i :: 0 <= i < |out| ==> out[i] == MirrorOf(Rows(slaves)[i], offsets[i])
    requires a < |slaves| && b < |slaves[a].syncs|
    requires c < |slaves[a].syncs[b].pdos| && d < |slaves[a].syncs[b].pdos[c].entries|
    ensures var slave := slaves[a];
      var sync := slave.syncs[b];
      var pdo := sync.pdos[c];
      var e := pdo.entries[d];
      && k == |Rows(slaves[..a])| + |SyncsRows(slave, slave.syncs[..b])| + |PdosRows(slave, sync, sync.pdos[..c])| + d
      && k < |out|
      && registrations[k]
         == Registration(slave.alias, slave.position, slave.vendorId, slave.productCode, e.index, e.subindex, k)
      && entries[k]
         == RuntimeEntry(slave.position, sync.index, match sync.direction { case OUTPUT => "RxPDO" case _ => "TxPDO" },
                         pdo.index, e.index, e.subindex, e.bitLength, e.name, k)
      && out[k] == MirrorEntry(slave.position, e.index, e.subindex, e.bitLength, entries[k].direction, offsets[k])
  {
    k := RowOfPath(slaves, a, b, c, d);
    hide Rows, SyncsRows, PdosRows;
  }

  // ---- Which bytes the client drives ----

  /** One cycle over `n` bytes with the mirror entries of a tree: a byte of the bus-side image and of the new active
      buffer is the client's if one of its bits belongs to an entry below an OUTPUT sync all of whose bits lie below
      `n`, and the bus's if not. */
  lemma TreeDrives(slaves: seq<SlaveSpec>, offsets: seq<UInt32>, out: seq<MirrorEntry>, pl: Plane, n: nat,
                   timestampNs: UInt64, p: nat)
    requires |out| == |offsets| == |Rows(slaves)|
    requires forall i :: 0 <= i < |out| ==> out[i] == MirrorOf(Rows(slaves)[i], offsets[i])
    requires 0 < n <= 4096 && n <= |pl.domain| && p < n
    requires |pl.buffers| == 2 && n <= |pl.buffers[0]| == |pl.buffers[1]|
    ensures var s, a, rows := Cycle(pl, out, n, timestampNs), if pl.active == 1 then 1 else 0, Rows(slaves);
      && s.buffers[1 - a][p] == s.domain[p]
      && s.domain[p] ==
           if exists k :: 0 <= k < |rows| && rows[k].sync.direction == OUTPUT && offsets[k] <= p
                          && 8 * (p - offsets[k]) < rows[k].entry.bitLength <= 8 * (n - offsets[k])
           then pl.buffers[a][p] else pl.domain[p]
  {
    var s, a, rows := Cycle(pl, out, n, timestampNs), if pl.active == 1 then 1 else 0, Rows(slaves);
    CycleByBits(pl, out, n, timestampNs, n, a);
    hide Cycle, Rows;
    assert s.buffers[1 - a][p] == s.buffers[1 - a][..n][p] == s.domain[..n][p] == s.domain[p];
    forall k | 0 <= k < |rows|
      ensures out[k].direction == "RxPDO" <==> rows[k].sync.direction == OUTPUT
      ensures out[k].offset == offsets[k] && out[k].bitLength == rows[k].entry.bitLength
    {
      assert out[k] == MirrorOf(rows[k], offsets[k]);
    }
  }

  /** So entry d of PDO c of sync b of slave a reaches the bus bit by bit if its sync is an output and it fits. */
  lemma OutputEntryArrives(slaves: seq<SlaveSpec>, offsets: seq<UInt32>, out: seq<MirrorEntry>, pl: Plane, n: nat,
                           timestampNs: UInt64, a: nat, b: nat, c: nat, d: nat, bit: nat)
    returns (k: nat)
    requires |out| == |offsets| == |Rows(slaves)|
    requires forall i :: 0 <= i < |out| ==> out[i] == MirrorOf(Rows(slaves)[i], offsets[i])
    requires 0 < n <= 4096 && n <= |pl.domain|
    requires |pl.buffers| == 2 && n <= |pl.buffers[0]| == |pl.buffers[1]|
    requires a < |slaves| && b < |slaves[a].syncs| && slaves[a].syncs[b].direction == OUTPUT
    requires c < |slaves[a].syncs[b].pdos| && d < |slaves[a].syncs[b].pdos[c].entries|
    requires bit < slaves[a].syncs[b].pdos[c].entries[d].bitLength
    ensures k < |offsets| && Rows(slaves)[k].entry == slaves[a].syncs[b].pdos[c].entries[d]
    ensures offsets[k] + (slaves[a].syncs[b].pdos[c].entries[d].bitLength - 1) / 8 < n ==>
      var s, at := Cycle(pl, out, n, timestampNs), offsets[k] + bit / 8;
      s.domain[at] == pl.buffers[if pl.active == 1 then 1 else 0][at]
  {
    k := RowOfPath(slaves, a, b, c, d);
    hide Rows, SyncsRows, PdosRows, Cycle;
    if offsets[k] + (slaves[a].syncs[b].pdos[c].entries[d].bitLength - 1) / 8 < n {
      assert out[k] == MirrorOf(Rows(slaves)[k], offsets[k]);
      OutputBitArrives(pl, out, n, timestampNs, k, bit);
    }
  }

  // ---- The storage handed to ecrt ----

  /** Sync b of a slave, read back through the pointers field by field. */
  lemma SyncByField(slave: SlaveSpec, b: nat, c: nat, d: nat)
    requires b < |slave.syncs|
    ensures var rt, sync := RuntimeOf(slave), slave.syncs[b];
      && rt.spec == slave && |rt.syncStorage| == |slave.syncs| + 1 && rt.syncStorage[|slave.syncs|] == EndOfSyncs
      && Addressable(rt, b)
      && var view := ReadSync(rt, b);
      && view.index == sync.index && view.direction == sync.direction && view.watchdog == sync.watchdog
      && |view.pdos| == |sync.pdos|
      && (c < |sync.pdos| ==>
           && view.pdos[c].index == sync.pdos[c].index && |view.pdos[c].entries| == |sync.pdos[c].entries|
           && (d < |sync.pdos[c].entries| ==>
                var e := sync.pdos[c].entries[d];
                view.pdos[c].entries[d] == EntryInfo(e.index, e.subindex, e.bitLength)))
  {
    SyncReadsBack(slave, b);
    hide AllPdos, ReadSync, Addressable;
    var rt := RuntimeOf(slave);
    assert rt.syncStorage == SyncStorage(slave.syncs) + [EndOfSyncs];
  }
}
