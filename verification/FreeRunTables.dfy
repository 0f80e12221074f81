/** A tree of slaves, syncs, PDOs and entries laid out flat, with slices pointing back. */
module FreeRunTables {
  import opened Words
  import opened DataPlane

  datatype Direction = OUTPUT | INPUT | INVALID
  datatype Watchdog = ENABLE | DISABLE | DEFAULT

  datatype EntrySpec = EntrySpec(index: UInt16, subindex: UInt8, bitLength: UInt8, name: string)
  datatype PdoSpec = PdoSpec(index: UInt16, entries: seq<EntrySpec>)
  datatype SyncSpec = SyncSpec(index: UInt8, direction: Direction, watchdog: Watchdog, pdos: seq<PdoSpec>)
  datatype SlaveSpec = SlaveSpec(
    alias: UInt16, position: UInt16, vendorId: UInt32, productCode: UInt32, syncs: seq<SyncSpec>)

  /** What ecrt is given for one entry; `slot` stands for the addresses of offsets[slot] and bitPositions[slot]. */
  datatype Registration =
    | Registration(alias: UInt16, position: UInt16, vendorId: UInt32, productCode: UInt32,
                   index: UInt16, subindex: UInt8, slot: nat)
    | Terminator

  datatype RuntimeEntry = RuntimeEntry(
    slavePosition: UInt16, syncIndex: UInt8, direction: string, pdoIndex: UInt16, index: UInt16, subindex: UInt8,
    bitLength: UInt8, name: string, slot: nat)

  datatype EntryInfo = EntryInfo(index: UInt16, subindex: UInt8, bitLength: UInt8)

  /** `row` stands for the address of that row of the entry storage. */
  datatype PdoInfo = PdoInfo(index: UInt16, count: nat, row: nat)

  /** `pdos` stands for a pointer into the PDO storage; None for a null pointer. */
  datatype SyncInfo =
    | SyncInfo(index: UInt8, direction: Direction, count: nat, pdos: Option<nat>, watchdog: Watchdog)
    | EndOfSyncs

  datatype RuntimeSlave = RuntimeSlave(
    spec: SlaveSpec, entryStorage: seq<seq<EntryInfo>>, pdoStorage: seq<PdoInfo>, syncStorage: seq<SyncInfo>)

  // ---- Depth-first order ----

  /** One entry with everything above it in the tree. */
  datatype Row = Row(slave: SlaveSpec, sync: SyncSpec, pdo: PdoSpec, entry: EntrySpec)

  function PdoRows(slave: SlaveSpec, sync: SyncSpec, pdo: PdoSpec, n: nat): (r: seq<Row>)
    requires n <= |pdo.entries|
    ensures |r| == n
  {
    seq(n, k requires 0 <= k < n => Row(slave, sync, pdo, pdo.entries[k]))
  }

  function PdosRows(slave: SlaveSpec, sync: SyncSpec, pdos: seq<PdoSpec>): seq<Row> {
    if pdos == [] then []
    else
      var last := pdos[|pdos| - 1];
      PdosRows(slave, sync, pdos[..|pdos| - 1]) + PdoRows(slave, sync, last, |last.entries|)
  }

  function SyncsRows(slave: SlaveSpec, syncs: seq<SyncSpec>): seq<Row> {
    if syncs == [] then []
    else
      var last := syncs[|syncs| - 1];
      SyncsRows(slave, syncs[..|syncs| - 1]) + PdosRows(slave, last, last.pdos)
  }

  /** All entries of all slaves, in the order a depth-first walk meets them. */
  function Rows(slaves: seq<SlaveSpec>): seq<Row> {
    if slaves == [] then []
    else
      var last := slaves[|slaves| - 1];
      Rows(slaves[..|slaves| - 1]) + SyncsRows(last, last.syncs)
  }

  function RegistrationOf(r: Row, slot: nat): Registration {
    Registration(r.slave.alias, r.slave.position, r.slave.vendorId, r.slave.productCode,
                 r.entry.index, r.entry.subindex, slot)
  }

  function RuntimeEntryOf(r: Row, slot: nat): RuntimeEntry {
    RuntimeEntry(r.slave.position, r.sync.index, if r.sync.direction == OUTPUT then "RxPDO" else "TxPDO",
                 r.pdo.index, r.entry.index, r.entry.subindex, r.entry.bitLength, r.entry.name, slot)
  }

  /** The tables agree with the rows, slot by slot. */
  predicate Agree(registrations: seq<Registration>, entries: seq<RuntimeEntry>, rows: seq<Row>) {
    && |registrations| == |entries| == |rows|
    && (forall k :: 0 <= k < |rows| ==> registrations[k] == RegistrationOf(rows[k], k))
    && (forall k :: 0 <= k < |rows| ==> entries[k] == RuntimeEntryOf(rows[k], k))
  }

  // ---- The storage handed to ecrt ----

  /** The PDOs of all syncs, one after the other. */
  function AllPdos(syncs: seq<SyncSpec>): seq<PdoSpec> {
    if syncs == [] then [] else AllPdos(syncs[..|syncs| - 1]) + syncs[|syncs| - 1].pdos
  }

  function InfoOf(e: EntrySpec): EntryInfo {
    EntryInfo(e.index, e.subindex, e.bitLength)
  }

  function InfosOf(es: seq<EntrySpec>): (r: seq<EntryInfo>)
    ensures |r| == |es|
  {
    seq(|es|, k requires 0 <= k < |es| => InfoOf(es[k]))
  }

  function EntryStorage(pdos: seq<PdoSpec>): (r: seq<seq<EntryInfo>>)
    ensures |r| == |pdos|
  {
    seq(|pdos|, k requires 0 <= k < |pdos| => InfosOf(pdos[k].entries))
  }

  function PdoStorage(pdos: seq<PdoSpec>): (r: seq<PdoInfo>)
    ensures |r| == |pdos|
  {
    seq(|pdos|, k requires 0 <= k < |pdos| => PdoInfo(pdos[k].index, |pdos[k].entries|, k))
  }

  function SyncInfoOf(syncs: seq<SyncSpec>, i: nat): SyncInfo
    requires i < |syncs|
  {
    SyncInfo(syncs[i].index, syncs[i].direction, |syncs[i].pdos|,
             if syncs[i].pdos == [] then None else Some(|AllPdos(syncs[..i])|), syncs[i].watchdog)
  }

  function SyncStorage(syncs: seq<SyncSpec>): (r: seq<SyncInfo>)
    ensures |r| == |syncs|
  {
    seq(|syncs|, i requires 0 <= i < |syncs| => SyncInfoOf(syncs, i))
  }

  function RuntimeOf(slave: SlaveSpec): RuntimeSlave {
    var pdos := AllPdos(slave.syncs);
    RuntimeSlave(slave, EntryStorage(pdos), PdoStorage(pdos), SyncStorage(slave.syncs) + [EndOfSyncs])
  }

  // ---- Reading the storage back ----

  datatype PdoView = PdoView(index: UInt16, entries: seq<EntryInfo>)
  datatype SyncView = SyncView(index: UInt8, direction: Direction, watchdog: Watchdog, pdos: seq<PdoView>)

  /** The pointers of a PDO or sync stay inside the storage they point into. */
  predicate Addressable(rt: RuntimeSlave, i: nat) {
    && i < |rt.syncStorage| && rt.syncStorage[i].SyncInfo?
    && var s := rt.syncStorage[i];
    && (s.pdos.None? ==> s.count == 0)
    && (s.pdos.Some? ==> s.pdos.value + s.count <= |rt.pdoStorage|)
    && forall j :: 0 <= j < |rt.pdoStorage| ==>
         rt.pdoStorage[j].row < |rt.entryStorage| && rt.pdoStorage[j].count <= |rt.entryStorage[rt.pdoStorage[j].row]|
  }

  function ReadSync(rt: RuntimeSlave, i: nat): SyncView
    requires Addressable(rt, i)
  {
    var s := rt.syncStorage[i];
    var at := if s.pdos.Some? then s.pdos.value else 0;
    SyncView(s.index, s.direction, s.watchdog, seq(s.count, k requires 0 <= k < s.count =>
      PdoView(rt.pdoStorage[at + k].index, rt.entryStorage[rt.pdoStorage[at + k].row][..rt.pdoStorage[at + k].count])))
  }

  function ViewOf(s: SyncSpec): SyncView {
    SyncView(s.index, s.direction, s.watchdog,
             seq(|s.pdos|, k requires 0 <= k < |s.pdos| => PdoView(s.pdos[k].index, InfosOf(s.pdos[k].entries))))
  }

  lemma {:induction false} AllPdosSlice(syncs: seq<SyncSpec>, i: nat)
    requires i < |syncs|
    ensures var at := |AllPdos(syncs[..i])|;
      && at + |syncs[i].pdos| <= |AllPdos(syncs)|
      && AllPdos(syncs)[at..at + |syncs[i].pdos|] == syncs[i].pdos
    decreases |syncs|
  {
    var front := syncs[..|syncs| - 1];
    if i < |front| {
      AllPdosSlice(front, i);
      assert front[..i] == syncs[..i];
    }
  }

  /** Each sync's slice of the PDO storage reads back as exactly its own PDOs and entries. */
  lemma SyncReadsBack(slave: SlaveSpec, i: nat)
    requires i < |slave.syncs|
    ensures Addressable(RuntimeOf(slave), i) && ReadSync(RuntimeOf(slave), i) == ViewOf(slave.syncs[i])
  {
    var rt, s, pdos := RuntimeOf(slave), slave.syncs[i], AllPdos(slave.syncs);
    AllPdosSlice(slave.syncs, i);
    var at := |AllPdos(slave.syncs[..i])|;
    hide AllPdos;
    assert rt.syncStorage[i] == SyncInfoOf(slave.syncs, i);
    forall k | 0 <= k < |s.pdos| ensures ReadSync(rt, i).pdos[k] == ViewOf(s).pdos[k] {
      assert pdos[at + k] == pdos[at..at + |s.pdos|][k];
      assert rt.pdoStorage[at + k] == PdoInfo(s.pdos[k].index, |s.pdos[k].entries|, at + k);
      assert rt.entryStorage[at + k] == InfosOf(s.pdos[k].entries);
    }
  }

  // ---- start() ----

  class Tables {
    var registrations: seq<Registration>
    var runtimeEntries: seq<RuntimeEntry>
    var runtimeSlaves: seq<RuntimeSlave>
    var slots: nat
    var entryCursor: nat

    ghost predicate Holds(rows: seq<Row>)
      reads this
    {
      Agree(registrations, runtimeEntries, rows) && entryCursor == |rows|
    }

    constructor ()
      ensures registrations == [] && runtimeEntries == [] && runtimeSlaves == [] && slots == 0 && entryCursor == 0
    {
      registrations, runtimeEntries, runtimeSlaves, slots, entryCursor := [], [], [], 0, 0;
    }

    /** The part of start() that fills the tables. `accepts` says for each slave whether ecrt takes its configuration,
        `registers` whether it takes the registrations, `activates` and `mapped` whether the master is activated and
        hands out the process image; a refusal empties the tables again. */
    method BuildTables(slaves: seq<SlaveSpec>, accepts: SlaveSpec -> bool, registers: bool, activates: bool, mapped: bool)
      returns (ok: bool)
      requires registrations == [] && runtimeEntries == [] && runtimeSlaves == []
      modifies this
      ensures ok == (slaves != [] && (forall i :: 0 <= i < |slaves| ==> accepts(slaves[i])) && registers && activates && mapped)
      ensures !ok ==> registrations == [] && runtimeEntries == [] && runtimeSlaves == [] && slots == 0
      ensures ok ==> |registrations| == slots + 1 && registrations[slots] == Terminator
      ensures ok ==> slots == |Rows(slaves)| && Agree(registrations[..slots], runtimeEntries, Rows(slaves))
      ensures ok ==> |runtimeSlaves| == |slaves| && forall i :: 0 <= i < |slaves| ==> runtimeSlaves[i] == RuntimeOf(slaves[i])
    {
      slots := 0;
      if slaves == [] {
        return false;
      }
      slots := CountEntries(slaves);
      entryCursor := 0;
      hide Rows, RuntimeOf;
      ok := AddSlaves(slaves, accepts);
      if !ok {
        return;
      }
      registrations := registrations + [Terminator];
      assert registrations[..slots] == registrations[..|registrations| - 1];
      if !registers {
        Cleanup();
        return false;
      }
      if !activates {
        Cleanup();
        return false;
      }
      if !mapped {
        Cleanup();
        return false;
      }
    }

    method AddSlaves(slaves: seq<SlaveSpec>, accepts: SlaveSpec -> bool) returns (ok: bool)
      requires Holds([]) && runtimeSlaves == []
      modifies this
      ensures ok == forall i :: 0 <= i < |slaves| ==> accepts(slaves[i])
      ensures !ok ==> registrations == [] && runtimeEntries == [] && runtimeSlaves == [] && slots == 0
      ensures ok ==> Holds(Rows(slaves)) && slots == old(slots)
      ensures ok ==> |runtimeSlaves| == |slaves| && forall i :: 0 <= i < |slaves| ==> runtimeSlaves[i] == RuntimeOf(slaves[i])
    {
      hide SyncsRows, RuntimeOf, Agree;
      for i := 0 to |slaves|
        invariant Holds(Rows(slaves[..i])) && slots == old(slots)
        invariant forall j :: 0 <= j < i ==> accepts(slaves[j])
        invariant |runtimeSlaves| == i && forall j :: 0 <= j < i ==> runtimeSlaves[j] == RuntimeOf(slaves[j])
      {
        if !accepts(slaves[i]) {
          Cleanup();
          return false;
        }
        AddSlave(slaves[i], Rows(slaves[..i]));
        assert slaves[..i + 1][..i] == slaves[..i];
      }
      assert slaves[..|slaves|] == slaves;
      ok := true;
    }

    method Cleanup()
      modifies this
      ensures registrations == [] && runtimeEntries == [] && runtimeSlaves == [] && slots == 0
    {
      registrations, runtimeEntries, runtimeSlaves, slots := [], [], [], 0;
    }

    method AddSlave(slave: SlaveSpec, ghost rows: seq<Row>)
      requires Holds(rows)
      modifies this
      ensures Holds(rows + SyncsRows(slave, slave.syncs)) && slots == old(slots)
      ensures runtimeSlaves == old(runtimeSlaves) + [RuntimeOf(slave)]
    {
      var entryStorage: seq<seq<EntryInfo>> := [];
      var syncs := slave.syncs;
      assert rows + [] == rows;
      for i := 0 to |syncs|
        invariant Holds(rows + SyncsRows(slave, syncs[..i])) && slots == old(slots)
        invariant entryStorage == EntryStorage(AllPdos(syncs[..i])) && runtimeSlaves == old(runtimeSlaves)
      {
        var infos := AddSync(slave, syncs[i], rows + SyncsRows(slave, syncs[..i]));
        entryStorage := entryStorage + infos;
        assert syncs[..i + 1][..i] == syncs[..i];
        assert rows + SyncsRows(slave, syncs[..i]) + PdosRows(slave, syncs[i], syncs[i].pdos)
            == rows + SyncsRows(slave, syncs[..i + 1]);
      }
      assert syncs[..|syncs|] == syncs;
      var pdoStorage := BuildPdoStorage(syncs, entryStorage);
      var syncStorage := BuildSyncStorage(syncs);
      runtimeSlaves := runtimeSlaves + [RuntimeSlave(slave, entryStorage, pdoStorage, syncStorage + [EndOfSyncs])];
    }

    method AddSync(slave: SlaveSpec, sync: SyncSpec, ghost rows: seq<Row>) returns (infos: seq<seq<EntryInfo>>)
      requires Holds(rows)
      modifies this
      ensures Holds(rows + PdosRows(slave, sync, sync.pdos)) && slots == old(slots)
      ensures infos == EntryStorage(sync.pdos) && runtimeSlaves == old(runtimeSlaves)
    {
      infos := [];
      assert rows + [] == rows;
      for j := 0 to |sync.pdos|
        invariant Holds(rows + PdosRows(slave, sync, sync.pdos[..j])) && slots == old(slots)
        invariant infos == EntryStorage(sync.pdos[..j]) && runtimeSlaves == old(runtimeSlaves)
      {
        var pdo := sync.pdos[j];
        var entries := AddPdo(slave, sync, pdo, rows + PdosRows(slave, sync, sync.pdos[..j]));
        infos := infos + [entries];
        assert sync.pdos[..j + 1][..j] == sync.pdos[..j];
        assert rows + PdosRows(slave, sync, sync.pdos[..j]) + PdoRows(slave, sync, pdo, |pdo.entries|)
            == rows + PdosRows(slave, sync, sync.pdos[..j + 1]);
      }
      assert sync.pdos[..|sync.pdos|] == sync.pdos;
    }

    method AddPdo(slave: SlaveSpec, sync: SyncSpec, pdo: PdoSpec, ghost rows: seq<Row>) returns (entries: seq<EntryInfo>)
      requires Holds(rows)
      modifies this
      ensures Holds(rows + PdoRows(slave, sync, pdo, |pdo.entries|)) && slots == old(slots)
      ensures entries == InfosOf(pdo.entries) && runtimeSlaves == old(runtimeSlaves)
    {
      entries := [];
      assert rows + [] == rows;
      for k := 0 to |pdo.entries|
        invariant Holds(rows + PdoRows(slave, sync, pdo, k)) && slots == old(slots)
        invariant entries == InfosOf(pdo.entries[..k]) && runtimeSlaves == old(runtimeSlaves)
      {
        var entry := pdo.entries[k];
        entries := entries + [EntryInfo(entry.index, entry.subindex, entry.bitLength)];
        registrations := registrations + [Registration(slave.alias, slave.position, slave.vendorId, slave.productCode,
                                                       entry.index, entry.subindex, entryCursor)];
        runtimeEntries := runtimeEntries + [RuntimeEntry(
          slave.position, sync.index, if sync.direction == OUTPUT then "RxPDO" else "TxPDO", pdo.index,
          entry.index, entry.subindex, entry.bitLength, entry.name, entryCursor)];
        entryCursor := entryCursor + 1;
        assert PdoRows(slave, sync, pdo, k + 1) == PdoRows(slave, sync, pdo, k) + [Row(slave, sync, pdo, entry)];
        assert rows + (PdoRows(slave, sync, pdo, k) + [Row(slave, sync, pdo, entry)])
            == rows + PdoRows(slave, sync, pdo, k) + [Row(slave, sync, pdo, entry)];
      }
      assert pdo.entries[..|pdo.entries|] == pdo.entries;
    }
  }

  /** The mirror's view of a row: outputs of the master are the client's to drive. */
  function MirrorOf(r: Row, offset: UInt32): MirrorEntry {
    MirrorEntry(r.slave.position, r.entry.index, r.entry.subindex, r.entry.bitLength,
                if r.sync.direction == OUTPUT then "RxPDO" else "TxPDO", offset)
  }

  /** `offsets` holds what ecrt stored through the addresses the registrations carry, slot by slot. */
  method BuildMirrorEntries(entries: seq<RuntimeEntry>, offsets: seq<UInt32>, ghost rows: seq<Row>)
    returns (out: seq<MirrorEntry>)
    requires |entries| == |rows| == |offsets|
    requires forall k :: 0 <= k < |rows| ==> entries[k] == RuntimeEntryOf(rows[k], k)
    ensures |out| == |rows| && forall k :: 0 <= k < |rows| ==> out[k] == MirrorOf(rows[k], offsets[k])
  {
    out := [];
    for i := 0 to |entries|
      invariant |out| == i && forall k :: 0 <= k < i ==> out[k] == MirrorOf(rows[k], offsets[k])
    {
      var e := entries[i];
      out := out + [MirrorEntry(e.slavePosition, e.index, e.subindex, e.bitLength, e.direction, offsets[e.slot])];
    }
  }

  method CountEntries(slaves: seq<SlaveSpec>) returns (total: nat)
    ensures total == |Rows(slaves)|
  {
    total := 0;
    for i := 0 to |slaves|
      invariant total == |Rows(slaves[..i])|
    {
      var syncs := slaves[i].syncs;
      for j := 0 to |syncs|
        invariant total == |Rows(slaves[..i])| + |SyncsRows(slaves[i], syncs[..j])|
      {
        var pdos := syncs[j].pdos;
        for k := 0 to |pdos|
          invariant total == |Rows(slaves[..i])| + |SyncsRows(slaves[i], syncs[..j])| + |PdosRows(slaves[i], syncs[j], pdos[..k])|
        {
          total := total + |pdos[k].entries|;
          assert pdos[..k + 1][..k] == pdos[..k];
        }
        assert pdos[..|pdos|] == pdos && syncs[..j + 1][..j] == syncs[..j];
      }
      assert syncs[..|syncs|] == syncs && slaves[..i + 1][..i] == slaves[..i];
    }
    assert slaves[..|slaves|] == slaves;
  }

  method BuildPdoStorage(syncs: seq<SyncSpec>, entryStorage: seq<seq<EntryInfo>>) returns (pdoStorage: seq<PdoInfo>)
    requires entryStorage == EntryStorage(AllPdos(syncs))
    ensures pdoStorage == PdoStorage(AllPdos(syncs))
  {
    pdoStorage := [];
    var pdoCursor := 0;
    for i := 0 to |syncs|
      invariant pdoCursor == |pdoStorage| && pdoStorage == PdoStorage(AllPdos(syncs[..i]))
    {
      AllPdosSlice(syncs, i);
      var pdos := syncs[i].pdos;
      assert syncs[..i + 1][..i] == syncs[..i];
      for j := 0 to |pdos|
        invariant pdoCursor == |pdoStorage| && pdoStorage == PdoStorage(AllPdos(syncs[..i]) + pdos[..j])
      {
        assert AllPdos(syncs)[pdoCursor] == pdos[j];
        pdoStorage := pdoStorage + [PdoInfo(pdos[j].index, |entryStorage[pdoCursor]|, pdoCursor)];
        pdoCursor := pdoCursor + 1;
        assert AllPdos(syncs[..i]) + pdos[..j + 1] == AllPdos(syncs[..i]) + pdos[..j] + [pdos[j]];
      }
      assert pdos[..|pdos|] == pdos;
    }
    assert syncs[..|syncs|] == syncs;
  }

  method BuildSyncStorage(syncs: seq<SyncSpec>) returns (syncStorage: seq<SyncInfo>)
    ensures syncStorage == SyncStorage(syncs)
  {
    syncStorage := [];
    var pdoCursor := 0;
    for i := 0 to |syncs|
      invariant pdoCursor == |AllPdos(syncs[..i])| && |syncStorage| == i
      invariant forall k :: 0 <= k < i ==> syncStorage[k] == SyncInfoOf(syncs, k)
    {
      var pdos := if syncs[i].pdos == [] then None else Some(pdoCursor);
      syncStorage := syncStorage +
        [SyncInfo(syncs[i].index, syncs[i].direction, |syncs[i].pdos|, pdos, syncs[i].watchdog)];
      pdoCursor := pdoCursor + |syncs[i].pdos|;
      assert syncs[..i + 1][..i] == syncs[..i];
    }
  }
}
