/** Rebuilding a slave's tree from the flat tables of `ethercat cstruct`, and the tables such a tree prints to. */
module CStruct {
  import opened Words
  import opened FreeRunTables

  /** The matches of the three table patterns, with their numbers converted. */
  datatype PdoToken = PdoToken(index: UInt16, count: nat, start: nat)
  datatype SyncToken = SyncToken(index: UInt8, direction: string, count: nat, start: Option<nat>, watchdog: string)
  datatype Source = Source(
    vendor: Option<UInt32>, product: Option<UInt32>, entries: seq<EntrySpec>, pdos: seq<PdoToken>, syncs: seq<SyncToken>)

  datatype Result = Parsed(slave: SlaveSpec) | NoIds | NoSyncs

  function Min(a: nat, b: nat): nat {
    if a < b then a else b
  }

  /** What a count and a start select from a table: never past its end. */
  function Slice<T>(table: seq<T>, start: nat, count: nat): (r: seq<T>)
    ensures |r| <= count
  {
    table[Min(start, |table|)..Min(start + count, |table|)]
  }

  function ToDirection(text: string): Direction {
    if text == "EC_DIR_OUTPUT" then OUTPUT else INPUT
  }

  function ToWatchdog(text: string): Watchdog {
    if text == "EC_WD_ENABLE" then ENABLE else DISABLE
  }

  function PdoOf(entries: seq<EntrySpec>, t: PdoToken): PdoSpec {
    PdoSpec(t.index, Slice(entries, t.start, t.count))
  }

  function PdosOf(src: Source): (r: seq<PdoSpec>)
    ensures |r| == |src.pdos|
  {
    seq(|src.pdos|, k requires 0 <= k < |src.pdos| => PdoOf(src.entries, src.pdos[k]))
  }

  function SyncOf(pdos: seq<PdoSpec>, t: SyncToken): SyncSpec {
    SyncSpec(t.index, ToDirection(t.direction), ToWatchdog(t.watchdog),
             Slice(pdos, if t.start.Some? then t.start.value else 0, t.count))
  }

  function SyncsOf(src: Source): (r: seq<SyncSpec>)
    ensures |r| == |src.syncs|
  {
    seq(|src.syncs|, k requires 0 <= k < |src.syncs| => SyncOf(PdosOf(src), src.syncs[k]))
  }

  function TreeOf(position: UInt16, src: Source): Result {
    if src.vendor.None? || src.product.None? then NoIds
    else if src.syncs == [] then NoSyncs
    else Parsed(SlaveSpec(0, position, src.vendor.value, src.product.value, SyncsOf(src)))
  }

  method ParseCStruct(position: UInt16, src: Source) returns (r: Result)
    ensures r == TreeOf(position, src)
    ensures r == NoIds <==> src.vendor == None || src.product == None
    ensures r == NoSyncs <==> src.vendor != None && src.product != None && src.syncs == []
  {
    if src.vendor.None? || src.product.None? {
      return NoIds;
    }
    var allPdos: seq<PdoSpec> := [];
    for k := 0 to |src.pdos|
      invariant |allPdos| == k && forall j :: 0 <= j < k ==> allPdos[j] == PdoOf(src.entries, src.pdos[j])
    {
      var entries := CopySlice(src.entries, src.pdos[k].start, src.pdos[k].count);
      allPdos := allPdos + [PdoSpec(src.pdos[k].index, entries)];
    }
    assert allPdos == PdosOf(src);
    var syncs: seq<SyncSpec> := [];
    for k := 0 to |src.syncs|
      invariant |syncs| == k && forall j :: 0 <= j < k ==> syncs[j] == SyncOf(allPdos, src.syncs[j])
    {
      var t := src.syncs[k];
      var pdos := CopySlice(allPdos, if t.start.Some? then t.start.value else 0, t.count);
      syncs := syncs + [SyncSpec(t.index, if t.direction == "EC_DIR_OUTPUT" then OUTPUT else INPUT,
                                 if t.watchdog == "EC_WD_ENABLE" then ENABLE else DISABLE, pdos)];
    }
    assert syncs == SyncsOf(src);
    if syncs == [] {
      return NoSyncs;
    }
    r := Parsed(SlaveSpec(0, position, src.vendor.value, src.product.value, syncs));
  }

  method CopySlice<T>(table: seq<T>, start: nat, count: nat) returns (r: seq<T>)
    ensures r == Slice(table, start, count)
  {
    r := [];
    var i := 0;
    while i < count && start + i < |table|
      invariant 0 <= i <= count && (start + i <= |table| || i == 0)
      invariant r == Slice(table, start, i)
    {
      r := r + [table[start + i]];
      i := i + 1;
    }
  }

  lemma SliceAt<T>(table: seq<T>, start: nat, count: nat, i: nat)
    ensures i < |Slice(table, start, count)| <==> i < count && start + i < |table|
    ensures i < count && start + i < |table| ==> Slice(table, start, count)[i] == table[start + i]
  {
  }

  /** What a successful parse makes of row `b` of the sync table, of PDO `c` in it and of entry `d` in that, read off
      the three tables. */
  lemma ParsedByField(position: UInt16, src: Source, b: nat, c: nat, d: nat)
    requires src.vendor.Some? && src.product.Some? && b < |src.syncs|
    ensures var r, t := TreeOf(position, src), src.syncs[b];
      var start := if t.start == None then 0 else t.start.value;
      && r.Parsed? && r.slave.alias == 0 && r.slave.position == position
      && r.slave.vendorId == src.vendor.value && r.slave.productCode == src.product.value
      && |r.slave.syncs| == |src.syncs|
      && var sync := r.slave.syncs[b];
      && sync.index == t.index
      && (t.direction == "EC_DIR_OUTPUT" ==> sync.direction == OUTPUT)
      && (t.direction != "EC_DIR_OUTPUT" ==> sync.direction == INPUT)
      && (t.watchdog == "EC_WD_ENABLE" ==> sync.watchdog == ENABLE)
      && (t.watchdog != "EC_WD_ENABLE" ==> sync.watchdog == DISABLE)
      && (c < |sync.pdos| <==> c < t.count && start + c < |src.pdos|)
      && (c < |sync.pdos| ==>
           var p := src.pdos[start + c];
           && sync.pdos[c].index == p.index
           && (d < |sync.pdos[c].entries| <==> d < p.count && p.start + d < |src.entries|)
           && (d < |sync.pdos[c].entries| ==> sync.pdos[c].entries[d] == src.entries[p.start + d]))
  {
    var t := src.syncs[b];
    var start := if t.start.Some? then t.start.value else 0;
    SliceAt(PdosOf(src), start, t.count, c);
    if c < t.count && start + c < |src.pdos| {
      SliceAt(src.entries, src.pdos[start + c].start, src.pdos[start + c].count, d);
    }
    hide Slice;
    assert SyncsOf(src)[b] == SyncOf(PdosOf(src), t);
  }

  // ---- The tables a tree prints to ----

  function AllEntries(pdos: seq<PdoSpec>): seq<EntrySpec> {
    if pdos == [] then [] else AllEntries(pdos[..|pdos| - 1]) + pdos[|pdos| - 1].entries
  }

  function FromDirection(d: Direction): string {
    if d == OUTPUT then "EC_DIR_OUTPUT" else "EC_DIR_INPUT"
  }

  function FromWatchdog(w: Watchdog): string {
    if w == ENABLE then "EC_WD_ENABLE" else "EC_WD_DISABLE"
  }

  function PdoTokenOf(pdos: seq<PdoSpec>, k: nat): PdoToken
    requires k < |pdos|
  {
    PdoToken(pdos[k].index, |pdos[k].entries|, |AllEntries(pdos[..k])|)
  }

  function SyncTokenOf(syncs: seq<SyncSpec>, i: nat): SyncToken
    requires i < |syncs|
  {
    SyncToken(syncs[i].index, FromDirection(syncs[i].direction), |syncs[i].pdos|,
              if syncs[i].pdos == [] then None else Some(|AllPdos(syncs[..i])|), FromWatchdog(syncs[i].watchdog))
  }

  function PdoTokens(pdos: seq<PdoSpec>): (r: seq<PdoToken>)
    ensures |r| == |pdos|
  {
    seq(|pdos|, k requires 0 <= k < |pdos| => PdoTokenOf(pdos, k))
  }

  function SyncTokens(syncs: seq<SyncSpec>): (r: seq<SyncToken>)
    ensures |r| == |syncs|
  {
    seq(|syncs|, i requires 0 <= i < |syncs| => SyncTokenOf(syncs, i))
  }

  /** The flat form of a slave: every start is the number of rows before it. */
  function TablesOf(slave: SlaveSpec): Source {
    var syncs := slave.syncs;
    var pdos := AllPdos(syncs);
    Source(Some(slave.vendorId), Some(slave.productCode), AllEntries(pdos), PdoTokens(pdos), SyncTokens(syncs))
  }

  /** The directions and watchdog modes the parser tells apart. */
  predicate Plain(s: SyncSpec) {
    (s.direction == OUTPUT || s.direction == INPUT) && (s.watchdog == ENABLE || s.watchdog == DISABLE)
  }

  lemma {:induction false} AllEntriesSlice(pdos: seq<PdoSpec>, k: nat)
    requires k < |pdos|
    ensures |AllEntries(pdos[..k])| + |pdos[k].entries| <= |AllEntries(pdos)|
    ensures Slice(AllEntries(pdos), |AllEntries(pdos[..k])|, |pdos[k].entries|) == pdos[k].entries
    decreases |pdos|
  {
    var front, last := pdos[..|pdos| - 1], pdos[|pdos| - 1];
    assert AllEntries(pdos) == AllEntries(front) + last.entries;
    if k < |front| {
      AllEntriesSlice(front, k);
      assert front[..k] == pdos[..k] && front[k] == pdos[k];
      hide AllEntries, Slice;
      SliceOfFront(AllEntries(front), last.entries, |AllEntries(pdos[..k])|, |pdos[k].entries|);
    } else {
      assert pdos[..k] == front;
      hide AllEntries, Slice;
      SliceOfEnd(AllEntries(front), last.entries);
    }
  }

  lemma SliceOfFront<T>(a: seq<T>, b: seq<T>, start: nat, count: nat)
    requires start + count <= |a|
    ensures Slice(a + b, start, count) == Slice(a, start, count)
  {
  }

  lemma SliceOfEnd<T>(a: seq<T>, b: seq<T>)
    ensures Slice(a + b, |a|, |b|) == b
  {
  }

  lemma PdosComeBack(slave: SlaveSpec)
    ensures PdosOf(TablesOf(slave)) == AllPdos(slave.syncs)
  {
    var pdos, src := AllPdos(slave.syncs), TablesOf(slave);
    hide AllPdos;
    forall k | 0 <= k < |pdos| ensures PdosOf(src)[k] == pdos[k] {
      AllEntriesSlice(pdos, k);
    }
  }

  /** Parsing the flat form of a slave gives the slave back. The alias is not part of the text. */
  lemma TreeSurvives(slave: SlaveSpec)
    requires slave.syncs != [] && forall i :: 0 <= i < |slave.syncs| ==> Plain(slave.syncs[i])
    ensures TreeOf(slave.position, TablesOf(slave)) == Parsed(slave.(alias := 0))
  {
    var src, syncs := TablesOf(slave), slave.syncs;
    PdosComeBack(slave);
    hide PdosOf;
    forall i | 0 <= i < |syncs| ensures SyncsOf(src)[i] == syncs[i] {
      AllPdosSlice(syncs, i);
      assert src.syncs[i] == SyncTokenOf(syncs, i);
      assert Plain(syncs[i]);
      hide AllPdos, TablesOf;
    }
    hide AllPdos;
    assert SyncsOf(src) == syncs;
  }

  // ---- The other way round ----

  function PdoSum(ts: seq<PdoToken>): nat {
    if ts == [] then 0 else PdoSum(ts[..|ts| - 1]) + ts[|ts| - 1].count
  }

  function SyncSum(ts: seq<SyncToken>): nat {
    if ts == [] then 0 else SyncSum(ts[..|ts| - 1]) + ts[|ts| - 1].count
  }

  predicate KnownWords(t: SyncToken) {
    (t.direction == "EC_DIR_OUTPUT" || t.direction == "EC_DIR_INPUT")
    && (t.watchdog == "EC_WD_ENABLE" || t.watchdog == "EC_WD_DISABLE")
  }

  /** Every start is the sum of the counts before it, the counts cover the tables, and a sync without PDOs has no start. */
  predicate Consecutive(src: Source) {
    && (forall k :: 0 <= k < |src.pdos| ==> src.pdos[k].start == PdoSum(src.pdos[..k]))
    && PdoSum(src.pdos) == |src.entries|
    && (forall i :: 0 <= i < |src.syncs| ==>
         src.syncs[i].start == (if src.syncs[i].count == 0 then None else Some(SyncSum(src.syncs[..i]))))
    && SyncSum(src.syncs) == |src.pdos|
    && forall i :: 0 <= i < |src.syncs| ==> KnownWords(src.syncs[i])
  }

  lemma {:induction false} PdoSumGrows(ts: seq<PdoToken>, k: nat)
    requires k < |ts|
    ensures PdoSum(ts[..k]) + ts[k].count <= PdoSum(ts)
    decreases |ts|
  {
    if k < |ts| - 1 {
      PdoSumGrows(ts[..|ts| - 1], k);
      assert ts[..|ts| - 1][..k] == ts[..k];
    }
  }

  lemma {:induction false} SyncSumGrows(ts: seq<SyncToken>, k: nat)
    requires k < |ts|
    ensures SyncSum(ts[..k]) + ts[k].count <= SyncSum(ts)
    decreases |ts|
  {
    if k < |ts| - 1 {
      SyncSumGrows(ts[..|ts| - 1], k);
      assert ts[..|ts| - 1][..k] == ts[..k];
    }
  }

  lemma NextSlice<T>(table: seq<T>, start: nat, count: nat)
    requires start + count <= |table|
    ensures table[..start] + Slice(table, start, count) == table[..start + count]
  {
  }

  lemma {:induction false} EntriesBack(src: Source, k: nat)
    requires Consecutive(src) && k <= |src.pdos|
    ensures PdoSum(src.pdos[..k]) <= |src.entries| && AllEntries(PdosOf(src)[..k]) == src.entries[..PdoSum(src.pdos[..k])]
  {
    if k > 0 {
      EntriesBack(src, k - 1);
      PdoSumGrows(src.pdos, k - 1);
      assert src.pdos[..k][..k - 1] == src.pdos[..k - 1];
      var pdos, t := PdosOf(src), src.pdos[k - 1];
      assert pdos[k - 1].entries == Slice(src.entries, t.start, t.count);
      assert t.start == PdoSum(src.pdos[..k - 1]);
      assert PdoSum(src.pdos[..k]) == t.start + t.count;
      hide PdosOf, Slice, PdoSum, Consecutive;
      assert pdos[..k][..k - 1] == pdos[..k - 1];
      NextSlice(src.entries, t.start, t.count);
    }
  }

  lemma {:induction false} PdosBack(src: Source, i: nat)
    requires Consecutive(src) && i <= |src.syncs|
    ensures SyncSum(src.syncs[..i]) <= |src.pdos| && AllPdos(SyncsOf(src)[..i]) == PdosOf(src)[..SyncSum(src.syncs[..i])]
  {
    if i > 0 {
      PdosBack(src, i - 1);
      SyncSumGrows(src.syncs, i - 1);
      assert src.syncs[..i][..i - 1] == src.syncs[..i - 1];
      var at, t := SyncSum(src.syncs[..i - 1]), src.syncs[i - 1];
      SyncSlice(src, i - 1);
      assert SyncSum(src.syncs[..i]) == at + t.count;
      hide Slice, SyncsOf, PdosOf, Consecutive, SyncSum;
      NextSlice(PdosOf(src), at, t.count);
      OneMoreSync(SyncsOf(src), i - 1);
    }
  }

  lemma OneMoreSync(syncs: seq<SyncSpec>, i: nat)
    requires i < |syncs|
    ensures AllPdos(syncs[..i + 1]) == AllPdos(syncs[..i]) + syncs[i].pdos
  {
    assert syncs[..i + 1][..i] == syncs[..i];
  }

  lemma SyncSlice(src: Source, i: nat)
    requires Consecutive(src) && i < |src.syncs|
    ensures SyncSum(src.syncs[..i]) + src.syncs[i].count <= |src.pdos|
    ensures SyncsOf(src)[i].pdos == Slice(PdosOf(src), SyncSum(src.syncs[..i]), src.syncs[i].count)
  {
    SyncSumGrows(src.syncs, i);
    hide PdosOf;
    assert SyncsOf(src)[i] == SyncOf(PdosOf(src), src.syncs[i]);
  }

  lemma SliceLength<T>(table: seq<T>, start: nat, count: nat)
    requires start + count <= |table|
    ensures |Slice(table, start, count)| == count
  {
  }

  lemma PdoTokenBack(src: Source, k: nat)
    requires Consecutive(src) && k < |src.pdos|
    ensures PdoTokenOf(PdosOf(src), k) == src.pdos[k]
  {
    EntriesBack(src, k);
    PdoSumGrows(src.pdos, k);
    SliceLength(src.entries, src.pdos[k].start, src.pdos[k].count);
    hide AllEntries, Slice;
  }

  lemma SyncTokenBack(src: Source, i: nat)
    requires Consecutive(src) && i < |src.syncs|
    ensures SyncTokenOf(SyncsOf(src), i) == src.syncs[i]
  {
    PdosBack(src, i);
    SyncSumGrows(src.syncs, i);
    var t, at := src.syncs[i], SyncSum(src.syncs[..i]);
    assert KnownWords(t);
    SliceLength(PdosOf(src), if t.start.Some? then t.start.value else 0, t.count);
    var s := SyncsOf(src)[i];
    assert s == SyncOf(PdosOf(src), t);
    hide AllPdos, Slice, PdosOf, SyncsOf;
    assert FromDirection(s.direction) == t.direction && FromWatchdog(s.watchdog) == t.watchdog;
  }

  lemma WholeTables(src: Source)
    requires Consecutive(src)
    ensures AllPdos(SyncsOf(src)) == PdosOf(src) && AllEntries(PdosOf(src)) == src.entries
  {
    PdosBack(src, |src.syncs|);
    EntriesBack(src, |src.pdos|);
    hide AllPdos, AllEntries, PdoSum, SyncSum;
    WholeIsItself(PdosOf(src));
    WholeIsItself(SyncsOf(src));
    WholeIsItself(src.pdos);
    WholeIsItself(src.syncs);
    WholeIsItself(src.entries);
    hide PdosOf, SyncsOf;
  }

  lemma WholeIsItself<T>(s: seq<T>)
    ensures s[..|s|] == s
  {
  }

  lemma PdoTokensBack(src: Source)
    requires Consecutive(src)
    ensures PdoTokens(PdosOf(src)) == src.pdos
  {
    hide PdoTokenOf, PdosOf, Consecutive;
    forall k | 0 <= k < |src.pdos| ensures PdoTokens(PdosOf(src))[k] == src.pdos[k] {
      PdoTokenBack(src, k);
    }
  }

  lemma SyncTokensBack(src: Source)
    requires Consecutive(src)
    ensures SyncTokens(SyncsOf(src)) == src.syncs
  {
    hide SyncTokenOf, SyncsOf, Consecutive;
    forall i | 0 <= i < |src.syncs| ensures SyncTokens(SyncsOf(src))[i] == src.syncs[i] {
      SyncTokenBack(src, i);
    }
  }

  /** The tree parsed from consecutive tables flattens back to those tables. */
  lemma TablesSurvive(position: UInt16, src: Source)
    requires Consecutive(src) && src.vendor.Some? && src.product.Some? && src.syncs != []
    ensures TreeOf(position, src).Parsed? && TablesOf(TreeOf(position, src).slave) == src
  {
    WholeTables(src);
    PdoTokensBack(src);
    SyncTokensBack(src);
    hide AllPdos, AllEntries, PdosOf, SyncsOf, Consecutive, PdoTokens, SyncTokens;
  }

  // ---- From the text to the process image ----

  function EntriesOf(rows: seq<Row>): (r: seq<EntrySpec>)
    ensures |r| == |rows|
  {
    seq(|rows|, k requires 0 <= k < |rows| => rows[k].entry)
  }

  lemma EntriesOfBoth(a: seq<Row>, b: seq<Row>)
    ensures EntriesOf(a + b) == EntriesOf(a) + EntriesOf(b)
  {
  }

  lemma {:induction false} PdosRowsEntries(slave: SlaveSpec, sync: SyncSpec, pdos: seq<PdoSpec>)
    ensures EntriesOf(PdosRows(slave, sync, pdos)) == AllEntries(pdos)
  {
    if pdos != [] {
      var front, last := pdos[..|pdos| - 1], pdos[|pdos| - 1];
      PdosRowsEntries(slave, sync, front);
      EntriesOfBoth(PdosRows(slave, sync, front), PdoRows(slave, sync, last, |last.entries|));
      assert EntriesOf(PdoRows(slave, sync, last, |last.entries|)) == last.entries;
    }
  }

  lemma {:induction false} AllEntriesBoth(a: seq<PdoSpec>, b: seq<PdoSpec>)
    ensures AllEntries(a + b) == AllEntries(a) + AllEntries(b)
  {
    if b == [] {
      assert a + b == a && AllEntries(a) + [] == AllEntries(a);
    } else {
      var front := b[..|b| - 1];
      AllEntriesBoth(a, front);
      assert (a + b)[..|a + b| - 1] == a + front;
      assert AllEntries(a) + AllEntries(front) + b[|b| - 1].entries == AllEntries(a) + (AllEntries(front) + b[|b| - 1].entries);
    }
  }

  lemma {:induction false} SyncsRowsEntries(slave: SlaveSpec, syncs: seq<SyncSpec>)
    ensures EntriesOf(SyncsRows(slave, syncs)) == AllEntries(AllPdos(syncs))
  {
    if syncs != [] {
      var front, last := syncs[..|syncs| - 1], syncs[|syncs| - 1];
      SyncsRowsEntries(slave, front);
      PdosRowsEntries(slave, last, last.pdos);
      EntriesOfBoth(SyncsRows(slave, front), PdosRows(slave, last, last.pdos));
      AllEntriesBoth(AllPdos(front), last.pdos);
    }
  }

  /** A slave parsed from consecutive tables is registered in the order of its entry table: slot k is entry k. */
  lemma RegisteredInTableOrder(position: UInt16, src: Source)
    requires Consecutive(src) && src.vendor.Some? && src.product.Some? && src.syncs != []
    ensures TreeOf(position, src).Parsed? && EntriesOf(Rows([TreeOf(position, src).slave])) == src.entries
  {
    var slave := TreeOf(position, src).slave;
    TablesSurvive(position, src);
    SyncsRowsEntries(slave, slave.syncs);
    hide AllEntries, AllPdos, SyncsRows, TreeOf;
    assert [slave][..0] == [] && Rows([]) == [];
    assert [] + SyncsRows(slave, slave.syncs) == SyncsRows(slave, slave.syncs);
    assert Rows([slave]) == SyncsRows(slave, slave.syncs);
  }
}
