/** The layout exchange: the daemon prints its entry table as JSON, the client's hand-written scanner reads it. */
module Layout {
  import opened Words
  import opened Text
  import opened Json
  import opened DataPlane
  import opened NekoEcatClient

  const MAX_ENTRIES: nat := 64

  // ---- The client's scanner ----

  /** "%u"-like scan of the text after the first `needle` in `obj`; 0 when either is missing. */
  function Field(obj: string, needle: string, modulus: nat): (v: nat)
    requires modulus > 0
    ensures v < modulus
  {
    match StrStr(obj, needle)
    case None => 0
    case Some(f) => match ScanUnsigned(f[|needle|..], modulus) case None => 0 case Some(v) => v
  }

  /** "%7[^\\"]": up to seven characters other than a quote. */
  function ScanText(s: string, room: nat): string {
    if room == 0 || s == "" || s[0] == '"' then "" else [s[0]] + ScanText(s[1..], room - 1)
  }

  function DirectionField(obj: string): string {
    match StrStr(obj, KeyText("direction"))
    case None => "TxPDO"
    case Some(f) =>
      var text := ScanText(f[|KeyText("direction")|..], 7);
      if text == "" then "TxPDO" else text
  }

  /** One entry, read from the text that starts at its brace. */
  function EntryAt(obj: string): MirrorEntry {
    var bits := Field(obj, KeyText("bitLength"), TWO_8);
    MirrorEntry(Field(obj, KeyText("slave"), TWO_16), Field(obj, KeyText("index"), TWO_16),
                Field(obj, KeyText("subindex"), TWO_8), if bits == 0 then 16 else bits,
                DirectionField(obj), Field(obj, KeyText("offset"), TWO_32))
  }

  /** The scanning loop from cursor `p` with room for `room` more entries: the entries and the final cursor. */
  function ScanEntries(p: string, room: nat): (r: (seq<MirrorEntry>, string))
    ensures |r.0| <= room
    decreases room
  {
    if room == 0 then ([], p) else
    match StrStr(p, "{")
    case None => ([], p)
    case Some(obj) =>
      match StrStr(obj, "}")
      case None => ([], p)
      case Some(endObj) =>
        var p' := endObj[1..];
        if LoopEnds(p') then ([EntryAt(obj)], p')
        else var (more, q) := ScanEntries(p', room - 1); ([EntryAt(obj)] + more, q)
  }

  /** No further brace, or a closing bracket before it. */
  predicate LoopEnds(p: string) {
    var nextOpen, nextClose := StrStr(p, "{"), StrStr(p, "]");
    nextOpen.None? || (nextClose.Some? && |nextOpen.value| < |nextClose.value|)
  }

  predicate MoreFollow(p: string) {
    var more, close := StrStr(p, "{"), StrStr(p, "]");
    more.Some? && (close.None? || |more.value| > |close.value|)
  }

  datatype Parsed = Parsed(ok: bool, layout: ShmLayout)

  function ParseSpec(json: string): Parsed {
    var size := Field(json, KeyText("data_size"), TWO_32);
    match StrStr(json, KeyText("layout") + "[")
    case None => Parsed(false, ShmLayout([], size, false))
    case Some(lay) =>
      var (entries, p) := ScanEntries(lay[10..], MAX_ENTRIES);
      Parsed(entries != [], ShmLayout(entries, size, |entries| >= MAX_ENTRIES && MoreFollow(p)))
  }

  function Joined(entries: seq<MirrorEntry>, r: (seq<MirrorEntry>, string)): (seq<MirrorEntry>, string) {
    (entries + r.0, r.1)
  }

  /** One round of the loop, seen from the entries collected so far. */
  lemma ScanRound(entries: seq<MirrorEntry>, p: string, room: nat)
    requires room > 0
    ensures var obj := StrStr(p, "{");
      var all := Joined(entries, ScanEntries(p, room));
      if obj.None? then all == Joined(entries, ([], p))
      else var endObj := StrStr(obj.value, "}");
        if endObj.None? then all == Joined(entries, ([], p))
        else var p' := endObj.value[1..];
          all == Joined(entries + [EntryAt(obj.value)], if LoopEnds(p') then ([], p') else ScanEntries(p', room - 1))
  {
    hide StrStr, EntryAt, LoopEnds;
    var obj := StrStr(p, "{");
    if obj.Some? && StrStr(obj.value, "}").Some? {
      var p' := StrStr(obj.value, "}").value[1..];
      var r: (seq<MirrorEntry>, string) := if LoopEnds(p') then ([], p') else ScanEntries(p', room - 1);
      assert [EntryAt(obj.value)] + [] == [EntryAt(obj.value)];
      assert entries + ([EntryAt(obj.value)] + r.0) == entries + [EntryAt(obj.value)] + r.0;
    }
  }

  lemma JoinedEmpty(r: (seq<MirrorEntry>, string))
    ensures Joined([], r) == r
  {
    assert [] + r.0 == r.0;
  }

  lemma JoinedNothing(entries: seq<MirrorEntry>, p: string)
    ensures Joined(entries, ([], p)) == (entries, p)
  {
    assert entries + [] == entries;
  }

  lemma ScanOver(p: string)
    ensures ScanEntries(p, 0) == ([], p)
  {
  }

  /** One round: the entry at the next brace and the cursor behind it, if there is one, and whether the loop ends. */
  method ScanNext(p: string) returns (entry: Option<MirrorEntry>, next: string, ends: bool)
    ensures forall entries, room: nat {:trigger Joined(entries, ScanEntries(p, room))} :: room > 0 ==>
      (Joined(entries, ScanEntries(p, room)) ==
        if entry.None? then (entries, p)
        else Joined(entries + [entry.value], if ends then ([], next) else ScanEntries(next, room - 1)))
  {
    hide EntryAt, StrStr, LoopEnds, ScanEntries, Joined;
    entry, next, ends := None, p, true;
    var obj := StrStr(p, "{");
    if obj.Some? {
      var endObj := StrStr(obj.value, "}");
      if endObj.Some? {
        entry, next := Some(EntryAt(obj.value)), endObj.value[1..];
        ends := EndsHere(next);
      }
    }
    forall entries, room: nat | room > 0
      ensures Joined(entries, ScanEntries(p, room)) ==
        if entry.None? then (entries, p)
        else Joined(entries + [entry.value], if ends then ([], next) else ScanEntries(next, room - 1))
    {
      ScanRound(entries, p, room);
      JoinedNothing(entries, p);
    }
  }

  /** The test at the end of a round. */
  method EndsHere(p: string) returns (ends: bool)
    ensures ends == LoopEnds(p)
  {
    var nextOpen, nextClose := StrStr(p, "{"), StrStr(p, "]");
    ends := nextOpen.None? || (nextClose.Some? && |nextOpen.value| < |nextClose.value|);
  }

  method LayoutParseFromShmInfoJson(json: string) returns (r: Parsed)
    ensures r == ParseSpec(json)
  {
    hide StrStr, EntryAt, Field;
    var size := Field(json, KeyText("data_size"), TWO_32);
    var lay := StrStr(json, KeyText("layout") + "[");
    if lay.None? {
      return Parsed(false, ShmLayout([], size, false));
    }
    var p := lay.value[10..];
    var entries: seq<MirrorEntry> := [];
    ghost var whole := ScanEntries(p, MAX_ENTRIES);
    JoinedEmpty(whole);
    hide ScanEntries, Joined;
    var done := false;
    while !done && |entries| < MAX_ENTRIES
      invariant |entries| <= MAX_ENTRIES
      invariant whole == if done then (entries, p) else Joined(entries, ScanEntries(p, MAX_ENTRIES - |entries|))
      decreases !done, MAX_ENTRIES - |entries|
    {
      var entry, next, ends := ScanNext(p);
      if entry.None? {
        done := true;
      } else {
        entries, p, done := entries + [entry.value], next, ends;
        JoinedNothing(entries, p);
      }
    }
    ScanOver(p);
    JoinedNothing(entries, p);
    // Expose silent truncation: entries beyond the cap are flagged.
    var truncated := false;
    if |entries| >= MAX_ENTRIES {
      var more, close := StrStr(p, "{"), StrStr(p, "]");
      if more.Some? && (close.None? || |more.value| > |close.value|) {
        truncated := true;
      }
    }
    r := Parsed(entries != [], ShmLayout(entries, size, truncated));
  }

  // ---- The daemon's printer ----

  /** A runtime entry with the symbolic name that only the printed form carries. */
  datatype NamedEntry = NamedEntry(entry: MirrorEntry, name: string)

  /** static_cast<int> of an unsigned 32-bit value. */
  function AsInt32(v: UInt32): int {
    if v >= 0x8000_0000 then v - TWO_32 else v
  }

  function EntryJson(e: NamedEntry): Value {
    Obj([Member("bitLength", Num(e.entry.bitLength)), Member("direction", Str(e.entry.direction)),
         Member("index", Num(e.entry.index)), Member("name", Str(e.name)),
         Member("offset", Num(AsInt32(e.entry.offset))), Member("slave", Num(e.entry.slave)),
         Member("subindex", Num(e.entry.sub))])
  }

  datatype ShmInfo = ShmInfo(
    activeBuffer: UInt32, dataSize: UInt32, entries: seq<NamedEntry>, layoutVersion: UInt32, version: UInt64)

  const SHM_NAME: string := "/nekoecat_proc_0"

  function EntriesJson(es: seq<NamedEntry>): seq<Value> {
    seq(|es|, i requires 0 <= i < |es| => EntryJson(es[i]))
  }

  /** static_cast<qint64> of an unsigned 64-bit value. */
  function AsInt64(v: UInt64): int {
    if v >= 0x8000_0000_0000_0000 then v - TWO_64 else v
  }

  /** shmInfo() of a running controller, keys in the order a JSON object prints them. */
  function ShmInfoJson(info: ShmInfo): Value {
    Obj([Member("active_buffer", Num(AsInt32(info.activeBuffer))), Member("data_size", Num(AsInt32(info.dataSize))),
         Member("layout", Arr(EntriesJson(info.entries))), Member("layout_version", Num(AsInt32(info.layoutVersion))),
         Member("shm_name", Str(SHM_NAME)), Member("version", Num(AsInt64(info.version)))])
  }

  /** The positive reply that carries it. */
  function ReplyJson(id: string, info: ShmInfo): Value {
    Obj([Member("id", Str(id)), Member("ok", Bool(true)), Member("result", ShmInfoJson(info))])
  }

  /** attach() cuts the reply at the first brace after its "result" key. */
  function InnerResult(reply: string): string {
    match StrStr(reply, KeyText("result"))
    case None => reply
    case Some(found) => match StrStr(found, "{") case None => reply case Some(start) => start
  }
}
