/** End to end: the client parses the table the daemon printed. */
module LayoutExchange {
  import opened Words
  import opened Text
  import opened Json
  import opened DataPlane
  import opened NekoEcatClient
  import opened Layout
  import opened LayoutRoundTrip
  import opened LayoutScan

  /** What the client ends up with: the first 64 entries, and a flag when there were more. */
  function Received(info: ShmInfo): ShmLayout {
    var n := |info.entries|;
    ShmLayout(RecoveredAll(info.entries[..if n < MAX_ENTRIES then n else MAX_ENTRIES]), info.dataSize, n > MAX_ENTRIES)
  }

  function InfoMembers(info: ShmInfo): (ms: seq<Member>)
    ensures |ms| == 6
  {
    ShmInfoJson(info).members
  }

  lemma InfoKeys(info: ShmInfo)
    ensures forall k :: 0 <= k < 6 ==> IsKey(InfoMembers(info)[k].key)
    ensures forall k :: 0 <= k < 2 ==> Simple(InfoMembers(info)[k].value)
    ensures forall j, k :: 0 <= j < k < 3 ==> Apart(InfoMembers(info)[j].key, InfoMembers(info)[k].key)
  {
    InfoKeyNames(info);
    PlainKeys();
    var ms := InfoMembers(info);
    hide InfoMembers, IsKey, Apart;
    forall k | 0 <= k < 6 ensures IsKey(ms[k].key) {
    }
  }

  /** The keys of the printed object, in order. */
  lemma InfoKeyNames(info: ShmInfo)
    ensures var ms := InfoMembers(info);
      && ms[0].key == "active_buffer" && ms[1].key == "data_size" && ms[2].key == "layout"
      && ms[3].key == "layout_version" && ms[4].key == "shm_name" && ms[5].key == "version"
      && Simple(ms[0].value) && Simple(ms[1].value)
  {
  }

  lemma PlainKeys()
    ensures IsKey("active_buffer") && IsKey("data_size") && IsKey("layout")
    ensures IsKey("layout_version") && IsKey("shm_name") && IsKey("version")
    ensures Apart("active_buffer", "data_size") && Apart("active_buffer", "layout") && Apart("data_size", "layout")
  {
    assert "active_buffer"[0] == 'a' && "data_size"[0] == 'd' && "layout"[0] == 'l';
  }

  lemma InfoIsPrinted(info: ShmInfo, rest: string)
    ensures Print(ShmInfoJson(info)) + rest == "{" + MembersFrom(InfoMembers(info), "}" + rest)
  {
    InfoKeys(info);
    hide PrintMembers, MembersFrom;
    var all := PrintMembers(InfoMembers(info));
    assert Print(ShmInfoJson(info)) == "{" + all + "}";
    hide InfoMembers, Print, ShmInfoJson, Simple, Apart, IsKey;
    MembersFromIsPrinted(InfoMembers(info), "}" + rest);
    RegroupBraces(all, rest);
  }

  /** Where a search of the printed object for its second or third key ends. */
  lemma InfoMember(info: ShmInfo, k: nat, rest: string, needle: string)
    requires 1 <= k < 3 && KeyText(InfoMembers(info)[k].key) <= needle
    ensures StrStr(Print(ShmInfoJson(info)) + rest, needle) == StrStr(
        KeyText(InfoMembers(info)[k].key)
        + (Print(InfoMembers(info)[k].value) + Rest(InfoMembers(info)[k + 1..], "}" + rest)), needle)
  {
    InfoKeys(info);
    InfoIsPrinted(info, rest);
    var ms := InfoMembers(info);
    assert KeyText(ms[k].key)[0] == '"';
    hide PrintMembers, InfoMembers, Print, ShmInfoJson, KeyText, Simple, Apart, Rest, IsKey;
    assert needle[0] == KeyText(ms[k].key)[0];
    StrStrSkipsChar("{", MembersFrom(ms, "}" + rest), needle);
    FindMember(ms, k, "}" + rest, needle);
    assert ms[k..][0] == ms[k] && ms[k..][1..] == ms[k + 1..];
  }

  /** The data size survives the exchange, also from 2^31 on where it is printed negative. */
  lemma SizeIsRead(info: ShmInfo, rest: string)
    ensures Field(Print(ShmInfoJson(info)) + rest, KeyText("data_size"), TWO_32) == info.dataSize
  {
    var needle := KeyText("data_size");
    var ms := InfoMembers(info);
    var tail := Rest(ms[2..], "}" + rest);
    var text := IntText(AsInt32(info.dataSize));
    assert ms[1].key == "data_size" && Print(ms[1].value) == text;
    assert tail[0] == ',';
    InfoMember(info, 1, rest, needle);
    hide InfoMembers, Print, ShmInfoJson, IntText, KeyText, AsInt32, Rest, ScanUnsigned;
    ScanWord(info.dataSize, tail);
    StrStrHere(needle + (text + tail), needle);
    hide StrStr;
    CutNeedle(needle, text + tail);
  }

  /** What follows the opening bracket of the printed table. */
  lemma TableIsFound(info: ShmInfo, rest: string)
    ensures var tail := Rest(InfoMembers(info)[3..], "}" + rest);
      StrStr(Print(ShmInfoJson(info)) + rest, KeyText("layout") + "[")
      == Some((KeyText("layout") + "[") + (PrintItems(EntriesJson(info.entries)) + ("]" + tail)))
  {
    var needle := KeyText("layout") + "[";
    var ms := InfoMembers(info);
    var tail := Rest(ms[3..], "}" + rest);
    var items := PrintItems(EntriesJson(info.entries));
    assert ms[2].key == "layout" && Print(ms[2].value) == "[" + items + "]";
    hide PrintItems, EntriesJson;
    InfoMember(info, 2, rest, needle);
    hide InfoMembers, Print, ShmInfoJson, KeyText, Rest;
    RegroupTable(KeyText("layout"), items, tail);
    StrStrHere(needle + (items + ("]" + tail)), needle);
  }

  lemma RegroupTable(key: string, items: string, tail: string)
    ensures key + (("[" + items + "]") + tail) == (key + "[") + (items + ("]" + tail))
  {
  }

  /** What the parser makes of the printed object: the size, and the scan of the table. */
  lemma ParsedIs(info: ShmInfo, rest: string)
    requires info.entries != []
    ensures var r := Scanned("", info.entries, Rest(InfoMembers(info)[3..], "}" + rest), MAX_ENTRIES);
      ParseSpec(Print(ShmInfoJson(info)) + rest)
      == Parsed(r.0 != [], ShmLayout(r.0, info.dataSize, |r.0| >= MAX_ENTRIES && MoreFollow(r.1)))
  {
    var tail := Rest(InfoMembers(info)[3..], "}" + rest);
    SizeIsRead(info, rest);
    TableIsFound(info, rest);
    var es := info.entries;
    var needle := KeyText("layout") + "[";
    var items := PrintItems(EntriesJson(es));
    hide Print, ShmInfoJson, InfoMembers, StrStr, Rest, PrintItems, EntriesJson, Field, ScanEntries, MoreFollow;
    CutNeedle(needle, items + ("]" + tail));
    EntriesFromIsPrinted(es, "]" + tail);
    assert "" + EntriesFrom(es, "]" + tail) == EntriesFrom(es, "]" + tail);
    hide EntriesFrom;
  }

  /** The client gets the data size and, in order, the first 64 entries, flagged truncated exactly when there were more. */
  ghost predicate Survives(info: ShmInfo, rest: string) {
    ParseSpec(Print(ShmInfoJson(info)) + rest) == Parsed(true, Received(info))
  }

  predicate Known(es: seq<NamedEntry>) {
    forall i :: 0 <= i < |es| ==> KnownDirection(es[i])
  }

  lemma SurvivesIffRight(info: ShmInfo, rest: string)
    requires info.entries != []
    ensures var r := Scanned("", info.entries, Rest(InfoMembers(info)[3..], "}" + rest), MAX_ENTRIES);
      Survives(info, rest) <==> Right(info.entries, r, MAX_ENTRIES)
  {
    ParsedIs(info, rest);
    hide Print, ShmInfoJson, ParseSpec, Scanned, Rest, InfoMembers, MoreFollow, RecoveredAll;
  }

  /** The exchange as a whole, whatever text follows: a nonempty table survives if no name among the first 64 misleads
      the loop; and only then, where neighbours can be told apart. */
  lemma LayoutSurvives(info: ShmInfo, rest: string)
    requires info.entries != [] && Known(info.entries)
    ensures Scannable(info.entries, MAX_ENTRIES) ==> Survives(info, rest)
    ensures Separate(info.entries, MAX_ENTRIES) && Survives(info, rest) ==> Scannable(info.entries, MAX_ENTRIES)
  {
    SurvivesIffRight(info, rest);
    var tail := Rest(InfoMembers(info)[3..], "}" + rest);
    hide Survives, Right, Scanned, Scannable, Separate, Rest, InfoMembers, KnownDirection;
    ScanPrinted("", info.entries, tail, MAX_ENTRIES);
  }

  // ---- Names alone ----

  /** No name among the first 64 misleads the loop. */
  predicate WellNamed(names: seq<string>) {
    forall i :: 0 <= i < |names| && i < MAX_ENTRIES ==> Placed(names[i], i + 1 == |names|, i + 1 == MAX_ENTRIES)
  }

  predicate Named(info: ShmInfo, names: seq<string>) {
    && |info.entries| == |names| && Known(info.entries)
    && forall i :: 0 <= i < |names| ==> info.entries[i].name == names[i]
  }

  lemma WellNamedIff(info: ShmInfo, names: seq<string>)
    requires Named(info, names)
    ensures WellNamed(names) <==> Scannable(info.entries, MAX_ENTRIES)
  {
    hide Placed, KnownDirection;
    if WellNamed(names) {
      forall i | 0 <= i < |names| && i < MAX_ENTRIES
        ensures Placed(info.entries[i].name, i + 1 == |names|, i + 1 == MAX_ENTRIES)
      {
        assert info.entries[i].name == names[i];
      }
    }
  }

  /** Every table with these names survives, whatever its numbers and whatever text follows, if and only if no name
      misleads the loop: in a name before the last, no opening brace and no closing bracket may follow the first closing
      brace; in the last, the first such character may be a bracket; in the 64th of more, it may be a brace. */
  lemma NamesDecide(names: seq<string>)
    requires names != []
    ensures (forall info, rest :: Named(info, names) ==> Survives(info, rest)) <==> WellNamed(names)
  {
    forall info, rest | Named(info, names) && WellNamed(names) ensures Survives(info, rest) {
      WellNamedIff(info, names);
      hide Scannable, Survives, WellNamed;
      LayoutSurvives(info, rest);
    }
    var info := Sample(names);
    SampleIs(names);
    WellNamedIff(info, names);
    LayoutSurvives(info, "");
    hide Named, Survives, WellNamed, Scannable, Separate, Sample;
  }

  /** A table with these names and alternating offsets. */
  function Sample(names: seq<string>): ShmInfo {
    ShmInfo(0, 2, seq(|names|, i requires 0 <= i < |names| =>
      NamedEntry(MirrorEntry(0, 0x6000, 1, 8, "TxPDO", i % 2), names[i])), 1, 0)
  }

  lemma SampleIs(names: seq<string>)
    ensures Named(Sample(names), names) && Separate(Sample(names).entries, MAX_ENTRIES)
  {
    var es := Sample(names).entries;
    forall i | 0 <= i && i + 1 < |es| ensures Distinct(es[i].entry, es[i + 1].entry) {
      assert es[i].entry.offset == i % 2 && es[i + 1].entry.offset == (i + 1) % 2;
    }
  }

  // ---- The whole reply ----

  /** Through the whole reply, as attach() cuts it. */
  lemma ReplySurvives(id: string, info: ShmInfo)
    requires info.entries != [] && Known(info.entries)
    ensures var got := ParseSpec(InnerResult(Print(ReplyJson(id, info))));
      && (Scannable(info.entries, MAX_ENTRIES) ==> got == Parsed(true, Received(info)))
      && (Separate(info.entries, MAX_ENTRIES) && got == Parsed(true, Received(info)) ==> Scannable(info.entries, MAX_ENTRIES))
  {
    InnerIsInfo(id, info);
    LayoutSurvives(info, "}");
    assert Survives(info, "}") <==> ParseSpec(Print(ShmInfoJson(info)) + "}") == Parsed(true, Received(info));
    hide *;
  }

  function ReplyMembers(id: string, info: ShmInfo): (ms: seq<Member>)
    ensures |ms| == 3
  {
    ReplyJson(id, info).members
  }

  lemma ReplyKeys(id: string, info: ShmInfo)
    ensures var ms := ReplyMembers(id, info);
      && (forall k :: 0 <= k < 3 ==> IsKey(ms[k].key))
      && (forall k :: 0 <= k < 2 ==> Simple(ms[k].value) && Apart(ms[k].key, ms[2].key))
      && ms[2] == Member("result", ShmInfoJson(info))
  {
    hide ShmInfoJson;
    var ms := ReplyMembers(id, info);
    assert ms[0].key[0] != ms[2].key[0] && ms[1].key[0] != ms[2].key[0];
  }

  lemma ReplyIsPrinted(id: string, info: ShmInfo)
    ensures Print(ReplyJson(id, info)) == "{" + MembersFrom(ReplyMembers(id, info), "}")
  {
    ReplyKeys(id, info);
    hide PrintMembers, MembersFrom, ShmInfoJson;
    var all := PrintMembers(ReplyMembers(id, info));
    assert Print(ReplyJson(id, info)) == "{" + all + "}";
    hide ReplyMembers, Print, ReplyJson, Simple, Apart, IsKey;
    MembersFromIsPrinted(ReplyMembers(id, info), "}");
    assert ("{" + all) + "}" == "{" + (all + "}");
  }

  lemma InnerIsInfo(id: string, info: ShmInfo)
    ensures InnerResult(Print(ReplyJson(id, info))) == Print(ShmInfoJson(info)) + "}"
  {
    var ms := ReplyMembers(id, info);
    var inner := Print(ShmInfoJson(info));
    var needle := KeyText("result");
    InfoStart(info);
    ReplyIsPrinted(id, info);
    ReplyKeys(id, info);
    KeyLacks("result", '{');
    assert needle[0] == '"';
    hide PrintMembers, Print, InfoMembers, MembersFrom, ReplyMembers, ReplyJson, ShmInfoJson, KeyText, Simple, Apart;
    StrStrSkipsChar("{", MembersFrom(ms, "}"), needle);
    FindMember(ms, 2, "}", needle);
    LastMember(ms, "}");
    StrStrHere(needle + (inner + "}"), needle);
    StrStrSkipsChar(needle, inner + "}", "{");
    StrStrHere(inner + "}", "{");
  }

  lemma InfoStart(info: ShmInfo)
    ensures Print(ShmInfoJson(info)) != "" && Print(ShmInfoJson(info))[0] == '{'
  {
    hide PrintMembers;
  }

  lemma KeyLacks(key: string, c: char)
    requires Lacks(key, c) && c != '"' && c != ':'
    ensures Lacks(KeyText(key), c)
  {
  }

  lemma LastMember(ms: seq<Member>, more: string)
    requires |ms| == 3
    ensures MembersFrom(ms[2..], more) == KeyText(ms[2].key) + (Print(ms[2].value) + more)
  {
    hide Print;
    assert ms[2..][1..] == [];
  }

  /** Of a table of at most 64 entries that survives every field comes back if and only if it holds inputs of nonzero
      length only. */
  lemma ExactIffInputs(info: ShmInfo, rest: string)
    requires 0 < |info.entries| <= MAX_ENTRIES && Known(info.entries) && Scannable(info.entries, MAX_ENTRIES)
    ensures var got := ParseSpec(Print(ShmInfoJson(info)) + rest).layout.entries;
      && |got| == |info.entries|
      && ((forall i :: 0 <= i < |got| ==> got[i] == info.entries[i].entry) <==>
          (forall i :: 0 <= i < |got| ==>
            info.entries[i].entry.direction == "TxPDO" && info.entries[i].entry.bitLength != 0))
  {
    LayoutSurvives(info, rest);
    assert ParseSpec(Print(ShmInfoJson(info)) + rest) == Parsed(true, Received(info));
    hide ParseSpec, Print, ShmInfoJson, Scannable, Separate, Known, Survives;
    var es := info.entries;
    assert es[..|es|] == es;
    forall i | 0 <= i < |es| ensures Received(info).entries[i] == Recovered(es[i]) {
    }
    hide Received, RecoveredAll;
  }
}
