/** The layout reply as text, character by character, and what the client holds after reading it, field by field. */
module LayoutText {
  import opened Words
  import opened Text
  import opened Json
  import opened DataPlane
  import opened NekoEcatClient
  import opened Layout
  import opened LayoutRoundTrip
  import opened LayoutScan
  import opened LayoutExchange

  /** The characters a string cannot show as they are. */
  lemma EscapedCharacters(c: char)
    ensures Escape([c]) ==
      if c == '"' then "\\\"" else if c == '\\' then "\\\\" else if c == '\n' then "\\n" else if c == '\r' then "\\r"
      else if c == '\t' then "\\t" else if c as int == 8 then "\\b" else if c as int == 12 then "\\f"
      else if (c as int) < 32 then
        "\\u00" + ["0123456789abcdef"[c as int / 16], "0123456789abcdef"[c as int % 16]]
      else [c]
  {
    assert [c][1..] == "" && EscapeChar(c) + "" == EscapeChar(c);
  }

  lemma EscapeOneMore(c: char, s: string)
    ensures Escape("") == "" && Escape([c] + s) == Escape([c]) + Escape(s)
  {
    assert ([c] + s)[1..] == s && [c][1..] == "";
    assert EscapeChar(c) + "" == EscapeChar(c);
    hide EscapeChar;
  }

  lemma Three(ms: seq<Member>, more: string)
    requires |ms| == 3
    ensures MembersFrom(ms, more) ==
      KeyText(ms[0].key) + (Print(ms[0].value)
      + ("," + (KeyText(ms[1].key) + (Print(ms[1].value)
      + ("," + (KeyText(ms[2].key) + (Print(ms[2].value) + more)))))))
  {
    hide Print, KeyText;
    assert ms[0..] == ms && ms[3..] == [];
    MembersAt(ms, 0, more);
    MembersAt(ms, 1, more);
    MembersAt(ms, 2, more);
    hide MembersFrom;
  }

  lemma Six(ms: seq<Member>, more: string)
    requires |ms| == 6
    ensures MembersFrom(ms, more) ==
      KeyText(ms[0].key) + (Print(ms[0].value)
      + ("," + (KeyText(ms[1].key) + (Print(ms[1].value)
      + ("," + (KeyText(ms[2].key) + (Print(ms[2].value)
      + ("," + (KeyText(ms[3].key) + (Print(ms[3].value)
      + ("," + (KeyText(ms[4].key) + (Print(ms[4].value)
      + ("," + (KeyText(ms[5].key) + (Print(ms[5].value) + more))))))))))))))))
  {
    hide Print, KeyText;
    assert ms[0..] == ms && ms[6..] == [];
    MembersAt(ms, 0, more);
    MembersAt(ms, 1, more);
    MembersAt(ms, 2, more);
    MembersAt(ms, 3, more);
    MembersAt(ms, 4, more);
    MembersAt(ms, 5, more);
    hide MembersFrom;
  }

  lemma Seven(ms: seq<Member>, more: string)
    requires |ms| == 7
    ensures MembersFrom(ms, more) ==
      KeyText(ms[0].key) + (Print(ms[0].value)
      + ("," + (KeyText(ms[1].key) + (Print(ms[1].value)
      + ("," + (KeyText(ms[2].key) + (Print(ms[2].value)
      + ("," + (KeyText(ms[3].key) + (Print(ms[3].value)
      + ("," + (KeyText(ms[4].key) + (Print(ms[4].value)
      + ("," + (KeyText(ms[5].key) + (Print(ms[5].value)
      + ("," + (KeyText(ms[6].key) + (Print(ms[6].value) + more)))))))))))))))))))
  {
    hide Print, KeyText;
    assert ms[0..] == ms && ms[7..] == [];
    MembersAt(ms, 0, more);
    MembersAt(ms, 1, more);
    MembersAt(ms, 2, more);
    MembersAt(ms, 3, more);
    MembersAt(ms, 4, more);
    MembersAt(ms, 5, more);
    MembersAt(ms, 6, more);
    hide MembersFrom;
  }

  lemma EntryMembersAre(e: NamedEntry)
    ensures var ms := EntryMembers(e);
      && ms[0].key == "bitLength" && ms[1].key == "direction" && ms[2].key == "index" && ms[3].key == "name"
      && ms[4].key == "offset" && ms[5].key == "slave" && ms[6].key == "subindex"
      && Print(ms[0].value) == IntText(e.entry.bitLength)
      && Print(ms[1].value) == "\"" + Escape(e.entry.direction) + "\""
      && Print(ms[2].value) == IntText(e.entry.index) && Print(ms[3].value) == "\"" + Escape(e.name) + "\""
      && Print(ms[4].value)
         == IntText(if e.entry.offset < 0x8000_0000 then e.entry.offset else e.entry.offset - 0x1_0000_0000)
      && Print(ms[5].value) == IntText(e.entry.slave) && Print(ms[6].value) == IntText(e.entry.sub)
  {
    hide Escape, IntText;
  }

  /** One entry of the table. */
  lemma EntryText(e: NamedEntry)
    ensures
      var offset := if e.entry.offset < 0x8000_0000 then e.entry.offset else e.entry.offset - 0x1_0000_0000;
      Print(EntryJson(e)) ==
      "{" + (KeyText("bitLength") + (IntText(e.entry.bitLength)
      + ("," + (KeyText("direction") + (("\"" + Escape(e.entry.direction) + "\"")
      + ("," + (KeyText("index") + (IntText(e.entry.index)
      + ("," + (KeyText("name") + (("\"" + Escape(e.name) + "\"")
      + ("," + (KeyText("offset") + (IntText(offset)
      + ("," + (KeyText("slave") + (IntText(e.entry.slave)
      + ("," + (KeyText("subindex") + (IntText(e.entry.sub) + "}"))))))))))))))))))))
  {
    var ms := EntryMembers(e);
    EntryIsPrinted(e, "");
    assert Print(EntryJson(e)) + "" == Print(EntryJson(e)) && "}" + "" == "}";
    EntryMembersAre(e);
    Seven(ms, "}");
    hide *;
  }

  lemma InfoMembersAre(info: ShmInfo)
    ensures var ms := InfoMembers(info);
      && ms[0].key == "active_buffer" && ms[1].key == "data_size" && ms[2].key == "layout"
      && ms[3].key == "layout_version" && ms[4].key == "shm_name" && ms[5].key == "version"
      && Print(ms[0].value)
         == IntText(if info.activeBuffer < 0x8000_0000 then info.activeBuffer else info.activeBuffer - 0x1_0000_0000)
      && Print(ms[1].value)
         == IntText(if info.dataSize < 0x8000_0000 then info.dataSize else info.dataSize - 0x1_0000_0000)
      && Print(ms[2].value) == "[" + PrintItems(EntriesJson(info.entries)) + "]"
      && Print(ms[3].value)
         == IntText(if info.layoutVersion < 0x8000_0000 then info.layoutVersion else info.layoutVersion - 0x1_0000_0000)
      && Print(ms[4].value) == "\"" + "/nekoecat_proc_0" + "\""
      && Print(ms[5].value)
         == IntText(if info.version < 0x8000_0000_0000_0000 then info.version
                    else info.version - 0x1_0000_0000_0000_0000)
  {
    NameText();
    hide Escape, IntText, PrintItems, EntriesJson;
  }

  /** The object around the table. Numbers of 32 and 64 bits are printed signed. */
  lemma InfoText(info: ShmInfo)
    ensures
      var active := if info.activeBuffer < 0x8000_0000 then info.activeBuffer else info.activeBuffer - 0x1_0000_0000;
      var size := if info.dataSize < 0x8000_0000 then info.dataSize else info.dataSize - 0x1_0000_0000;
      var layout := if info.layoutVersion < 0x8000_0000 then info.layoutVersion else info.layoutVersion - 0x1_0000_0000;
      var version :=
        if info.version < 0x8000_0000_0000_0000 then info.version else info.version - 0x1_0000_0000_0000_0000;
      Print(ShmInfoJson(info)) ==
      "{" + (KeyText("active_buffer") + (IntText(active)
      + ("," + (KeyText("data_size") + (IntText(size)
      + ("," + (KeyText("layout") + (("[" + PrintItems(EntriesJson(info.entries)) + "]")
      + ("," + (KeyText("layout_version") + (IntText(layout)
      + ("," + (KeyText("shm_name") + (("\"" + "/nekoecat_proc_0" + "\"")
      + ("," + (KeyText("version") + (IntText(version) + "}")))))))))))))))))
  {
    var ms := InfoMembers(info);
    InfoIsPrinted(info, "");
    assert Print(ShmInfoJson(info)) + "" == Print(ShmInfoJson(info)) && "}" + "" == "}";
    InfoMembersAre(info);
    Six(ms, "}");
    hide *;
  }

  lemma NameText()
    ensures SHM_NAME == "/nekoecat_proc_0" && Escape("/nekoecat_proc_0") == "/nekoecat_proc_0"
  {
    hide Escape;
    EscapeIsPlain("/nekoecat_proc_0");
  }

  lemma {:induction false} EscapeIsPlain(s: string)
    requires forall i :: 0 <= i < |s| ==> s[i] != '"' && s[i] != '\\' && s[i] as int >= 32
    ensures Escape(s) == s
  {
    if s != "" {
      EscapeIsPlain(s[1..]);
      assert s == [s[0]] + s[1..];
    }
  }

  lemma ReplyMembersAre(id: string, info: ShmInfo)
    ensures var ms := ReplyMembers(id, info);
      && ms[0].key == "id" && ms[1].key == "ok" && ms[2].key == "result"
      && Print(ms[0].value) == "\"" + Escape(id) + "\"" && Print(ms[1].value) == "true"
      && ms[2].value == ShmInfoJson(info)
  {
    hide Escape, ShmInfoJson;
  }

  /** The reply. */
  lemma ReplyText(id: string, info: ShmInfo)
    ensures Print(ReplyJson(id, info)) ==
      "{" + (KeyText("id") + (("\"" + Escape(id) + "\"")
      + ("," + (KeyText("ok") + ("true"
      + ("," + (KeyText("result") + (Print(ShmInfoJson(info)) + "}"))))))))
  {
    var ms := ReplyMembers(id, info);
    ReplyIsPrinted(id, info);
    ReplyMembersAre(id, info);
    Three(ms, "}");
    hide *;
  }

  /** The entries of the table, separated by commas. */
  lemma TableText(es: seq<NamedEntry>, k: nat)
    ensures PrintItems(EntriesJson([])) == ""
    ensures k + 1 == |es| ==> PrintItems(EntriesJson(es[k..])) == Print(EntryJson(es[k]))
    ensures k + 1 < |es| ==>
      PrintItems(EntriesJson(es[k..])) == Print(EntryJson(es[k])) + "," + PrintItems(EntriesJson(es[k + 1..]))
  {
    if k < |es| {
      var items := EntriesJson(es[k..]);
      assert items[0] == EntryJson(es[k]);
      hide Print, EntryJson;
      assert items[1..] == EntriesJson(es[k + 1..]);
    }
  }

  /** What the client holds after the exchange: the first 64 entries with all their numbers, a zero bit length taken for
      16 bits and every direction for an input, the data size, and whether there were more. */
  lemma ReceivedByField(info: ShmInfo, k: nat)
    ensures Received(info).dataSize == info.dataSize && (Received(info).truncated <==> |info.entries| > 64)
    ensures |Received(info).entries| == if |info.entries| <= 64 then |info.entries| else 64
    ensures k < |info.entries| && k < 64 ==>
      var e := info.entries[k].entry;
      Received(info).entries[k]
      == MirrorEntry(e.slave, e.index, e.sub, if e.bitLength == 0 then 16 else e.bitLength, "TxPDO", e.offset)
  {
  }

  lemma {:induction false} UpToQuote(w: string, rest: string, room: nat)
    requires Lacks(w, '"') && (rest == "" || rest[0] == '"')
    ensures ScanText(w + rest, room) == if |w| <= room then w else w[..room]
  {
    if w == "" {
      assert w + rest == rest;
    } else if room > 0 {
      assert (w + rest)[1..] == w[1..] + rest && (w + rest)[0] == w[0];
      UpToQuote(w[1..], rest, room - 1);
      assert w == [w[0]] + w[1..];
    }
  }

  /** How the scanner reads a field of any object: a missing key counts as 0 or as an input; a direction is what stands
      between the colon and the next quote, cut at seven characters, and an input if that is nothing. */
  lemma FieldsOfAnyObject(obj: string, key: string, modulus: nat, w: string, rest: string)
    requires modulus > 0 && Lacks(w, '"') && (rest == "" || rest[0] == '"')
    ensures StrStr(obj, KeyText(key)) == None ==> Field(obj, KeyText(key), modulus) == 0
    ensures StrStr(obj, KeyText("direction")) == None ==> DirectionField(obj) == "TxPDO"
    ensures StrStr(obj, KeyText("direction")) == Some(KeyText("direction") + (w + rest)) ==>
      DirectionField(obj) == if w == "" then "TxPDO" else if |w| <= 7 then w else w[..7]
  {
    var needle := KeyText("direction");
    assert (needle + (w + rest))[|needle|..] == w + rest;
    UpToQuote(w, rest, 7);
    hide StrStr, ScanText, ScanUnsigned;
  }
}
