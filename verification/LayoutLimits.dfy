/** Printed tables the client does not get: one without entries, which it refuses, and, as instances of the general
    condition on names, one with a name that looks like the start of another entry and one with a name that ends the scan. */
module LayoutLimits {
  import opened Words
  import opened Text
  import opened Json
  import opened DataPlane
  import opened NekoEcatClient
  import opened Layout
  import opened LayoutRoundTrip
  import opened LayoutScan
  import opened LayoutExchange

  // ---- The empty table ----

  lemma MemberLacks(m: Member, more: string, c: char)
    requires (c == '{' || c == ']') && Lacks(m.key, c) && Lacks(Print(m.value), c) && Lacks(more, c)
    ensures Lacks("," + (KeyText(m.key) + (Print(m.value) + more)), c)
  {
    hide Print;
  }

  lemma IntLacks(n: int, c: char)
    requires c == '{' || c == ']'
    ensures Lacks(IntText(n), c)
  {
    DecimalLacks(if n < 0 then -n else n, c);
    hide Decimal;
  }

  lemma LateMemberLacks(info: ShmInfo, k: nat)
    requires 3 <= k < 6
    ensures Lacks(InfoMembers(info)[k].key, '{') && Lacks(Print(InfoMembers(info)[k].value), '{')
  {
    LateMembers(info);
    KeysLack();
    hide *;
    if k == 3 {
      NumberPrintLacks(AsInt32(info.layoutVersion));
    } else if k == 4 {
      SegmentNameLacks();
    } else {
      NumberPrintLacks(AsInt64(info.version));
    }
  }

  lemma KeysLack()
    ensures Lacks("layout_version", '{') && Lacks("shm_name", '{') && Lacks("version", '{')
  {
  }

  lemma SegmentNameLacks()
    ensures Lacks(Print(Str(SHM_NAME)), '{')
  {
    assert Lacks(SHM_NAME, '{');
    hide Print;
    QuotedLacks(SHM_NAME);
  }

  lemma LateMembers(info: ShmInfo)
    ensures var ms := InfoMembers(info);
      && ms[3] == Member("layout_version", Num(AsInt32(info.layoutVersion))) && ms[4] == Member("shm_name", Str(SHM_NAME))
      && ms[5] == Member("version", Num(AsInt64(info.version)))
  {
  }

  lemma NumberPrintLacks(n: int)
    ensures Lacks(Print(Num(n)), '{')
  {
    IntLacks(n, '{');
    hide IntText;
  }

  lemma QuotedLacks(s: string)
    requires Lacks(s, '{')
    ensures Lacks(Print(Str(s)), '{')
  {
    EscapeLacks(s, '{');
    hide Escape;
  }

  lemma {:induction false} TailHasNoBrace(info: ShmInfo, k: nat, rest: string)
    requires 3 <= k <= 6 && Lacks(rest, '{')
    ensures Lacks(Rest(InfoMembers(info)[k..], "}" + rest), '{')
    decreases 6 - k
  {
    BraceTail(rest);
    var ms := InfoMembers(info);
    if k < 6 {
      TailHasNoBrace(info, k + 1, rest);
      LateMemberLacks(info, k);
      hide InfoMembers, Print, KeyText, Lacks;
      assert ms[k..][0] == ms[k] && ms[k..][1..] == ms[k + 1..];
      MemberLacks(ms[k], Rest(ms[k + 1..], "}" + rest), '{');
    } else {
      hide InfoMembers;
      assert ms[6..] == [];
    }
  }

  lemma BraceTail(rest: string)
    requires Lacks(rest, '{')
    ensures Lacks("}" + rest, '{')
  {
  }

  /** A table without entries is refused, though its data size is read. */
  lemma EmptyTableRefused(info: ShmInfo, rest: string)
    requires info.entries == [] && Lacks(rest, '{')
    ensures ParseSpec(Print(ShmInfoJson(info)) + rest) == Parsed(false, ShmLayout([], info.dataSize, false))
  {
    var tail := Rest(InfoMembers(info)[3..], "}" + rest);
    SizeIsRead(info, rest);
    TableIsFound(info, rest);
    TailHasNoBrace(info, 3, rest);
    assert EntriesJson(info.entries) == [];
    var needle := KeyText("layout") + "[";
    NoEntries(needle, tail);
    hide StrStr, ScanEntries, Field, Print, ShmInfoJson, KeyText, PrintItems, EntriesJson, Rest, InfoMembers, MoreFollow;
  }

  lemma NoEntries(needle: string, tail: string)
    requires |needle| == 10 && Lacks(tail, '{')
    ensures PrintItems([]) == ""
    ensures ScanEntries((needle + ("" + ("]" + tail)))[10..], MAX_ENTRIES) == ([], "]" + tail)
  {
    assert "" + ("]" + tail) == "]" + tail;
    CutNeedle(needle, "]" + tail);
    NoBrace("]" + tail);
    hide StrStr;
  }

  lemma NoBrace(p: string)
    requires Lacks(p, '{')
    ensures StrStr(p, "{") == None
  {
    StrStrSkipsChar(p, "", "{");
    assert p + "" == p;
  }

  // ---- Names that mislead the scan ----

  lemma MarksOfNames()
    ensures FirstMark(AfterBrace("}{")) == Some('{') && FirstMark(AfterBrace("}]")) == Some(']')
  {
    assert AfterBrace("}{") == "{" && AfterBrace("}]") == "]";
  }

  /** A brace after a closing brace, in the only entry, is taken for another entry. */
  lemma BraceNameAddsEntry(info: ShmInfo, rest: string)
    requires |info.entries| == 1 && info.entries[0].name == "}{" && Known(info.entries)
    ensures !Survives(info, rest)
  {
    MarksOfNames();
    assert !Placed(info.entries[0].name, true, false);
    LayoutSurvives(info, rest);
    hide Survives, Placed, Known;
  }

  /** A bracket after a closing brace ends the scan: harmless in the last entry, not before. */
  lemma BracketNameEndsScan(info: ShmInfo, rest: string)
    requires 1 <= |info.entries| <= 2 && info.entries[0].name == "}]" && Known(info.entries)
    requires |info.entries| == 2 ==> Distinct(info.entries[0].entry, info.entries[1].entry)
    ensures Survives(info, rest) <==> |info.entries| == 1
  {
    MarksOfNames();
    assert Placed("}]", true, false) && !Placed("}]", false, false);
    LayoutSurvives(info, rest);
    hide Survives, Placed, Known;
    assert |info.entries| == 2 ==> !Placed(info.entries[0].name, 0 + 1 == |info.entries|, 0 + 1 == MAX_ENTRIES);
  }
}
