/** How the scanning loop moves over a printed table: what braces and brackets in names do to it, and for exactly which
    names it reads every entry at its own brace. */
module LayoutScan {
  import opened Words
  import opened Text
  import opened Json
  import opened DataPlane
  import opened NekoEcatClient
  import opened Layout
  import opened LayoutRoundTrip

  // ---- Braces and brackets in names ----

  /** What follows the first closing brace; nothing when there is none. */
  function AfterBrace(s: string): string {
    if s == "" then "" else if s[0] == '}' then s[1..] else AfterBrace(s[1..])
  }

  /** The first opening brace or closing bracket: where the loop looks to decide whether to go on. */
  function FirstMark(s: string): Option<char> {
    if s == "" then None else if s[0] == '{' || s[0] == ']' then Some(s[0]) else FirstMark(s[1..])
  }

  lemma {:induction false} MarkConcat(a: string, b: string)
    ensures FirstMark(a + b) == if FirstMark(a).Some? then FirstMark(a) else FirstMark(b)
  {
    if a == "" {
      assert a + b == b;
    } else {
      MarkConcat(a[1..], b);
      assert (a + b)[1..] == a[1..] + b;
    }
  }

  lemma {:induction false} NoMark(s: string)
    ensures FirstMark(s) == None <==> Lacks(s, '{') && Lacks(s, ']')
  {
    if s != "" {
      NoMark(s[1..]);
      assert forall i :: 0 < i < |s| ==> s[i] == s[1..][i - 1];
    }
  }

  /** The loop goes on exactly when the next mark is an opening brace. */
  lemma {:induction false} MarkDecides(p: string)
    ensures LoopEnds(p) <==> FirstMark(p) != Some('{')
    ensures MoreFollow(p) <==> FirstMark(p) == Some('{')
  {
    if p == "" {
    } else if p[0] == '{' || p[0] == ']' {
      StrStrOne(p, "{");
      StrStrOne(p, "]");
    } else {
      StrStrOne(p, "{");
      StrStrOne(p, "]");
      hide StrStr;
      MarkDecides(p[1..]);
    }
  }

  lemma StrStrOne(p: string, needle: string)
    requires p != "" && |needle| == 1
    ensures StrStr(p, needle) == if p[0] == needle[0] then Some(p) else StrStr(p[1..], needle)
  {
  }

  lemma {:induction false} BraceIsFound(s: string)
    requires !Lacks(s, '}')
    ensures StrStr(s, "}") == Some("}" + AfterBrace(s))
  {
    StrStrOne(s, "}");
    if s[0] == '}' {
      assert "}" + s[1..] == s;
    } else {
      assert forall i :: 0 < i < |s| ==> s[i] == s[1..][i - 1];
      BraceIsFound(s[1..]);
    }
  }

  lemma {:induction false} AfterBraceConcat(a: string, b: string)
    ensures AfterBrace(a + b) == if Lacks(a, '}') then AfterBrace(b) else AfterBrace(a) + b
  {
    if a == "" {
      assert a + b == b;
    } else {
      AfterBraceConcat(a[1..], b);
      assert (a + b)[1..] == a[1..] + b;
      assert forall i :: 0 < i < |a| ==> a[i] == a[1..][i - 1];
    }
  }

  lemma EscapeCharLacks(c: char, b: char)
    requires b == '{' || b == '}' || b == ']'
    ensures c == b ==> EscapeChar(c) == [b]
    ensures c != b ==> Lacks(EscapeChar(c), b)
  {
    if (c as int) < 0x20 {
      ControlLacks(c, b);
    }
    hide HexDigit;
  }

  lemma ControlLacks(c: char, b: char)
    requires (c as int) < 0x20 && (b == '{' || b == '}' || b == ']')
    ensures Lacks(EscapeChar(c), b)
  {
    hide HexDigit;
    var high, low := HexDigit(c as int / 16), HexDigit(c as int % 16);
    assert high != b && low != b;
    assert Lacks("\\u00" + [high, low], b);
  }

  lemma {:induction false} EscapeLacks(s: string, b: char)
    requires b == '{' || b == '}' || b == ']'
    ensures Lacks(Escape(s), b) <==> Lacks(s, b)
  {
    if s != "" {
      EscapeLacks(s[1..], b);
      EscapeCharLacks(s[0], b);
      hide EscapeChar;
      assert s == [s[0]] + s[1..];
      LacksConcat([s[0]], s[1..], b);
      LacksConcat(EscapeChar(s[0]), Escape(s[1..]), b);
      assert !Lacks([b], b) by { assert [b][0] == b; }
    }
  }

  lemma LacksConcat(a: string, b: string, c: char)
    ensures Lacks(a + b, c) <==> Lacks(a, c) && Lacks(b, c)
  {
    if !Lacks(b, c) {
      var i :| 0 <= i < |b| && b[i] == c;
      assert (a + b)[|a| + i] == c;
    }
    if !Lacks(a, c) {
      var i :| 0 <= i < |a| && a[i] == c;
      assert (a + b)[i] == c;
    }
  }

  /** Escaping moves no brace and no bracket. */
  lemma {:induction false} EscapeMark(s: string)
    ensures FirstMark(Escape(s)) == FirstMark(s)
  {
    if s != "" {
      EscapeMark(s[1..]);
      EscapeCharLacks(s[0], '{');
      EscapeCharLacks(s[0], ']');
      hide EscapeChar;
      MarkConcat(EscapeChar(s[0]), Escape(s[1..]));
      NoMark(EscapeChar(s[0]));
    }
  }

  lemma {:induction false} EscapeAfterBrace(s: string)
    ensures AfterBrace(Escape(s)) == Escape(AfterBrace(s))
  {
    if s != "" {
      EscapeCharLacks(s[0], '}');
      hide EscapeChar;
      AfterBraceConcat(EscapeChar(s[0]), Escape(s[1..]));
      if s[0] == '}' {
        assert AfterBrace("}") == "";
        assert "" + Escape(s[1..]) == Escape(s[1..]);
      } else {
        EscapeAfterBrace(s[1..]);
      }
    }
  }

  lemma {:induction false} AfterBraceIsEnd(s: string)
    ensures |AfterBrace(s)| <= |s| && AfterBrace(s) == s[|s| - |AfterBrace(s)|..]
  {
    if s != "" && s[0] != '}' {
      AfterBraceIsEnd(s[1..]);
    }
  }

  // ---- The end of an entry, as the scanner sees it ----

  predicate KnownDirection(e: NamedEntry) {
    e.entry.direction == "RxPDO" || e.entry.direction == "TxPDO"
  }

  /** The first `k` members, each with its comma. */
  function Front(ms: seq<Member>, k: nat): string
    requires k <= |ms|
  {
    if k == 0 then "" else Front(ms, k - 1) + (KeyText(ms[k - 1].key) + (Print(ms[k - 1].value) + ","))
  }

  lemma {:induction false} FrontIs(ms: seq<Member>, k: nat, more: string)
    requires k < |ms|
    ensures MembersFrom(ms, more) == Front(ms, k) + MembersFrom(ms[k..], more)
  {
    if k == 0 {
      assert ms[0..] == ms && "" + MembersFrom(ms, more) == MembersFrom(ms, more);
    } else {
      FrontIs(ms, k - 1, more);
      MembersAt(ms, k - 1, more);
      assert Front(ms, k) == Front(ms, k - 1) + (KeyText(ms[k - 1].key) + (Print(ms[k - 1].value) + ","));
      hide *;
      RegroupFront(Front(ms, k - 1), KeyText(ms[k - 1].key), Print(ms[k - 1].value), MembersFrom(ms[k..], more));
    }
  }

  lemma RegroupFront(front: string, key: string, text: string, tail: string)
    ensures front + (key + (text + ("," + tail))) == (front + (key + (text + ","))) + tail
  {
  }

  lemma SmallTextLacksBrace(e: NamedEntry, k: nat)
    requires KnownDirection(e) && k < 3
    ensures Lacks(Print(EntryMembers(e)[k].value), '}') && Lacks(KeyText(EntryMembers(e)[k].key), '}')
  {
    assert Lacks(EntryMembers(e)[k].key, '}');
    if k == 1 {
      EscapeOfKey(e.entry.direction);
    }
  }

  lemma {:induction false} FrontLacksBrace(e: NamedEntry, k: nat)
    requires KnownDirection(e) && k <= 3
    ensures Lacks(Front(EntryMembers(e), k), '}')
  {
    if k > 0 {
      FrontLacksBrace(e, k - 1);
      SmallTextLacksBrace(e, k - 1);
      hide EntryMembers, Print, KeyText, KnownDirection;
    }
  }

  /** A printed entry up to and behind its name. */
  function BeforeName(e: NamedEntry): string {
    "{" + (Front(EntryMembers(e), 3) + (KeyText("name") + "\""))
  }

  function BehindName(e: NamedEntry, more: string): string {
    "\"" + Rest(EntryMembers(e)[4..], "}" + more)
  }

  lemma EntryParts(e: NamedEntry, more: string)
    ensures EntryObject(e, more) == BeforeName(e) + (Escape(e.name) + BehindName(e, more))
  {
    var ms := EntryMembers(e);
    FrontIs(ms, 3, "}" + more);
    MembersAt(ms, 3, "}" + more);
    assert ms[3] == Member("name", Str(e.name)) && Print(ms[3].value) == Quoted(e.name);
    hide MembersFrom, Rest, KeyText, Print, EntryMembers, Front, Escape;
    RegroupName(Front(ms, 3), KeyText("name"), Escape(e.name), Rest(ms[4..], "}" + more));
  }

  lemma RegroupName(front: string, key: string, name: string, rest: string)
    ensures "{" + (front + (key + (("\"" + name + "\"") + rest)))
      == ("{" + (front + (key + "\""))) + (name + ("\"" + rest))
  {
  }

  lemma BeforeNameLacksBrace(e: NamedEntry)
    requires KnownDirection(e)
    ensures Lacks(BeforeName(e), '}')
  {
    FrontLacksBrace(e, 3);
    hide Front, EntryMembers;
  }

  lemma NumberLacks(key: string, n: int, rest: string, c: char)
    requires (c == '{' || c == ']') && Lacks(key, c) && Lacks(rest, c)
    ensures Lacks("," + (KeyText(key) + (IntText(n) + rest)), c)
  {
    DecimalLacks(if n < 0 then -n else n, c);
    hide Decimal;
  }

  lemma {:induction false} TailLacks(e: NamedEntry, k: nat, c: char)
    requires 4 <= k <= 7 && (c == '{' || c == ']')
    ensures Lacks(Rest(EntryMembers(e)[k..], "}"), c)
    decreases 7 - k
  {
    var ms := EntryMembers(e);
    if k < 7 {
      TailLacks(e, k + 1, c);
      NumberMember(e, k);
      assert Lacks(ms[k].key, c);
      hide EntryMembers, Lacks, IntText, KeyText;
      MembersAt(ms, k, "}");
      assert Rest(ms[k..], "}") == "," + MembersFrom(ms[k..], "}");
      hide Rest, MembersFrom;
      NumberLacks(ms[k].key, ms[k].value.n, Rest(ms[k + 1..], "}"), c);
    }
  }

  lemma NumberMember(e: NamedEntry, k: nat)
    requires 4 <= k < 7
    ensures EntryMembers(e)[k].value.Num?
    ensures Print(EntryMembers(e)[k].value) == IntText(EntryMembers(e)[k].value.n)
  {
  }

  lemma {:induction false} RestHasBrace(ms: seq<Member>, more: string)
    ensures !Lacks(Rest(ms, "}" + more), '}')
  {
    if ms == [] {
      assert ("}" + more)[0] == '}';
    } else {
      RestHasBrace(ms[1..], more);
      var front, tail := "," + (KeyText(ms[0].key) + Print(ms[0].value)), Rest(ms[1..], "}" + more);
      assert Rest(ms, "}" + more) == front + tail;
      hide Rest, Print, KeyText;
      LacksConcat(front, tail, '}');
    }
  }

  lemma BehindNameHas(e: NamedEntry, more: string)
    ensures !Lacks(BehindName(e, more), '}')
    ensures FirstMark(BehindName(e, "")) == None
  {
    RestHasBrace(EntryMembers(e)[4..], more);
    TailLacks(e, 4, '{');
    TailLacks(e, 4, ']');
    assert "}" + "" == "}";
    NoMark(BehindName(e, ""));
    hide Rest, EntryMembers;
    LacksConcat("\"", Rest(EntryMembers(e)[4..], "}" + more), '}');
  }

  /** What is left of a printed entry after its first closing brace. */
  function Post(e: NamedEntry): string {
    AfterBrace(EntryObject(e, ""))
  }

  /** The marks in it are those of the name behind the name's first closing brace. */
  lemma PostIs(e: NamedEntry)
    requires KnownDirection(e)
    ensures FirstMark(Post(e)) == FirstMark(AfterBrace(e.name))
    ensures FirstMark(Post(e)).Some? ==> Post(e) == Escape(AfterBrace(e.name)) + BehindName(e, "")
  {
    var a, n, b := BeforeName(e), Escape(e.name), BehindName(e, "");
    EntryParts(e, "");
    BeforeNameLacksBrace(e);
    BehindNameHas(e, "");
    hide BeforeName, BehindName, EntryObject, Escape, KnownDirection;
    AfterBraceConcat(a, n + b);
    AfterBraceConcat(n, b);
    EscapeLacks(e.name, '}');
    EscapeAfterBrace(e.name);
    if Lacks(e.name, '}') {
      AfterBraceIsEnd(b);
      NoMarkInEnd(b, AfterBrace(b));
      NoBraceNothing(e.name);
    } else {
      MarkConcat(Escape(AfterBrace(e.name)), b);
      EscapeMark(AfterBrace(e.name));
    }
  }

  lemma NoMarkInEnd(s: string, t: string)
    requires FirstMark(s) == None && |t| <= |s| && t == s[|s| - |t|..]
    ensures FirstMark(t) == None
  {
    NoMark(s);
    NoMark(t);
    hide FirstMark;
  }

  lemma {:induction false} NoBraceNothing(s: string)
    requires Lacks(s, '}')
    ensures AfterBrace(s) == ""
  {
    if s != "" {
      NoBraceNothing(s[1..]);
    }
  }

  lemma EntryText(e: NamedEntry, more: string)
    ensures EntryObject(e, more) == EntryObject(e, "") + more
    ensures !Lacks(EntryObject(e, ""), '}')
  {
    EntryIsPrinted(e, "");
    EntryIsPrinted(e, more);
    var text := Print(EntryJson(e));
    assert text[|text| - 1] == '}';
    hide EntryObject, Print, EntryJson;
    assert text + "" == text;
  }

  /** Cutting a printed entry at its first closing brace. */
  lemma CutAtBrace(e: NamedEntry, more: string)
    ensures StrStr(EntryObject(e, more), "}") == Some("}" + (Post(e) + more))
  {
    var text := EntryObject(e, "");
    EntryText(e, more);
    hide EntryObject;
    LacksConcat(text, more, '}');
    AfterBraceConcat(text, more);
    BraceIsFound(text + more);
  }

  // ---- A stray entry ----

  /** From anywhere inside a name a search for a later key ends where it does from the start of the entry. */
  lemma LateKey(e: NamedEntry, j: nat, k: nat, more: string)
    requires j <= |Escape(e.name)| && 4 <= k < 7
    ensures var needle := KeyText(EntryMembers(e)[k].key);
      StrStr(Escape(e.name)[j..] + BehindName(e, more), needle) == StrStr(EntryObject(e, more), needle)
  {
    var ms := EntryMembers(e);
    var needle := KeyText(ms[k].key);
    EntryKeys(e);
    LateMembers(e, k, more);
    EscapeGuards(e.name);
    assert ms[4..][0] == ms[4];
    assert Rest(ms[4..], "}" + more) == "," + MembersFrom(ms[4..], "}" + more);
    hide EntryMembers, MembersFrom, Rest, EntryObject, Escape, KeyText, Apart;
    InsideName(e.name, MembersFrom(ms[4..], "}" + more), ms[k].key, j);
  }

  lemma InsideName(name: string, rest: string, key: string, j: nat)
    requires IsKey(key) && QuotesGuarded(Escape(name)) && j <= |Escape(name)|
    ensures StrStr(Escape(name)[j..] + ("\"" + ("," + rest)), KeyText(key)) == StrStr(rest, KeyText(key))
  {
    var n, needle := Escape(name), KeyText(key);
    var whole := Quoted(name) + "," + rest;
    var skip := n[j..] + "\",";
    NameSuffix(n, rest, j);
    assert whole == ("\"" + n + "\"") + "," + rest;
    hide Escape, KeyText, Quoted, StrStr, QuotesGuarded, IsKey;
    forall i | 0 <= i < |skip| ensures !(needle <= (skip + rest)[i..]) {
      NoKeyInQuoted(name, rest, key, j + 1 + i);
      assert (skip + rest)[i..] == whole[j + 1 + i..];
    }
    StrStrSkips(skip, rest, needle);
  }

  lemma NameSuffix(n: string, rest: string, j: nat)
    requires j <= |n|
    ensures n[j..] + ("\"" + ("," + rest)) == (n[j..] + "\",") + rest
    ensures (("\"" + n + "\"") + "," + rest)[j + 1..] == (n[j..] + "\",") + rest
  {
  }

  lemma LateMembers(e: NamedEntry, k: nat, more: string)
    requires 4 <= k < 7
    ensures var ms, needle := EntryMembers(e), KeyText(EntryMembers(e)[k].key);
      StrStr(MembersFrom(ms[4..], "}" + more), needle) == StrStr(EntryObject(e, more), needle)
  {
    EntryKeys(e);
    var ms, needle := EntryMembers(e), KeyText(EntryMembers(e)[k].key);
    assert needle[0] == '"';
    StrStrSkipsChar("{", MembersFrom(ms, "}" + more), needle);
    assert EntryObject(e, more) == "{" + MembersFrom(ms, "}" + more);
    hide EntryMembers, MembersFrom, EntryObject, KeyText, Apart, IsKey, Simple;
    FindMember(ms, k, "}" + more, needle);
    FindMember(ms[4..], k - 4, "}" + more, needle);
    assert ms[4..][k - 4..] == ms[k..];
  }

  /** The first opening brace in the last `m` characters of `n`. */
  lemma BraceInEnd(n: string, m: nat, b: string, more: string) returns (j: nat)
    requires m <= |n| && FirstMark(n[|n| - m..]) == Some('{')
    ensures j <= |n| && StrStr((n[|n| - m..] + b) + more, "{") == Some(n[j..] + (b + more))
  {
    var after := n[|n| - m..];
    var k := BraceAt(after);
    hide FirstMark;
    j := |n| - m + k;
    var obj := n[j..] + (b + more);
    assert after[k..] == n[j..];
    assert (after + b) + more == after[..k] + obj;
    assert obj[0] == after[k];
    StrStrSkipsChar(after[..k], obj, "{");
    StrStrHere(obj, "{");
  }

  /** Where the scan goes on inside a name, it takes the text from some brace in that name for an entry. */
  lemma StrayObject(e: NamedEntry, more: string) returns (j: nat)
    requires KnownDirection(e) && FirstMark(AfterBrace(e.name)) == Some('{')
    ensures j <= |Escape(e.name)|
    ensures StrStr(Post(e) + more, "{") == Some(Escape(e.name)[j..] + BehindName(e, more))
  {
    PostIs(e);
    BehindNameMore(e, more);
    EscapeAfterBrace(e.name);
    AfterBraceIsEnd(Escape(e.name));
    EscapeMark(AfterBrace(e.name));
    hide *;
    j := BraceInEnd(Escape(e.name), |Escape(AfterBrace(e.name))|, BehindName(e, ""), more);
  }

  /** The entry it reads there has slave, subindex and offset of the entry with that name. */
  lemma StrayEntry(e: NamedEntry, more: string, room: nat)
    requires KnownDirection(e) && FirstMark(AfterBrace(e.name)) == Some('{') && room > 0
    ensures var r := ScanEntries(Post(e) + more, room);
      && r.0 != [] && r.0[0].slave == e.entry.slave && r.0[0].sub == e.entry.sub && r.0[0].offset == e.entry.offset
  {
    var j := StrayObject(e, more);
    StrayFields(e, j, more);
    var obj := Escape(e.name)[j..] + BehindName(e, more);
    LacksConcat(Escape(e.name)[j..], BehindName(e, more), '}');
    BehindNameHas(e, more);
    BraceIsFound(obj);
    hide StrStr, EntryAt, Lacks, LoopEnds, Escape, BehindName, Post, FirstMark, AfterBrace, KnownDirection;
  }

  lemma BehindNameMore(e: NamedEntry, more: string)
    ensures BehindName(e, more) == BehindName(e, "") + more
  {
    EntryText(e, more);
    EntryParts(e, more);
    EntryParts(e, "");
    hide BeforeName, Escape, BehindName, EntryObject;
    SameEnd(BeforeName(e), Escape(e.name), BehindName(e, more), BehindName(e, ""), more);
  }

  lemma SameEnd(front: string, name: string, a: string, b: string, more: string)
    requires front + (name + a) == front + (name + b) + more
    ensures a == b + more
  {
    var whole := front + (name + a);
    assert a == whole[|front| + |name|..];
    assert b + more == (front + (name + b) + more)[|front| + |name|..];
  }

  lemma {:induction false} BraceAt(t: string) returns (j: nat)
    requires FirstMark(t) == Some('{')
    ensures j < |t| && t[j] == '{' && Lacks(t[..j], '{')
  {
    if t[0] == '{' {
      j := 0;
    } else {
      var k := BraceAt(t[1..]);
      j := k + 1;
      assert t[..j] == [t[0]] + t[1..][..k];
    }
  }

  lemma StrayFields(e: NamedEntry, j: nat, more: string)
    requires j <= |Escape(e.name)|
    ensures var r := EntryAt(Escape(e.name)[j..] + BehindName(e, more));
      r.slave == e.entry.slave && r.sub == e.entry.sub && r.offset == e.entry.offset
  {
    LateKey(e, j, 4, more);
    LateKey(e, j, 5, more);
    LateKey(e, j, 6, more);
    EntryAtRecovers(e, more);
    assert EntryMembers(e)[4].key == "offset" && EntryMembers(e)[5].key == "slave" && EntryMembers(e)[6].key == "subindex";
    hide EntryObject, EntryMembers, BehindName, StrStr, KeyText, Escape, DirectionField, ScanUnsigned;
  }

  // ---- The scan of a printed table ----

  function RecoveredAll(es: seq<NamedEntry>): (r: seq<MirrorEntry>)
    ensures |r| == |es|
  {
    seq(|es|, i requires 0 <= i < |es| => Recovered(es[i]))
  }

  lemma RecoveredStep(es: seq<NamedEntry>, n: nat)
    requires 0 < n <= |es|
    ensures RecoveredAll(es[..n]) == [Recovered(es[0])] + RecoveredAll(es[1..][..n - 1])
  {
    hide Recovered;
  }

  function AfterFirst(es: seq<NamedEntry>, more: string): string
    requires es != []
  {
    if |es| == 1 then more else "," + EntriesFrom(es[1..], more)
  }

  lemma StartsWithBrace(es: seq<NamedEntry>, more: string)
    requires es != []
    ensures EntriesFrom(es, more) == EntryObject(es[0], AfterFirst(es, more))
    ensures EntriesFrom(es, more) != "" && EntriesFrom(es, more)[0] == '{'
    ensures FirstMark(EntriesFrom(es, more)) == Some('{')
  {
    hide MembersFrom;
  }

  /** One round of the loop over a printed entry. */
  lemma ScanOne(junk: string, e: NamedEntry, more: string, room: nat)
    requires room > 0 && FirstMark(junk) == None
    ensures var p := Post(e) + more;
      ScanEntries(junk + EntryObject(e, more), room)
      == if FirstMark(p) == Some('{') then ([Recovered(e)] + ScanEntries(p, room - 1).0, ScanEntries(p, room - 1).1)
         else ([Recovered(e)], p)
  {
    var text, p := EntryObject(e, more), Post(e) + more;
    assert text != "" && text[0] == '{';
    NoMark(junk);
    StrStrSkipsChar(junk, text, "{");
    StrStrHere(text, "{");
    CutAtBrace(e, more);
    EntryAtRecovers(e, more);
    MarkDecides(p);
    hide EntryObject, StrStr, EntryAt, LoopEnds, MoreFollow, Recovered, FirstMark, Post;
    assert ("}" + p)[1..] == p;
  }

  /** After an entry of this name the loop does what it should: go on to the next entry, stop after the last one, or,
      with the room used up, tell whether there are more. */
  predicate Placed(name: string, last: bool, full: bool) {
    var mark := FirstMark(AfterBrace(name));
    if last then mark != Some('{') else if full then mark != Some(']') else mark == None
  }

  predicate Scannable(es: seq<NamedEntry>, room: nat) {
    forall i :: 0 <= i < |es| && i < room ==> Placed(es[i].name, i + 1 == |es|, i + 1 == room)
  }

  /** Neighbours can be told apart by slave, subindex or offset. */
  predicate Separate(es: seq<NamedEntry>, room: nat) {
    forall i :: 0 <= i && i + 1 < |es| && i + 1 < room ==> Distinct(es[i].entry, es[i + 1].entry)
  }

  predicate Distinct(a: MirrorEntry, b: MirrorEntry) {
    a.slave != b.slave || a.sub != b.sub || a.offset != b.offset
  }

  /** The entries in order, up to the room, and whether more follow. */
  predicate Right(es: seq<NamedEntry>, r: (seq<MirrorEntry>, string), room: nat) {
    && r.0 == RecoveredAll(es[..if |es| < room then |es| else room])
    && (|es| >= room ==> (MoreFollow(r.1) <==> |es| > room))
  }

  function Scanned(junk: string, es: seq<NamedEntry>, tail: string, room: nat): (seq<MirrorEntry>, string)
    requires es != []
  {
    ScanEntries(junk + EntriesFrom(es, "]" + tail), room)
  }

  lemma LastEntry(junk: string, es: seq<NamedEntry>, tail: string, room: nat)
    requires |es| == 1 && KnownDirection(es[0]) && room > 0 && FirstMark(junk) == None
    ensures Right(es, Scanned(junk, es, tail, room), room) <==> Placed(es[0].name, true, room == 1)
  {
    var e, more := es[0], "]" + tail;
    var p := Post(e) + more;
    StartsWithBrace(es, more);
    ScanOne(junk, e, more, room);
    PostIs(e);
    MarkConcat(Post(e), more);
    MarkDecides(p);
    ScanOver(p);
    assert FirstMark(more) == Some(']');
    if FirstMark(p) == Some('{') && room > 1 {
      StrayEntry(e, more, room - 1);
    }
    assert es[..1] == es && RecoveredAll(es) == [Recovered(e)];
    hide EntriesFrom, EntryObject, ScanEntries, MoreFollow, FirstMark, AfterBrace, Post, KnownDirection, RecoveredAll, Recovered;
  }

  lemma NextEntry(junk: string, es: seq<NamedEntry>, tail: string, room: nat)
    requires |es| > 1 && KnownDirection(es[0]) && room > 0 && FirstMark(junk) == None
    ensures var p, mark := Post(es[0]) + AfterFirst(es, "]" + tail), FirstMark(AfterBrace(es[0].name));
      && (MoreFollow(p) <==> mark != Some(']'))
      && Scanned(junk, es, tail, room) == (if mark == Some(']') then ([Recovered(es[0])], p)
           else ([Recovered(es[0])] + ScanEntries(p, room - 1).0, ScanEntries(p, room - 1).1))
  {
    var e, more := es[0], AfterFirst(es, "]" + tail);
    StartsWithBrace(es, "]" + tail);
    StartsWithBrace(es[1..], "]" + tail);
    ScanOne(junk, e, more, room);
    PostIs(e);
    MarkConcat(Post(e), more);
    MarkDecides(Post(e) + more);
    CommaMark(EntriesFrom(es[1..], "]" + tail));
    OnlyMarks(AfterBrace(e.name));
    hide EntriesFrom, EntryObject, ScanEntries, MoreFollow, FirstMark, AfterBrace, Post, Recovered;
  }

  lemma CommaMark(s: string)
    ensures FirstMark("," + s) == FirstMark(s)
  {
    assert ("," + s)[1..] == s;
  }

  lemma {:induction false} OnlyMarks(s: string)
    ensures FirstMark(s) == None || FirstMark(s) == Some('{') || FirstMark(s) == Some(']')
  {
    if s != "" {
      OnlyMarks(s[1..]);
    }
  }

  lemma FullEntry(junk: string, es: seq<NamedEntry>, tail: string)
    requires |es| > 1 && KnownDirection(es[0]) && FirstMark(junk) == None
    ensures Right(es, Scanned(junk, es, tail, 1), 1) <==> Placed(es[0].name, false, true)
  {
    NextEntry(junk, es, tail, 1);
    ScanOver(Post(es[0]) + AfterFirst(es, "]" + tail));
    assert RecoveredAll(es[..1]) == [Recovered(es[0])];
    hide Scanned, ScanEntries, MoreFollow, FirstMark, AfterBrace, AfterFirst, Post, KnownDirection, RecoveredAll, Recovered;
  }

  /** With room for another entry: the loop goes on to it, */
  lemma GoesOn(junk: string, es: seq<NamedEntry>, tail: string, room: nat)
    requires |es| > 1 && KnownDirection(es[0]) && room > 1 && FirstMark(junk) == None && Placed(es[0].name, false, false)
    ensures FirstMark(Post(es[0]) + ",") == None
    ensures Right(es, Scanned(junk, es, tail, room), room)
      <==> Right(es[1..], Scanned(Post(es[0]) + ",", es[1..], tail, room - 1), room - 1)
  {
    NextEntry(junk, es, tail, room);
    PostIs(es[0]);
    MarkConcat(Post(es[0]), ",");
    assert FirstMark(",") == None;
    assert FirstMark(AfterBrace(es[0].name)) == None;
    hide *;
    ScannedRest(Post(es[0]), es, tail, room - 1);
    RightStep(es, Scanned(Post(es[0]) + ",", es[1..], tail, room - 1), room);
  }

  lemma ScannedRest(post: string, es: seq<NamedEntry>, tail: string, room: nat)
    requires |es| > 1
    ensures ScanEntries(post + AfterFirst(es, "]" + tail), room) == Scanned(post + ",", es[1..], tail, room)
  {
    hide EntriesFrom, ScanEntries;
    assert post + ("," + EntriesFrom(es[1..], "]" + tail)) == (post + ",") + EntriesFrom(es[1..], "]" + tail);
  }

  lemma RightStep(es: seq<NamedEntry>, r: (seq<MirrorEntry>, string), room: nat)
    requires |es| > 1 && room > 1
    ensures Right(es, ([Recovered(es[0])] + r.0, r.1), room) <==> Right(es[1..], r, room - 1)
  {
    var n := if |es| < room then |es| else room;
    RecoveredStep(es, n);
    hide RecoveredAll, Recovered, MoreFollow;
    SameAfterFirst(Recovered(es[0]), r.0, RecoveredAll(es[1..][..n - 1]));
  }

  lemma SameAfterFirst(first: MirrorEntry, a: seq<MirrorEntry>, b: seq<MirrorEntry>)
    ensures [first] + a == [first] + b <==> a == b
  {
    assert ([first] + a)[1..] == a;
    assert ([first] + b)[1..] == b;
  }

  /** stops early, or strays. */
  lemma StopsOrStrays(junk: string, es: seq<NamedEntry>, tail: string, room: nat)
    requires |es| > 1 && KnownDirection(es[0]) && room > 1 && FirstMark(junk) == None && !Placed(es[0].name, false, false)
    requires Distinct(es[0].entry, es[1].entry)
    ensures !Right(es, Scanned(junk, es, tail, room), room)
  {
    var e, n := es[0], if |es| < room then |es| else room;
    NextEntry(junk, es, tail, room);
    OnlyMarks(AfterBrace(e.name));
    assert RecoveredAll(es[..n])[1] == Recovered(es[1]);
    assert Distinct(e.entry, Recovered(es[1]));
    if FirstMark(AfterBrace(e.name)) == Some('{') {
      StrayEntry(e, AfterFirst(es, "]" + tail), room - 1);
    }
    hide ScanEntries, Scanned, MoreFollow, FirstMark, AfterBrace, AfterFirst, Post, KnownDirection, RecoveredAll, Recovered;
  }

  /** From a cursor before the first entry, the loop gets the table right if every name up to the room is placed well;
      and only then, where neighbours can be told apart. */
  lemma {:induction false} ScanPrinted(junk: string, es: seq<NamedEntry>, tail: string, room: nat)
    requires es != [] && room > 0 && FirstMark(junk) == None && forall i :: 0 <= i < |es| ==> KnownDirection(es[i])
    ensures Scannable(es, room) ==> Right(es, Scanned(junk, es, tail, room), room)
    ensures Separate(es, room) && Right(es, Scanned(junk, es, tail, room), room) ==> Scannable(es, room)
    decreases |es|
  {
    hide Scanned, FirstMark, Post, Placed, Right, KnownDirection, Distinct;
    if |es| == 1 {
      LastEntry(junk, es, tail, room);
    } else if room == 1 {
      FullEntry(junk, es, tail);
    } else {
      ScannableStep(es, room);
      if Placed(es[0].name, false, false) {
        GoesOn(junk, es, tail, room);
        ScanPrinted(Post(es[0]) + ",", es[1..], tail, room - 1);
      } else if Distinct(es[0].entry, es[1].entry) {
        StopsOrStrays(junk, es, tail, room);
      }
      hide Scannable, Separate;
    }
  }

  lemma ScannableStep(es: seq<NamedEntry>, room: nat)
    requires |es| > 1 && room > 1
    ensures Scannable(es, room) <==> Placed(es[0].name, false, false) && Scannable(es[1..], room - 1)
    ensures Separate(es, room) <==> Distinct(es[0].entry, es[1].entry) && Separate(es[1..], room - 1)
  {
    hide Placed, Distinct;
    var tail := es[1..];
    assert forall i :: 0 <= i < |tail| ==> tail[i] == es[i + 1];
    if Placed(es[0].name, false, false) && Scannable(tail, room - 1) {
      forall i | 0 <= i < |es| && i < room ensures Placed(es[i].name, i + 1 == |es|, i + 1 == room) {
        assert i > 0 ==> tail[i - 1] == es[i];
      }
    }
    if Distinct(es[0].entry, es[1].entry) && Separate(tail, room - 1) {
      forall i | 0 <= i && i + 1 < |es| && i + 1 < room ensures Distinct(es[i].entry, es[i + 1].entry) {
        assert i > 0 ==> tail[i - 1] == es[i] && tail[i - 1 + 1] == es[i + 1];
      }
    }
  }
}
