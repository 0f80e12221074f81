/** Compact JSON text as the daemon prints it: what escaped strings and numerals cannot contain, and what that means for
    a search for a key in the printed text. */
module Json {
  import opened Words
  import opened Text

  datatype Value = Num(n: int) | Bool(b: bool) | Str(s: string) | Arr(items: seq<Value>) | Obj(members: seq<Member>)
  datatype Member = Member(key: string, value: Value)

  function EscapeChar(c: char): (s: string)
    ensures |s| > 0
  {
    if c == '"' then "\\\"" else if c == '\\' then "\\\\"
    else if c == '\n' then "\\n" else if c == '\r' then "\\r" else if c == '\t' then "\\t"
    else if c as int == 8 then "\\b" else if c as int == 12 then "\\f"
    else if (c as int) < 0x20 then "\\u00" + [HexDigit(c as int / 16), HexDigit(c as int % 16)]
    else [c]
  }

  function Escape(s: string): string {
    if s == "" then "" else EscapeChar(s[0]) + Escape(s[1..])
  }

  function Quoted(s: string): string {
    "\"" + Escape(s) + "\""
  }

  function Print(j: Value): string
    decreases j, 0
  {
    match j
    case Num(n) => IntText(n)
    case Bool(b) => if b then "true" else "false"
    case Str(s) => Quoted(s)
    case Arr(items) => "[" + PrintItems(items) + "]"
    case Obj(members) => "{" + PrintMembers(members) + "}"
  }

  function PrintItems(items: seq<Value>): string
    decreases items, 1
  {
    if items == [] then ""
    else if |items| == 1 then Print(items[0])
    else Print(items[0]) + "," + PrintItems(items[1..])
  }

  function PrintMembers(members: seq<Member>): string
    decreases members, 1
  {
    if members == [] then ""
    else
      var first := Quoted(members[0].key) + ":" + Print(members[0].value);
      if |members| == 1 then first else first + "," + PrintMembers(members[1..])
  }

  // ---- What escaped text cannot contain ----

  /** Inside escaped text every quote follows a backslash. */
  predicate QuotesGuarded(s: string) {
    forall i :: 0 <= i < |s| && s[i] == '"' ==> i > 0 && s[i - 1] == '\\'
  }

  lemma GuardedConcat(a: string, b: string)
    requires QuotesGuarded(a) && QuotesGuarded(b)
    ensures QuotesGuarded(a + b)
  {
    forall i | 0 <= i < |a + b| && (a + b)[i] == '"' ensures i > 0 && (a + b)[i - 1] == '\\' {
      if i >= |a| {
        assert b[i - |a|] == '"';
      }
    }
  }

  lemma {:induction false} EscapeGuards(s: string)
    ensures QuotesGuarded(Escape(s))
  {
    if s != "" {
      EscapeGuards(s[1..]);
      GuardedConcat(EscapeChar(s[0]), Escape(s[1..]));
    }
  }

  lemma {:induction false} EscapeHasNoNewline(s: string)
    ensures Lacks(Escape(s), '\n')
  {
    if s != "" {
      EscapeHasNoNewline(s[1..]);
      assert Lacks(EscapeChar(s[0]), '\n');
    }
  }

  lemma DecimalLacks(n: nat, c: char)
    requires !IsDigit(c)
    ensures Lacks(Decimal(n), c)
  {
  }

  /** A printed value is one line. */
  lemma {:induction false} PrintIsOneLine(j: Value)
    ensures Lacks(Print(j), '\n')
    decreases j, 0
  {
    match j
    case Num(n) =>
      DecimalLacks(if n < 0 then -n else n, '\n');
    case Bool(_) =>
    case Str(s) => EscapeHasNoNewline(s);
    case Arr(items) => ItemsAreOneLine(items);
    case Obj(members) => MembersAreOneLine(members);
  }

  lemma {:induction false} ItemsAreOneLine(items: seq<Value>)
    ensures Lacks(PrintItems(items), '\n')
    decreases items, 1
  {
    if items != [] {
      PrintIsOneLine(items[0]);
      ItemsAreOneLine(items[1..]);
      hide Print;
    }
  }

  lemma {:induction false} MembersAreOneLine(members: seq<Member>)
    ensures Lacks(PrintMembers(members), '\n')
    decreases members, 1
  {
    if members != [] {
      EscapeHasNoNewline(members[0].key);
      PrintIsOneLine(members[0].value);
      MembersAreOneLine(members[1..]);
      hide Escape, Print;
      var first := Quoted(members[0].key) + ":" + Print(members[0].value);
      assert Lacks(first, '\n');
      hide Quoted;
      assert Lacks(first + "," + PrintMembers(members[1..]), '\n');
      hide Lacks;
    }
  }

  // ---- Searching for a key ----

  /** A key as it appears in the text, colon included. */
  function KeyText(key: string): (s: string)
    ensures |s| == |key| + 3
  {
    "\"" + key + "\":"
  }

  predicate IsKey(key: string) {
    |key| > 0 && forall i :: 0 <= i < |key| ==> 'a' <= key[i] <= 'z' || 'A' <= key[i] <= 'Z' || key[i] == '_'
  }

  /** No search for one key stops inside another one. */
  lemma PastKey(other: string, rest: string, key: string, needle: string)
    requires IsKey(other) && IsKey(key) && KeyText(key) <= needle
    requires exists i :: 0 <= i < |other| && i < |key| && other[i] != key[i]
    ensures StrStr(KeyText(other) + rest, needle) == StrStr(rest, needle)
  {
    var k, t := KeyText(other), KeyText(other) + rest;
    forall i | 0 <= i < |k| ensures !(needle <= t[i..]) {
      if i == 0 {
        var d :| 0 <= d < |other| && d < |key| && other[d] != key[d];
        assert KeyText(key)[d + 1] == key[d] && k[d + 1] == other[d];
        Mismatch(needle, t, i, d + 1);
      } else if i == |k| - 2 {
        assert KeyText(key)[1] == key[0] && k[i + 1] == ':';
        Mismatch(needle, t, i, 1);
      } else {
        assert KeyText(key)[0] == '"';
        Mismatch(needle, t, i, 0);
      }
    }
    StrStrSkips(k, rest, needle);
  }

  lemma Mismatch(needle: string, t: string, i: nat, d: nat)
    requires d < |needle| && i <= |t| && (i + d < |t| ==> needle[d] != t[i + d])
    ensures !(needle <= t[i..])
  {
    assert i + d < |t| ==> t[i..][d] == t[i + d];
  }

  /** Nor inside a quoted string, whatever it says. */
  lemma PastQuoted(s: string, rest: string, key: string, needle: string)
    requires IsKey(key) && KeyText(key) <= needle
    ensures StrStr(Quoted(s) + ("," + rest), needle) == StrStr(rest, needle)
  {
    EscapeGuards(s);
    var q := Quoted(s) + ",";
    assert Quoted(s) + ("," + rest) == q + rest;
    forall i | 0 <= i < |q| ensures !(needle <= (q + rest)[i..]) {
      NoKeyInQuoted(s, rest, key, i);
    }
    StrStrSkips(q, rest, needle);
  }

  /** The characters of a quoted string followed by a comma, one by one. */
  lemma QuotedChars(s: string, rest: string)
    ensures var e, t := Escape(s), Quoted(s) + "," + rest;
      && |t| == |e| + 3 + |rest| && t[|e| + 1] == '"' && t[|e| + 2] == ','
      && forall p :: 0 <= p < |e| ==> t[p + 1] == e[p]
  {
    hide Escape;
  }

  lemma NoKeyInQuoted(s: string, rest: string, key: string, i: nat)
    requires IsKey(key) && QuotesGuarded(Escape(s)) && i < |Escape(s)| + 3
    ensures !(KeyText(key) <= (Quoted(s) + "," + rest)[i..])
  {
    QuotedChars(s, rest);
    KeyChars(key);
    var e, t, needle := Escape(s), Quoted(s) + "," + rest, KeyText(key);
    hide Escape, Quoted, KeyText;
    var close, j := |e| + 1, i + |key| + 1;
    if i > close {
      Mismatch(needle, t, i, 0);
    } else if i == close {
      Mismatch(needle, t, i, 1);
    } else if j > close {
      Mismatch(needle, t, i, close - i);
    } else if j == close {
      Mismatch(needle, t, i, |key| + 2);
    } else if t[j] == '"' {
      GuardBefore(e, t, j);
      Mismatch(needle, t, i, |key|);
    } else {
      Mismatch(needle, t, i, |key| + 1);
    }
  }

  lemma KeyChars(key: string)
    requires IsKey(key)
    ensures var k := KeyText(key);
      && k[0] == '"' && k[|key| + 1] == '"' && k[|key| + 2] == ':'
      && forall p :: 1 <= p <= |key| ==> k[p] != '"' && k[p] != '\\' && k[p] != ','
  {
  }

  lemma GuardBefore(e: string, t: string, j: nat)
    requires QuotesGuarded(e) && 1 <= j <= |e| < |t| && (forall p :: 0 <= p < |e| ==> t[p + 1] == e[p]) && t[j] == '"'
    ensures j > 1 && t[j - 1] == '\\'
  {
    assert e[j - 1] == '"';
    assert t[j - 1] == e[j - 2];
  }

  /** Nor inside a numeral or other text without quotes. */
  lemma PastPlain(plain: string, rest: string, needle: string)
    requires needle != "" && needle[0] == '"' && Lacks(plain, '"')
    ensures StrStr(plain + ("," + rest), needle) == StrStr(rest, needle)
  {
    assert plain + ("," + rest) == (plain + ",") + rest;
    StrStrSkipsChar(plain + ",", rest, needle);
  }
}
