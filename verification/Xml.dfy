/** The XML a generator prints line by line, and an independent reader for it. */
module Xml {
  import opened Words
  import opened Text

  // ---- Character data (section 4.6 of XML 1.0 for the entities) ----

  /** Every occurrence of `c` replaced. */
  function Replace(s: string, c: char, to: string): string {
    if s == "" then "" else (if s[0] == c then to else [s[0]]) + Replace(s[1..], c, to)
  }

  function EscapeChar(c: char): (r: string)
    ensures |r| > 0
  {
    match c
    case '&' => "&amp;"
    case '<' => "&lt;"
    case '>' => "&gt;"
    case '"' => "&quot;"
    case '\'' => "&apos;"
    case _ => [c]
  }

  function Escape(s: string): string {
    if s == "" then "" else EscapeChar(s[0]) + Escape(s[1..])
  }

  /** The escaper as written: one replacement after the other, the ampersand first. */
  function FiveReplaces(s: string): string {
    Replace(Replace(Replace(Replace(Replace(s, '&', "&amp;"), '<', "&lt;"), '>', "&gt;"), '"', "&quot;"), '\'', "&apos;")
  }

  method XmlEscape(text: string) returns (out: string)
    ensures out == Escape(text)
  {
    out := text;
    out := Replace(out, '&', "&amp;");
    out := Replace(out, '<', "&lt;");
    out := Replace(out, '>', "&gt;");
    out := Replace(out, '"', "&quot;");
    out := Replace(out, '\'', "&apos;");
    ReplacesAreOnePass(text);
  }

  lemma {:induction false} ReplaceBoth(a: string, b: string, c: char, to: string)
    ensures Replace(a + b, c, to) == Replace(a, c, to) + Replace(b, c, to)
  {
    if a == "" {
      assert a + b == b && "" + Replace(b, c, to) == Replace(b, c, to);
    } else {
      var first := if a[0] == c then to else [a[0]];
      ReplaceBoth(a[1..], b, c, to);
      assert (a + b)[0] == a[0] && (a + b)[1..] == a[1..] + b;
      assert first + (Replace(a[1..], c, to) + Replace(b, c, to)) == (first + Replace(a[1..], c, to)) + Replace(b, c, to);
    }
  }

  lemma {:induction false} ReplaceNothing(s: string, c: char, to: string)
    requires Lacks(s, c)
    ensures Replace(s, c, to) == s
  {
    if s != "" {
      ReplaceNothing(s[1..], c, to);
      assert [s[0]] + s[1..] == s;
    }
  }

  lemma ReplaceIt(c: char, to: string)
    ensures Replace([c], c, to) == to
  {
    assert [c][1..] == "" && to + "" == to;
  }

  lemma OneCharReplaced(c: char)
    ensures FiveReplaces([c]) == EscapeChar(c)
  {
    hide Replace;
    if c == '&' {
      ReplaceIt('&', "&amp;");
      ReplaceNothing("&amp;", '<', "&lt;");
      ReplaceNothing("&amp;", '>', "&gt;");
      ReplaceNothing("&amp;", '"', "&quot;");
      ReplaceNothing("&amp;", '\'', "&apos;");
    } else if c == '<' {
      ReplaceNothing("<", '&', "&amp;");
      ReplaceIt('<', "&lt;");
      ReplaceNothing("&lt;", '>', "&gt;");
      ReplaceNothing("&lt;", '"', "&quot;");
      ReplaceNothing("&lt;", '\'', "&apos;");
    } else if c == '>' {
      ReplaceNothing(">", '&', "&amp;");
      ReplaceNothing(">", '<', "&lt;");
      ReplaceIt('>', "&gt;");
      ReplaceNothing("&gt;", '"', "&quot;");
      ReplaceNothing("&gt;", '\'', "&apos;");
    } else {
      ReplaceNothing([c], '&', "&amp;");
      ReplaceNothing([c], '<', "&lt;");
      ReplaceNothing([c], '>', "&gt;");
      if c == '"' {
        ReplaceIt('"', "&quot;");
        ReplaceNothing("&quot;", '\'', "&apos;");
      } else {
        ReplaceNothing([c], '"', "&quot;");
        if c == '\'' {
          ReplaceIt('\'', "&apos;");
        } else {
          ReplaceNothing([c], '\'', "&apos;");
        }
      }
    }
  }

  lemma FiveReplacesBoth(a: string, b: string)
    ensures FiveReplaces(a + b) == FiveReplaces(a) + FiveReplaces(b)
  {
    hide Replace;
    var a1, b1 := Replace(a, '&', "&amp;"), Replace(b, '&', "&amp;");
    ReplaceBoth(a, b, '&', "&amp;");
    var a2, b2 := Replace(a1, '<', "&lt;"), Replace(b1, '<', "&lt;");
    ReplaceBoth(a1, b1, '<', "&lt;");
    var a3, b3 := Replace(a2, '>', "&gt;"), Replace(b2, '>', "&gt;");
    ReplaceBoth(a2, b2, '>', "&gt;");
    ReplaceBoth(a3, b3, '"', "&quot;");
    ReplaceBoth(Replace(a3, '"', "&quot;"), Replace(b3, '"', "&quot;"), '\'', "&apos;");
  }

  /** The five replacements amount to one pass, character by character. */
  lemma {:induction false} ReplacesAreOnePass(s: string)
    ensures FiveReplaces(s) == Escape(s)
  {
    if s != "" {
      ReplacesAreOnePass(s[1..]);
      assert s == [s[0]] + s[1..];
      OneCharReplaced(s[0]);
      hide FiveReplaces, EscapeChar;
      FiveReplacesBoth([s[0]], s[1..]);
    }
  }

  /** Markup characters go out as the five predefined entities, all others as they are. */
  lemma EntityOf(c: char, s: string)
    ensures Escape("") == "" && Escape([c] + s) == Escape([c]) + Escape(s)
    ensures Escape([c]) == match c
      case '&' => "&amp;"
      case '<' => "&lt;"
      case '>' => "&gt;"
      case '"' => "&quot;"
      case '\'' => "&apos;"
      case _ => [c]
  {
    assert ([c] + s)[1..] == s && [c][1..] == "";
    assert EscapeChar(c) + "" == EscapeChar(c);
  }

  /** Reading character data: the five predefined entities, everything else as it stands. */
  function Unescape(s: string): string {
    if s == "" then ""
    else if "&amp;" <= s then "&" + Unescape(s[5..])
    else if "&lt;" <= s then "<" + Unescape(s[4..])
    else if "&gt;" <= s then ">" + Unescape(s[4..])
    else if "&quot;" <= s then "\"" + Unescape(s[6..])
    else if "&apos;" <= s then "'" + Unescape(s[6..])
    else [s[0]] + Unescape(s[1..])
  }

  lemma UnescapeChar(c: char, rest: string)
    ensures Unescape(EscapeChar(c) + rest) == [c] + Unescape(rest)
  {
    var e, s := EscapeChar(c), EscapeChar(c) + rest;
    assert s[|e|..] == rest;
    if c == '&' {
      assert e == "&amp;";
    } else if c == '<' {
      assert e == "&lt;" && s[1] == 'l';
    } else if c == '>' {
      assert e == "&gt;" && s[1] == 'g';
    } else if c == '"' {
      assert e == "&quot;" && s[1] == 'q';
    } else if c == '\'' {
      assert e == "&apos;" && s[1] == 'a' && s[2] == 'p';
    } else {
      assert e == [c] && s[0] == c;
    }
  }

  lemma {:induction false} UnescapeEscape(s: string)
    ensures Unescape(Escape(s)) == s
  {
    if s != "" {
      UnescapeEscape(s[1..]);
      UnescapeChar(s[0], Escape(s[1..]));
      hide EscapeChar, Unescape;
      assert [s[0]] + s[1..] == s;
    }
  }

  lemma {:induction false} EscapeLacksMarkup(s: string)
    ensures Lacks(Escape(s), '<')
  {
    if s != "" {
      EscapeLacksMarkup(s[1..]);
      assert Lacks(EscapeChar(s[0]), '<');
      hide EscapeChar;
    }
  }
}
