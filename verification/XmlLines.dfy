/** Elements and the indented lines they are printed as, and the marks and stretches of text that such lines fall into
    when they are read: the lexical half of the reader, with the lemmas that lead up to LexRenderAll. */
module XmlLines {
  import opened Words
  import opened Text
  import opened Xml

  datatype Node =
    | Leaf(tag: string, text: string)
    | Empty(tag: string)
    | Branch(tag: string, attrs: string, children: seq<Node>)

  predicate IsName(s: string) {
    |s| > 0 && forall i :: 0 <= i < |s| ==> 'a' <= s[i] <= 'z' || 'A' <= s[i] <= 'Z'
  }

  /** Nothing, or attributes after a space; they contain no '>' and do not end in a slash. */
  predicate IsAttrs(s: string) {
    s == "" || (s[0] == ' ' && Lacks(s, '>') && s[|s| - 1] != '/')
  }

  predicate WellFormed(n: Node) {
    IsName(n.tag) && (n.Branch? ==> IsAttrs(n.attrs) && n.children != [] && AllWellFormed(n.children))
  }

  predicate AllWellFormed(ns: seq<Node>) {
    forall i :: 0 <= i < |ns| ==> WellFormed(ns[i])
  }

  // ---- Printing ----

  function Spaces(d: nat): (s: string)
    ensures |s| == d && forall i :: 0 <= i < d ==> s[i] == ' '
  {
    seq(d, _ => ' ')
  }

  function LeafLine(d: nat, tag: string, text: string): string {
    Spaces(d) + "<" + tag + ">" + Escape(text) + "</" + tag + ">\n"
  }

  function EmptyLine(d: nat, tag: string): string {
    Spaces(d) + "<" + tag + "/>\n"
  }

  function OpenLine(d: nat, tag: string, attrs: string): string {
    Spaces(d) + "<" + tag + attrs + ">\n"
  }

  function CloseLine(d: nat, tag: string): string {
    Spaces(d) + "</" + tag + ">\n"
  }

  function Render(n: Node, d: nat): string
    decreases n, 0
  {
    match n
    case Leaf(tag, text) => LeafLine(d, tag, text)
    case Empty(tag) => EmptyLine(d, tag)
    case Branch(tag, attrs, children) => OpenLine(d, tag, attrs) + RenderAll(children, d + 2) + CloseLine(d, tag)
  }

  function RenderAll(ns: seq<Node>, d: nat): string
    decreases ns, 1
  {
    if ns == [] then "" else Render(ns[0], d) + RenderAll(ns[1..], d)
  }

  lemma {:induction false} RenderBoth(a: seq<Node>, b: seq<Node>, d: nat)
    ensures RenderAll(a + b, d) == RenderAll(a, d) + RenderAll(b, d)
    decreases |a|
  {
    if a == [] {
      assert a + b == b && "" + RenderAll(b, d) == RenderAll(b, d);
    } else {
      RenderBoth(a[1..], b, d);
      assert (a + b)[0] == a[0] && (a + b)[1..] == a[1..] + b;
      assert RenderAll(a + b, d) == Render(a[0], d) + RenderAll(a[1..] + b, d);
      hide Render;
      assert RenderAll(a, d) == Render(a[0], d) + RenderAll(a[1..], d);
      hide *;
      TextAssoc(Render(a[0], d), RenderAll(a[1..], d), RenderAll(b, d));
    }
  }

  lemma TextAssoc(a: string, b: string, c: string)
    ensures a + (b + c) == (a + b) + c
  {
  }

  lemma RenderOne(n: Node, d: nat)
    ensures RenderAll([n], d) == Render(n, d)
  {
    hide Render;
    assert [n][1..] == [] && Render(n, d) + "" == Render(n, d);
  }

  // ---- Reading: marks and character data ----

  /** The text between '<' and '>', or a stretch of text outside. */
  datatype Tok = Mark(body: string) | Chars(text: string)

  /** The index of the first `c`; the length of the text when there is none. */
  function Index(s: string, c: char): (i: nat)
    ensures i <= |s|
  {
    if s == "" || s[0] == c then 0 else 1 + Index(s[1..], c)
  }

  function Lex(s: string): seq<Tok>
    decreases |s|
  {
    if s == "" then []
    else if s[0] == '<' then
      var i := Index(s, '>');
      if i == |s| then [Chars(s)] else [Mark(s[1..i])] + Lex(s[i + 1..])
    else
      var i := Index(s, '<');
      [Chars(s[..i])] + Lex(s[i..])
  }

  lemma {:induction false} IndexOf(a: string, rest: string, c: char)
    requires Lacks(a, c) && (rest == "" || rest[0] == c)
    ensures Index(a + rest, c) == |a|
  {
    if a == "" {
      assert a + rest == rest;
    } else {
      assert (a + rest)[1..] == a[1..] + rest;
      IndexOf(a[1..], rest, c);
    }
  }

  lemma LexMark(body: string, rest: string)
    requires Lacks(body, '>')
    ensures Lex("<" + body + ">" + rest) == [Mark(body)] + Lex(rest)
  {
    var s := "<" + body + ">" + rest;
    assert s == ("<" + body) + (">" + rest);
    IndexOf("<" + body, ">" + rest, '>');
    assert s[1..|body| + 1] == body && s[|body| + 2..] == rest;
  }

  lemma LexChars(text: string, rest: string)
    requires text != "" && Lacks(text, '<') && (rest == "" || rest[0] == '<')
    ensures Lex(text + rest) == [Chars(text)] + Lex(rest)
  {
    var s := text + rest;
    IndexOf(text, rest, '<');
    assert s[..|text|] == text && s[|text|..] == rest;
  }

  function IfAny(text: string): seq<Tok> {
    if text == "" then [] else [Chars(text)]
  }

  lemma LexText(text: string, body: string, rest: string)
    requires Lacks(text, '<') && Lacks(body, '>')
    ensures Lex(text + ("<" + body + ">" + rest)) == IfAny(text) + ([Mark(body)] + Lex(rest))
  {
    LexMark(body, rest);
    var next := "<" + body + ">" + rest;
    if text == "" {
      assert text + next == next;
      assert [] + ([Mark(body)] + Lex(rest)) == [Mark(body)] + Lex(rest);
    } else {
      assert next[0] == '<';
      hide Lex;
      LexChars(text, next);
    }
  }

  // ---- What printed elements read as ----

  function Gap(d: nat): string {
    "\n" + Spaces(d)
  }

  function Toks(n: Node, d: nat): seq<Tok>
    decreases n, 0
  {
    match n
    case Leaf(tag, text) => [Chars(Gap(d)), Mark(tag)] + (IfAny(Escape(text)) + [Mark("/" + tag)])
    case Empty(tag) => [Chars(Gap(d)), Mark(tag + "/")]
    case Branch(tag, attrs, children) =>
      [Chars(Gap(d)), Mark(tag + attrs)] + (AllToks(children, d + 2) + [Chars(Gap(d)), Mark("/" + tag)])
  }

  function AllToks(ns: seq<Node>, d: nat): seq<Tok>
    decreases ns, 1
  {
    if ns == [] then [] else Toks(ns[0], d) + AllToks(ns[1..], d)
  }

  lemma GapIsText(d: nat)
    ensures Lacks(Gap(d), '<') && Gap(d) != ""
  {
  }

  /** A line that starts with a mark, read after the line before it. */
  lemma LexLine(d: nat, body: string, rest: string)
    requires Lacks(body, '>')
    ensures Lex("\n" + (Spaces(d) + "<" + body + ">" + rest)) == [Chars(Gap(d)), Mark(body)] + Lex(rest)
  {
    GapIsText(d);
    LexText(Gap(d), body, rest);
    hide Lex;
    LineParts(Spaces(d), body, rest);
    assert [Chars(Gap(d))] + ([Mark(body)] + Lex(rest)) == [Chars(Gap(d)), Mark(body)] + Lex(rest);
  }

  lemma LineParts(spaces: string, body: string, rest: string)
    ensures "\n" + (spaces + "<" + body + ">" + rest) == ("\n" + spaces) + ("<" + body + ">" + rest)
  {
  }

  lemma NameLacks(s: string)
    requires IsName(s)
    ensures Lacks(s, '>') && Lacks(s, '<') && Lacks(s, '/') && Lacks(s, ' ')
    ensures Lacks("/" + s, '>') && Lacks(s + "/", '>')
  {
  }

  lemma BodyLacks(tag: string, attrs: string)
    requires IsName(tag) && IsAttrs(attrs)
    ensures Lacks(tag + attrs, '>')
  {
  }

  lemma LexLeaf(tag: string, text: string, d: nat, rest: string)
    requires IsName(tag)
    ensures Lex("\n" + (LeafLine(d, tag, text) + rest)) == Toks(Leaf(tag, text), d) + Lex("\n" + rest)
  {
    NameLacks(tag);
    EscapeLacksMarkup(text);
    var e := Escape(text);
    var after := "<" + ("/" + tag) + ">" + ("\n" + rest);
    LexText(e, "/" + tag, "\n" + rest);
    LexLine(d, tag, e + after);
    LeafText(d, tag, e, rest);
    hide Lex, IfAny, Gap, Spaces, Escape;
    LeafToks([Chars(Gap(d)), Mark(tag)], IfAny(e), Mark("/" + tag), Lex("\n" + rest));
  }

  lemma LeafText(d: nat, tag: string, e: string, rest: string)
    ensures "\n" + ((Spaces(d) + "<" + tag + ">" + e + "</" + tag + ">\n") + rest)
      == "\n" + (Spaces(d) + "<" + tag + ">" + (e + ("<" + ("/" + tag) + ">" + ("\n" + rest))))
  {
  }

  lemma LeafToks(front: seq<Tok>, mid: seq<Tok>, close: Tok, rest: seq<Tok>)
    ensures front + (mid + ([close] + rest)) == (front + (mid + [close])) + rest
  {
  }

  lemma LexBody(d: nat, body: string, line: string, rest: string)
    requires Lacks(body, '>') && line == Spaces(d) + "<" + body + ">\n"
    ensures Lex("\n" + (line + rest)) == [Chars(Gap(d)), Mark(body)] + Lex("\n" + rest)
  {
    LexLine(d, body, "\n" + rest);
    hide Lex, Gap, Spaces, Lacks;
    assert "\n" + (line + rest) == "\n" + (Spaces(d) + "<" + body + ">" + ("\n" + rest));
  }

  lemma LexEmpty(tag: string, d: nat, rest: string)
    requires IsName(tag)
    ensures Lex("\n" + (EmptyLine(d, tag) + rest)) == Toks(Empty(tag), d) + Lex("\n" + rest)
  {
    NameLacks(tag);
    hide Lex, Gap, Spaces, Lacks;
    assert EmptyLine(d, tag) == Spaces(d) + "<" + (tag + "/") + ">\n";
    LexBody(d, tag + "/", EmptyLine(d, tag), rest);
  }

  lemma LexOpen(tag: string, attrs: string, d: nat, rest: string)
    requires IsName(tag) && IsAttrs(attrs)
    ensures Lex("\n" + (OpenLine(d, tag, attrs) + rest)) == [Chars(Gap(d)), Mark(tag + attrs)] + Lex("\n" + rest)
  {
    BodyLacks(tag, attrs);
    hide Lex, Gap, Spaces, Lacks;
    assert OpenLine(d, tag, attrs) == Spaces(d) + "<" + (tag + attrs) + ">\n";
    LexBody(d, tag + attrs, OpenLine(d, tag, attrs), rest);
  }

  lemma LexClose(tag: string, d: nat, rest: string)
    requires IsName(tag)
    ensures Lex("\n" + (CloseLine(d, tag) + rest)) == [Chars(Gap(d)), Mark("/" + tag)] + Lex("\n" + rest)
  {
    NameLacks(tag);
    hide Lex, Gap, Spaces, Lacks;
    assert CloseLine(d, tag) == Spaces(d) + "<" + ("/" + tag) + ">\n";
    LexBody(d, "/" + tag, CloseLine(d, tag), rest);
  }

  lemma RegroupText(a: string, b: string, c: string, rest: string)
    ensures (a + b + c) + rest == a + (b + (c + rest))
    ensures (a + b) + rest == a + (b + rest)
  {
  }

  lemma RegroupToks(a: seq<Tok>, b: seq<Tok>, c: seq<Tok>, rest: seq<Tok>)
    ensures a + (b + (c + rest)) == (a + (b + c)) + rest
    ensures a + (b + rest) == (a + b) + rest
  {
  }

  lemma {:induction false} LexRender(n: Node, d: nat, rest: string)
    requires WellFormed(n)
    ensures Lex("\n" + (Render(n, d) + rest)) == Toks(n, d) + Lex("\n" + rest)
    decreases n, 0
  {
    hide Lex, LeafLine, EmptyLine, OpenLine, CloseLine;
    match n
    case Leaf(tag, text) => LexLeaf(tag, text, d, rest);
    case Empty(tag) => LexEmpty(tag, d, rest);
    case Branch(tag, attrs, children) =>
      var open, close := OpenLine(d, tag, attrs), CloseLine(d, tag);
      RegroupText(open, RenderAll(children, d + 2), close, rest);
      LexOpen(tag, attrs, d, RenderAll(children, d + 2) + (close + rest));
      LexRenderAll(children, d + 2, close + rest);
      LexClose(tag, d, rest);
      hide AllToks, RenderAll, Gap;
      RegroupToks([Chars(Gap(d)), Mark(tag + attrs)], AllToks(children, d + 2),
                  [Chars(Gap(d)), Mark("/" + tag)], Lex("\n" + rest));
  }

  lemma {:induction false} LexRenderAll(ns: seq<Node>, d: nat, rest: string)
    requires AllWellFormed(ns)
    ensures Lex("\n" + (RenderAll(ns, d) + rest)) == AllToks(ns, d) + Lex("\n" + rest)
    decreases ns, 1
  {
    hide Lex, Toks, Render, WellFormed;
    if ns == [] {
      assert "" + rest == rest && [] + Lex("\n" + rest) == Lex("\n" + rest);
    } else {
      RegroupText(Render(ns[0], d), RenderAll(ns[1..], d), "", rest);
      LexRender(ns[0], d, RenderAll(ns[1..], d) + rest);
      LexRenderAll(ns[1..], d, rest);
      RegroupToks(Toks(ns[0], d), AllToks(ns[1..], d), [], Lex("\n" + rest));
    }
  }

  // ---- Documents ----

  const DECLARATION: string := "?xml version=\"1.0\" encoding=\"UTF-8\"?"

  function Document(roots: seq<Node>): string {
    "<" + DECLARATION + ">" + ("\n" + RenderAll(roots, 0))
  }
}
