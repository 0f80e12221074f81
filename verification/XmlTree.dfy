/** A reader of XML elements that does not depend on indentation: it builds a tree from marks and texts, and reads every
    document that is printed line by line back as its elements. */
module XmlTree {
  import opened Words
  import opened Text
  import opened Xml
  import opened XmlLines

  // ---- Reading: elements ----

  datatype Read = Read(nodes: seq<Node>, rest: seq<Tok>) | Bad

  predicate IsBlank(s: string) {
    forall i :: 0 <= i < |s| ==> s[i] == ' ' || s[i] == '\n' || s[i] == '\t' || s[i] == '\r'
  }

  predicate IsClosing(body: string) {
    body != "" && body[0] == '/'
  }

  function Cons(n: Node, r: Read): Read {
    if r.Bad? then Bad else Read([n] + r.nodes, r.rest)
  }

  function Prepend(ns: seq<Node>, r: Read): Read {
    if r.Bad? then Bad else Read(ns + r.nodes, r.rest)
  }

  /** The elements up to the closing tag of the enclosing one, or to the end. An element whose content is character
      data is a leaf; between elements only white space may stand; every closing tag must match. */
  function Build(ts: seq<Tok>): (r: Read)
    ensures r.Read? ==> |r.rest| <= |ts|
    decreases |ts|, 0
  {
    if ts == [] then Read([], [])
    else if ts[0].Chars? then if IsBlank(ts[0].text) then Build(ts[1..]) else Bad
    else if IsClosing(ts[0].body) then Read([], ts)
    else BuildElement(ts[0].body, ts[1..])
  }

  function BuildElement(b: string, ts: seq<Tok>): (r: Read)
    ensures r.Read? ==> |r.rest| <= |ts|
    decreases |ts|, 1
  {
    if b == "" then Bad
    else if b[0] == '?' then Build(ts)
    else if b[|b| - 1] == '/' then Cons(Empty(b[..|b| - 1]), Build(ts))
    else
      var tag, attrs := b[..Index(b, ' ')], b[Index(b, ' ')..];
      if ts != [] && ts[0] == Mark("/" + tag) then Cons(Leaf(tag, ""), Build(ts[1..]))
      else if |ts| >= 2 && ts[0].Chars? && ts[1] == Mark("/" + tag) then
        Cons(Leaf(tag, Unescape(ts[0].text)), Build(ts[2..]))
      else
        var inner := Build(ts);
        if inner.Bad? || inner.rest == [] || inner.rest[0] != Mark("/" + tag) then Bad
        else Cons(Branch(tag, attrs, inner.nodes), Build(inner.rest[1..]))
  }

  lemma AfterGap(d: nat, mark: Tok, rest: seq<Tok>)
    ensures Build([Chars(Gap(d)), mark] + rest) == Build([mark] + rest)
  {
    var ts := [Chars(Gap(d)), mark] + rest;
    assert ts[1..] == [mark] + rest;
    assert IsBlank(Gap(d));
  }

  lemma AtOpening(body: string, rest: seq<Tok>)
    requires !IsClosing(body)
    ensures Build([Mark(body)] + rest) == BuildElement(body, rest)
  {
    assert ([Mark(body)] + rest)[1..] == rest;
    hide BuildElement;
  }

  lemma PlainBody(tag: string)
    requires IsName(tag)
    ensures !IsClosing(tag) && tag[0] != '?' && tag[|tag| - 1] != '/'
    ensures Index(tag, ' ') == |tag| && tag[..Index(tag, ' ')] == tag
  {
    IndexOf(tag, "", ' ');
    assert tag + "" == tag;
  }

  lemma BodyOf(tag: string, attrs: string)
    requires IsName(tag) && IsAttrs(attrs)
    ensures var b := tag + attrs;
      && !IsClosing(b) && b[0] != '?' && b[|b| - 1] != '/'
      && b[..Index(b, ' ')] == tag && b[Index(b, ' ')..] == attrs
  {
    NameLacks(tag);
    IndexOf(tag, attrs, ' ');
    PlainBody(tag);
    hide Index;
  }

  lemma BuildLeaf(tag: string, text: string, d: nat, tail: seq<Tok>)
    requires IsName(tag)
    ensures Build(Toks(Leaf(tag, text), d) + tail) == Cons(Leaf(tag, text), Build(tail))
  {
    var e, close := Escape(text), Mark("/" + tag);
    var content := IfAny(e) + ([close] + tail);
    LeafToks([Chars(Gap(d)), Mark(tag)], IfAny(e), close, tail);
    AfterGap(d, Mark(tag), content);
    PlainBody(tag);
    AtOpening(tag, content);
    UnescapeEscape(text);
    LeafElement(tag, text, e, tail);
    hide Build, BuildElement;
  }

  lemma LeafElement(tag: string, text: string, e: string, tail: seq<Tok>)
    requires IsName(tag) && Unescape(e) == text
    ensures BuildElement(tag, IfAny(e) + ([Mark("/" + tag)] + tail)) == Cons(Leaf(tag, text), Build(tail))
  {
    PlainBody(tag);
    var close := Mark("/" + tag);
    assert Unescape("") == "";
    hide Index, Build, IsName, Unescape;
    if e == "" {
      assert [] + ([close] + tail) == [close] + tail && ([close] + tail)[1..] == tail;
    } else {
      assert ([Chars(e)] + ([close] + tail))[2..] == tail;
    }
  }

  lemma BuildEmpty(tag: string, d: nat, tail: seq<Tok>)
    requires IsName(tag)
    ensures Build(Toks(Empty(tag), d) + tail) == Cons(Empty(tag), Build(tail))
  {
    var b := tag + "/";
    AfterGap(d, Mark(b), tail);
    assert !IsClosing(b) && b[0] != '?' && b[..|b| - 1] == tag;
    AtOpening(b, tail);
    hide Build;
  }

  /** The tokens of nonempty children start with a gap and a mark that does not close anything. */
  lemma ChildrenStart(ns: seq<Node>, d: nat, tail: seq<Tok>)
    requires ns != [] && AllWellFormed(ns)
    ensures var ts := AllToks(ns, d) + tail;
      |ts| >= 2 && ts[0].Chars? && ts[1].Mark? && !IsClosing(ts[1].body)
  {
    var n := ns[0];
    assert WellFormed(n);
    PlainBody(n.tag);
    assert Toks(n, d)[0] == Chars(Gap(d)) && Toks(n, d)[1].Mark?;
    assert AllToks(ns, d) == Toks(n, d) + AllToks(ns[1..], d);
    hide AllToks;
  }

  lemma {:induction false} BuildToks(n: Node, d: nat, tail: seq<Tok>)
    requires WellFormed(n)
    ensures Build(Toks(n, d) + tail) == Cons(n, Build(tail))
    decreases n, 0
  {
    match n
    case Leaf(tag, text) => BuildLeaf(tag, text, d, tail);
    case Empty(tag) => BuildEmpty(tag, d, tail);
    case Branch(tag, attrs, children) =>
      var b, close := tag + attrs, Mark("/" + tag);
      var after := [Chars(Gap(d)), close] + tail;
      hide Build, BuildElement;
      BodyOf(tag, attrs);
      RegroupToks([Chars(Gap(d)), Mark(b)], AllToks(children, d + 2), [Chars(Gap(d)), close], tail);
      AfterGap(d, Mark(b), AllToks(children, d + 2) + after);
      AtOpening(b, AllToks(children, d + 2) + after);
      BuildAllToks(children, d + 2, after);
      ChildrenStart(children, d + 2, after);
      AtClosing(d, tag, tail);
      BranchElement(tag, attrs, children, AllToks(children, d + 2) + after, tail);
  }

  lemma AtClosing(d: nat, tag: string, tail: seq<Tok>)
    ensures Build([Chars(Gap(d)), Mark("/" + tag)] + tail) == Read([], [Mark("/" + tag)] + tail)
  {
    AfterGap(d, Mark("/" + tag), tail);
    assert IsClosing("/" + tag);
  }

  lemma BranchElement(tag: string, attrs: string, children: seq<Node>, ts: seq<Tok>, tail: seq<Tok>)
    requires IsName(tag) && IsAttrs(attrs) && |ts| >= 2 && ts[0].Chars? && ts[1].Mark? && !IsClosing(ts[1].body)
    requires Build(ts) == Prepend(children, Read([], [Mark("/" + tag)] + tail))
    ensures BuildElement(tag + attrs, ts) == Cons(Branch(tag, attrs, children), Build(tail))
  {
    BodyOf(tag, attrs);
    hide Index, Build, IsName, IsAttrs;
    assert children + [] == children && ([Mark("/" + tag)] + tail)[1..] == tail;
    assert IsClosing("/" + tag);
  }

  lemma {:induction false} BuildAllToks(ns: seq<Node>, d: nat, tail: seq<Tok>)
    requires AllWellFormed(ns)
    ensures Build(AllToks(ns, d) + tail) == Prepend(ns, Build(tail))
    decreases ns, 1
  {
    hide Build, Toks, WellFormed;
    if ns == [] {
      assert [] + tail == tail;
      PrependNone(Build(tail));
    } else {
      RegroupToks(Toks(ns[0], d), AllToks(ns[1..], d), [], tail);
      BuildToks(ns[0], d, AllToks(ns[1..], d) + tail);
      BuildAllToks(ns[1..], d, tail);
      PrependFirst(ns, Build(tail));
    }
  }

  lemma PrependNone(r: Read)
    ensures Prepend([], r) == r
  {
    if r.Read? {
      assert [] + r.nodes == r.nodes;
    }
  }

  lemma PrependFirst(ns: seq<Node>, r: Read)
    requires ns != []
    ensures Cons(ns[0], Prepend(ns[1..], r)) == Prepend(ns, r)
  {
    if r.Read? {
      assert [ns[0]] + (ns[1..] + r.nodes) == ns + r.nodes;
    }
  }

  // ---- Documents ----

  function ReadDocument(text: string): Read {
    Build(Lex(text))
  }

  /** Every printed document is well formed and reads back as the elements it was printed from. */
  lemma DocumentReadsBack(roots: seq<Node>)
    requires AllWellFormed(roots)
    ensures ReadDocument(Document(roots)) == Read(roots, [])
  {
    DeclarationLacks();
    LexMark(DECLARATION, "\n" + RenderAll(roots, 0));
    LexRenderAll(roots, 0, "");
    assert RenderAll(roots, 0) + "" == RenderAll(roots, 0);
    LastLine();
    hide Lex, AllToks, RenderAll, WellFormed;
    var toks := AllToks(roots, 0) + [Chars("\n")];
    SkipDeclaration(toks);
    BuildAllToks(roots, 0, [Chars("\n")]);
    assert roots + [] == roots;
  }

  lemma DeclarationLacks()
    ensures Lacks(DECLARATION, '>')
  {
  }

  lemma LastLine()
    ensures Lex("\n" + "") == [Chars("\n")] && Build([Chars("\n")]) == Read([], [])
  {
    LexChars("\n", "");
    assert [Chars("\n")] + [] == [Chars("\n")] && [Chars("\n")][1..] == [];
    assert IsBlank("\n");
  }

  lemma SkipDeclaration(toks: seq<Tok>)
    ensures Build([Mark(DECLARATION)] + toks) == Build(toks)
  {
    assert !IsClosing(DECLARATION) && DECLARATION[0] == '?';
    AtOpening(DECLARATION, toks);
    hide Build;
  }
}
