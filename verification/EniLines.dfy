/** Pieces of ENI text and the elements they print: lines whose content needs no escape, elements wrapped around text,
    and what appending one more piece means for the list of elements printed so far. */
module EniLines {
  import opened Words
  import opened Text
  import opened Xml
  import opened XmlLines
  import opened EniElements

  /** One line of the stream: a tag around text that is already escaped or needs no escape. */
  function Line(d: nat, tag: string, content: string): string {
    Spaces(d) + "<" + tag + ">" + content + "</" + tag + ">\n"
  }

  predicate Plain(s: string) {
    forall i :: 0 <= i < |s| ==> s[i] != '&' && s[i] != '<' && s[i] != '>' && s[i] != '"' && s[i] != '\''
  }

  lemma {:induction false} EscapePlain(s: string)
    requires Plain(s)
    ensures Escape(s) == s
  {
    if s != "" {
      EscapePlain(s[1..]);
      assert [s[0]] + s[1..] == s;
    }
  }

  lemma {:induction false} HexIsPlain(n: nat, width: nat)
    ensures Plain(Hex(n, width))
    decreases n, width
  {
    if n < 16 && width <= 1 {
      assert Plain([HexDigit(n)]);
    } else {
      var w := if width == 0 then 0 else width - 1;
      HexIsPlain(n / 16, w);
      assert Hex(n, width) == Hex(n / 16, w) + [HexDigit(n % 16)];
      hide Hex;
      assert Plain([HexDigit(n % 16)]);
      hide HexDigit;
    }
  }

  lemma IndexIsPlain(n: UInt16)
    ensures Escape(HexIndex(n)) == HexIndex(n)
  {
    HexIsPlain(n, 4);
    hide Hex;
    EscapePlain(HexIndex(n));
  }

  lemma NumberIsPlain(n: int)
    ensures Escape(IntText(n)) == IntText(n)
  {
    hide Decimal;
    EscapePlain(IntText(n));
  }

  // ---- Pieces of text and the elements they print ----

  function Wrap(d: nat, tag: string, attrs: string, inner: string): string {
    OpenLine(d, tag, attrs) + inner + CloseLine(d, tag)
  }

  lemma WrapPrints(tag: string, attrs: string, children: seq<Node>, d: nat)
    ensures Render(Branch(tag, attrs, children), d) == Wrap(d, tag, attrs, RenderAll(children, d + 2))
  {
    hide OpenLine, CloseLine, RenderAll;
  }

  lemma LinePrints(d: nat, tag: string, text: string)
    ensures Render(Leaf(tag, text), d) == Line(d, tag, Escape(text))
  {
    hide Escape;
  }

  lemma Append(ns: seq<Node>, n: Node, d: nat)
    ensures RenderAll(ns + [n], d) == RenderAll(ns, d) + Render(n, d)
  {
    RenderBoth(ns, [n], d);
    RenderOne(n, d);
    hide RenderAll, Render;
  }

  lemma AppendLeaf(ns: seq<Node>, tag: string, text: string, d: nat)
    ensures RenderAll(ns + [Leaf(tag, text)], d) == RenderAll(ns, d) + Line(d, tag, Escape(text))
  {
    Append(ns, Leaf(tag, text), d);
    LinePrints(d, tag, text);
    hide RenderAll, Render, Escape, Line;
  }

  lemma AppendNumber(ns: seq<Node>, tag: string, v: int, d: nat)
    ensures RenderAll(ns + [Leaf(tag, IntText(v))], d) == RenderAll(ns, d) + Line(d, tag, IntText(v))
  {
    NumberIsPlain(v);
    hide IntText, Escape, RenderAll;
    AppendLeaf(ns, tag, IntText(v), d);
  }

  lemma AppendIndex(ns: seq<Node>, v: UInt16, d: nat)
    ensures RenderAll(ns + [Leaf("Index", HexIndex(v))], d) == RenderAll(ns, d) + Line(d, "Index", HexIndex(v))
  {
    IndexIsPlain(v);
    hide HexIndex, Escape, RenderAll;
    AppendLeaf(ns, "Index", HexIndex(v), d);
  }

  lemma Nothing(d: nat)
    ensures RenderAll([], d) == ""
  {
  }

  lemma SectionPrints(tag: string, children: seq<Node>, d: nat)
    ensures RenderAll(Optional(children != [], Branch(tag, "", children)), d)
      == if children == [] then "" else Wrap(d, tag, "", RenderAll(children, d + 2))
  {
    RenderOne(Branch(tag, "", children), d);
    WrapPrints(tag, "", children, d);
    Nothing(d);
    hide RenderAll, Render, Wrap;
  }

  lemma SourceIsPlain()
    ensures Escape("NekoEcat Studio") == "NekoEcat Studio"
  {
    hide Escape;
    EscapePlain("NekoEcat Studio");
  }

  lemma MasterPrints(name: string, cycleTimeUs: int)
    ensures Render(MasterNode(name, cycleTimeUs), 4) == Wrap(4, "Master", "",
      Wrap(6, "Info", "", RenderAll([Leaf("Name", name), Leaf("Source", "NekoEcat Studio")], 8))
      + Wrap(6, "CyclicFrames", "", Wrap(8, "Frame", "", Wrap(10, "Cmd", "", RenderAll([Leaf("Cycle", IntText(cycleTimeUs))], 12)))))
  {
    var leaves := [Leaf("Name", name), Leaf("Source", "NekoEcat Studio")];
    var cmd := Branch("Cmd", "", [Leaf("Cycle", IntText(cycleTimeUs))]);
    var frame := Branch("Frame", "", [cmd]);
    var info, frames := Branch("Info", "", leaves), Branch("CyclicFrames", "", [frame]);
    assert MasterNode(name, cycleTimeUs) == Branch("Master", "", [info] + [frames]);
    hide RenderAll, Render, Wrap, IntText, MasterNode;
    WrapPrints("Cmd", "", [Leaf("Cycle", IntText(cycleTimeUs))], 10);
    RenderOne(cmd, 10);
    WrapPrints("Frame", "", [cmd], 8);
    RenderOne(frame, 8);
    WrapPrints("CyclicFrames", "", [frame], 6);
    WrapPrints("Info", "", leaves, 6);
    RenderOne(info, 6);
    Append([info], frames, 6);
    WrapPrints("Master", "", [info] + [frames], 4);
  }

  lemma RootPrints(name: string, cycleTimeUs: int, ss: seq<SlaveConfig>)
    ensures Generated(name, cycleTimeUs, ss) == "<" + DECLARATION + ">" + "\n" + Wrap(0, "EtherCATConfig", ROOT_ATTRS,
      Wrap(2, "Config", "", RenderAll([MasterNode(name, cycleTimeUs)] + SlaveNodes(ss), 4)))
  {
    var children := [MasterNode(name, cycleTimeUs)] + SlaveNodes(ss);
    var config := Branch("Config", "", children);
    var root := RootNode(name, cycleTimeUs, ss);
    hide RenderAll, Render, Wrap, MasterNode, SlaveNodes;
    WrapPrints("Config", "", children, 2);
    RenderOne(config, 2);
    WrapPrints("EtherCATConfig", ROOT_ATTRS, [config], 0);
    RenderOne(root, 0);
    assert "<" + DECLARATION + ">" + ("\n" + Render(root, 0)) == "<" + DECLARATION + ">" + "\n" + Render(root, 0);
  }
}
