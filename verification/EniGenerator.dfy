/** The ENI generator: text appended line by line, in loops over slaves, PDOs, entries and commands. */
module EniGenerator {
  import opened Words
  import opened Text
  import opened Xml
  import opened XmlLines
  import opened EniElements
  import opened EniLines

  // ---- The text of one entry, PDO and command ----

  method EntryText(e: PdoEntry) returns (out: string)
    ensures out == Render(EntryNode(e), 10)
  {
    hide RenderAll, Render, Line, HexIndex, IntText, Escape, Wrap;
    Nothing(12);
    ghost var ns: seq<Node> := [];
    var body := "";
    AppendIndex(ns, e.index, 12);
    body, ns := body + Line(12, "Index", HexIndex(e.index)), ns + [Leaf("Index", HexIndex(e.index))];
    AppendNumber(ns, "SubIndex", e.subIndex, 12);
    body, ns := body + Line(12, "SubIndex", IntText(e.subIndex)), ns + [Leaf("SubIndex", IntText(e.subIndex))];
    AppendNumber(ns, "BitLen", e.bitLength, 12);
    body, ns := body + Line(12, "BitLen", IntText(e.bitLength)), ns + [Leaf("BitLen", IntText(e.bitLength))];
    if e.name != "" {
      var esc := XmlEscape(e.name);
      AppendLeaf(ns, "Name", e.name, 12);
      body, ns := body + Line(12, "Name", esc), ns + [Leaf("Name", e.name)];
    }
    assert EntryNode(e) == Branch("Entry", "", ns);
    WrapPrints("Entry", "", ns, 10);
    out := Wrap(10, "Entry", "", body);
  }

  method CmdText(c: StartupCommand) returns (out: string)
    ensures out == Render(CmdNode(c), 8)
  {
    hide RenderAll, Render, Line, HexIndex, IntText, Escape, Wrap;
    Nothing(10);
    ghost var ns: seq<Node> := [];
    var body := "";
    var transition := XmlEscape(c.transition);
    AppendLeaf(ns, "Transition", c.transition, 10);
    body, ns := body + Line(10, "Transition", transition), ns + [Leaf("Transition", c.transition)];
    AppendIndex(ns, c.index, 10);
    body, ns := body + Line(10, "Index", HexIndex(c.index)), ns + [Leaf("Index", HexIndex(c.index))];
    AppendNumber(ns, "SubIndex", c.subIndex, 10);
    body, ns := body + Line(10, "SubIndex", IntText(c.subIndex)), ns + [Leaf("SubIndex", IntText(c.subIndex))];
    var data := XmlEscape(c.dataHex);
    AppendLeaf(ns, "Data", c.dataHex, 10);
    body, ns := body + Line(10, "Data", data), ns + [Leaf("Data", c.dataHex)];
    if c.comment != "" {
      var comment := XmlEscape(c.comment);
      AppendLeaf(ns, "Comment", c.comment, 10);
      body, ns := body + Line(10, "Comment", comment), ns + [Leaf("Comment", c.comment)];
    }
    assert CmdNode(c) == Branch("InitCmd", "", ns);
    WrapPrints("InitCmd", "", ns, 8);
    out := Wrap(8, "InitCmd", "", body);
  }

  method PdoText(p: Pdo) returns (out: string)
    ensures out == Render(PdoNode(p), 8)
  {
    hide RenderAll, Render, Line, HexIndex, Escape, Wrap, EntryNode;
    Nothing(10);
    ghost var ns: seq<Node> := [];
    var body := "";
    AppendIndex(ns, p.index, 10);
    body, ns := body + Line(10, "Index", HexIndex(p.index)), ns + [Leaf("Index", HexIndex(p.index))];
    var name := XmlEscape(p.name);
    AppendLeaf(ns, "Name", p.name, 10);
    body, ns := body + Line(10, "Name", name), ns + [Leaf("Name", p.name)];
    assert ns + EntryNodes(p.entries[..0]) == ns;
    for k := 0 to |p.entries|
      invariant body == RenderAll(ns + EntryNodes(p.entries[..k]), 10)
    {
      var entry := EntryText(p.entries[k]);
      Append(ns + EntryNodes(p.entries[..k]), EntryNode(p.entries[k]), 10);
      body := body + entry;
      assert ns + EntryNodes(p.entries[..k]) + [EntryNode(p.entries[k])] == ns + EntryNodes(p.entries[..k + 1]);
    }
    assert p.entries[..|p.entries|] == p.entries;
    assert PdoNode(p) == Branch(PdoTag(p), PDO_ATTRS, ns + EntryNodes(p.entries));
    WrapPrints(PdoTag(p), PDO_ATTRS, ns + EntryNodes(p.entries), 8);
    var tag := if p.isTxPdo then "TxPdo" else "RxPdo";
    out := Wrap(8, tag, PDO_ATTRS, body);
  }

  // ---- The sections of a slave ----

  /** One protocol line, if the slave supports it. */
  method AppendProtocol(body: string, supported: bool, tag: string, ghost ns: seq<Node>) returns (out: string, ghost next: seq<Node>)
    requires body == RenderAll(ns, 8)
    ensures next == ns + Optional(supported, Empty(tag)) && out == RenderAll(next, 8)
  {
    hide RenderAll, EmptyLine;
    out, next := body, ns;
    if supported {
      Append(ns, Empty(tag), 8);
      out, next := body + EmptyLine(8, tag), ns + [Empty(tag)];
    } else {
      assert ns + [] == ns;
    }
  }

  method BuildMailbox(s: SlaveConfig) returns (out: string)
    ensures out == RenderAll(MailboxNodes(s), 6)
  {
    SectionPrints("Mailbox", Protocols(s), 6);
    assert MailboxNodes(s) == Optional(Protocols(s) != [], Branch("Mailbox", "", Protocols(s)));
    NoProtocols(s);
    hide *;
    if !s.supportsCoE && !s.supportsEoE && !s.supportsFoE && !s.supportsSoE {
      return "";
    }
    Nothing(8);
    ghost var ns: seq<Node> := [];
    var body := "";
    body, ns := AppendProtocol(body, s.supportsCoE, "CoE", ns);
    body, ns := AppendProtocol(body, s.supportsEoE, "EoE", ns);
    body, ns := AppendProtocol(body, s.supportsFoE, "FoE", ns);
    body, ns := AppendProtocol(body, s.supportsSoE, "SoE", ns);
    ProtocolsInOrder(s);
    out := Wrap(6, "Mailbox", "", body);
  }

  lemma NoProtocols(s: SlaveConfig)
    ensures Protocols(s) == [] <==> !s.supportsCoE && !s.supportsEoE && !s.supportsFoE && !s.supportsSoE
  {
  }

  lemma ProtocolsInOrder(s: SlaveConfig)
    ensures Protocols(s) == [] + Optional(s.supportsCoE, Empty("CoE")) + Optional(s.supportsEoE, Empty("EoE"))
      + Optional(s.supportsFoE, Empty("FoE")) + Optional(s.supportsSoE, Empty("SoE"))
  {
    hide Optional;
  }

  method BuildProcessData(s: SlaveConfig) returns (out: string)
    ensures out == RenderAll(ProcessDataNodes(s), 6)
  {
    hide RenderAll, Render, Wrap, PdoNode;
    SectionPrints("ProcessData", PdoNodes(s.pdos), 6);
    assert (PdoNodes(s.pdos) == []) == (s.pdos == []);
    if s.pdos == [] {
      return "";
    }
    Nothing(8);
    var body := "";
    assert PdoNodes(s.pdos[..0]) == [];
    for k := 0 to |s.pdos|
      invariant body == RenderAll(PdoNodes(s.pdos[..k]), 8)
    {
      var pdo := PdoText(s.pdos[k]);
      Append(PdoNodes(s.pdos[..k]), PdoNode(s.pdos[k]), 8);
      body := body + pdo;
      assert PdoNodes(s.pdos[..k]) + [PdoNode(s.pdos[k])] == PdoNodes(s.pdos[..k + 1]);
    }
    assert s.pdos[..|s.pdos|] == s.pdos;
    out := Wrap(6, "ProcessData", "", body);
  }

  method BuildInitCmds(s: SlaveConfig) returns (out: string)
    ensures out == RenderAll(InitCmdsNodes(s), 6)
  {
    hide RenderAll, Render, Wrap, CmdNode;
    SectionPrints("InitCmds", CmdNodes(s.startupCmds), 6);
    assert (CmdNodes(s.startupCmds) == []) == (s.startupCmds == []);
    if s.startupCmds == [] {
      return "";
    }
    Nothing(8);
    var body := "";
    var cs := s.startupCmds;
    assert CmdNodes(cs[..0]) == [];
    for k := 0 to |cs|
      invariant body == RenderAll(CmdNodes(cs[..k]), 8)
    {
      var cmd := CmdText(cs[k]);
      Append(CmdNodes(cs[..k]), CmdNode(cs[k]), 8);
      body := body + cmd;
      assert CmdNodes(cs[..k]) + [CmdNode(cs[k])] == CmdNodes(cs[..k + 1]);
    }
    assert cs[..|cs|] == cs;
    out := Wrap(6, "InitCmds", "", body);
  }

  method BuildInfo(s: SlaveConfig) returns (out: string)
    ensures out == RenderAll(InfoNodes(s), 8)
  {
    hide RenderAll, Line, IntText, Escape;
    Nothing(8);
    ghost var ns: seq<Node> := [];
    out := "";
    var name := XmlEscape(s.name);
    AppendLeaf(ns, "Name", s.name, 8);
    out, ns := out + Line(8, "Name", name), ns + [Leaf("Name", s.name)];
    AppendNumber(ns, "PhysAddr", 1001 + s.position, 8);
    out, ns := out + Line(8, "PhysAddr", IntText(1001 + s.position)), ns + [Leaf("PhysAddr", IntText(1001 + s.position))];
    var auto := -s.position % 0x1_0000;
    AppendNumber(ns, "AutoIncAddr", auto, 8);
    out, ns := out + Line(8, "AutoIncAddr", IntText(auto)), ns + [Leaf("AutoIncAddr", IntText(auto))];
    if s.alias != 0 {
      AppendNumber(ns, "Alias", s.alias, 8);
      out, ns := out + Line(8, "Alias", IntText(s.alias)), ns + [Leaf("Alias", IntText(s.alias))];
    }
    AppendNumber(ns, "VendorId", s.vendorId, 8);
    out, ns := out + Line(8, "VendorId", IntText(s.vendorId)), ns + [Leaf("VendorId", IntText(s.vendorId))];
    AppendNumber(ns, "ProductCode", s.productCode, 8);
    out, ns := out + Line(8, "ProductCode", IntText(s.productCode)), ns + [Leaf("ProductCode", IntText(s.productCode))];
    AppendNumber(ns, "RevisionNo", s.revisionNo, 8);
    out, ns := out + Line(8, "RevisionNo", IntText(s.revisionNo)), ns + [Leaf("RevisionNo", IntText(s.revisionNo))];
    assert ns == InfoNodes(s);
  }

  method BuildSlaveElement(s: SlaveConfig) returns (out: string)
    ensures out == Render(SlaveNode(s), 4)
  {
    var info := BuildInfo(s);
    var mailbox := BuildMailbox(s);
    var data := BuildProcessData(s);
    var cmds := BuildInitCmds(s);
    ghost var i := Branch("Info", "", InfoNodes(s));
    RenderOne(i, 6);
    WrapPrints("Info", "", InfoNodes(s), 6);
    hide RenderAll, Render, Wrap, InfoNodes, MailboxNodes, ProcessDataNodes, InitCmdsNodes;
    RenderBoth([i], MailboxNodes(s), 6);
    RenderBoth([i] + MailboxNodes(s), ProcessDataNodes(s), 6);
    RenderBoth([i] + MailboxNodes(s) + ProcessDataNodes(s), InitCmdsNodes(s), 6);
    WrapPrints("Slave", "", [i] + MailboxNodes(s) + ProcessDataNodes(s) + InitCmdsNodes(s), 4);
    out := Wrap(4, "Slave", "", Wrap(6, "Info", "", info) + mailbox + data + cmds);
  }

  method BuildMaster(masterName: string, cycleTimeUs: int) returns (out: string)
    ensures out == Render(MasterNode(masterName, cycleTimeUs), 4)
  {
    hide RenderAll, Render, Wrap, Line, IntText, Escape;
    Nothing(8);
    Nothing(12);
    var name := XmlEscape(masterName);
    var info := Line(8, "Name", name) + Line(8, "Source", "NekoEcat Studio");
    var cycle := Line(12, "Cycle", IntText(cycleTimeUs));
    ghost var a, b, c := Leaf("Name", masterName), Leaf("Source", "NekoEcat Studio"), Leaf("Cycle", IntText(cycleTimeUs));
    AppendLeaf([], "Name", masterName, 8);
    SourceIsPlain();
    AppendLeaf([a], "Source", "NekoEcat Studio", 8);
    AppendNumber([], "Cycle", cycleTimeUs, 12);
    assert [] + [a] == [a] && [a] + [b] == [a, b] && [] + [c] == [c];
    assert RenderAll([a, b], 8) == info && RenderAll([c], 12) == cycle;
    out := Wrap(4, "Master", "", Wrap(6, "Info", "", info)
                + Wrap(6, "CyclicFrames", "", Wrap(8, "Frame", "", Wrap(10, "Cmd", "", cycle))));
    MasterPrints(masterName, cycleTimeUs);
  }

  // ---- The generator ----

  class EniGenerator {
    var masterName: string
    var cycleTimeUs: int
    var slaves: seq<SlaveConfig>

    constructor ()
      ensures masterName == "EtherCAT Master" && cycleTimeUs == 1000 && slaves == []
    {
      masterName, cycleTimeUs, slaves := "EtherCAT Master", 1000, [];
    }

    method AddSlave(slave: SlaveConfig)
      modifies this`slaves
      ensures slaves == old(slaves) + [slave]
    {
      slaves := slaves + [slave];
    }

    method Clear()
      modifies this`slaves
      ensures slaves == []
    {
      slaves := [];
    }

    /** The document whose reading NetworkSurvives describes. */
    method Generate() returns (out: string)
      ensures out == Generated(masterName, cycleTimeUs, slaves)
    {
      hide RenderAll, Render, Wrap, MasterNode, SlaveNode;
      var body := BuildMaster(masterName, cycleTimeUs);
      ghost var ns := [MasterNode(masterName, cycleTimeUs)];
      RenderOne(ns[0], 4);
      assert ns + SlaveNodes(slaves[..0]) == ns;
      for i := 0 to |slaves|
        invariant body == RenderAll(ns + SlaveNodes(slaves[..i]), 4)
      {
        var element := BuildSlaveElement(slaves[i]);
        Append(ns + SlaveNodes(slaves[..i]), SlaveNode(slaves[i]), 4);
        body := body + element;
        assert ns + SlaveNodes(slaves[..i]) + [SlaveNode(slaves[i])] == ns + SlaveNodes(slaves[..i + 1]);
      }
      assert slaves[..|slaves|] == slaves;
      RootPrints(masterName, cycleTimeUs, slaves);
      out := "<" + DECLARATION + ">" + "\n" + Wrap(0, "EtherCATConfig", ROOT_ATTRS, Wrap(2, "Config", "", body));
    }
  }
}
