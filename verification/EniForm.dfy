/** Every ENI document is made of well-formed elements: names are names, no branch is empty, and no attribute list can be
    taken for the end of its tag. These are the lemmas that lead up to RootOk, level by level. */
module EniForm {
  import opened Words
  import opened Text
  import opened XmlLines
  import opened EniElements

  lemma BranchOk(tag: string, attrs: string, children: seq<Node>)
    requires IsName(tag) && IsAttrs(attrs) && children != [] && AllWellFormed(children)
    ensures WellFormed(Branch(tag, attrs, children))
  {
  }

  lemma BothOk(a: seq<Node>, b: seq<Node>)
    requires AllWellFormed(a) && AllWellFormed(b)
    ensures AllWellFormed(a + b)
  {
    hide WellFormed;
  }

  lemma OptionalOk(present: bool, n: Node)
    requires present ==> WellFormed(n)
    ensures AllWellFormed(Optional(present, n))
  {
  }

  lemma LeavesOk(ns: seq<Node>)
    requires forall i :: 0 <= i < |ns| ==> ns[i].Leaf? && IsName(ns[i].tag)
    ensures AllWellFormed(ns)
  {
  }

  lemma EntryOk(e: PdoEntry)
    ensures WellFormed(EntryNode(e))
  {
    var front := [Leaf("Index", HexIndex(e.index)), Leaf("SubIndex", IntText(e.subIndex)), Leaf("BitLen", IntText(e.bitLength))];
    assert EntryNode(e) == Branch("Entry", "", front + Optional(e.name != "", Leaf("Name", e.name)));
    hide EntryNode, Optional, HexIndex, IntText;
    LeavesOk(front);
    OptionalOk(e.name != "", Leaf("Name", e.name));
    hide WellFormed;
    BothOk(front, Optional(e.name != "", Leaf("Name", e.name)));
    BranchOk("Entry", "", front + Optional(e.name != "", Leaf("Name", e.name)));
  }

  lemma CmdOk(c: StartupCommand)
    ensures WellFormed(CmdNode(c))
  {
    var front := [Leaf("Transition", c.transition), Leaf("Index", HexIndex(c.index)),
                  Leaf("SubIndex", IntText(c.subIndex)), Leaf("Data", c.dataHex)];
    assert CmdNode(c) == Branch("InitCmd", "", front + Optional(c.comment != "", Leaf("Comment", c.comment)));
    hide CmdNode, Optional, HexIndex, IntText;
    LeavesOk(front);
    OptionalOk(c.comment != "", Leaf("Comment", c.comment));
    hide WellFormed;
    BothOk(front, Optional(c.comment != "", Leaf("Comment", c.comment)));
    BranchOk("InitCmd", "", front + Optional(c.comment != "", Leaf("Comment", c.comment)));
  }

  lemma EntriesOk(es: seq<PdoEntry>)
    ensures AllWellFormed(EntryNodes(es))
  {
    hide EntryNode, WellFormed;
    forall k | 0 <= k < |es| ensures WellFormed(EntryNodes(es)[k]) {
      EntryOk(es[k]);
    }
  }

  lemma PdoAttrsOk()
    ensures IsAttrs(PDO_ATTRS)
  {
    assert Lacks(PDO_ATTRS, '>');
  }

  lemma AttrsOk(a: string, b: string)
    requires a != "" && a[0] == ' ' && Lacks(a, '>') && b != "" && Lacks(b, '>') && b[|b| - 1] != '/'
    ensures IsAttrs(a + b)
  {
  }

  lemma XsiAttrOk()
    ensures IsAttrs(XSI_ATTR) && XSI_ATTR != ""
  {
    AttrsOk(" xmlns:xsi=\"http://www.w3.org", "/2001/XMLSchema-instance\"");
  }

  lemma NamespaceAttrOk()
    ensures IsAttrs(NAMESPACE_ATTR) && NAMESPACE_ATTR != ""
  {
    AttrsOk(" xmlns=\"http://www.ethercat", ".org/2007/EtherCATInfo\"");
  }

  lemma AttrsJoin(a: string, b: string)
    requires IsAttrs(a) && IsAttrs(b) && a != "" && b != ""
    ensures IsAttrs(a + b) && a + b != ""
  {
  }

  lemma RootAttrsOk()
    ensures IsAttrs(ROOT_ATTRS)
  {
    XsiAttrOk();
    NamespaceAttrOk();
    var version := " Version=\"1.0\"";
    assert IsAttrs(version);
    hide IsAttrs;
    AttrsJoin(NAMESPACE_ATTR, version);
    AttrsJoin(XSI_ATTR, NAMESPACE_ATTR + version);
  }

  lemma PdoOk(p: Pdo)
    ensures WellFormed(PdoNode(p))
  {
    var front := [Leaf("Index", HexIndex(p.index)), Leaf("Name", p.name)];
    PdoAttrsOk();
    EntriesOk(p.entries);
    LeavesOk(front);
    assert IsName(PdoTag(p));
    hide WellFormed, EntryNodes, HexIndex, PdoTag;
    BothOk(front, EntryNodes(p.entries));
    BranchOk(PdoTag(p), PDO_ATTRS, front + EntryNodes(p.entries));
  }

  lemma PdosOk(ps: seq<Pdo>)
    ensures AllWellFormed(PdoNodes(ps))
  {
    hide PdoNode, WellFormed;
    forall k | 0 <= k < |ps| ensures WellFormed(PdoNodes(ps)[k]) {
      PdoOk(ps[k]);
    }
  }

  lemma CmdsOk(cs: seq<StartupCommand>)
    ensures AllWellFormed(CmdNodes(cs))
  {
    hide CmdNode, WellFormed;
    forall k | 0 <= k < |cs| ensures WellFormed(CmdNodes(cs)[k]) {
      CmdOk(cs[k]);
    }
  }

  lemma ProtocolsOk(s: SlaveConfig)
    ensures AllWellFormed(Protocols(s))
  {
    OptionalOk(s.supportsCoE, Empty("CoE"));
    OptionalOk(s.supportsEoE, Empty("EoE"));
    OptionalOk(s.supportsFoE, Empty("FoE"));
    OptionalOk(s.supportsSoE, Empty("SoE"));
    var f, o := Optional(s.supportsFoE, Empty("FoE")), Optional(s.supportsSoE, Empty("SoE"));
    hide WellFormed, Optional, AllWellFormed;
    BothOk(f, o);
    BothOk(Optional(s.supportsEoE, Empty("EoE")), f + o);
    BothOk(Optional(s.supportsCoE, Empty("CoE")), Optional(s.supportsEoE, Empty("EoE")) + (f + o));
  }

  lemma InfoOk(s: SlaveConfig)
    ensures WellFormed(Branch("Info", "", InfoNodes(s)))
  {
    InfoParts(s);
    hide IntText, InfoNodes;
    LeavesOk(InfoHead(s));
    LeavesOk(InfoRest(s));
    OptionalOk(s.alias != 0, Leaf("Alias", IntText(s.alias)));
    var alias := Optional(s.alias != 0, Leaf("Alias", IntText(s.alias)));
    assert InfoHead(s) != [];
    hide WellFormed, Optional, InfoHead, InfoRest;
    BothOk(alias, InfoRest(s));
    BothOk(InfoHead(s), alias + InfoRest(s));
    BranchOk("Info", "", InfoNodes(s));
  }

  lemma SectionOk(tag: string, children: seq<Node>)
    requires IsName(tag) && AllWellFormed(children)
    ensures AllWellFormed(Optional(children != [], Branch(tag, "", children)))
  {
    if children != [] {
      BranchOk(tag, "", children);
    }
  }

  lemma SectionsOk(s: SlaveConfig)
    ensures AllWellFormed(MailboxNodes(s)) && AllWellFormed(ProcessDataNodes(s)) && AllWellFormed(InitCmdsNodes(s))
  {
    ProtocolsOk(s);
    PdosOk(s.pdos);
    CmdsOk(s.startupCmds);
    assert (PdoNodes(s.pdos) == []) == (s.pdos == []) && (CmdNodes(s.startupCmds) == []) == (s.startupCmds == []);
    hide WellFormed, Protocols, PdoNodes, CmdNodes;
    SectionOk("Mailbox", Protocols(s));
    SectionOk("ProcessData", PdoNodes(s.pdos));
    SectionOk("InitCmds", CmdNodes(s.startupCmds));
    hide AllWellFormed, Optional;
  }

  lemma SlaveIsName()
    ensures IsName("Slave")
  {
  }

  lemma SlaveOk(s: SlaveConfig)
    ensures WellFormed(SlaveNode(s))
  {
    var i := Branch("Info", "", InfoNodes(s));
    var info := [i];
    InfoOk(s);
    SectionsOk(s);
    SlaveIsName();
    EmptyAttrs();
    hide WellFormed, InfoNodes, MailboxNodes, ProcessDataNodes, InitCmdsNodes, IsAttrs, IsName, AllWellFormed;
    OnlyOk(i);
    BothOk(info, MailboxNodes(s));
    BothOk(info + MailboxNodes(s), ProcessDataNodes(s));
    BothOk(info + MailboxNodes(s) + ProcessDataNodes(s), InitCmdsNodes(s));
    BranchOk("Slave", "", info + MailboxNodes(s) + ProcessDataNodes(s) + InitCmdsNodes(s));
  }

  lemma SlavesOk(ss: seq<SlaveConfig>)
    ensures AllWellFormed(SlaveNodes(ss))
  {
    hide SlaveNode, WellFormed;
    forall k | 0 <= k < |ss| ensures WellFormed(SlaveNodes(ss)[k]) {
      SlaveOk(ss[k]);
    }
  }

  lemma OnlyOk(n: Node)
    requires WellFormed(n)
    ensures AllWellFormed([n])
  {
  }

  lemma MasterOk(name: string, cycleTimeUs: int)
    ensures WellFormed(MasterNode(name, cycleTimeUs))
  {
    var leaves := [Leaf("Name", name), Leaf("Source", "NekoEcat Studio")];
    var cycle := Leaf("Cycle", IntText(cycleTimeUs));
    hide IntText;
    LeavesOk(leaves);
    LeavesOk([cycle]);
    assert IsName("Info") && IsName("Cmd") && IsName("Frame") && IsName("CyclicFrames") && IsName("Master");
    hide WellFormed, IsName;
    BranchOk("Info", "", leaves);
    BranchOk("Cmd", "", [cycle]);
    OnlyOk(Branch("Cmd", "", [cycle]));
    BranchOk("Frame", "", [Branch("Cmd", "", [cycle])]);
    OnlyOk(Branch("Frame", "", [Branch("Cmd", "", [cycle])]));
    BranchOk("CyclicFrames", "", [Branch("Frame", "", [Branch("Cmd", "", [cycle])])]);
    BranchOk("Master", "", MasterNode(name, cycleTimeUs).children);
  }

  lemma RootOk(name: string, cycleTimeUs: int, slaves: seq<SlaveConfig>)
    ensures AllWellFormed([RootNode(name, cycleTimeUs, slaves)])
  {
    var config := [MasterNode(name, cycleTimeUs)] + SlaveNodes(slaves);
    MasterOk(name, cycleTimeUs);
    SlavesOk(slaves);
    RootAttrsOk();
    assert IsName("Config") && IsName("EtherCATConfig");
    hide WellFormed, IsName, IsAttrs, MasterNode, SlaveNodes;
    OnlyOk(MasterNode(name, cycleTimeUs));
    BothOk([MasterNode(name, cycleTimeUs)], SlaveNodes(slaves));
    EmptyAttrs();
    BranchOk("Config", "", config);
    OnlyOk(Branch("Config", "", config));
    BranchOk("EtherCATConfig", ROOT_ATTRS, [Branch("Config", "", config)]);
    OnlyOk(RootNode(name, cycleTimeUs, slaves));
  }

  lemma EmptyAttrs()
    ensures IsAttrs("")
  {
  }
}
