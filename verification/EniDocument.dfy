/** The ENI document read back, element by element. */
module EniDocument {
  import opened Words
  import opened Text
  import opened Xml
  import opened XmlLines
  import opened XmlTree
  import opened EniElements
  import opened EniForm

  // Every tag, attribute and text, those that reading the configuration does not look at included.

  /** An element on paper: one line if it is empty or holds text, or else its children between two lines, two columns
      further in. */
  lemma ElementText(tag: string, attrs: string, text: string, children: seq<Node>, d: nat)
    ensures Render(Leaf(tag, text), d) == Spaces(d) + "<" + tag + ">" + Escape(text) + "</" + tag + ">\n"
    ensures Render(Empty(tag), d) == Spaces(d) + "<" + tag + "/>\n"
    ensures Render(Branch(tag, attrs, children), d)
      == (Spaces(d) + "<" + tag + attrs + ">\n") + RenderAll(children, d + 2) + (Spaces(d) + "</" + tag + ">\n")
    ensures Document(children)
      == "<" + "?xml version=\"1.0\" encoding=\"UTF-8\"?" + ">" + ("\n" + RenderAll(children, 0))
  {
    hide Escape, RenderAll;
  }

  lemma EntryElement(e: PdoEntry)
    ensures EntryNode(e) == Branch("Entry", "", [
      Leaf("Index", "#x" + Hex(e.index, 4)), Leaf("SubIndex", IntText(e.subIndex)), Leaf("BitLen", IntText(e.bitLength))]
      + if e.name == "" then [] else [Leaf("Name", e.name)])
  {
    hide Hex, IntText;
  }

  lemma CmdElement(c: StartupCommand)
    ensures CmdNode(c) == Branch("InitCmd", "", [
      Leaf("Transition", c.transition), Leaf("Index", "#x" + Hex(c.index, 4)),
      Leaf("SubIndex", IntText(c.subIndex)), Leaf("Data", c.dataHex)]
      + if c.comment == "" then [] else [Leaf("Comment", c.comment)])
  {
    hide Hex, IntText;
  }

  lemma PdoElement(p: Pdo, j: nat)
    ensures PdoNode(p).Branch? && PdoNode(p).tag == (if p.isTxPdo then "TxPdo" else "RxPdo")
    ensures PdoNode(p).attrs == " Fixed=\"1\" Mandatory=\"0\"" && |PdoNode(p).children| == 2 + |p.entries|
    ensures PdoNode(p).children[..2] == [Leaf("Index", "#x" + Hex(p.index, 4)), Leaf("Name", p.name)]
    ensures j < |p.entries| ==> PdoNode(p).children[2 + j] == EntryNode(p.entries[j])
  {
    hide Hex, EntryNode;
  }

  /** The address a slave answers to before it has one: minus its position, as a 16-bit word. */
  lemma InfoElements(s: SlaveConfig) returns (auto: nat)
    ensures auto < 65536 && (auto + s.position) % 65536 == 0
    ensures InfoNodes(s) ==
      [Leaf("Name", s.name), Leaf("PhysAddr", IntText(1001 + s.position)), Leaf("AutoIncAddr", IntText(auto))]
      + (if s.alias == 0 then [] else [Leaf("Alias", IntText(s.alias))])
      + [Leaf("VendorId", IntText(s.vendorId)), Leaf("ProductCode", IntText(s.productCode)),
         Leaf("RevisionNo", IntText(s.revisionNo))]
  {
    auto := -s.position % 65536;
    hide IntText;
  }

  lemma MailboxElements(s: SlaveConfig) returns (protocols: seq<Node>)
    ensures protocols == (if s.supportsCoE then [Empty("CoE")] else []) + (if s.supportsEoE then [Empty("EoE")] else [])
      + (if s.supportsFoE then [Empty("FoE")] else []) + (if s.supportsSoE then [Empty("SoE")] else [])
    ensures MailboxNodes(s) == if protocols == [] then [] else [Branch("Mailbox", "", protocols)]
  {
    protocols := Protocols(s);
  }

  /** What stands around the slaves. */
  lemma DocumentAsRead(name: string, cycleTimeUs: int, slaves: seq<SlaveConfig>) returns (elements: seq<Node>)
    ensures |elements| == |slaves| && forall k :: 0 <= k < |slaves| ==> elements[k] == SlaveNode(slaves[k])
    ensures ReadDocument(Generated(name, cycleTimeUs, slaves)) == Read([
      Branch("EtherCATConfig",
        " xmlns:xsi=\"http://www.w3.org" + "/2001/XMLSchema-instance\""
        + (" xmlns=\"http://www.ethercat" + ".org/2007/EtherCATInfo\"" + " Version=\"1.0\""),
        [Branch("Config", "", [
          Branch("Master", "", [
            Branch("Info", "", [Leaf("Name", name), Leaf("Source", "NekoEcat Studio")]),
            Branch("CyclicFrames", "", [Branch("Frame", "", [Branch("Cmd", "", [
              Leaf("Cycle", IntText(cycleTimeUs))])])])])]
          + elements)])], [])
  {
    elements := SlaveNodes(slaves);
    RootOk(name, cycleTimeUs, slaves);
    DocumentReadsBack([RootNode(name, cycleTimeUs, slaves)]);
    hide ReadDocument, Document, AllWellFormed, SlaveNode, IntText;
  }

  /** The sections of a slave, each left out when it has nothing to say. */
  lemma SlaveElement(s: SlaveConfig) returns (auto: nat, protocols: seq<Node>, pdos: seq<Node>, cmds: seq<Node>)
    ensures SlaveNode(s) == Branch("Slave", "",
      [Branch("Info", "", InfoNodes(s))]
      + (if protocols == [] then [] else [Branch("Mailbox", "", protocols)])
      + (if pdos == [] then [] else [Branch("ProcessData", "", pdos)])
      + (if cmds == [] then [] else [Branch("InitCmds", "", cmds)]))
    ensures auto < 65536 && (auto + s.position) % 65536 == 0
    ensures InfoNodes(s) ==
      [Leaf("Name", s.name), Leaf("PhysAddr", IntText(1001 + s.position)), Leaf("AutoIncAddr", IntText(auto))]
      + (if s.alias == 0 then [] else [Leaf("Alias", IntText(s.alias))])
      + [Leaf("VendorId", IntText(s.vendorId)), Leaf("ProductCode", IntText(s.productCode)),
         Leaf("RevisionNo", IntText(s.revisionNo))]
    ensures protocols == (if s.supportsCoE then [Empty("CoE")] else []) + (if s.supportsEoE then [Empty("EoE")] else [])
      + (if s.supportsFoE then [Empty("FoE")] else []) + (if s.supportsSoE then [Empty("SoE")] else [])
    ensures |pdos| == |s.pdos| && forall m :: 0 <= m < |pdos| ==> pdos[m] == PdoNode(s.pdos[m])
    ensures |cmds| == |s.startupCmds| && forall c :: 0 <= c < |cmds| ==> cmds[c] == CmdNode(s.startupCmds[c])
  {
    auto := InfoElements(s);
    protocols := MailboxElements(s);
    pdos, cmds := PdoNodes(s.pdos), CmdNodes(s.startupCmds);
    hide InfoNodes, MailboxNodes, PdoNode, CmdNode, IntText;
  }

  /** The element of slave `k` in a document read back. */
  lemma ElementAsRead(name: string, cycleTimeUs: int, slaves: seq<SlaveConfig>, k: nat)
    requires k < |slaves|
    ensures var r := ReadDocument(Generated(name, cycleTimeUs, slaves));
      && r.Read? && |r.nodes| == 1 && r.nodes[0].Branch? && |r.nodes[0].children| == 1
      && r.nodes[0].children[0].Branch? && |r.nodes[0].children[0].children| == 1 + |slaves|
      && r.nodes[0].children[0].children[1 + k] == SlaveNode(slaves[k])
  {
    var elements := DocumentAsRead(name, cycleTimeUs, slaves);
    hide *;
  }

  /** Slave `k` of a document read back: its sections, PDO `m` with its entry `j`, and command `c`. */
  lemma SlaveAsRead(name: string, cycleTimeUs: int, slaves: seq<SlaveConfig>, k: nat, m: nat, j: nat, c: nat)
    returns (s: SlaveConfig, element: Node, info: seq<Node>, auto: nat, protocols: seq<Node>, pdos: seq<Node>, cmds: seq<Node>)
    requires k < |slaves|
    ensures var r := ReadDocument(Generated(name, cycleTimeUs, slaves));
      && r.Read? && |r.nodes| == 1 && r.nodes[0].Branch? && |r.nodes[0].children| == 1
      && r.nodes[0].children[0].Branch? && |r.nodes[0].children[0].children| == 1 + |slaves|
      && r.nodes[0].children[0].children[1 + k] == element
    ensures s == slaves[k] && element == Branch("Slave", "",
      [Branch("Info", "", info)]
      + (if protocols == [] then [] else [Branch("Mailbox", "", protocols)])
      + (if pdos == [] then [] else [Branch("ProcessData", "", pdos)])
      + (if cmds == [] then [] else [Branch("InitCmds", "", cmds)]))
    ensures auto < 65536 && (auto + s.position) % 65536 == 0
    ensures info ==
      [Leaf("Name", s.name), Leaf("PhysAddr", IntText(1001 + s.position)), Leaf("AutoIncAddr", IntText(auto))]
      + (if s.alias == 0 then [] else [Leaf("Alias", IntText(s.alias))])
      + [Leaf("VendorId", IntText(s.vendorId)), Leaf("ProductCode", IntText(s.productCode)),
         Leaf("RevisionNo", IntText(s.revisionNo))]
    ensures protocols == (if s.supportsCoE then [Empty("CoE")] else []) + (if s.supportsEoE then [Empty("EoE")] else [])
      + (if s.supportsFoE then [Empty("FoE")] else []) + (if s.supportsSoE then [Empty("SoE")] else [])
    ensures |pdos| == |s.pdos| && |cmds| == |s.startupCmds|
    ensures m < |pdos| ==>
      && pdos[m].Branch? && pdos[m].tag == (if s.pdos[m].isTxPdo then "TxPdo" else "RxPdo")
      && pdos[m].attrs == " Fixed=\"1\" Mandatory=\"0\"" && |pdos[m].children| == 2 + |s.pdos[m].entries|
      && pdos[m].children[..2] == [Leaf("Index", "#x" + Hex(s.pdos[m].index, 4)), Leaf("Name", s.pdos[m].name)]
    ensures m < |pdos| && j < |s.pdos[m].entries| ==>
      var e := s.pdos[m].entries[j];
      pdos[m].children[2 + j] == Branch("Entry", "", [
        Leaf("Index", "#x" + Hex(e.index, 4)), Leaf("SubIndex", IntText(e.subIndex)),
        Leaf("BitLen", IntText(e.bitLength))]
        + if e.name == "" then [] else [Leaf("Name", e.name)])
    ensures c < |cmds| ==>
      var cmd := s.startupCmds[c];
      cmds[c] == Branch("InitCmd", "", [
        Leaf("Transition", cmd.transition), Leaf("Index", "#x" + Hex(cmd.index, 4)),
        Leaf("SubIndex", IntText(cmd.subIndex)), Leaf("Data", cmd.dataHex)]
        + if cmd.comment == "" then [] else [Leaf("Comment", cmd.comment)])
  {
    s, element := slaves[k], SlaveNode(slaves[k]);
    ElementAsRead(name, cycleTimeUs, slaves, k);
    auto, protocols, pdos, cmds := SlaveElement(s);
    info := InfoNodes(s);
    hide *;
    if m < |pdos| {
      PdoElement(s.pdos[m], j);
      if j < |s.pdos[m].entries| {
        EntryElement(s.pdos[m].entries[j]);
      }
    }
    if c < |cmds| {
      CmdElement(s.startupCmds[c]);
    }
  }
}
