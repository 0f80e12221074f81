/** The ENI document of a network as elements: one function per element, level by level, down to entries, commands and
    the optional parts of a slave. */
module EniElements {
  import opened Words
  import opened Text
  import opened XmlLines

  datatype StartupCommand = StartupCommand(
    transition: string, index: UInt16, subIndex: UInt8, dataHex: string, comment: string)
  datatype PdoEntry = PdoEntry(index: UInt16, subIndex: UInt8, bitLength: UInt8, name: string)
  datatype Pdo = Pdo(index: UInt16, name: string, isTxPdo: bool, entries: seq<PdoEntry>)
  datatype SlaveConfig = SlaveConfig(
    position: int, alias: UInt16, name: string, vendorId: UInt32, productCode: UInt32, revisionNo: UInt32,
    supportsCoE: bool, supportsEoE: bool, supportsFoE: bool, supportsSoE: bool,
    pdos: seq<Pdo>, startupCmds: seq<StartupCommand>)

  // ---- The elements of a configuration ----

  function HexIndex(n: UInt16): string {
    "#x" + Hex(n, 4)
  }

  function Optional(present: bool, n: Node): (r: seq<Node>)
    ensures |r| <= 1
  {
    if present then [n] else []
  }

  function Protocols(s: SlaveConfig): seq<Node> {
    Optional(s.supportsCoE, Empty("CoE")) + (Optional(s.supportsEoE, Empty("EoE"))
    + (Optional(s.supportsFoE, Empty("FoE")) + Optional(s.supportsSoE, Empty("SoE"))))
  }

  function MailboxNodes(s: SlaveConfig): seq<Node> {
    Optional(Protocols(s) != [], Branch("Mailbox", "", Protocols(s)))
  }

  function EntryNode(e: PdoEntry): Node {
    Branch("Entry", "", [Leaf("Index", HexIndex(e.index)), Leaf("SubIndex", IntText(e.subIndex)),
                         Leaf("BitLen", IntText(e.bitLength))] + Optional(e.name != "", Leaf("Name", e.name)))
  }

  function EntryNodes(es: seq<PdoEntry>): (r: seq<Node>)
    ensures |r| == |es|
  {
    seq(|es|, k requires 0 <= k < |es| => EntryNode(es[k]))
  }

  const PDO_ATTRS: string := " Fixed=\"1\" Mandatory=\"0\""

  function PdoTag(p: Pdo): string {
    if p.isTxPdo then "TxPdo" else "RxPdo"
  }

  function PdoNode(p: Pdo): Node {
    Branch(PdoTag(p), PDO_ATTRS, [Leaf("Index", HexIndex(p.index)), Leaf("Name", p.name)] + EntryNodes(p.entries))
  }

  function PdoNodes(ps: seq<Pdo>): (r: seq<Node>)
    ensures |r| == |ps|
  {
    seq(|ps|, k requires 0 <= k < |ps| => PdoNode(ps[k]))
  }

  function ProcessDataNodes(s: SlaveConfig): seq<Node> {
    Optional(s.pdos != [], Branch("ProcessData", "", PdoNodes(s.pdos)))
  }

  function CmdNode(c: StartupCommand): Node {
    Branch("InitCmd", "", [Leaf("Transition", c.transition), Leaf("Index", HexIndex(c.index)),
                           Leaf("SubIndex", IntText(c.subIndex)), Leaf("Data", c.dataHex)]
                          + Optional(c.comment != "", Leaf("Comment", c.comment)))
  }

  function CmdNodes(cs: seq<StartupCommand>): (r: seq<Node>)
    ensures |r| == |cs|
  {
    seq(|cs|, k requires 0 <= k < |cs| => CmdNode(cs[k]))
  }

  function InitCmdsNodes(s: SlaveConfig): seq<Node> {
    Optional(s.startupCmds != [], Branch("InitCmds", "", CmdNodes(s.startupCmds)))
  }

  function InfoNodes(s: SlaveConfig): seq<Node> {
    [Leaf("Name", s.name), Leaf("PhysAddr", IntText(1001 + s.position)),
     Leaf("AutoIncAddr", IntText(-s.position % 0x1_0000))]
    + Optional(s.alias != 0, Leaf("Alias", IntText(s.alias)))
    + [Leaf("VendorId", IntText(s.vendorId)), Leaf("ProductCode", IntText(s.productCode)),
       Leaf("RevisionNo", IntText(s.revisionNo))]
  }

  function SlaveNode(s: SlaveConfig): Node {
    Branch("Slave", "", [Branch("Info", "", InfoNodes(s))] + MailboxNodes(s) + ProcessDataNodes(s) + InitCmdsNodes(s))
  }

  function SlaveNodes(ss: seq<SlaveConfig>): (r: seq<Node>)
    ensures |r| == |ss|
  {
    seq(|ss|, k requires 0 <= k < |ss| => SlaveNode(ss[k]))
  }

  const XSI_ATTR: string := " xmlns:xsi=\"http://www.w3.org" + "/2001/XMLSchema-instance\""
  const NAMESPACE_ATTR: string := " xmlns=\"http://www.ethercat" + ".org/2007/EtherCATInfo\""
  const ROOT_ATTRS: string := XSI_ATTR + (NAMESPACE_ATTR + " Version=\"1.0\"")

  function MasterNode(name: string, cycleTimeUs: int): Node {
    Branch("Master", "", [
      Branch("Info", "", [Leaf("Name", name), Leaf("Source", "NekoEcat Studio")]),
      Branch("CyclicFrames", "", [Branch("Frame", "", [Branch("Cmd", "", [Leaf("Cycle", IntText(cycleTimeUs))])])])])
  }

  function RootNode(name: string, cycleTimeUs: int, slaves: seq<SlaveConfig>): Node {
    Branch("EtherCATConfig", ROOT_ATTRS, [Branch("Config", "", [MasterNode(name, cycleTimeUs)] + SlaveNodes(slaves))])
  }

  function InfoHead(s: SlaveConfig): seq<Node> {
    [Leaf("Name", s.name), Leaf("PhysAddr", IntText(1001 + s.position)),
     Leaf("AutoIncAddr", IntText(-s.position % 0x1_0000))]
  }

  function InfoRest(s: SlaveConfig): seq<Node> {
    [Leaf("VendorId", IntText(s.vendorId)), Leaf("ProductCode", IntText(s.productCode)),
     Leaf("RevisionNo", IntText(s.revisionNo))]
  }

  lemma InfoParts(s: SlaveConfig)
    ensures InfoNodes(s) == InfoHead(s) + (Optional(s.alias != 0, Leaf("Alias", IntText(s.alias))) + InfoRest(s))
  {
    hide IntText, Optional;
  }

  function Generated(name: string, cycleTimeUs: int, slaves: seq<SlaveConfig>): string {
    Document([RootNode(name, cycleTimeUs, slaves)])
  }
}
