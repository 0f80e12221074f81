/** Reading an ENI document back. */
module Eni {
  import opened Words
  import opened Text
  import opened XmlLines
  import opened XmlTree
  import opened EniElements
  import opened EniFields
  import opened EniForm

  datatype Network = Network(masterName: string, cycleTimeUs: int, slaves: seq<SlaveConfig>)

  function NetworkOf(roots: seq<Node>): Network {
    var config := ChildrenAt(ChildrenAt(roots, "EtherCATConfig"), "Config");
    var master := ChildrenAt(config, "Master");
    var cmd := ChildrenAt(ChildrenAt(ChildrenAt(master, "CyclicFrames"), "Frame"), "Cmd");
    Network(TextAt(ChildrenAt(master, "Info"), "Name"), IntValue(TextAt(cmd, "Cycle")), SlavesOf(config))
  }

  lemma NetworkBack(name: string, cycleTimeUs: int, slaves: seq<SlaveConfig>)
    ensures NetworkOf([RootNode(name, cycleTimeUs, slaves)]) == Network(name, cycleTimeUs, slaves)
  {
    var root, master := RootNode(name, cycleTimeUs, slaves), MasterNode(name, cycleTimeUs);
    var config := [master] + SlaveNodes(slaves);
    SlavesBack(slaves);
    IntValueOfText(cycleTimeUs);
    SlavesPast(master, SlaveNodes(slaves));
    MasterBack(name, cycleTimeUs);
    assert ChildrenAt(config, "Master") == master.children by {
      FindHere(master, SlaveNodes(slaves));
    }
    var outer := Branch("Config", "", config);
    ConfigAt(outer);
    assert root == Branch("EtherCATConfig", ROOT_ATTRS, [outer]);
    hide RootNode, MasterNode, SlaveNodes, SlavesOf, ChildrenAt, TextAt, IntValue, IntText;
  }

  lemma SlavesPast(n: Node, ns: seq<Node>)
    requires n.tag != "Slave"
    ensures SlavesOf([n] + ns) == SlavesOf(ns)
  {
    hide SlaveOf;
    assert ([n] + ns)[1..] == ns && [] + SlavesOf(ns) == SlavesOf(ns);
  }

  lemma ConfigAt(config: Node)
    requires config.Branch? && config.tag == "Config"
    ensures ChildrenAt(ChildrenAt([Branch("EtherCATConfig", ROOT_ATTRS, [config])], "EtherCATConfig"), "Config")
      == config.children
  {
    OnlyChild(Branch("EtherCATConfig", ROOT_ATTRS, [config]));
    OnlyChild(config);
  }

  lemma OnlyChild(n: Node)
    requires n.Branch?
    ensures ChildrenAt([n], n.tag) == n.children
  {
    assert [n] == [n] + [];
    FindHere(n, []);
  }

  lemma MasterBack(name: string, cycleTimeUs: int)
    ensures var master := MasterNode(name, cycleTimeUs).children;
      && TextAt(ChildrenAt(master, "Info"), "Name") == name
      && TextAt(ChildrenAt(ChildrenAt(ChildrenAt(master, "CyclicFrames"), "Frame"), "Cmd"), "Cycle") == IntText(cycleTimeUs)
  {
    var info := Branch("Info", "", [Leaf("Name", name), Leaf("Source", "NekoEcat Studio")]);
    var cycle := Leaf("Cycle", IntText(cycleTimeUs));
    var cmd := Branch("Cmd", "", [cycle]);
    var frame := Branch("Frame", "", [cmd]);
    var frames := Branch("CyclicFrames", "", [frame]);
    assert MasterNode(name, cycleTimeUs).children == [info, frames];
    hide MasterNode, IntText;
    OnlyChild(cmd);
    OnlyChild(frame);
    assert [info, frames][..0] == [] && [info, frames][..1] == [info];
    FindAt([info, frames], 0);
    FindAt([info, frames], 1);
    assert info.children == [Leaf("Name", name), Leaf("Source", "NekoEcat Studio")] + [];
    FirstTwo(Leaf("Name", name), Leaf("Source", "NekoEcat Studio"), []);
    assert [cycle][..0] == [];
    LeafAt([cycle], 0, "Cycle", IntText(cycleTimeUs));
    hide Find, TextAt;
  }

  // ---- The whole document ----

  /** Whatever the names, PDOs and commands: the document is well formed, every tag is closed by its own, and reading
      it gives back the master's name, the cycle time and the slaves, each with all its fields. */
  lemma NetworkSurvives(name: string, cycleTimeUs: int, slaves: seq<SlaveConfig>)
    ensures var r := ReadDocument(Generated(name, cycleTimeUs, slaves));
      r.Read? && r.rest == [] && NetworkOf(r.nodes) == Network(name, cycleTimeUs, slaves)
  {
    RootOk(name, cycleTimeUs, slaves);
    NetworkBack(name, cycleTimeUs, slaves);
    hide RootNode, AllWellFormed, ReadDocument, Document, NetworkOf;
    DocumentReadsBack([RootNode(name, cycleTimeUs, slaves)]);
  }
}
