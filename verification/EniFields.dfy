/** Reading one slave of an ENI document back, field by field: finding children by name, converting their texts, and the
    lemmas that lead up to SlaveBack and SlavesBack. */
module EniFields {
  import opened Words
  import opened Text
  import opened XmlLines
  import opened EniElements

  // ---- Reading a configuration back ----

  function Children(n: Node): seq<Node> {
    if n.Branch? then n.children else []
  }

  function Find(ns: seq<Node>, tag: string): Option<Node> {
    if ns == [] then None else if ns[0].tag == tag then Some(ns[0]) else Find(ns[1..], tag)
  }

  /** The character data of the first child of that name; empty when there is none. */
  function TextAt(ns: seq<Node>, tag: string): string {
    match Find(ns, tag) case Some(Leaf(_, text)) => text case _ => ""
  }

  function ChildrenAt(ns: seq<Node>, tag: string): seq<Node> {
    match Find(ns, tag) case Some(n) => Children(n) case None => []
  }

  function Word(v: int, modulus: nat): (r: nat)
    requires modulus > 0
    ensures r < modulus
  {
    v % modulus
  }

  function IndexIn(ns: seq<Node>): UInt16 {
    var text := TextAt(ns, "Index");
    HexValue(if |text| < 2 then "" else text[2..]) % TWO_16
  }

  function NumberIn(ns: seq<Node>, tag: string, modulus: nat): (r: nat)
    requires modulus > 0
    ensures r < modulus
  {
    Word(IntValue(TextAt(ns, tag)), modulus)
  }

  function EntryOf(n: Node): PdoEntry {
    var ns := Children(n);
    PdoEntry(IndexIn(ns), NumberIn(ns, "SubIndex", TWO_8), NumberIn(ns, "BitLen", TWO_8), TextAt(ns, "Name"))
  }

  function EntriesOf(ns: seq<Node>): seq<PdoEntry> {
    if ns == [] then [] else (if ns[0].tag == "Entry" then [EntryOf(ns[0])] else []) + EntriesOf(ns[1..])
  }

  function PdoOf(n: Node): Pdo {
    var ns := Children(n);
    Pdo(IndexIn(ns), TextAt(ns, "Name"), n.tag == "TxPdo", EntriesOf(ns))
  }

  function PdosOf(ns: seq<Node>): seq<Pdo> {
    seq(|ns|, k requires 0 <= k < |ns| => PdoOf(ns[k]))
  }

  function CmdOf(n: Node): StartupCommand {
    var ns := Children(n);
    StartupCommand(TextAt(ns, "Transition"), IndexIn(ns), NumberIn(ns, "SubIndex", TWO_8), TextAt(ns, "Data"),
                   TextAt(ns, "Comment"))
  }

  function CmdsOf(ns: seq<Node>): seq<StartupCommand> {
    seq(|ns|, k requires 0 <= k < |ns| => CmdOf(ns[k]))
  }

  function SlaveOf(n: Node): SlaveConfig {
    var ns := Children(n);
    var info, mailbox := ChildrenAt(ns, "Info"), ChildrenAt(ns, "Mailbox");
    SlaveConfig(
      IntValue(TextAt(info, "PhysAddr")) - 1001, NumberIn(info, "Alias", TWO_16), TextAt(info, "Name"),
      NumberIn(info, "VendorId", TWO_32), NumberIn(info, "ProductCode", TWO_32), NumberIn(info, "RevisionNo", TWO_32),
      Find(mailbox, "CoE").Some?, Find(mailbox, "EoE").Some?, Find(mailbox, "FoE").Some?, Find(mailbox, "SoE").Some?,
      PdosOf(ChildrenAt(ns, "ProcessData")), CmdsOf(ChildrenAt(ns, "InitCmds")))
  }

  function SlavesOf(ns: seq<Node>): seq<SlaveConfig> {
    if ns == [] then [] else (if ns[0].tag == "Slave" then [SlaveOf(ns[0])] else []) + SlavesOf(ns[1..])
  }

  // ---- It comes back ----

  predicate NoTag(ns: seq<Node>, tag: string) {
    forall i :: 0 <= i < |ns| ==> ns[i].tag != tag
  }

  lemma {:induction false} FindPast(a: seq<Node>, b: seq<Node>, tag: string)
    requires NoTag(a, tag)
    ensures Find(a + b, tag) == Find(b, tag)
  {
    if a == [] {
      assert a + b == b;
    } else {
      assert (a + b)[0] == a[0] && (a + b)[1..] == a[1..] + b;
      FindPast(a[1..], b, tag);
    }
  }

  lemma FindHere(n: Node, b: seq<Node>)
    ensures Find([n] + b, n.tag) == Some(n)
  {
  }

  lemma FindNone(a: seq<Node>, tag: string)
    requires NoTag(a, tag)
    ensures Find(a, tag) == None
  {
    FindPast(a, [], tag);
    assert a + [] == a;
  }

  /** A member of a list of elements whose names come in the given order. */
  lemma FindOptional(a: seq<Node>, present: bool, n: Node, b: seq<Node>)
    requires NoTag(a, n.tag) && NoTag(b, n.tag)
    ensures Find(a + (Optional(present, n) + b), n.tag) == if present then Some(n) else None
  {
    FindPast(a, Optional(present, n) + b, n.tag);
    if present {
      FindHere(n, b);
    } else {
      assert [] + b == b;
      FindNone(b, n.tag);
    }
  }

  lemma IndexBack(n: UInt16)
    ensures HexValue(HexIndex(n)[2..]) == n && |HexIndex(n)| >= 2
  {
    HexValueOfHex(n, 4);
    assert HexIndex(n)[2..] == Hex(n, 4);
  }

  lemma NumberBack(v: nat, modulus: nat)
    requires v < modulus
    ensures Word(IntValue(IntText(v)), modulus) == v
  {
    IntValueOfText(v);
    SmallMod(v, modulus);
  }

  lemma {:induction false} FindAt(ns: seq<Node>, k: nat)
    requires k < |ns| && NoTag(ns[..k], ns[k].tag)
    ensures Find(ns, ns[k].tag) == Some(ns[k])
  {
    assert ns == ns[..k] + ([ns[k]] + ns[k + 1..]);
    FindPast(ns[..k], [ns[k]] + ns[k + 1..], ns[k].tag);
    FindHere(ns[k], ns[k + 1..]);
  }

  lemma LeafAt(ns: seq<Node>, k: nat, tag: string, text: string)
    requires k < |ns| && ns[k] == Leaf(tag, text) && NoTag(ns[..k], tag)
    ensures TextAt(ns, tag) == text
  {
    FindAt(ns, k);
    hide Find;
  }

  lemma LastLeaf(front: seq<Node>, present: bool, tag: string, text: string)
    requires NoTag(front, tag) && (!present ==> text == "")
    ensures TextAt(front + Optional(present, Leaf(tag, text)), tag) == text
  {
    FindOptional(front, present, Leaf(tag, text), []);
    assert Optional(present, Leaf(tag, text)) + [] == Optional(present, Leaf(tag, text));
    hide Find;
  }

  lemma IndexAt(ns: seq<Node>, k: nat, v: UInt16)
    requires k < |ns| && ns[k] == Leaf("Index", HexIndex(v)) && NoTag(ns[..k], "Index")
    ensures IndexIn(ns) == v
  {
    LeafAt(ns, k, "Index", HexIndex(v));
    IndexBack(v);
    SmallMod(v, TWO_16);
    hide TextAt, HexValue, HexIndex;
  }

  lemma NumberAt(ns: seq<Node>, k: nat, tag: string, v: nat, modulus: nat)
    requires k < |ns| && ns[k] == Leaf(tag, IntText(v)) && NoTag(ns[..k], tag) && v < modulus
    ensures NumberIn(ns, tag, modulus) == v
  {
    LeafAt(ns, k, tag, IntText(v));
    NumberBack(v, modulus);
    hide TextAt, IntText, IntValue, Word;
  }

  function EntryFront(e: PdoEntry): seq<Node> {
    [Leaf("Index", HexIndex(e.index)), Leaf("SubIndex", IntText(e.subIndex)), Leaf("BitLen", IntText(e.bitLength))]
  }

  lemma EntryNumbers(e: PdoEntry)
    ensures var ns := Children(EntryNode(e));
      IndexIn(ns) == e.index && NumberIn(ns, "SubIndex", TWO_8) == e.subIndex && NumberIn(ns, "BitLen", TWO_8) == e.bitLength
  {
    var front, ns := EntryFront(e), Children(EntryNode(e));
    assert ns == front + Optional(e.name != "", Leaf("Name", e.name));
    assert ns[..0] == [] && ns[..1] == front[..1] && ns[..2] == front[..2];
    hide Optional, HexIndex, IntText, IndexIn, NumberIn, EntryNode;
    IndexAt(ns, 0, e.index);
    NumberAt(ns, 1, "SubIndex", e.subIndex, TWO_8);
    NumberAt(ns, 2, "BitLen", e.bitLength, TWO_8);
  }

  lemma EntryName(e: PdoEntry)
    ensures TextAt(Children(EntryNode(e)), "Name") == e.name
  {
    hide HexIndex, IntText, TextAt, Optional;
    LastLeaf(EntryFront(e), e.name != "", "Name", e.name);
  }

  lemma EntryBack(e: PdoEntry)
    ensures EntryOf(EntryNode(e)) == e
  {
    EntryNumbers(e);
    EntryName(e);
    hide EntryNode, IndexIn, NumberIn, TextAt, Children;
  }

  lemma CmdBack(c: StartupCommand)
    ensures CmdOf(CmdNode(c)) == c
  {
    var front := [Leaf("Transition", c.transition), Leaf("Index", HexIndex(c.index)),
                  Leaf("SubIndex", IntText(c.subIndex)), Leaf("Data", c.dataHex)];
    var ns := front + Optional(c.comment != "", Leaf("Comment", c.comment));
    assert Children(CmdNode(c)) == ns;
    assert ns[..0] == [] && ns[..1] == front[..1] && ns[..2] == front[..2] && ns[..3] == front[..3];
    hide Optional, HexIndex, IntText, IndexIn, NumberIn, TextAt, CmdNode;
    LeafAt(ns, 0, "Transition", c.transition);
    IndexAt(ns, 1, c.index);
    NumberAt(ns, 2, "SubIndex", c.subIndex, TWO_8);
    LeafAt(ns, 3, "Data", c.dataHex);
    LastLeaf(front, c.comment != "", "Comment", c.comment);
  }

  lemma {:induction false} EntriesPast(n: Node, ns: seq<Node>)
    requires n.tag != "Entry"
    ensures EntriesOf([n] + ns) == EntriesOf(ns)
  {
    assert ([n] + ns)[1..] == ns && [] + EntriesOf(ns) == EntriesOf(ns);
  }

  lemma EntryNodesCons(es: seq<PdoEntry>)
    requires es != []
    ensures EntryNodes(es) == [EntryNode(es[0])] + EntryNodes(es[1..])
  {
    hide EntryNode;
  }

  lemma EntriesFirst(n: Node, ns: seq<Node>)
    requires n.tag == "Entry"
    ensures EntriesOf([n] + ns) == [EntryOf(n)] + EntriesOf(ns)
  {
    hide EntryOf;
    assert ([n] + ns)[1..] == ns;
  }

  lemma {:induction false} EntriesBack(es: seq<PdoEntry>)
    ensures EntriesOf(EntryNodes(es)) == es
  {
    if es != [] {
      assert EntryNode(es[0]).tag == "Entry";
      hide EntryNodes, EntryOf, EntryNode, EntriesOf;
      EntryNodesCons(es);
      EntriesFirst(EntryNode(es[0]), EntryNodes(es[1..]));
      EntryBack(es[0]);
      EntriesBack(es[1..]);
      assert [es[0]] + es[1..] == es;
    }
  }

  lemma EntriesPastTwo(a: Node, b: Node, ns: seq<Node>)
    requires a.tag != "Entry" && b.tag != "Entry"
    ensures EntriesOf([a, b] + ns) == EntriesOf(ns)
  {
    hide EntriesOf;
    assert [a, b] + ns == [a] + ([b] + ns);
    EntriesPast(b, ns);
    EntriesPast(a, [b] + ns);
  }

  lemma FirstTwo(a: Node, b: Node, rest: seq<Node>)
    requires a.Leaf? && b.Leaf? && a.tag != b.tag
    ensures var ns := [a, b] + rest; TextAt(ns, a.tag) == a.text && TextAt(ns, b.tag) == b.text
  {
    var ns := [a, b] + rest;
    assert ns[..0] == [] && ns[..1] == [a];
    hide TextAt;
    LeafAt(ns, 0, a.tag, a.text);
    LeafAt(ns, 1, b.tag, b.text);
  }

  lemma PdoBack(p: Pdo)
    ensures PdoOf(PdoNode(p)) == p
  {
    var a, b := Leaf("Index", HexIndex(p.index)), Leaf("Name", p.name);
    EntriesBack(p.entries);
    IndexBack(p.index);
    SmallMod(p.index, TWO_16);
    hide HexIndex, HexValue, EntryNodes, EntriesOf, TextAt;
    EntriesPastTwo(a, b, EntryNodes(p.entries));
    FirstTwo(a, b, EntryNodes(p.entries));
    assert Children(PdoNode(p)) == [a, b] + EntryNodes(p.entries);
    assert (PdoTag(p) == "TxPdo") == p.isTxPdo;
  }

  // ---- A whole slave ----

  lemma InfoBack(s: SlaveConfig)
    ensures var info := InfoNodes(s);
      && IntValue(TextAt(info, "PhysAddr")) - 1001 == s.position && NumberIn(info, "Alias", TWO_16) == s.alias
      && TextAt(info, "Name") == s.name && NumberIn(info, "VendorId", TWO_32) == s.vendorId
      && NumberIn(info, "ProductCode", TWO_32) == s.productCode && NumberIn(info, "RevisionNo", TWO_32) == s.revisionNo
  {
    IntValueOfText(1001 + s.position);
    NumberBack(s.vendorId, TWO_32);
    NumberBack(s.productCode, TWO_32);
    NumberBack(s.revisionNo, TWO_32);
    InfoFront(s);
    InfoAlias(s);
    InfoTail(s);
    hide InfoNodes, IntText, IntValue, TextAt, Word;
  }

  lemma InfoFront(s: SlaveConfig)
    ensures TextAt(InfoNodes(s), "Name") == s.name && TextAt(InfoNodes(s), "PhysAddr") == IntText(1001 + s.position)
  {
    var a, b := Leaf("Name", s.name), Leaf("PhysAddr", IntText(1001 + s.position));
    var ns := InfoNodes(s);
    assert ns == [a, b] + ns[2..];
    hide InfoNodes, TextAt, IntText;
    FirstTwo(a, b, ns[2..]);
  }

  lemma InfoAlias(s: SlaveConfig)
    ensures NumberIn(InfoNodes(s), "Alias", TWO_16) == s.alias
  {
    InfoParts(s);
    var alias := Leaf("Alias", IntText(s.alias));
    NumberBack(s.alias, TWO_16);
    assert NoTag(InfoHead(s), "Alias") && NoTag(InfoRest(s), "Alias");
    hide IntText, InfoNodes, InfoHead, InfoRest, Find, Optional, NoTag;
    FindOptional(InfoHead(s), s.alias != 0, alias, InfoRest(s));
    if s.alias == 0 {
      NoNumber();
    }
    hide IntValue, Word;
  }

  lemma NoNumber()
    ensures Word(IntValue(""), TWO_16) == 0
  {
    assert Value("") == 0;
    SmallMod(0, TWO_16);
  }

  lemma InfoTail(s: SlaveConfig)
    ensures var info := InfoNodes(s);
      && TextAt(info, "VendorId") == IntText(s.vendorId) && TextAt(info, "ProductCode") == IntText(s.productCode)
      && TextAt(info, "RevisionNo") == IntText(s.revisionNo)
  {
    InfoParts(s);
    var rest := InfoRest(s);
    var alias := Optional(s.alias != 0, Leaf("Alias", IntText(s.alias)));
    hide IntText, InfoNodes;
    forall tag | tag == "VendorId" || tag == "ProductCode" || tag == "RevisionNo"
      ensures Find(InfoNodes(s), tag) == Find(rest, tag)
    {
      assert NoTag(InfoHead(s), tag) && NoTag(alias, tag);
      hide Find, InfoHead;
      FindPast(InfoHead(s), alias + rest, tag);
      FindPast(alias, rest, tag);
    }
    assert rest[..0] == [] && rest[..1] == [rest[0]] && rest[..2] == [rest[0], rest[1]];
    hide Find, InfoHead, Optional;
    FindAt(rest, 0);
    FindAt(rest, 1);
    FindAt(rest, 2);
  }

  /** Up to four elements of different names, each present or not. */
  function UpToFour(p: bool, a: Node, q: bool, b: Node, r: bool, c: Node, t: bool, d: Node): seq<Node> {
    Optional(p, a) + (Optional(q, b) + (Optional(r, c) + Optional(t, d)))
  }

  lemma Group<T>(a: seq<T>, b: seq<T>, c: seq<T>, d: seq<T>)
    ensures var all := a + (b + (c + d));
      all == [] + all && all == (a + b) + (c + d) && all == (a + b + c) + (d + [])
  {
  }

  lemma OptionalsLack(p: bool, a: Node, q: bool, b: Node, r: bool, c: Node, tag: string)
    requires a.tag != tag && b.tag != tag && c.tag != tag
    ensures NoTag(Optional(p, a), tag) && NoTag(Optional(p, a) + Optional(q, b), tag)
    ensures NoTag(Optional(p, a) + Optional(q, b) + Optional(r, c), tag)
    ensures NoTag(Optional(p, a) + (Optional(q, b) + Optional(r, c)), tag)
  {
    var x, y, z := Optional(p, a), Optional(q, b), Optional(r, c);
    assert NoTag(x, tag) && NoTag(y, tag) && NoTag(z, tag);
    hide Optional;
    NoTagBoth(x, y, tag);
    NoTagBoth(x + y, z, tag);
    NoTagBoth(y, z, tag);
    NoTagBoth(x, y + z, tag);
  }

  lemma NoTagBoth(a: seq<Node>, b: seq<Node>, tag: string)
    requires NoTag(a, tag) && NoTag(b, tag)
    ensures NoTag(a + b, tag)
  {
  }

  lemma FindFour(p: bool, a: Node, q: bool, b: Node, r: bool, c: Node, t: bool, d: Node)
    requires a.tag != b.tag && a.tag != c.tag && a.tag != d.tag && b.tag != c.tag && b.tag != d.tag && c.tag != d.tag
    ensures var ns := UpToFour(p, a, q, b, r, c, t, d);
      && Find(ns, a.tag) == (if p then Some(a) else None) && Find(ns, b.tag) == (if q then Some(b) else None)
      && Find(ns, c.tag) == (if r then Some(c) else None) && Find(ns, d.tag) == (if t then Some(d) else None)
  {
    hide Find;
    OptionalsLack(q, b, r, c, t, d, a.tag);
    OptionalsLack(p, a, r, c, t, d, b.tag);
    OptionalsLack(r, c, t, d, p, a, b.tag);
    OptionalsLack(p, a, q, b, t, d, c.tag);
    OptionalsLack(t, d, p, a, q, b, c.tag);
    OptionalsLack(p, a, q, b, r, c, d.tag);
    NoTagNone(a.tag);
    NoTagNone(d.tag);
    Group(Optional(p, a), Optional(q, b), Optional(r, c), Optional(t, d));
    hide Find, Optional, NoTag;
    FindOptional([], p, a, Optional(q, b) + (Optional(r, c) + Optional(t, d)));
    FindOptional(Optional(p, a), q, b, Optional(r, c) + Optional(t, d));
    FindOptional(Optional(p, a) + Optional(q, b), r, c, Optional(t, d));
    FindOptional(Optional(p, a) + Optional(q, b) + Optional(r, c), t, d, []);
  }

  lemma ProtocolsBack(s: SlaveConfig)
    ensures var ns := Protocols(s);
      && Find(ns, "CoE").Some? == s.supportsCoE && Find(ns, "EoE").Some? == s.supportsEoE
      && Find(ns, "FoE").Some? == s.supportsFoE && Find(ns, "SoE").Some? == s.supportsSoE
  {
    hide Find, Optional;
    FindFour(s.supportsCoE, Empty("CoE"), s.supportsEoE, Empty("EoE"), s.supportsFoE, Empty("FoE"),
             s.supportsSoE, Empty("SoE"));
  }

  lemma NoTagNone(tag: string)
    ensures NoTag([], tag)
  {
  }

  lemma SectionsBack(s: SlaveConfig)
    ensures var ns := SlaveNode(s).children;
      && ChildrenAt(ns, "Info") == InfoNodes(s) && ChildrenAt(ns, "Mailbox") == Protocols(s)
      && ChildrenAt(ns, "ProcessData") == PdoNodes(s.pdos) && ChildrenAt(ns, "InitCmds") == CmdNodes(s.startupCmds)
  {
    hide Find, InfoNodes, Protocols, PdoNodes, CmdNodes;
    var i, m := Branch("Info", "", InfoNodes(s)), Branch("Mailbox", "", Protocols(s));
    var p, c := Branch("ProcessData", "", PdoNodes(s.pdos)), Branch("InitCmds", "", CmdNodes(s.startupCmds));
    SectionsAre(s);
    hide SlaveNode;
    FindFour(true, i, Protocols(s) != [], m, s.pdos != [], p, s.startupCmds != [], c);
    hide UpToFour;
  }

  lemma SectionsAre(s: SlaveConfig)
    ensures SlaveNode(s).children == UpToFour(
        true, Branch("Info", "", InfoNodes(s)), Protocols(s) != [], Branch("Mailbox", "", Protocols(s)),
        s.pdos != [], Branch("ProcessData", "", PdoNodes(s.pdos)),
        s.startupCmds != [], Branch("InitCmds", "", CmdNodes(s.startupCmds)))
  {
    hide InfoNodes, Protocols, PdoNodes, CmdNodes;
    var i := Branch("Info", "", InfoNodes(s));
    assert Optional(true, i) == [i];
    hide Optional;
    Group([i], MailboxNodes(s), ProcessDataNodes(s), InitCmdsNodes(s));
    assert [i] + MailboxNodes(s) + ProcessDataNodes(s) + InitCmdsNodes(s)
        == [i] + (MailboxNodes(s) + (ProcessDataNodes(s) + InitCmdsNodes(s)));
  }

  lemma SlaveBack(s: SlaveConfig)
    ensures SlaveOf(SlaveNode(s)) == s
  {
    SectionsBack(s);
    InfoBack(s);
    ProtocolsBack(s);
    PdosBack(s.pdos);
    CmdsBack(s.startupCmds);
    assert Children(SlaveNode(s)) == SlaveNode(s).children;
    hide SlaveNode, InfoNodes, Protocols, PdoNodes, CmdNodes, PdosOf, CmdsOf, ChildrenAt, TextAt, NumberIn, Find, IntValue;
  }

  lemma PdosBack(ps: seq<Pdo>)
    ensures PdosOf(PdoNodes(ps)) == ps
  {
    hide PdoOf, PdoNode;
    forall k | 0 <= k < |ps| ensures PdosOf(PdoNodes(ps))[k] == ps[k] {
      PdoBack(ps[k]);
    }
  }

  lemma CmdsBack(cs: seq<StartupCommand>)
    ensures CmdsOf(CmdNodes(cs)) == cs
  {
    hide CmdOf, CmdNode;
    forall k | 0 <= k < |cs| ensures CmdsOf(CmdNodes(cs))[k] == cs[k] {
      CmdBack(cs[k]);
    }
  }

  lemma SlaveNodesCons(ss: seq<SlaveConfig>)
    requires ss != []
    ensures SlaveNodes(ss) == [SlaveNode(ss[0])] + SlaveNodes(ss[1..])
  {
    hide SlaveNode;
  }

  lemma SlavesFirst(n: Node, ns: seq<Node>)
    requires n.tag == "Slave"
    ensures SlavesOf([n] + ns) == [SlaveOf(n)] + SlavesOf(ns)
  {
    hide SlaveOf;
    assert ([n] + ns)[1..] == ns;
  }

  lemma {:induction false} SlavesBack(ss: seq<SlaveConfig>)
    ensures SlavesOf(SlaveNodes(ss)) == ss
  {
    if ss != [] {
      assert SlaveNode(ss[0]).tag == "Slave";
      hide SlaveNodes, SlaveOf, SlaveNode, SlavesOf;
      SlaveNodesCons(ss);
      SlavesFirst(SlaveNode(ss[0]), SlaveNodes(ss[1..]));
      SlaveBack(ss[0]);
      SlavesBack(ss[1..]);
      assert [ss[0]] + ss[1..] == ss;
    }
  }
}
