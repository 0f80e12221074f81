/** What the client recovers from one entry of the layout the daemon prints: finding a key in the printed object, scanning
    the number behind it, and the direction that is lost. */
module LayoutRoundTrip {
  import opened Words
  import opened Text
  import opened Json
  import opened DataPlane
  import opened NekoEcatClient
  import opened Layout

  // ---- Finding a member of a printed object ----

  /** The text of `members` followed by `more`, one member at a time. */
  function MembersFrom(members: seq<Member>, more: string): string
    requires members != []
    decreases |members|, 0
  {
    KeyText(members[0].key) + (Print(members[0].value) + Rest(members[1..], more))
  }

  function Rest(members: seq<Member>, more: string): string
    decreases |members|, 1
  {
    if members == [] then more else "," + MembersFrom(members, more)
  }

  lemma MembersAt(members: seq<Member>, k: nat, more: string)
    requires k < |members|
    ensures MembersFrom(members[k..], more)
      == KeyText(members[k].key) + (Print(members[k].value) + Rest(members[k + 1..], more))
    ensures k + 1 < |members| ==> Rest(members[k + 1..], more) == "," + MembersFrom(members[k + 1..], more)
  {
    hide Print, KeyText;
    assert members[k..][0] == members[k] && members[k..][1..] == members[k + 1..];
  }

  lemma {:induction false} EscapeOfKey(key: string)
    requires forall i :: 0 <= i < |key| ==> 'a' <= key[i] <= 'z' || 'A' <= key[i] <= 'Z' || key[i] == '_'
    ensures Escape(key) == key
  {
    if key != "" {
      EscapeOfKey(key[1..]);
      assert key == [key[0]] + key[1..];
    }
  }

  lemma {:induction false} MembersFromIsPrinted(members: seq<Member>, more: string)
    requires members != [] && forall i :: 0 <= i < |members| ==> IsKey(members[i].key)
    ensures PrintMembers(members) + more == MembersFrom(members, more)
  {
    FirstPrinted(members);
    hide PrintMembers, Print, KeyText, IsKey;
    var key, text := KeyText(members[0].key), Print(members[0].value);
    if |members| == 1 {
      assert members[1..] == [];
      assert (key + text) + more == key + (text + more);
    } else {
      MembersFromIsPrinted(members[1..], more);
      Regroup(key, text, PrintMembers(members[1..]), more);
    }
  }

  lemma FirstPrinted(members: seq<Member>)
    requires members != [] && IsKey(members[0].key)
    ensures var first := KeyText(members[0].key) + Print(members[0].value);
      PrintMembers(members) == if |members| == 1 then first else first + "," + PrintMembers(members[1..])
  {
    QuotedKey(members[0].key);
    hide Print, Escape, Quoted, KeyText;
  }

  lemma QuotedKey(key: string)
    requires IsKey(key)
    ensures Quoted(key) + ":" == KeyText(key)
  {
    EscapeOfKey(key);
  }

  lemma Regroup(key: string, text: string, tail: string, more: string)
    ensures (key + text + "," + tail) + more == key + (text + ("," + (tail + more)))
  {
  }

  predicate Simple(v: Value) {
    v.Num? || v.Bool? || v.Str?
  }

  predicate Apart(a: string, b: string) {
    exists i :: 0 <= i < |a| && i < |b| && a[i] != b[i]
  }

  lemma PastMember(members: seq<Member>, more: string, key: string, needle: string)
    requires |members| > 1 && IsKey(members[0].key) && Simple(members[0].value)
    requires IsKey(key) && Apart(members[0].key, key) && KeyText(key) <= needle
    ensures StrStr(MembersFrom(members, more), needle) == StrStr(MembersFrom(members[1..], more), needle)
  {
    var v := members[0].value;
    var tail := MembersFrom(members[1..], more);
    assert MembersFrom(members, more) == KeyText(members[0].key) + (Print(v) + ("," + tail));
    PastKey(members[0].key, Print(v) + ("," + tail), key, needle);
    match v
    case Num(n) => DecimalLacks(if n < 0 then -n else n, '"'); PastPlain(Print(v), tail, needle);
    case Bool(_) => PastPlain(Print(v), tail, needle);
    case Str(s) => PastQuoted(s, tail, key, needle);
  }

  /** Searching a printed object for a key finds the member with that key, past any simple members before it. */
  lemma {:induction false} FindMember(members: seq<Member>, k: nat, more: string, needle: string)
    requires k < |members| && IsKey(members[k].key) && KeyText(members[k].key) <= needle
    requires forall j :: 0 <= j < k ==>
      IsKey(members[j].key) && Simple(members[j].value) && Apart(members[j].key, members[k].key)
    ensures StrStr(MembersFrom(members, more), needle) == StrStr(MembersFrom(members[k..], more), needle)
  {
    if k == 0 {
      assert members[0..] == members;
    } else {
      PastMember(members, more, members[k].key, needle);
      hide MembersFrom, StrStr, KeyText, IsKey, Simple, Apart;
      FindMember(members[1..], k - 1, more, needle);
      assert members[1..][k - 1..] == members[k..];
    }
  }

  // ---- One entry ----

  function EntryMembers(e: NamedEntry): (ms: seq<Member>)
    ensures |ms| == 7
  {
    EntryJson(e).members
  }

  /** The printed entry followed by `more`. */
  function EntryObject(e: NamedEntry, more: string): string {
    "{" + MembersFrom(EntryMembers(e), "}" + more)
  }

  lemma EntryKeys(e: NamedEntry)
    ensures forall k :: 0 <= k < 7 ==> IsKey(EntryMembers(e)[k].key) && Simple(EntryMembers(e)[k].value)
    ensures forall j, k :: 0 <= j < k < 7 ==> Apart(EntryMembers(e)[j].key, EntryMembers(e)[k].key)
  {
    var ms := EntryMembers(e);
    forall j, k | 0 <= j < k < 7 ensures Apart(ms[j].key, ms[k].key) {
      var i := if j == 5 then 1 else 0;
      assert i < |ms[j].key| && i < |ms[k].key| && ms[j].key[i] != ms[k].key[i];
    }
  }

  lemma EntryField(e: NamedEntry, k: nat, more: string)
    requires k < 7
    ensures StrStr(EntryObject(e, more), KeyText(EntryMembers(e)[k].key))
      == Some(KeyText(EntryMembers(e)[k].key)
              + (Print(EntryMembers(e)[k].value) + Rest(EntryMembers(e)[k + 1..], "}" + more)))
  {
    EntryKeys(e);
    var ms := EntryMembers(e);
    var needle := KeyText(ms[k].key);
    StrStrSkipsChar("{", MembersFrom(ms, "}" + more), needle);
    FindMember(ms, k, "}" + more, needle);
    assert ms[k..][0] == ms[k] && ms[k..][1..] == ms[k + 1..];
    hide EntryMembers, Print, KeyText, Rest, IsKey, Simple, Apart;
    StrStrHere(MembersFrom(ms[k..], "}" + more), needle);
  }

  lemma NumberField(e: NamedEntry, k: nat, more: string, n: nat, modulus: nat)
    requires k < 7 && EntryMembers(e)[k].value == Num(n) && n < modulus <= TWO_64
    ensures Field(EntryObject(e, more), KeyText(EntryMembers(e)[k].key), modulus) == n
  {
    EntryField(e, k, more);
    var rest := Rest(EntryMembers(e)[k + 1..], "}" + more);
    ScanDecimal(n, rest, modulus);
    CutNeedle(KeyText(EntryMembers(e)[k].key), Decimal(n) + rest);
    hide StrStr, EntryObject, Decimal, ScanUnsigned, KeyText, Rest;
  }

  lemma CutNeedle(needle: string, rest: string)
    ensures (needle + rest)[|needle|..] == rest
  {
  }

  /** A 32-bit word of 2^31 or more is printed negative and still comes back. */
  lemma ScanWord(v: UInt32, rest: string)
    requires rest == "" || !IsDigit(rest[0])
    ensures ScanUnsigned(IntText(AsInt32(v)) + rest, TWO_32) == Some(v)
  {
    if v < 0x8000_0000 {
      ScanDecimal(v, rest, TWO_32);
    } else {
      ScanNegative(TWO_32 - v, rest);
    }
  }

  lemma OffsetField(e: NamedEntry, more: string)
    ensures Field(EntryObject(e, more), KeyText("offset"), TWO_32) == e.entry.offset
  {
    EntryField(e, 4, more);
    var rest := Rest(EntryMembers(e)[5..], "}" + more);
    var text := IntText(AsInt32(e.entry.offset));
    assert Print(EntryMembers(e)[4].value) == text;
    assert EntryMembers(e)[4].key == "offset";
    hide StrStr, EntryObject, EntryMembers, IntText, ScanUnsigned, KeyText, AsInt32;
    ScanWord(e.entry.offset, rest);
    CutNeedle(KeyText("offset"), text + rest);
  }

  /** The direction scan starts on the opening quote and so matches nothing. */
  lemma DirectionIsLost(e: NamedEntry, more: string)
    ensures DirectionField(EntryObject(e, more)) == "TxPDO"
  {
    EntryField(e, 1, more);
    var rest := Rest(EntryMembers(e)[2..], "}" + more);
    CutNeedle(KeyText("direction"), Quoted(e.entry.direction) + rest);
    assert (Quoted(e.entry.direction) + rest)[0] == '"';
    hide StrStr, EntryObject, KeyText, Rest, Quoted;
  }

  /** What the client holds for a printed entry: everything but the direction, with a zero bit length read as 16. */
  function Recovered(e: NamedEntry): MirrorEntry {
    e.entry.(direction := "TxPDO", bitLength := if e.entry.bitLength == 0 then 16 else e.entry.bitLength)
  }

  lemma EntryAtRecovers(e: NamedEntry, more: string)
    ensures EntryAt(EntryObject(e, more)) == Recovered(e)
  {
    NumberField(e, 0, more, e.entry.bitLength, TWO_8);
    NumberField(e, 2, more, e.entry.index, TWO_16);
    NumberField(e, 5, more, e.entry.slave, TWO_16);
    NumberField(e, 6, more, e.entry.sub, TWO_8);
    OffsetField(e, more);
    DirectionIsLost(e, more);
    hide EntryObject, Field, DirectionField, KeyText;
  }

  // ---- The whole table ----

  /** The printed entries, separated by commas and followed by `more`. */
  function EntriesFrom(es: seq<NamedEntry>, more: string): string
    requires es != []
  {
    EntryObject(es[0], if |es| == 1 then more else "," + EntriesFrom(es[1..], more))
  }

  lemma EntryIsPrinted(e: NamedEntry, more: string)
    ensures Print(EntryJson(e)) + more == EntryObject(e, more)
  {
    EntryKeys(e);
    var all := PrintMembers(EntryMembers(e));
    assert Print(EntryJson(e)) == "{" + all + "}";
    hide PrintMembers, MembersFrom, EntryMembers, Print;
    MembersFromIsPrinted(EntryMembers(e), "}" + more);
    RegroupBraces(all, more);
  }

  lemma RegroupBraces(all: string, more: string)
    ensures "{" + all + "}" + more == "{" + (all + ("}" + more))
  {
  }

  lemma RegroupItems(first: string, tail: string, more: string)
    ensures first + "," + tail + more == first + ("," + (tail + more))
  {
  }

  lemma {:induction false} EntriesFromIsPrinted(es: seq<NamedEntry>, more: string)
    requires es != []
    ensures PrintItems(EntriesJson(es)) + more == EntriesFrom(es, more)
  {
    var items := EntriesJson(es);
    assert items[0] == EntryJson(es[0]);
    if |es| == 1 {
      assert PrintItems(items) == Print(items[0]);
      hide Print, PrintItems, EntryObject, EntryJson;
      EntryIsPrinted(es[0], more);
    } else {
      assert items[1..] == EntriesJson(es[1..]);
      var first, tail := Print(items[0]), PrintItems(items[1..]);
      assert PrintItems(items) == first + "," + tail;
      EntriesFromIsPrinted(es[1..], more);
      hide Print, PrintItems, EntryObject, EntryJson;
      EntryIsPrinted(es[0], "," + EntriesFrom(es[1..], more));
      RegroupItems(first, tail, more);
    }
  }
}
