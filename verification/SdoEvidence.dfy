/** Evidence about one SDO value: grouping by normalised value, the conflict scan and the review of a write. */
module SdoEvidence {
  import opened Words
  import opened Text

  // ---- Comparable values ----

  function WithoutSpaces(s: string): string {
    if s == "" then "" else (if s[0] == ' ' then "" else [s[0]]) + WithoutSpaces(s[1..])
  }

  function Normalized(s: string): string {
    Lower(WithoutSpaces(Trim(s)))
  }

  lemma {:induction false} TrimFrontIs(s: string)
    ensures var t := TrimFront(s); |t| <= |s| && t == s[|s| - |t|..] && (t != "" ==> !IsSpace(t[0]))
  {
    if s != "" && IsSpace(s[0]) {
      TrimFrontIs(s[1..]);
    }
  }

  lemma {:induction false} TrimBackIs(s: string)
    ensures var t := TrimBack(s); t <= s && (t != "" ==> !IsSpace(t[|t| - 1]))
  {
    if s != "" && IsSpace(s[|s| - 1]) {
      TrimBackIs(s[..|s| - 1]);
    }
  }

  lemma TrimEnds(s: string)
    ensures var t := Trim(s); t != "" ==> !IsSpace(t[0]) && !IsSpace(t[|t| - 1])
  {
    TrimFrontIs(s);
    TrimBackIs(TrimFront(s));
  }

  lemma TrimTwice(s: string)
    ensures Trim(Trim(s)) == Trim(s)
  {
    TrimEnds(s);
  }

  /** Trimming first changes nothing. */
  lemma NormalizedTrim(s: string)
    ensures Normalized(Trim(s)) == Normalized(s)
  {
    TrimTwice(s);
    hide Trim;
  }

  /** Only blank text normalises to nothing. */
  lemma NormalizedEmpty(s: string)
    ensures Normalized(s) == "" <==> Trim(s) == ""
  {
    TrimEnds(s);
    var t := Trim(s);
    hide Trim;
    if t != "" {
      assert |WithoutSpaces(t)| > 0;
    }
  }

  /** Around the value blanks go; inside it spaces do, and letters become small. */
  lemma NormalizedIs(a: string, w: string, b: string)
    requires Blank(a) && Blank(b) && (w != "" ==> !Blank([w[0]]) && !Blank([w[|w| - 1]]))
    ensures Normalized(a + w + b) == Lower(WithoutSpaces(w))
  {
    TrimAround(a, w, b);
    hide Trim, Lower, WithoutSpaces;
  }

  lemma {:induction false} SpacesOut(p: string, c: char, q: string)
    ensures WithoutSpaces(p + [c] + q) == WithoutSpaces(p) + (if c == ' ' then "" else [c]) + WithoutSpaces(q)
  {
    if p == "" {
      assert p + [c] + q == [c] + q && ([c] + q)[1..] == q;
    } else {
      var s := p + [c] + q;
      assert s[0] == p[0] && s[1..] == p[1..] + [c] + q;
      SpacesOut(p[1..], c, q);
      var first, mid := if p[0] == ' ' then "" else [p[0]], if c == ' ' then "" else [c];
      assert WithoutSpaces(s) == first + WithoutSpaces(s[1..]) && WithoutSpaces(p) == first + WithoutSpaces(p[1..]);
      hide *;
      FourParts(first, WithoutSpaces(p[1..]), mid, WithoutSpaces(q));
    }
  }

  lemma FourParts(a: string, b: string, c: string, d: string)
    ensures a + (b + c + d) == a + b + c + d
  {
  }

  predicate ComparableEqual(left: string, right: string) {
    Normalized(left) != "" && Normalized(left) == Normalized(right)
  }

  // ---- Grouping ----

  datatype Item = Item(source: string, value: string)
  datatype Group = Group(sources: seq<string>, value: string, normalized: string)

  predicate Valid(item: Item) {
    Trim(item.source) != "" && Trim(item.value) != "" && Normalized(Trim(item.value)) != ""
  }

  function Norm(item: Item): string {
    Normalized(Trim(item.value))
  }

  /** The sources of the valid items with one normalised value, in order. */
  function SourcesWith(items: seq<Item>, norm: string): seq<string> {
    if items == [] then []
    else
      var last := items[|items| - 1];
      SourcesWith(items[..|items| - 1], norm) + if Valid(last) && Norm(last) == norm then [last.source] else []
  }

  function Has(groups: seq<Group>, norm: string): bool {
    exists g :: 0 <= g < |groups| && groups[g].normalized == norm
  }

  /** One group per value, holding exactly the sources of that value. */
  ghost predicate Partition(groups: seq<Group>, items: seq<Item>) {
    && (forall g, h :: 0 <= g < h < |groups| ==> groups[g].normalized != groups[h].normalized)
    && (forall g :: 0 <= g < |groups| ==> OfItems(groups[g], items))
    && (forall i :: 0 <= i < |items| && Valid(items[i]) ==> Has(groups, Norm(items[i])))
  }

  predicate OfItems(g: Group, items: seq<Item>) {
    g.normalized != "" && Normalized(g.value) == g.normalized && g.sources != [] && g.sources == SourcesWith(items, g.normalized)
  }

  /** Passed over are exactly the items whose source or value is blank. */
  lemma ValidIff(item: Item)
    ensures Valid(item) <==> !Blank(item.source) && !Blank(item.value)
    ensures Norm(item) == Normalized(item.value)
  {
    BlankIffTrimmed(item.source);
    BlankIffTrimmed(item.value);
    NormalizedTrim(item.value);
    NormalizedEmpty(item.value);
    hide Trim, Normalized, Blank;
  }

  lemma {:induction false} SourceIsListed(items: seq<Item>, i: nat)
    requires i < |items| && Valid(items[i])
    ensures items[i].source in SourcesWith(items, Norm(items[i]))
  {
    hide Valid, Norm;
    if i < |items| - 1 {
      SourceIsListed(items[..|items| - 1], i);
    }
  }

  lemma {:induction false} ListedIsSource(items: seq<Item>, norm: string, source: string)
    requires source in SourcesWith(items, norm)
    ensures exists i :: 0 <= i < |items| && Valid(items[i]) && items[i].source == source && Norm(items[i]) == norm
  {
    hide Valid, Norm;
    var n := |items| - 1;
    if source in SourcesWith(items[..n], norm) {
      ListedIsSource(items[..n], norm, source);
      var front := items[..n];
      var i :| 0 <= i < |front| && Valid(front[i]) && front[i].source == source && Norm(front[i]) == norm;
      assert items[i] == front[i];
    } else {
      assert items[n].source == source;
    }
  }

  /** Every item with a source and a value is in exactly one group, that of its value. */
  lemma GroupsMean(groups: seq<Group>, items: seq<Item>)
    requires Partition(groups, items)
    ensures forall i :: 0 <= i < |items| && !Blank(items[i].source) && !Blank(items[i].value) ==>
      exists g :: 0 <= g < |groups| && Normalized(groups[g].value) == Normalized(items[i].value)
                  && items[i].source in groups[g].sources
    ensures forall g, h :: 0 <= g < h < |groups| ==> Normalized(groups[g].value) != Normalized(groups[h].value)
  {
    hide Valid, Norm, SourcesWith, Normalized, Blank, Has;
    forall i | 0 <= i < |items| && !Blank(items[i].source) && !Blank(items[i].value)
      ensures exists g :: 0 <= g < |groups| && Normalized(groups[g].value) == Normalized(items[i].value)
                          && items[i].source in groups[g].sources
    {
      ItemInGroup(groups, items, i);
    }
    forall g | 0 <= g < |groups| ensures Normalized(groups[g].value) == groups[g].normalized {
      assert OfItems(groups[g], items);
    }
  }

  /** Nothing else is in a group. */
  lemma SourceFromItem(groups: seq<Group>, items: seq<Item>, g: nat, source: string) returns (i: nat)
    requires Partition(groups, items) && g < |groups| && source in groups[g].sources
    ensures i < |items| && items[i].source == source && !Blank(source) && !Blank(items[i].value)
    ensures Normalized(items[i].value) == Normalized(groups[g].value)
  {
    hide Valid, Norm, SourcesWith, Normalized, Blank, Has;
    assert OfItems(groups[g], items);
    ListedIsSource(items, groups[g].normalized, source);
    i :| 0 <= i < |items| && Valid(items[i]) && items[i].source == source && Norm(items[i]) == groups[g].normalized;
    ValidIff(items[i]);
  }

  lemma ItemInGroup(groups: seq<Group>, items: seq<Item>, i: nat)
    requires Partition(groups, items) && i < |items| && !Blank(items[i].source) && !Blank(items[i].value)
    ensures exists g :: 0 <= g < |groups| && Normalized(groups[g].value) == Normalized(items[i].value)
                        && items[i].source in groups[g].sources
  {
    hide Valid, Norm, SourcesWith, Normalized, Blank;
    ValidIff(items[i]);
    SourceIsListed(items, i);
    assert Has(groups, Norm(items[i]));
    var g :| 0 <= g < |groups| && groups[g].normalized == Norm(items[i]);
    assert OfItems(groups[g], items);
  }

  method GroupSdoEvidence(items: seq<Item>) returns (groups: seq<Group>)
    ensures Partition(groups, items)
  {
    groups := [];
    hide SourcesWith, Normalized, Trim;
    assert Partition(groups, items[..0]);
    hide Partition;
    for i := 0 to |items|
      invariant Partition(groups, items[..i])
    {
      assert items[..i + 1] == items[..i] + [items[i]];
      groups := AddItem(groups, items[i], items[..i]);
    }
    assert items[..|items|] == items;
  }

  /** The loop body: pass over the item, add it to the group of its value, or start a new group. */
  method AddItem(groups: seq<Group>, item: Item, ghost before: seq<Item>) returns (next: seq<Group>)
    requires Partition(groups, before)
    ensures Partition(next, before + [item])
  {
    hide Trim, Normalized, SourcesWith, Has, Partition;
    var value := Trim(item.value);
    var normalized := Normalized(value);
    if Trim(item.source) == "" || value == "" || normalized == "" {
      SkipItem(groups, before, item);
      return groups;
    }
    var g := FindGroup(groups, normalized);
    if g == |groups| {
      NewGroup(groups, before, item);
      next := groups + [Group([item.source], value, normalized)];
    } else {
      OldGroup(groups, before, item, g);
      next := groups[g := groups[g].(sources := groups[g].sources + [item.source])];
    }
  }

  method FindGroup(groups: seq<Group>, norm: string) returns (g: nat)
    ensures g <= |groups| && (g < |groups| ==> groups[g].normalized == norm)
    ensures g == |groups| ==> !Has(groups, norm)
  {
    g := 0;
    while g < |groups| && groups[g].normalized != norm
      invariant g <= |groups| && forall h :: 0 <= h < g ==> groups[h].normalized != norm
    {
      g := g + 1;
    }
  }

  lemma SourcesSnoc(items: seq<Item>, item: Item, norm: string)
    ensures SourcesWith(items + [item], norm)
      == SourcesWith(items, norm) + if Valid(item) && Norm(item) == norm then [item.source] else []
  {
    hide Valid, Norm;
    assert (items + [item])[..|items|] == items;
  }

  lemma SkipItem(groups: seq<Group>, items: seq<Item>, item: Item)
    requires Partition(groups, items) && !Valid(item)
    ensures Partition(groups, items + [item])
  {
    hide Valid, Norm, Has, SourcesWith, Normalized;
    forall g | 0 <= g < |groups| ensures OfItems(groups[g], items + [item]) {
      assert OfItems(groups[g], items);
      SourcesSnoc(items, item, groups[g].normalized);
    }
  }

  lemma {:induction false} NoSources(items: seq<Item>, groups: seq<Group>, norm: string)
    requires (forall i :: 0 <= i < |items| && Valid(items[i]) ==> Has(groups, Norm(items[i]))) && !Has(groups, norm)
    ensures SourcesWith(items, norm) == []
  {
    hide Valid, Norm, Has;
    if items != [] {
      NoSources(items[..|items| - 1], groups, norm);
    }
  }

  lemma NewGroup(groups: seq<Group>, items: seq<Item>, item: Item)
    requires Partition(groups, items) && Valid(item) && !Has(groups, Norm(item))
    ensures Partition(groups + [Group([item.source], Trim(item.value), Norm(item))], items + [item])
  {
    var n := Group([item.source], Trim(item.value), Norm(item));
    var all, more := groups + [n], items + [item];
    NoSources(items, groups, Norm(item));
    assert Norm(item) != "" && Normalized(n.value) == Norm(item);
    hide Valid, Norm, SourcesWith, Normalized;
    forall g | 0 <= g < |all| ensures OfItems(all[g], more) {
      SourcesSnoc(items, item, all[g].normalized);
      assert g < |groups| ==> OfItems(groups[g], items);
    }
    forall i | 0 <= i < |more| && Valid(more[i]) ensures Has(all, Norm(more[i])) {
      HasMore(groups, n, Norm(more[i]));
      assert i < |items| ==> more[i] == items[i];
    }
    assert forall g :: 0 <= g < |groups| ==> groups[g].normalized != n.normalized;
  }

  lemma HasMore(groups: seq<Group>, n: Group, norm: string)
    ensures Has(groups, norm) || n.normalized == norm ==> Has(groups + [n], norm)
  {
    if g :| 0 <= g < |groups| && groups[g].normalized == norm {
      assert (groups + [n])[g].normalized == norm;
    }
    assert (groups + [n])[|groups|] == n;
  }

  lemma OldGroup(groups: seq<Group>, items: seq<Item>, item: Item, at: nat)
    requires Partition(groups, items) && Valid(item) && at < |groups| && groups[at].normalized == Norm(item)
    ensures Partition(groups[at := groups[at].(sources := groups[at].sources + [item.source])], items + [item])
  {
    var all, more := groups[at := groups[at].(sources := groups[at].sources + [item.source])], items + [item];
    hide Valid, Norm, SourcesWith, Normalized;
    forall g | 0 <= g < |all| ensures OfItems(all[g], more) {
      SourcesSnoc(items, item, all[g].normalized);
      assert OfItems(groups[g], items);
      assert g != at ==> groups[g].normalized != groups[at].normalized;
    }
    forall i | 0 <= i < |more| && Valid(more[i]) ensures Has(all, Norm(more[i])) {
      if i < |items| {
        assert Has(groups, Norm(items[i]));
        var g :| 0 <= g < |groups| && groups[g].normalized == Norm(items[i]);
        assert all[g].normalized == Norm(more[i]);
      } else {
        assert all[at].normalized == Norm(more[i]);
      }
    }
  }

  // ---- Conflicts ----

  ghost predicate Conflicting(items: seq<Item>) {
    exists i, j :: 0 <= i < |items| && 0 <= j < |items| && Clash(items[i], items[j])
  }

  predicate Clash(a: Item, b: Item) {
    Normalized(a.value) != "" && Normalized(b.value) != "" && Normalized(a.value) != Normalized(b.value)
  }

  method SdoEvidenceHasConflict(candidates: seq<Item>) returns (conflict: bool)
    ensures conflict <==> Conflicting(candidates)
  {
    hide Normalized;
    var first := "";
    ghost var at := 0;
    for i := 0 to |candidates|
      invariant first != "" ==> at < i && Normalized(candidates[at].value) == first
      invariant forall j :: 0 <= j < i && Normalized(candidates[j].value) != "" ==> Normalized(candidates[j].value) == first
    {
      var normalized := Normalized(candidates[i].value);
      if normalized == "" {
        continue;
      }
      if first == "" {
        first, at := normalized, i;
        continue;
      }
      if normalized != first {
        assert Clash(candidates[at], candidates[i]);
        return true;
      }
    }
    conflict := false;
  }

  function ValidOnly(items: seq<Item>): seq<Item> {
    if items == [] then []
    else ValidOnly(items[..|items| - 1]) + if Valid(items[|items| - 1]) then [items[|items| - 1]] else []
  }

  lemma {:induction false} ValidOnlyIs(items: seq<Item>)
    ensures forall item :: item in ValidOnly(items) <==> item in items && Valid(item)
  {
    hide Valid;
    if items != [] {
      ValidOnlyIs(items[..|items| - 1]);
      assert items == items[..|items| - 1] + [items[|items| - 1]];
    }
  }

  /** A valid item with the value of each group. */
  lemma {:induction false} GroupHasItem(items: seq<Item>, norm: string)
    requires SourcesWith(items, norm) != []
    ensures exists item :: item in items && Valid(item) && Norm(item) == norm
  {
    hide Valid, Norm;
    var n := |items| - 1;
    if Valid(items[n]) && Norm(items[n]) == norm {
      assert items[n] in items;
    } else {
      GroupHasItem(items[..n], norm);
      var item :| item in items[..n] && Valid(item) && Norm(item) == norm;
      assert item in items;
    }
  }

  /** There is more than one group if and only if the conflict scan finds a conflict among the valid items. */
  lemma ConflictIffGroups(groups: seq<Group>, items: seq<Item>)
    requires Partition(groups, items)
    ensures |groups| > 1 <==> Conflicting(ValidOnly(items))
  {
    ValidOnlyIs(items);
    var valid := ValidOnly(items);
    hide Valid, ValidOnly, SourcesWith, Has;
    if |groups| > 1 {
      assert OfItems(groups[0], items) && OfItems(groups[1], items);
      GroupHasItem(items, groups[0].normalized);
      GroupHasItem(items, groups[1].normalized);
      var a :| a in items && Valid(a) && Norm(a) == groups[0].normalized;
      var b :| b in items && Valid(b) && Norm(b) == groups[1].normalized;
      NormalizedTrim(a.value);
      NormalizedTrim(b.value);
      hide Normalized;
      var i :| 0 <= i < |valid| && valid[i] == a;
      var j :| 0 <= j < |valid| && valid[j] == b;
      assert Clash(valid[i], valid[j]);
    }
    if i, j :| 0 <= i < |valid| && 0 <= j < |valid| && Clash(valid[i], valid[j]) {
      ClashingGroups(groups, items, valid[i], valid[j]);
    }
  }

  lemma ClashingGroups(groups: seq<Group>, items: seq<Item>, a: Item, b: Item)
    requires Partition(groups, items) && a in items && b in items && Valid(a) && Valid(b) && Clash(a, b)
    ensures |groups| > 1
  {
    NormalizedTrim(a.value);
    NormalizedTrim(b.value);
    hide Valid, Normalized, OfItems, Trim;
    var i :| 0 <= i < |items| && items[i] == a;
    var j :| 0 <= j < |items| && items[j] == b;
    assert Has(groups, Norm(items[i])) && Has(groups, Norm(items[j]));
    var g :| 0 <= g < |groups| && groups[g].normalized == Norm(a);
    var h :| 0 <= h < |groups| && groups[h].normalized == Norm(b);
    assert g != h;
  }

  /** At most one group has the value of a write. */
  lemma OneGroupMatches(groups: seq<Group>, items: seq<Item>, write: string, g: nat, h: nat)
    requires Partition(groups, items) && g < |groups| && h < |groups|
    requires groups[g].normalized == Normalized(write) == groups[h].normalized
    ensures g == h
  {
    hide OfItems, Has, Normalized;
  }

  // ---- Blank sources ----

  function Items(sources: seq<string>, values: seq<string>): (r: seq<Item>)
    requires |sources| == |values|
    ensures |r| == |sources|
  {
    seq(|sources|, i requires 0 <= i < |sources| => Item(sources[i], values[i]))
  }

  /** The conflict scan over all items and the grouping, which passes over some, tell the same. */
  ghost predicate ScanAgrees(items: seq<Item>) {
    Conflicting(items) <==> Conflicting(ValidOnly(items))
  }

  predicate NoneBlank(sources: seq<string>) {
    forall i :: 0 <= i < |sources| ==> Trim(sources[i]) != ""
  }

  /** A clash of two valid items is a clash, and the other way round where no source is blank. */
  lemma ClashesAreValid(items: seq<Item>)
    requires |items| <= 1 || forall i :: 0 <= i < |items| ==> Trim(items[i].source) != ""
    ensures ScanAgrees(items)
  {
    ValidOnlyIs(items);
    var valid := ValidOnly(items);
    hide ValidOnly, Trim;
    if i, j :| 0 <= i < |valid| && 0 <= j < |valid| && Clash(valid[i], valid[j]) {
      assert valid[i] in items && valid[j] in items;
      var k :| 0 <= k < |items| && items[k] == valid[i];
      var l :| 0 <= l < |items| && items[l] == valid[j];
      assert Clash(items[k], items[l]);
    }
    if i, j :| 0 <= i < |items| && 0 <= j < |items| && Clash(items[i], items[j]) {
      HasValue(items[i]);
      HasValue(items[j]);
      var k :| 0 <= k < |valid| && valid[k] == items[i];
      var l :| 0 <= l < |valid| && valid[l] == items[j];
      assert Clash(valid[k], valid[l]);
    }
  }

  lemma HasValue(item: Item)
    ensures Trim(item.source) != "" && Normalized(item.value) != "" ==> Valid(item)
  {
    NormalizedEmpty(item.value);
    NormalizedTrim(item.value);
    hide Normalized, Trim;
  }

  lemma OneChar(c: char)
    requires !IsSpace(c)
    ensures Normalized([c]) == [LowerChar(c)]
  {
    assert Trim([c]) == [c];
    hide Trim;
    assert WithoutSpaces([c]) == [c] + "" == [c];
  }

  /** The value "1" for item `k`, "2" for the others. */
  function Single(n: nat, k: nat): (values: seq<string>)
    ensures |values| == n
  {
    seq(n, i requires 0 <= i < n => if i == k then "1" else "2")
  }

  /** Items with one blank source among several can disagree: the scan sees its value, the groups do not. */
  lemma BlankCanDiffer(sources: seq<string>, at: nat) returns (values: seq<string>)
    requires |sources| > 1 && at < |sources| && Trim(sources[at]) == ""
    ensures |values| == |sources| && !ScanAgrees(Items(sources, values))
  {
    OneChar('1');
    OneChar('2');
    hide Normalized;
    values := Single(|sources|, at);
    var items := Items(sources, values);
    var other := if at == 0 then 1 else 0;
    assert Clash(items[at], items[other]);
    ValidOnlyIs(items);
    var valid := ValidOnly(items);
    assert !Valid(items[at]);
    hide ValidOnly, Trim, Valid;
    forall i | 0 <= i < |valid| ensures Normalized(valid[i].value) == "2" {
      assert valid[i] in items;
      var k :| 0 <= k < |items| && items[k] == valid[i];
      assert k != at;
    }
  }

  /** Every list of items can be grouped. */
  lemma {:induction false} Grouped(items: seq<Item>) returns (groups: seq<Group>)
    ensures Partition(groups, items)
  {
    if items == [] {
      groups := [];
    } else {
      var front, item := items[..|items| - 1], items[|items| - 1];
      groups := Grouped(front);
      hide Partition, Valid, Norm, Has;
      assert items == front + [item];
      if !Valid(item) {
        SkipItem(groups, front, item);
      } else {
        groups := GroupedOne(groups, front, item);
      }
    }
  }

  lemma GroupedOne(groups: seq<Group>, items: seq<Item>, item: Item) returns (next: seq<Group>)
    requires Partition(groups, items) && Valid(item)
    ensures Partition(next, items + [item])
  {
    hide Partition, Valid, Norm;
    if !Has(groups, Norm(item)) {
      NewGroup(groups, items, item);
      next := groups + [Group([item.source], Trim(item.value), Norm(item))];
    } else {
      var g: nat :| g < |groups| && groups[g].normalized == Norm(item);
      OldGroup(groups, items, item, g);
      next := groups[g := groups[g].(sources := groups[g].sources + [item.source])];
    }
  }

  /** Whatever the values, the scan over all items finds a conflict exactly when there is more than one group, if and
      only if no source is blank or there is at most one item. */
  lemma ScanAgreesIff(sources: seq<string>)
    ensures (forall values, groups :: |values| == |sources| && Partition(groups, Items(sources, values)) ==>
        (Conflicting(Items(sources, values)) <==> |groups| > 1))
      <==> |sources| <= 1 || NoneBlank(sources)
  {
    if |sources| <= 1 || NoneBlank(sources) {
      forall values, groups | |values| == |sources| && Partition(groups, Items(sources, values))
        ensures Conflicting(Items(sources, values)) <==> |groups| > 1
      {
        hide Conflicting, Trim, Partition, ValidOnly;
        ClashesAreValid(Items(sources, values));
        ConflictIffGroups(groups, Items(sources, values));
      }
    } else {
      var at: nat :| at < |sources| && Trim(sources[at]) == "";
      hide Conflicting, Trim, Partition, ValidOnly;
      var values := BlankCanDiffer(sources, at);
      var groups := Grouped(Items(sources, values));
      ConflictIffGroups(groups, Items(sources, values));
    }
  }

  // ---- The review of a write ----

  datatype Review = Review(hasDiff: bool, hasConflict: bool, matchesEvidence: bool, state: string,
                           matchingSources: seq<string>, differing: seq<Group>, conflictFacts: seq<string>)

  function Joined(sources: seq<string>): string {
    if sources == [] then ""
    else if |sources| == 1 then sources[0]
    else Joined(sources[..|sources| - 1]) + "/" + sources[|sources| - 1]
  }

  /** Sources are joined by slashes, and a fact is the joined sources, an equals sign and the value. */
  lemma FactsAre(groups: seq<Group>, g: nat, sources: seq<string>, last: string)
    ensures Joined(sources + [last]) == if sources == [] then last else Joined(sources) + "/" + last
    ensures g < |groups| ==> Facts(groups)[g] == Joined(groups[g].sources) + "=" + groups[g].value
  {
    var all := sources + [last];
    assert all[..|all| - 1] == sources;
    assert sources == [] ==> all == [last];
  }

  /** The joined sources of the groups with one value. */
  function Matches(groups: seq<Group>, norm: string): seq<string> {
    if groups == [] then []
    else
      var last := groups[|groups| - 1];
      Matches(groups[..|groups| - 1], norm) + if last.normalized == norm then [Joined(last.sources)] else []
  }

  function Facts(groups: seq<Group>): (r: seq<string>)
    ensures |r| == |groups|
  {
    seq(|groups|, i requires 0 <= i < |groups| => Joined(groups[i].sources) + "=" + groups[i].value)
  }

  function Others(groups: seq<Group>, norm: string): seq<Group> {
    if groups == [] then []
    else
      var last := groups[|groups| - 1];
      Others(groups[..|groups| - 1], norm) + if last.normalized == norm then [] else [last]
  }

  lemma {:induction false} OthersAre(groups: seq<Group>, norm: string)
    ensures |Matches(groups, norm)| + |Others(groups, norm)| == |groups|
    ensures forall g :: g in Others(groups, norm) <==> g in groups && g.normalized != norm
    ensures Matches(groups, norm) == [] <==> !Has(groups, norm)
  {
    if groups != [] {
      var front, last := groups[..|groups| - 1], groups[|groups| - 1];
      OthersAre(front, norm);
      assert groups == front + [last];
      HasBoth(front, last, norm);
      hide Has, Joined;
    }
  }

  lemma HasBoth(front: seq<Group>, last: Group, norm: string)
    ensures Has(front + [last], norm) <==> Has(front, norm) || last.normalized == norm
  {
    HasMore(front, last, norm);
    if g :| 0 <= g < |front + [last]| && (front + [last])[g].normalized == norm {
      assert g < |front| ==> front[g].normalized == norm;
    }
  }

  predicate DistinctValues(groups: seq<Group>) {
    forall g, h :: 0 <= g < h < |groups| ==> groups[g].normalized != groups[h].normalized
  }

  /** Where no two groups have the same value, the one with the value is all that matches. */
  lemma {:induction false} MatchesOnce(groups: seq<Group>, norm: string)
    requires DistinctValues(groups)
    ensures |Matches(groups, norm)| <= 1
    ensures forall g :: 0 <= g < |groups| && groups[g].normalized == norm ==> Matches(groups, norm) == [Joined(groups[g].sources)]
  {
    if groups != [] {
      var n := |groups| - 1;
      var front, last := groups[..n], groups[n];
      MatchesOnce(front, norm);
      OthersAre(front, norm);
      assert groups == front + [last];
      MatchesSnoc(front, last, norm);
      hide Joined, Matches, Others;
      if last.normalized == norm {
        assert !Has(front, norm);
        assert Matches(groups, norm) == [] + [Joined(last.sources)];
      } else {
        assert Matches(groups, norm) == Matches(front, norm);
        assert forall g :: 0 <= g < n ==> front[g] == groups[g];
      }
    }
  }

  lemma MatchesSnoc(front: seq<Group>, last: Group, norm: string)
    ensures Matches(front + [last], norm)
      == Matches(front, norm) + if last.normalized == norm then [Joined(last.sources)] else []
  {
    assert (front + [last])[..|front|] == front;
    hide Joined;
  }

  /** The loop over the groups. */
  method SplitGroups(groups: seq<Group>, norm: string)
    returns (matching: seq<string>, differing: seq<Group>, facts: seq<string>)
    ensures matching == Matches(groups, norm) && differing == Others(groups, norm) && facts == Facts(groups)
  {
    hide Joined;
    matching, differing, facts := [], [], [];
    for i := 0 to |groups|
      invariant matching == Matches(groups[..i], norm) && differing == Others(groups[..i], norm)
      invariant facts == Facts(groups[..i])
    {
      assert groups[..i + 1][..i] == groups[..i];
      var sources := Joined(groups[i].sources);
      facts := facts + [sources + "=" + groups[i].value];
      if groups[i].normalized == norm {
        matching := matching + [sources];
      } else {
        differing := differing + [groups[i]];
      }
    }
    assert groups[..|groups|] == groups;
  }

  predicate Differs(groups: seq<Group>, norm: string) {
    exists g :: 0 <= g < |groups| && groups[g].normalized != norm
  }

  /** `differing` holds the groups with another value. */
  ghost predicate Picks(differing: seq<Group>, groups: seq<Group>, norm: string) {
    forall g :: g in differing <==> g in groups && g.normalized != norm
  }

  lemma OthersIffDiffers(groups: seq<Group>, norm: string)
    ensures Picks(Others(groups, norm), groups, norm)
    ensures Others(groups, norm) != [] <==> Differs(groups, norm)
  {
    OthersAre(groups, norm);
    var differing := Others(groups, norm);
    hide Others, Matches;
    if differing != [] {
      assert differing[0] in differing;
      var g :| 0 <= g < |groups| && groups[g] == differing[0];
    }
    if g :| 0 <= g < |groups| && groups[g].normalized != norm {
      assert groups[g] in groups;
      assert groups[g] in differing;
    }
  }

  /** What a review of a write says about the groups of evidence. */
  ghost predicate Reviewed(r: Review, groups: seq<Group>, norm: string) {
    && r.hasConflict == (|groups| > 1)
    && r.hasDiff == Differs(groups, norm)
    && r.matchesEvidence == (groups != [] && !r.hasDiff)
    && r.state == (if groups == [] then "none" else if r.hasConflict then "conflict" else if r.hasDiff then "diff" else "match")
    && Picks(r.differing, groups, norm)
    && |r.differing| + |r.matchingSources| == |groups| && |r.matchingSources| <= 1
    && (forall g :: 0 <= g < |groups| && groups[g].normalized == norm ==> r.matchingSources == [Joined(groups[g].sources)])
    && r.conflictFacts == Facts(groups)
  }

  function ReviewOf(matching: seq<string>, differing: seq<Group>, facts: seq<string>, several: bool): Review {
    var hasDiff := differing != [];
    Review(hasDiff, several, !hasDiff, if several then "conflict" else if hasDiff then "diff" else "match", matching, differing, facts)
  }

  lemma ReviewedIs(groups: seq<Group>, norm: string)
    requires groups != [] && DistinctValues(groups)
    ensures Reviewed(ReviewOf(Matches(groups, norm), Others(groups, norm), Facts(groups), |groups| > 1), groups, norm)
  {
    MatchesOnce(groups, norm);
    OthersAre(groups, norm);
    OthersIffDiffers(groups, norm);
    hide Joined, Matches, Others, Facts, Picks, Differs, Has;
  }

  method ReviewSdoWriteDelta(items: seq<Item>, writeValue: string) returns (r: Review, groups: seq<Group>)
    ensures Partition(groups, items) && Reviewed(r, groups, Normalized(writeValue))
    ensures r.hasConflict <==> Conflicting(ValidOnly(items))
    ensures r.hasConflict <==> |groups| > 1
    ensures r.hasDiff <==> exists g :: 0 <= g < |groups| && groups[g].normalized != Normalized(writeValue)
    ensures r.matchesEvidence <==> groups != [] && !r.hasDiff
    ensures groups == [] ==> r.state == "none"
    ensures |groups| > 1 ==> r.state == "conflict"
    ensures |groups| == 1 ==> r.state == if groups[0].normalized == Normalized(writeValue) then "match" else "diff"
  {
    groups := GroupSdoEvidence(items);
    ConflictIffGroups(groups, items);
    hide Normalized, ValidOnly, Conflicting, OfItems;
    if groups == [] {
      return Review(false, false, false, "none", [], [], []), groups;
    }
    var normalizedWrite := Normalized(writeValue);
    var matching, differing, facts := SplitGroups(groups, normalizedWrite);
    ReviewedIs(groups, normalizedWrite);
    assert Reviewed(ReviewOf(matching, differing, facts, |groups| > 1), groups, normalizedWrite);
    hide Partition;
    var hasDiff, hasConflict := differing != [], |groups| > 1;
    var state := if hasConflict then "conflict" else if hasDiff then "diff" else "match";
    r := Review(hasDiff, hasConflict, !hasDiff, state, matching, differing, facts);
  }
}
