/** What the aliases of a bulk naming plan keep apart: new ones, retained ones and kept ones. */
module PlanAliases {
  import opened Words
  import opened Text
  import opened Naming

  // ---- New names ----

  /** Each name is the first free candidate of its row's suggestion, against all names taken before it. */
  ghost predicate AllFirstFree(rows: seq<Row>, names: seq<string>, taken: set<string>)
    requires |names| == |rows|
  {
    forall i :: 0 <= i < |rows| ==> IsFirstFree(rows[i].suggestion, taken + LowerSet(names[..i]), names[i])
  }

  ghost predicate IsFirstFree(base: string, used: set<string>, name: string) {
    exists k: nat :: FirstFree(base, used, name, k)
  }

  /** Each new alias is such a candidate; new aliases are distinct, from each other and from every name taken at the
      start. */
  lemma {:induction false} NewNamesAreNew(rows: seq<Row>, taken: set<string>)
    ensures New(NewNames(rows, taken), taken) && AllFirstFree(rows, NewNames(rows, taken), taken)
  {
    if rows != [] {
      var n := |rows| - 1;
      var before, base := NewNames(rows[..n], taken), rows[n].suggestion;
      NewNamesAreNew(rows[..n], taken);
      var used := taken + LowerSet(before);
      var k := UnusedIsFree(base, used, 0);
      var name := FirstUnused(base, used);
      assert NewNames(rows, taken) == before + [name];
      hide NewNames, FirstUnused, LowerSet, FirstFree;
      OneMoreNew(before, taken, used, base, name, k);
      hide New;
      assert IsFirstFree(base, used, name);
      FirstFreeSnoc(rows[..n], before, taken, rows[n], name);
      assert rows == rows[..n] + [rows[n]];
    }
  }

  lemma FirstFreeSnoc(rows: seq<Row>, names: seq<string>, taken: set<string>, row: Row, name: string)
    requires |names| == |rows| && AllFirstFree(rows, names, taken)
    requires IsFirstFree(row.suggestion, taken + LowerSet(names), name)
    ensures AllFirstFree(rows + [row], names + [name], taken)
  {
    hide IsFirstFree, LowerSet;
    forall i | 0 <= i < |rows| + 1
      ensures IsFirstFree((rows + [row])[i].suggestion, taken + LowerSet((names + [name])[..i]), (names + [name])[i])
    {
      assert (names + [name])[..i] == if i < |rows| then names[..i] else names;
    }
  }

  lemma OneMoreNew(news: seq<string>, taken: set<string>, used: set<string>, base: string, alias: string, k: nat)
    requires New(news, taken) && used == taken + LowerSet(news) && FirstFree(base, used, alias, k)
    ensures New(news + [alias], taken) && used + {Lower(alias)} == taken + LowerSet(news + [alias])
  {
    LowerSetSnoc(news, alias);
    assert Lower(alias) !in used;
    hide Lower, FirstFree;
    assert forall i :: 0 <= i < |news| ==> Lower(news[i]) in LowerSet(news);
  }

  lemma {:induction false} LastNameAt(rows: seq<Row>, names: seq<string>, key: string) returns (j: nat)
    requires |names| == |rows| && key in KeysOf(rows)
    ensures j < |rows| && rows[j].key == key && LastWithKey(rows, j) && LastName(rows, names, key) == names[j]
  {
    var n := |rows| - 1;
    if rows[n].key == key {
      j := n;
    } else {
      var i :| 0 <= i < |rows| && rows[i].key == key;
      assert rows[..n][i].key == key;
      j := LastNameAt(rows[..n], names[..n], key);
      assert forall i :: 0 <= i < n ==> rows[..n][i] == rows[i];
    }
  }

  /** No later row has the key of row `j`. */
  predicate LastWithKey(rows: seq<Row>, j: nat)
    requires j < |rows|
  {
    forall i :: j < i < |rows| ==> rows[i].key != rows[j].key
  }

  lemma OneLast(rows: seq<Row>, i: nat, j: nat)
    requires i < |rows| && j < |rows| && rows[i].key == rows[j].key && LastWithKey(rows, i) && LastWithKey(rows, j)
    ensures i == j
  {
  }

  lemma {:induction false} RenamedKeys(targets: seq<Row>, m: Metadata, keep: bool, key: string)
    ensures key in KeysOf(Renamed(targets, m, keep)) <==> key in KeysOf(targets) && !KeepsAlias(m, key, keep)
  {
    hide KeepsAlias;
    if targets != [] {
      var front, row := targets[..|targets| - 1], targets[|targets| - 1];
      RenamedKeys(front, m, keep, key);
      assert targets == front + [row];
      KeysSnoc(front, row);
      KeysSnoc(Renamed(front, m, keep), row);
      RenamedSnoc(front, row, m, keep);
      hide KeysOf, Renamed;
      assert Renamed(front, m, keep) + [] == Renamed(front, m, keep);
    }
  }

  /** Two keys that both get a new alias get different ones, ignoring case. */
  lemma NewAliasesDiffer(plan: Plan, targets: seq<Row>, total: nat, m: Metadata, keep: bool, taken: set<string>, a: string, b: string)
    requires PlanFor(plan, targets, total, m, keep, taken) && a in plan.aliases && b in plan.aliases && a != b
    requires !KeepsAlias(m, a, keep) && !KeepsAlias(m, b, keep)
    ensures Lower(plan.aliases[a]) != Lower(plan.aliases[b])
  {
    var renamed := Renamed(targets, m, keep);
    var names := NewNames(renamed, taken);
    RenamedKeys(targets, m, keep, a);
    RenamedKeys(targets, m, keep, b);
    NewNamesAreNew(renamed, taken);
    hide Renamed, NewNames, KeysOf, KeepsAlias, Lower, LowerSet, FirstFree;
    var i := LastNameAt(renamed, names, a);
    var j := LastNameAt(renamed, names, b);
    hide LastName;
    assert plan.aliases[a] == names[i] && plan.aliases[b] == names[j];
  }

  /** No new alias is the alias of a row the plan leaves alone. */
  lemma RetainedAliasesDiffer(plan: Plan, allRows: seq<Row>, targetRows: seq<int>, m: Metadata, keep: bool, row: Row, key: string)
    requires IsPlan(plan, allRows, targetRows, m, keep)
    requires row in allRows && Retained(row, Scope(targetRows), keep)
    requires key in plan.aliases && !KeepsAlias(m, key, keep)
    ensures Lower(plan.aliases[key]) != Lower(Trim(row.alias))
  {
    var targets, taken := TargetsOf(allRows, targetRows), Taken(allRows, Scope(targetRows), keep);
    var r :| 0 <= r < |allRows| && allRows[r] == row;
    assert Lower(Trim(row.alias)) in taken;
    var renamed := Renamed(targets, m, keep);
    RenamedKeys(targets, m, keep, key);
    NewNamesAreNew(renamed, taken);
    hide Renamed, NewNames, KeysOf, KeepsAlias, Lower, LowerSet, FirstFree, Trim, Taken, TargetsOf, Retained;
    var i := LastNameAt(renamed, NewNames(renamed, taken), key);
  }

  // ---- Other suggestions ----

  predicate SameButSuggestions(a: seq<Row>, b: seq<Row>) {
    |a| == |b| && forall i :: 0 <= i < |a| ==> a[i].(suggestion := b[i].suggestion) == b[i]
  }

  lemma {:induction false} SameRow(a: seq<Row>, b: seq<Row>, n: int)
    requires SameButSuggestions(a, b)
    ensures RowOf(a, n).Some? == RowOf(b, n).Some?
    ensures RowOf(a, n).Some? ==> RowOf(a, n).value.(suggestion := RowOf(b, n).value.suggestion) == RowOf(b, n).value
  {
    if a != [] {
      SameRow(a[..|a| - 1], b[..|b| - 1], n);
    }
  }

  lemma {:induction false} SameTargets(a: seq<Row>, b: seq<Row>, targetRows: seq<int>)
    requires SameButSuggestions(a, b)
    ensures SameButSuggestions(TargetsOf(a, targetRows), TargetsOf(b, targetRows))
  {
    if targetRows != [] {
      SameRow(a, b, targetRows[|targetRows| - 1]);
      SameTargets(a, b, targetRows[..|targetRows| - 1]);
      hide RowOf;
    }
  }

  lemma {:induction false} SameRenamed(a: seq<Row>, b: seq<Row>, m: Metadata, keep: bool)
    requires SameButSuggestions(a, b)
    ensures SameButSuggestions(Renamed(a, m, keep), Renamed(b, m, keep))
  {
    hide KeepsAlias;
    if a != [] {
      SameRenamed(a[..|a| - 1], b[..|b| - 1], m, keep);
    }
  }

  lemma SameTaken(a: seq<Row>, b: seq<Row>, scoped: set<int>, keep: bool)
    requires SameButSuggestions(a, b)
    ensures Taken(a, scoped, keep) == Taken(b, scoped, keep)
  {
    hide Lower, Trim;
    assert forall i :: 0 <= i < |a| ==> Retained(a[i], scoped, keep) == Retained(b[i], scoped, keep) && a[i].alias == b[i].alias;
    hide Retained;
    forall name | name in Taken(a, scoped, keep) ensures name in Taken(b, scoped, keep) {
      var i :| 0 <= i < |a| && Retained(a[i], scoped, keep) && Lower(Trim(a[i].alias)) == name;
      assert Retained(b[i], scoped, keep) && Lower(Trim(b[i].alias)) == name;
    }
    forall name | name in Taken(b, scoped, keep) ensures name in Taken(a, scoped, keep) {
      var i :| 0 <= i < |b| && Retained(b[i], scoped, keep) && Lower(Trim(b[i].alias)) == name;
      assert Retained(a[i], scoped, keep) && Lower(Trim(a[i].alias)) == name;
    }
  }

  lemma SameKept(a: seq<Row>, b: seq<Row>, m: Metadata, keep: bool)
    requires SameButSuggestions(a, b)
    ensures KeptNames(a, m, keep) == KeptNames(b, m, keep)
  {
    hide Lower, Trim, KeepsAlias;
    assert forall i :: 0 <= i < |a| ==> a[i].key == b[i].key;
    forall name | name in KeptNames(a, m, keep) ensures name in KeptNames(b, m, keep) {
      var i :| 0 <= i < |a| && KeepsAlias(m, a[i].key, keep) && Lower(Trim(AliasIn(m, a[i].key))) == name;
      assert KeepsAlias(m, b[i].key, keep);
    }
    forall name | name in KeptNames(b, m, keep) ensures name in KeptNames(a, m, keep) {
      var i :| 0 <= i < |b| && KeepsAlias(m, b[i].key, keep) && Lower(Trim(AliasIn(m, b[i].key))) == name;
      assert KeepsAlias(m, a[i].key, keep);
    }
  }

  lemma {:induction false} TargetsAreRows(rows: seq<Row>, targetRows: seq<int>)
    ensures forall i :: 0 <= i < |TargetsOf(rows, targetRows)| ==> TargetsOf(rows, targetRows)[i] in rows
  {
    hide RowOf;
    if targetRows != [] {
      TargetsAreRows(rows, targetRows[..|targetRows| - 1]);
    }
  }

  lemma {:induction false} RenamedAreTargets(targets: seq<Row>, m: Metadata, keep: bool)
    ensures forall i :: 0 <= i < |Renamed(targets, m, keep)| ==> Renamed(targets, m, keep)[i] in targets
  {
    hide KeepsAlias;
    if targets != [] {
      var front := targets[..|targets| - 1];
      RenamedAreTargets(front, m, keep);
      assert forall row :: row in front ==> row in targets;
    }
  }

  /** A target is the row its own number stands for. */
  lemma {:induction false} TargetsByNumber(rows: seq<Row>, targetRows: seq<int>)
    ensures forall row :: row in TargetsOf(rows, targetRows) ==> RowOf(rows, row.number) == Some(row)
  {
    hide RowOf;
    if targetRows != [] {
      TargetsByNumber(rows, targetRows[..|targetRows| - 1]);
    }
  }

  /** The same table with the suggestion `s` in the rows of one number and `t` in all others. */
  function Suggesting(rows: seq<Row>, number: int, s: string, t: string): (r: seq<Row>)
    ensures SameButSuggestions(rows, r)
    ensures forall row :: row in r ==> row.suggestion == if row.number == number then s else t
  {
    seq(|rows|, i requires 0 <= i < |rows| => rows[i].(suggestion := if rows[i].number == number then s else t))
  }

  // ---- Kept aliases ----

  /** The aliases the plan keeps, as the comparison sees them. */
  function KeptNames(targets: seq<Row>, m: Metadata, keep: bool): set<string> {
    set i | 0 <= i < |targets| && KeepsAlias(m, targets[i].key, keep) :: Lower(Trim(AliasIn(m, targets[i].key)))
  }

  /** Some key has a new alias that another key keeps. */
  ghost predicate HandsOutKept(plan: Plan, m: Metadata, keep: bool) {
    exists a, b :: Reuses(plan, m, keep, a, b)
  }

  predicate Reuses(plan: Plan, m: Metadata, keep: bool, a: string, b: string) {
    && a in plan.aliases && b in plan.aliases && KeepsAlias(m, a, keep) && !KeepsAlias(m, b, keep)
    && Lower(Trim(plan.aliases[a])) == Lower(plan.aliases[b])
  }

  /** The last new name of some key is among `kept`. */
  ghost predicate LastNameIn(renamed: seq<Row>, names: seq<string>, kept: set<string>)
    requires |names| == |renamed|
  {
    exists key :: key in KeysOf(renamed) && Lower(LastName(renamed, names, key)) in kept
  }

  lemma HandsOutKeptIff(plan: Plan, targets: seq<Row>, total: nat, m: Metadata, keep: bool, taken: set<string>)
    requires PlanFor(plan, targets, total, m, keep, taken)
    ensures var renamed := Renamed(targets, m, keep);
      HandsOutKept(plan, m, keep) <==> LastNameIn(renamed, NewNames(renamed, taken), KeptNames(targets, m, keep))
  {
    var renamed, kept := Renamed(targets, m, keep), KeptNames(targets, m, keep);
    var names := NewNames(renamed, taken);
    hide Lower, Trim, NewNames, Renamed, LastName;
    if a, b :| Reuses(plan, m, keep, a, b) {
      RenamedKeys(targets, m, keep, b);
      var i :| 0 <= i < |targets| && targets[i].key == a;
      assert Lower(Trim(AliasIn(m, targets[i].key))) in kept;
      assert b in KeysOf(renamed) && Lower(LastName(renamed, names, b)) in kept;
    }
    if b :| b in KeysOf(renamed) && Lower(LastName(renamed, names, b)) in kept {
      RenamedKeys(targets, m, keep, b);
      var i :| 0 <= i < |targets| && KeepsAlias(m, targets[i].key, keep)
        && Lower(Trim(AliasIn(m, targets[i].key))) == Lower(LastName(renamed, names, b));
      assert targets[i].key in KeysOf(targets);
      assert Reuses(plan, m, keep, targets[i].key, b);
    }
  }

  /** Row `j` is the only one with its number, and the last with its key. */
  predicate Single(rows: seq<Row>, j: nat)
    requires j < |rows|
  {
    LastWithKey(rows, j) && forall i :: 0 <= i < j ==> rows[i].number != rows[j].number
  }

  ghost predicate HasSingle(rows: seq<Row>) {
    exists j :: 0 <= j < |rows| && Single(rows, j)
  }

  /** A name as the suffix loop makes it after the first round. */
  ghost predicate Suffixed(name: string) {
    exists base: string, n: nat :: n >= 2 && name == WithSuffix(base, n)
  }

  function WithSuffix(base: string, n: nat): string {
    base + "_" + Decimal(n)
  }

  lemma {:induction false} NameAt(rows: seq<Row>, taken: set<string>, j: nat)
    requires j < |rows|
    ensures NewNames(rows, taken)[j] == FirstUnused(rows[j].suggestion, taken + LowerSet(NewNames(rows, taken)[..j]))
  {
    hide FirstUnused, LowerSet;
    var n := |rows| - 1;
    var before := NewNames(rows[..n], taken);
    assert NewNames(rows, taken)[..n] == before;
    if j < n {
      NameAt(rows[..n], taken, j);
      assert NewNames(rows, taken)[..j] == before[..j];
    }
  }

  lemma FreeIsFirst(s: string, used: set<string>)
    ensures Lower(s) !in used ==> FirstUnused(s, used) == s
    ensures Lower(s) in used ==> Suffixed(Lower(FirstUnused(s, used)))
  {
    var k := UnusedIsFree(s, used, 0);
    var name := FirstUnused(s, used);
    assert Candidate(s, 0) == s;
    hide Lower, Unused;
    if k > 0 {
      assert Lower(Candidate(s, 0)) in used;
      LowerSuffix(s, k + 1);
      assert Lower(name) == WithSuffix(Lower(s), k + 1);
    }
  }

  lemma {:induction false} CandidatesAreLong(s: string, used: set<string>, k: nat)
    requires Tried(s, k) <= used
    ensures |Unused(s, used, k)| >= |s|
    decreases |used - Tried(s, k)|
  {
    hide Lower, Tried;
    if Lower(Candidate(s, k)) in used {
      TriedGrows(s, used, k);
      CandidatesAreLong(s, used, k + 1);
    }
  }

  /** Where all rows before `j` suggest something longer, row `j` gets its own suggestion if that is free at the start. */
  lemma GetsItsOwn(rows: seq<Row>, taken: set<string>, j: nat)
    requires j < |rows| && Lower(rows[j].suggestion) !in taken
    requires forall i :: 0 <= i < j ==> |rows[i].suggestion| > |rows[j].suggestion|
    ensures NewNames(rows, taken)[j] == rows[j].suggestion
  {
    var names, s := NewNames(rows, taken), rows[j].suggestion;
    forall i | 0 <= i < j ensures Lower(names[i]) != Lower(s) {
      NameAt(rows, taken, i);
      var used := taken + LowerSet(names[..i]);
      assert Tried(rows[i].suggestion, 0) <= used;
      CandidatesAreLong(rows[i].suggestion, used, 0);
      assert |Lower(names[i])| == |names[i]| && |Lower(s)| == |s|;
    }
    NameAt(rows, taken, j);
    hide NewNames, Lower, FirstUnused;
    FreeIsFirst(s, taken + LowerSet(names[..j]));
  }

  /** A row whose number came before gets a suffixed name, */
  lemma RepeatedIsSuffixed(rows: seq<Row>, taken: set<string>, i: nat, j: nat)
    requires i < j < |rows| && rows[i] == rows[j]
    ensures Suffixed(Lower(NewNames(rows, taken)[j]))
  {
    var names, s := NewNames(rows, taken), rows[j].suggestion;
    NameAt(rows, taken, i);
    NameAt(rows, taken, j);
    var usedThen, used := taken + LowerSet(names[..i]), taken + LowerSet(names[..j]);
    hide NewNames, Lower, FirstUnused, Suffixed;
    FreeIsFirst(s, usedThen);
    assert forall k :: 0 <= k < i ==> names[..i][k] == names[..j][k];
    assert LowerSet(names[..i]) <= LowerSet(names[..j]);
    assert names[..j][i] == names[i];
    assert Lower(s) in used;
    FreeIsFirst(s, used);
  }

  /** so without a single row every key ends up with a suffixed name. */
  lemma NoSingleSuffixed(rows: seq<Row>, taken: set<string>, key: string)
    requires key in KeysOf(rows) && !HasSingle(rows)
    requires forall i, j :: 0 <= i < j < |rows| && rows[i].number == rows[j].number ==> rows[i] == rows[j]
    ensures Suffixed(Lower(LastName(rows, NewNames(rows, taken), key)))
  {
    hide Suffixed, NewNames, Lower;
    var j := LastNameAt(rows, NewNames(rows, taken), key);
    assert !Single(rows, j);
    var i :| 0 <= i < j && rows[i].number == rows[j].number;
    RepeatedIsSuffixed(rows, taken, i, j);
  }

  lemma LooseKept(targets: seq<Row>, m: Metadata, keep: bool, taken: set<string>) returns (s: string)
    requires !(KeptNames(targets, m, keep) <= taken)
    ensures Lower(s) in KeptNames(targets, m, keep) && Lower(s) !in taken
  {
    hide Lower, Trim, KeepsAlias;
    var name :| name in KeptNames(targets, m, keep) && name !in taken;
    var i :| 0 <= i < |targets| && KeepsAlias(m, targets[i].key, keep) && Lower(Trim(AliasIn(m, targets[i].key))) == name;
    s := Trim(AliasIn(m, targets[i].key));
  }

  // ---- When a kept alias stays apart ----

  /** The table says enough to tell: some renamed row has its number for itself, or none has a suffixed kept alias to
      run into. */
  ghost predicate Telling(rows: seq<Row>, targetRows: seq<int>, m: Metadata, keep: bool) {
    var targets := TargetsOf(rows, targetRows);
    || Renamed(targets, m, keep) == [] || HasSingle(Renamed(targets, m, keep))
    || forall name :: name in KeptNames(targets, m, keep) && name !in Taken(rows, Scope(targetRows), keep) ==> !Suffixed(name)
  }

  /** Every kept alias is among the names taken at the start, or no renamed row has its number for itself. */
  ghost predicate Apart(rows: seq<Row>, targetRows: seq<int>, m: Metadata, keep: bool) {
    var targets := TargetsOf(rows, targetRows);
    KeptNames(targets, m, keep) <= Taken(rows, Scope(targetRows), keep) || !HasSingle(Renamed(targets, m, keep))
  }

  /** Where all target numbers are distinct, any renamed row at all will do. */
  lemma DistinctNumbersTell(rows: seq<Row>, targetRows: seq<int>, m: Metadata, keep: bool)
    requires forall i, j :: 0 <= i < j < |targetRows| ==> targetRows[i] != targetRows[j]
    ensures var renamed := Renamed(TargetsOf(rows, targetRows), m, keep); HasSingle(renamed) <==> renamed != []
    ensures Telling(rows, targetRows, m, keep)
  {
    var renamed := Renamed(TargetsOf(rows, targetRows), m, keep);
    DistinctTargets(rows, targetRows);
    DistinctRenamed(TargetsOf(rows, targetRows), m, keep);
    hide TargetsOf, Renamed, KeptNames, Taken;
    if renamed != [] {
      assert Single(renamed, |renamed| - 1);
    }
  }

  predicate DistinctNumbers(rows: seq<Row>) {
    forall i, j :: 0 <= i < j < |rows| ==> rows[i].number != rows[j].number
  }

  lemma {:induction false} DistinctTargets(rows: seq<Row>, targetRows: seq<int>)
    requires forall i, j :: 0 <= i < j < |targetRows| ==> targetRows[i] != targetRows[j]
    ensures DistinctNumbers(TargetsOf(rows, targetRows))
    ensures forall row :: row in TargetsOf(rows, targetRows) ==> row.number in targetRows
  {
    hide RowOf;
    if targetRows != [] {
      var front, n := targetRows[..|targetRows| - 1], targetRows[|targetRows| - 1];
      DistinctTargets(rows, front);
      assert targetRows == front + [n] && n !in front;
    }
  }

  lemma {:induction false} DistinctRenamed(targets: seq<Row>, m: Metadata, keep: bool)
    requires DistinctNumbers(targets)
    ensures DistinctNumbers(Renamed(targets, m, keep))
  {
    hide KeepsAlias;
    if targets != [] {
      var front, row := targets[..|targets| - 1], targets[|targets| - 1];
      DistinctRenamed(front, m, keep);
      RenamedAreTargets(front, m, keep);
      assert forall other :: other in front ==> other.number != row.number;
    }
  }

  /** The parts of a plan that other suggestions leave as they are. */
  lemma SameParts(rows: seq<Row>, other: seq<Row>, targetRows: seq<int>, m: Metadata, keep: bool)
    requires SameButSuggestions(rows, other)
    ensures var a, b := TargetsOf(rows, targetRows), TargetsOf(other, targetRows);
      && SameButSuggestions(a, b) && SameButSuggestions(Renamed(a, m, keep), Renamed(b, m, keep))
      && KeptNames(a, m, keep) == KeptNames(b, m, keep)
      && (HasSingle(Renamed(a, m, keep)) <==> HasSingle(Renamed(b, m, keep)))
    ensures Taken(rows, Scope(targetRows), keep) == Taken(other, Scope(targetRows), keep)
  {
    var a, b := TargetsOf(rows, targetRows), TargetsOf(other, targetRows);
    SameTargets(rows, other, targetRows);
    SameKept(a, b, m, keep);
    SameRenamed(a, b, m, keep);
    SameTaken(rows, other, Scope(targetRows), keep);
    hide KeptNames, Taken, TargetsOf, Renamed;
    SameSingle(Renamed(a, m, keep), Renamed(b, m, keep));
    SameSingle(Renamed(b, m, keep), Renamed(a, m, keep));
  }

  lemma SameSingle(a: seq<Row>, b: seq<Row>)
    requires SameButSuggestions(a, b)
    ensures SameButSuggestions(b, a)
    ensures HasSingle(a) ==> HasSingle(b)
  {
    assert forall i :: 0 <= i < |a| ==> a[i].number == b[i].number && a[i].key == b[i].key;
    if j :| 0 <= j < |a| && Single(a, j) {
      assert Single(b, j);
    }
  }

  /** A kept alias among the names taken at the start is handed out by no plan. */
  lemma TakenStayApart(plan: Plan, rows: seq<Row>, targetRows: seq<int>, m: Metadata, keep: bool)
    requires IsPlan(plan, rows, targetRows, m, keep)
    requires KeptNames(TargetsOf(rows, targetRows), m, keep) <= Taken(rows, Scope(targetRows), keep)
    ensures !HandsOutKept(plan, m, keep)
  {
    var targets, taken := TargetsOf(rows, targetRows), Taken(rows, Scope(targetRows), keep);
    var renamed := Renamed(targets, m, keep);
    HandsOutKeptIff(plan, targets, |targetRows|, m, keep, taken);
    NewNamesAreNew(renamed, taken);
    hide KeptNames, Taken, TargetsOf, Renamed, NewNames, Lower, HandsOutKept, PlanFor, AllFirstFree;
    forall key | key in KeysOf(renamed) ensures Lower(LastName(renamed, NewNames(renamed, taken), key)) !in taken {
      var j := LastNameAt(renamed, NewNames(renamed, taken), key);
    }
  }

  /** Nor is one without a suffix where no renamed row has its number for itself. */
  lemma RepeatedStayApart(plan: Plan, rows: seq<Row>, targetRows: seq<int>, m: Metadata, keep: bool)
    requires IsPlan(plan, rows, targetRows, m, keep) && !HasSingle(Renamed(TargetsOf(rows, targetRows), m, keep))
    requires Telling(rows, targetRows, m, keep)
    ensures !HandsOutKept(plan, m, keep)
  {
    var targets, taken := TargetsOf(rows, targetRows), Taken(rows, Scope(targetRows), keep);
    var renamed := Renamed(targets, m, keep);
    HandsOutKeptIff(plan, targets, |targetRows|, m, keep, taken);
    NewNamesAreNew(renamed, taken);
    TargetsByNumber(rows, targetRows);
    RenamedAreTargets(targets, m, keep);
    hide KeptNames, Taken, TargetsOf, Renamed, NewNames, Lower, HandsOutKept, PlanFor, AllFirstFree, RowOf, Suffixed, HasSingle;
    forall i, j | 0 <= i < j < |renamed| && renamed[i].number == renamed[j].number ensures renamed[i] == renamed[j] {
      assert renamed[i] in targets && renamed[j] in targets;
    }
    forall key | key in KeysOf(renamed)
      ensures Lower(LastName(renamed, NewNames(renamed, taken), key)) !in KeptNames(targets, m, keep)
    {
      var j := LastNameAt(renamed, NewNames(renamed, taken), key);
      NoSingleSuffixed(renamed, taken, key);
    }
  }

  /** Otherwise some suggestions make a plan that hands one out. */
  lemma CanCollide(rows: seq<Row>, targetRows: seq<int>, m: Metadata, keep: bool) returns (other: seq<Row>, plan: Plan)
    requires !Apart(rows, targetRows, m, keep)
    ensures SameButSuggestions(rows, other) && IsPlan(plan, other, targetRows, m, keep) && HandsOutKept(plan, m, keep)
  {
    var renamed := Renamed(TargetsOf(rows, targetRows), m, keep);
    var s := LooseKept(TargetsOf(rows, targetRows), m, keep, Taken(rows, Scope(targetRows), keep));
    var j :| 0 <= j < |renamed| && Single(renamed, j);
    other := Suggesting(rows, renamed[j].number, s, s + "x");
    assert SameButSuggestions(rows, other);
    var n := renamed[j].number;
    assert forall row :: row in other ==> row.suggestion == if row.number == n then s else s + "x";
    hide *;
    plan := SomePlan(other, targetRows, m, keep);
    SameParts(rows, other, targetRows, m, keep);
    LooseIsHandedOut(plan, other, targetRows, m, keep, renamed, j, s);
  }

  lemma LooseIsHandedOut(plan: Plan, rows: seq<Row>, targetRows: seq<int>, m: Metadata, keep: bool,
                         before: seq<Row>, j: nat, s: string)
    requires IsPlan(plan, rows, targetRows, m, keep)
    requires SameButSuggestions(before, Renamed(TargetsOf(rows, targetRows), m, keep)) && j < |before| && Single(before, j)
    requires forall row :: row in rows ==> row.suggestion == if row.number == before[j].number then s else s + "x"
    requires Lower(s) in KeptNames(TargetsOf(rows, targetRows), m, keep) && Lower(s) !in Taken(rows, Scope(targetRows), keep)
    ensures HandsOutKept(plan, m, keep)
  {
    var targets, taken := TargetsOf(rows, targetRows), Taken(rows, Scope(targetRows), keep);
    var renamed := Renamed(targets, m, keep);
    HandsOutKeptIff(plan, targets, |targetRows|, m, keep, taken);
    TargetsAreRows(rows, targetRows);
    RenamedAreTargets(targets, m, keep);
    hide KeptNames, Taken, TargetsOf, Renamed, NewNames, Lower, HandsOutKept, IsPlan, LastName, SameButSuggestions, Single, KeysOf;
    forall i | 0 <= i < |renamed| ensures renamed[i] in rows {
      assert renamed[i] in targets;
    }
    SingleGetsIt(before, renamed, taken, j, s);
  }

  lemma SingleGetsIt(rows: seq<Row>, other: seq<Row>, taken: set<string>, j: nat, s: string)
    requires SameButSuggestions(rows, other) && j < |rows| && Single(rows, j) && Lower(s) !in taken
    requires forall i :: 0 <= i < |other| ==>
      other[i].suggestion == if other[i].number == rows[j].number then s else s + "x"
    ensures |other| == |rows|
    ensures other[j].key in KeysOf(other) && LastName(other, NewNames(other, taken), other[j].key) == s
  {
    assert forall i :: 0 <= i < |rows| ==> rows[i].number == other[i].number && rows[i].key == other[i].key;
    assert LastWithKey(other, j);
    hide NewNames, Lower;
    GetsItsOwn(other, taken, j);
    assert other[j].key in KeysOf(other);
    var l := LastNameAt(other, NewNames(other, taken), other[j].key);
    OneLast(other, l, j);
  }

  lemma SomePlan(rows: seq<Row>, targetRows: seq<int>, m: Metadata, keep: bool) returns (plan: Plan)
    ensures IsPlan(plan, rows, targetRows, m, keep)
  {
    var targets, taken := TargetsOf(rows, targetRows), Taken(rows, Scope(targetRows), keep);
    var renamed := Renamed(targets, m, keep);
    FewerTargets(rows, targetRows);
    FewerRenamed(targets, m, keep);
    hide TargetsOf, Taken, Renamed, PlannedAlias, KeysOf;
    plan := Plan(map key | key in KeysOf(targets) :: PlannedAlias(renamed, m, keep, taken, key),
                 |targets|, |targets| - |renamed|, |targetRows| - |targets|);
  }

  lemma {:induction false} FewerTargets(rows: seq<Row>, targetRows: seq<int>)
    ensures |TargetsOf(rows, targetRows)| <= |targetRows|
  {
    hide RowOf;
    if targetRows != [] {
      FewerTargets(rows, targetRows[..|targetRows| - 1]);
    }
  }

  lemma {:induction false} FewerRenamed(targets: seq<Row>, m: Metadata, keep: bool)
    ensures |Renamed(targets, m, keep)| <= |targets|
  {
    hide KeepsAlias;
    if targets != [] {
      FewerRenamed(targets[..|targets| - 1], m, keep);
    }
  }

  /** Over all suggestions, no plan hands out a kept alias if and only if every kept alias is among the names taken at
      the start, or no renamed row has its number for itself. */
  lemma KeptStaysApartIff(rows: seq<Row>, targetRows: seq<int>, m: Metadata, keep: bool)
    requires Telling(rows, targetRows, m, keep)
    ensures (forall other, plan :: SameButSuggestions(rows, other) && IsPlan(plan, other, targetRows, m, keep) ==>
        !HandsOutKept(plan, m, keep))
      <==> Apart(rows, targetRows, m, keep)
  {
    if Apart(rows, targetRows, m, keep) {
      forall other, plan | SameButSuggestions(rows, other) && IsPlan(plan, other, targetRows, m, keep)
        ensures !HandsOutKept(plan, m, keep)
      {
        OtherStaysApart(plan, rows, other, targetRows, m, keep);
      }
    } else {
      hide HandsOutKept, IsPlan, Apart, SameButSuggestions;
      var other, plan := CanCollide(rows, targetRows, m, keep);
    }
  }

  /** For distinct target numbers: if and only if every kept alias is among the names taken at the start, or no row gets
      a new alias. */
  lemma DistinctNumbersDecide(rows: seq<Row>, targetRows: seq<int>, m: Metadata, keep: bool)
    requires forall i, j :: 0 <= i < j < |targetRows| ==> targetRows[i] != targetRows[j]
    ensures (forall other, plan :: SameButSuggestions(rows, other) && IsPlan(plan, other, targetRows, m, keep) ==>
        !HandsOutKept(plan, m, keep))
      <==> (KeptNames(TargetsOf(rows, targetRows), m, keep) <= Taken(rows, Scope(targetRows), keep)
            || Renamed(TargetsOf(rows, targetRows), m, keep) == [])
  {
    DistinctNumbersTell(rows, targetRows, m, keep);
    KeptStaysApartIff(rows, targetRows, m, keep);
    hide HandsOutKept, IsPlan, SameButSuggestions, KeptNames, Taken, TargetsOf, Renamed, HasSingle, Telling;
  }

  lemma OtherStaysApart(plan: Plan, rows: seq<Row>, other: seq<Row>, targetRows: seq<int>, m: Metadata, keep: bool)
    requires SameButSuggestions(rows, other) && IsPlan(plan, other, targetRows, m, keep)
    requires Telling(rows, targetRows, m, keep) && Apart(rows, targetRows, m, keep)
    ensures !HandsOutKept(plan, m, keep)
  {
    SameParts(rows, other, targetRows, m, keep);
    hide KeptNames, Taken, TargetsOf, Renamed, HandsOutKept, IsPlan, HasSingle, Suffixed;
    if KeptNames(TargetsOf(rows, targetRows), m, keep) <= Taken(rows, Scope(targetRows), keep) {
      TakenStayApart(plan, other, targetRows, m, keep);
    } else {
      RepeatedStayApart(plan, other, targetRows, m, keep);
    }
  }

  // ---- When all aliases of a plan differ ----

  /** The alias of a key as the comparison sees it: a kept one without the space around it. */
  function Compared(plan: Plan, m: Metadata, keep: bool, key: string): string
    requires key in plan.aliases
  {
    Lower(if KeepsAlias(m, key, keep) then Trim(plan.aliases[key]) else plan.aliases[key])
  }

  ghost predicate AllDiffer(plan: Plan, m: Metadata, keep: bool) {
    forall a, b :: a in plan.aliases && b in plan.aliases && a != b ==>
      Compared(plan, m, keep, a) != Compared(plan, m, keep, b)
  }

  /** The kept aliases of the targets differ among themselves. */
  ghost predicate KeptDiffer(targets: seq<Row>, m: Metadata, keep: bool) {
    forall a, b :: a in KeysOf(targets) && b in KeysOf(targets) && a != b && KeepsAlias(m, a, keep) && KeepsAlias(m, b, keep) ==>
      Lower(Trim(AliasIn(m, a))) != Lower(Trim(AliasIn(m, b)))
  }

  lemma AllDifferIffKept(plan: Plan, targets: seq<Row>, total: nat, m: Metadata, keep: bool, taken: set<string>)
    requires PlanFor(plan, targets, total, m, keep, taken)
    ensures AllDiffer(plan, m, keep) <==> KeptDiffer(targets, m, keep) && !HandsOutKept(plan, m, keep)
  {
    assert plan.aliases.Keys == KeysOf(targets);
    assert forall key :: key in plan.aliases && KeepsAlias(m, key, keep) ==> plan.aliases[key] == AliasIn(m, key);
    forall a, b | a in plan.aliases && b in plan.aliases && a != b && !KeepsAlias(m, a, keep) && !KeepsAlias(m, b, keep)
      ensures Compared(plan, m, keep, a) != Compared(plan, m, keep, b)
    {
      NewAliasesDiffer(plan, targets, total, m, keep, taken, a, b);
    }
    hide Lower, Trim, KeepsAlias, KeysOf, PlanFor, AliasIn;
    if AllDiffer(plan, m, keep) {
      forall a, b ensures !Reuses(plan, m, keep, a, b) {
        assert a in plan.aliases && b in plan.aliases && a != b ==> Compared(plan, m, keep, a) != Compared(plan, m, keep, b);
      }
      forall a, b | a in KeysOf(targets) && b in KeysOf(targets) && a != b && KeepsAlias(m, a, keep) && KeepsAlias(m, b, keep)
        ensures Lower(Trim(AliasIn(m, a))) != Lower(Trim(AliasIn(m, b)))
      {
        assert Compared(plan, m, keep, a) != Compared(plan, m, keep, b);
      }
    }
    if KeptDiffer(targets, m, keep) && !HandsOutKept(plan, m, keep) {
      forall a, b | a in plan.aliases && b in plan.aliases && a != b
        ensures Compared(plan, m, keep, a) != Compared(plan, m, keep, b)
      {
        assert !Reuses(plan, m, keep, a, b) && !Reuses(plan, m, keep, b, a);
      }
    }
  }

  /** Over all suggestions, the aliases of a plan are pairwise distinct if and only if the kept ones are and none of
      them can be handed out again. */
  lemma AllDifferIff(rows: seq<Row>, targetRows: seq<int>, m: Metadata, keep: bool)
    requires Telling(rows, targetRows, m, keep)
    ensures (forall other, plan :: SameButSuggestions(rows, other) && IsPlan(plan, other, targetRows, m, keep) ==>
        AllDiffer(plan, m, keep))
      <==> KeptDiffer(TargetsOf(rows, targetRows), m, keep) && Apart(rows, targetRows, m, keep)
  {
    KeptStaysApartIff(rows, targetRows, m, keep);
    forall other, plan | SameButSuggestions(rows, other) && IsPlan(plan, other, targetRows, m, keep)
      ensures AllDiffer(plan, m, keep)
        <==> KeptDiffer(TargetsOf(rows, targetRows), m, keep) && !HandsOutKept(plan, m, keep)
    {
      AllDifferIffKept(plan, TargetsOf(other, targetRows), |targetRows|, m, keep, Taken(other, Scope(targetRows), keep));
      SameTargets(rows, other, targetRows);
      SameKeptDiffer(TargetsOf(rows, targetRows), TargetsOf(other, targetRows), m, keep);
    }
    var some := SomePlan(rows, targetRows, m, keep);
    assert SameButSuggestions(rows, rows);
    hide AllDiffer, KeptDiffer, HandsOutKept, IsPlan, Apart, SameButSuggestions, TargetsOf;
  }

  lemma SameKeptDiffer(a: seq<Row>, b: seq<Row>, m: Metadata, keep: bool)
    requires SameButSuggestions(a, b)
    ensures KeptDiffer(a, m, keep) <==> KeptDiffer(b, m, keep)
  {
    assert forall i :: 0 <= i < |a| ==> a[i].key == b[i].key;
    hide Lower, Trim, KeepsAlias;
    forall key ensures key in KeysOf(a) <==> key in KeysOf(b) {
      if i :| 0 <= i < |a| && a[i].key == key {
        assert b[i].key == key;
      }
      if i :| 0 <= i < |b| && b[i].key == key {
        assert a[i].key == key;
      }
    }
    hide KeysOf;
  }

  // ---- Agreement, and what happens without it ----

  /** The metadata and the table agree on a row's alias: then a kept alias is always among the taken names. */
  lemma AgreementKeepsApart(rows: seq<Row>, targetRows: seq<int>, m: Metadata, keep: bool)
    requires forall row :: row in rows && KeepsAlias(m, row.key, keep) ==>
      Lower(Trim(row.alias)) == Lower(Trim(AliasIn(m, row.key)))
    ensures KeptNames(TargetsOf(rows, targetRows), m, keep) <= Taken(rows, Scope(targetRows), keep)
  {
    var targets := TargetsOf(rows, targetRows);
    TargetsAreRows(rows, targetRows);
    hide TargetsOf;
    forall name | name in KeptNames(targets, m, keep) ensures name in Taken(rows, Scope(targetRows), keep) {
      hide Lower, Trim;
      var i :| 0 <= i < |targets| && KeepsAlias(m, targets[i].key, keep) && Lower(Trim(AliasIn(m, targets[i].key))) == name;
      assert targets[i] in rows;
      var r :| 0 <= r < |rows| && rows[r] == targets[i];
      LowerEmpty(Trim(rows[r].alias), Trim(AliasIn(m, rows[r].key)));
      assert Retained(rows[r], Scope(targetRows), keep);
    }
  }

  lemma LowerEmpty(a: string, b: string)
    ensures Lower(a) == Lower(b) ==> (a == "" <==> b == "")
  {
    assert |Lower(a)| == |a| && |Lower(b)| == |b|;
  }

  predicate PumpCase(kept: Row, other: Row, m: Metadata) {
    && kept.alias == "" && other.alias == "" && kept.number != other.number
    && kept.key != "" && other.key != "" && kept.key != other.key
    && m == map[kept.key := "Pump"] && other.suggestion == "Pump"
  }

  lemma PumpRows(kept: Row, other: Row, m: Metadata)
    requires PumpCase(kept, other, m)
    ensures TargetsOf([kept, other], [kept.number, other.number]) == [kept, other]
  {
    var rows, numbers := [kept, other], [kept.number, other.number];
    assert rows[..1] == [kept] && RowOf([kept], kept.number) == Some(kept);
    assert RowOf(rows, kept.number) == Some(kept) && RowOf(rows, other.number) == Some(other);
    hide RowOf;
    TargetsSnoc(rows, [], kept.number);
    TargetsSnoc(rows, [kept.number], other.number);
    assert TargetsOf(rows, []) == [];
    hide TargetsOf;
    assert [] + [kept.number] == [kept.number] && [kept.number] + [other.number] == numbers;
  }

  lemma PumpRenamed(kept: Row, other: Row, m: Metadata)
    requires PumpCase(kept, other, m)
    ensures KeepsAlias(m, kept.key, true) && !KeepsAlias(m, other.key, true)
    ensures Renamed([kept, other], m, true) == [other]
  {
    assert Trim("") == "" && Trim("Pump") == "Pump";
    hide Trim;
    assert KeepsAlias(m, kept.key, true) && !KeepsAlias(m, other.key, true);
    hide KeepsAlias;
    RenamedSnoc([], kept, m, true);
    RenamedSnoc([kept], other, m, true);
    assert Renamed([], m, true) == [];
    hide Renamed;
    assert [] + [kept] == [kept] && [kept] + [other] == [kept, other];
  }

  lemma PumpTaken(kept: Row, other: Row, m: Metadata)
    requires PumpCase(kept, other, m)
    ensures Taken([kept, other], Scope([kept.number, other.number]), true) == {}
  {
    assert Trim("") == "";
    hide Lower, Trim;
    var rows := [kept, other];
    assert forall i :: 0 <= i < |rows| ==> rows[i].alias == "";
  }

  /** Without agreement the plan itself can give one alias twice: a kept one the table does not show, and again to the
      next row whose suggestion it is. */
  method CollidingPlan(kept: Row, other: Row, m: Metadata) returns (plan: Plan)
    requires PumpCase(kept, other, m)
    ensures kept.key in plan.aliases && other.key in plan.aliases
    ensures plan.aliases[kept.key] == "Pump" && plan.aliases[other.key] == "Pump"
  {
    PumpRows(kept, other, m);
    PumpRenamed(kept, other, m);
    PumpTaken(kept, other, m);
    GetsItsOwn([other], {}, 0);
    KeysSnoc([kept], other);
    KeysSnoc([], kept);
    assert [] + [kept] == [kept] && [kept] + [other] == [kept, other];
    assert AliasIn(m, kept.key) == "Pump" && LastName([other], NewNames([other], {}), other.key) == NewNames([other], {})[0];
    hide TargetsOf, Renamed, Taken, KeepsAlias, Lower, NewNames, RowOf, KeysOf, AliasIn, LastName, Scope;
    plan := BuildBulkNamingPlan([kept, other], [kept.number, other.number], m, true);
  }

  // ---- The plan, number by number ----

  /** A number stands for the last row that has it. */
  lemma {:induction false} RowOfIs(rows: seq<Row>, n: int, r: nat)
    requires r < |rows| && rows[r].number == n && forall q :: r < q < |rows| ==> rows[q].number != n
    ensures RowOf(rows, n) == Some(rows[r])
  {
    if r < |rows| - 1 {
      RowOfIs(rows[..|rows| - 1], n, r);
    }
  }

  lemma {:induction false} NoRowOf(rows: seq<Row>, n: int)
    ensures RowOf(rows, n) == None <==> forall q :: 0 <= q < |rows| ==> rows[q].number != n
  {
    if rows != [] {
      NoRowOf(rows[..|rows| - 1], n);
    }
  }

  /** The number's row is there, has a key, and the plan is to keep the alias the metadata has for it. */
  predicate KeptRow(rows: seq<Row>, m: Metadata, keep: bool, n: int) {
    Namable(rows, n) && KeepsAlias(m, RowOf(rows, n).value.key, keep)
  }

  lemma KeepsMeans(m: Metadata, key: string, keep: bool)
    ensures KeepsAlias(m, key, keep) <==> keep && key in m && !Blank(m[key])
    ensures KeepsAlias(m, key, keep) ==> AliasIn(m, key) == m[key]
  {
    BlankIffTrimmed(AliasIn(m, key));
  }

  lemma OneMoreNamable(rows: seq<Row>, front: seq<int>, last: int)
    ensures var all := front + [last];
      (set i | 0 <= i < |all| && Namable(rows, all[i]))
      == (set i | 0 <= i < |front| && Namable(rows, front[i])) + if Namable(rows, last) then {|front|} else {}
  {
    hide Namable;
  }

  lemma {:induction false} NamableCount(rows: seq<Row>, targetRows: seq<int>)
    ensures |TargetsOf(rows, targetRows)| == |set i | 0 <= i < |targetRows| && Namable(rows, targetRows[i])|
  {
    var all := set i | 0 <= i < |targetRows| && Namable(rows, targetRows[i]);
    if targetRows == [] {
      assert all == {};
    } else {
      var front, last := targetRows[..|targetRows| - 1], targetRows[|targetRows| - 1];
      NamableCount(rows, front);
      TargetsSnoc(rows, front, last);
      OneMoreNamable(rows, front, last);
      hide *;
      assert targetRows == front + [last];
    }
  }

  lemma KeptStep(rows: seq<Row>, front: seq<int>, last: int, m: Metadata, keep: bool)
    ensures var a, b := TargetsOf(rows, front), TargetsOf(rows, front + [last]);
      |b| - |Renamed(b, m, keep)| == |a| - |Renamed(a, m, keep)| + if KeptRow(rows, m, keep, last) then 1 else 0
  {
    TargetsSnoc(rows, front, last);
    if Namable(rows, last) {
      RenamedSnoc(TargetsOf(rows, front), RowOf(rows, last).value, m, keep);
    } else {
      assert TargetsOf(rows, front) + [] == TargetsOf(rows, front);
    }
    hide RowOf, KeepsAlias, TargetsOf, Renamed;
  }

  lemma OneMoreKept(rows: seq<Row>, front: seq<int>, last: int, m: Metadata, keep: bool)
    ensures var all := front + [last];
      (set i | 0 <= i < |all| && KeptRow(rows, m, keep, all[i]))
      == (set i | 0 <= i < |front| && KeptRow(rows, m, keep, front[i]))
         + if KeptRow(rows, m, keep, last) then {|front|} else {}
  {
    hide KeptRow;
  }

  lemma {:induction false} KeptCount(rows: seq<Row>, targetRows: seq<int>, m: Metadata, keep: bool)
    ensures |TargetsOf(rows, targetRows)| - |Renamed(TargetsOf(rows, targetRows), m, keep)|
      == |set i | 0 <= i < |targetRows| && KeptRow(rows, m, keep, targetRows[i])|
  {
    var all := set i | 0 <= i < |targetRows| && KeptRow(rows, m, keep, targetRows[i]);
    if targetRows == [] {
      assert all == {};
    } else {
      var front, last := targetRows[..|targetRows| - 1], targetRows[|targetRows| - 1];
      KeptCount(rows, front, m, keep);
      KeptStep(rows, front, last, m, keep);
      OneMoreKept(rows, front, last, m, keep);
      hide *;
      assert targetRows == front + [last];
    }
  }

  lemma {:induction false} KeysAre(rows: seq<Row>, targetRows: seq<int>, key: string)
    ensures key in KeysOf(TargetsOf(rows, targetRows)) <==>
      exists i :: 0 <= i < |targetRows| && Namable(rows, targetRows[i]) && RowOf(rows, targetRows[i]).value.key == key
  {
    if targetRows != [] {
      var n := |targetRows| - 1;
      var front, last := targetRows[..n], targetRows[n];
      KeysAre(rows, front, key);
      if Namable(rows, last) {
        KeysSnoc(TargetsOf(rows, front), RowOf(rows, last).value);
      }
      hide Namable, RowOf, KeysOf;
      assert forall i :: 0 <= i < n ==> front[i] == targetRows[i];
      if !Namable(rows, last) {
        assert TargetsOf(rows, front) + [] == TargetsOf(rows, front);
      }
    }
  }

  /** What a plan counts and whom it names, number by number and key by key. A number stands for the last row that has it
      (RowOfIs, NoRowOf). */
  lemma PlanMeans(plan: Plan, rows: seq<Row>, targetRows: seq<int>, m: Metadata, keep: bool)
    requires IsPlan(plan, rows, targetRows, m, keep)
    ensures plan.updated == |set i | 0 <= i < |targetRows|
      && RowOf(rows, targetRows[i]).Some? && RowOf(rows, targetRows[i]).value.key != ""|
    ensures plan.updated + plan.skippedInvalid == |targetRows|
    ensures plan.skippedExisting == |set i | 0 <= i < |targetRows|
      && RowOf(rows, targetRows[i]).Some? && RowOf(rows, targetRows[i]).value.key != ""
      && keep && RowOf(rows, targetRows[i]).value.key in m && !Blank(m[RowOf(rows, targetRows[i]).value.key])|
    ensures forall key :: key in plan.aliases <==>
      (key != ""
      && exists i :: 0 <= i < |targetRows| && RowOf(rows, targetRows[i]).Some? && RowOf(rows, targetRows[i]).value.key == key)
    ensures forall key :: key in plan.aliases && keep && key in m && !Blank(m[key]) ==> plan.aliases[key] == m[key]
  {
    NamableCount(rows, targetRows);
    KeptCount(rows, targetRows, m, keep);
    PlanKeys(plan, rows, targetRows, m, keep);
    CountedAlike(rows, targetRows, m, keep);
    hide RowOf, TargetsOf, Renamed, PlannedAlias, KeysOf, Taken, KeepsAlias, Blank, Namable, KeptRow;
    forall key | key in plan.aliases && keep && key in m && !Blank(m[key]) ensures plan.aliases[key] == m[key] {
      KeepsMeans(m, key, keep);
      KeptAliasStays(plan, rows, targetRows, m, keep, key);
    }
  }

  lemma KeptAliasStays(plan: Plan, rows: seq<Row>, targetRows: seq<int>, m: Metadata, keep: bool, key: string)
    requires IsPlan(plan, rows, targetRows, m, keep) && key in plan.aliases && KeepsAlias(m, key, keep)
    ensures plan.aliases[key] == AliasIn(m, key)
  {
    hide RowOf, TargetsOf, Renamed, KeysOf, Taken, KeepsAlias, AliasIn;
  }

  lemma PlanKeys(plan: Plan, rows: seq<Row>, targetRows: seq<int>, m: Metadata, keep: bool)
    requires IsPlan(plan, rows, targetRows, m, keep)
    ensures forall key :: key in plan.aliases <==>
      (key != ""
      && exists i :: 0 <= i < |targetRows| && RowOf(rows, targetRows[i]).Some? && RowOf(rows, targetRows[i]).value.key == key)
  {
    hide RowOf, TargetsOf, Renamed, PlannedAlias, KeysOf, Taken;
    forall key
      ensures key in plan.aliases <==>
        (key != ""
        && exists i :: 0 <= i < |targetRows| && RowOf(rows, targetRows[i]).Some? && RowOf(rows, targetRows[i]).value.key == key)
    {
      KeysAre(rows, targetRows, key);
    }
  }

  lemma CountedAlike(rows: seq<Row>, targetRows: seq<int>, m: Metadata, keep: bool)
    ensures (set i | 0 <= i < |targetRows| && Namable(rows, targetRows[i]))
      == set i | 0 <= i < |targetRows|
         && RowOf(rows, targetRows[i]).Some? && RowOf(rows, targetRows[i]).value.key != ""
    ensures (set i | 0 <= i < |targetRows| && KeptRow(rows, m, keep, targetRows[i]))
      == set i | 0 <= i < |targetRows|
         && RowOf(rows, targetRows[i]).Some? && RowOf(rows, targetRows[i]).value.key != ""
         && keep && RowOf(rows, targetRows[i]).value.key in m && !Blank(m[RowOf(rows, targetRows[i]).value.key])
  {
    hide RowOf, KeepsAlias, Blank;
    forall i | 0 <= i < |targetRows| && RowOf(rows, targetRows[i]).Some? {
      KeepsMeans(m, RowOf(rows, targetRows[i]).value.key, keep);
    }
  }
}
