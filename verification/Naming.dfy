/** Unique PLC names: suffix loops over sets of used names, the declaration block, and the bulk naming plan. */
module Naming {
  import opened Words
  import opened Text

  // ---- Names up to case ----

  /** The names a suffix loop tries: the base, then the base with _2, _3 and so on. */
  function Candidate(base: string, k: nat): string {
    if k == 0 then base else base + "_" + Decimal(k + 1)
  }

  lemma SuffixesAre(base: string)
    ensures Candidate(base, 0) == base && forall d :: d >= 2 ==> Candidate(base, d - 1) == base + "_" + Decimal(d)
  {
  }

  lemma LowerSuffix(base: string, n: nat)
    ensures Lower(base + "_" + Decimal(n)) == Lower(base) + "_" + Decimal(n)
  {
    hide Decimal;
  }

  /** Two candidates of one base are never the same name. */
  lemma CandidatesDiffer(base: string, i: nat, j: nat)
    requires i < j
    ensures Lower(Candidate(base, i)) != Lower(Candidate(base, j))
  {
    LowerSuffix(base, j + 1);
    if i > 0 {
      LowerSuffix(base, i + 1);
      DecimalInjective(i + 1, j + 1);
      var front := Lower(base) + "_";
      assert (front + Decimal(i + 1))[|front|..] == Decimal(i + 1);
      assert (front + Decimal(j + 1))[|front|..] == Decimal(j + 1);
    }
  }

  /** `name` is the first candidate that is not used. */
  predicate FirstFree(base: string, used: set<string>, name: string, k: nat) {
    && name == Candidate(base, k) && Lower(name) !in used
    && forall j :: 0 <= j < k ==> Lower(Candidate(base, j)) in used
  }

  function Tried(base: string, k: nat): set<string> {
    set j | 0 <= j < k :: Lower(Candidate(base, j))
  }

  /** The suffix loop ends: each round uses up another of the finitely many used names. */
  method UniqueName(base: string, used: set<string>) returns (name: string, ghost k: nat)
    ensures Lower(name) !in used && FirstFree(base, used, name, k) && name == FirstUnused(base, used)
    ensures name == if k == 0 then base else base + "_" + Decimal(k + 1)
    ensures k > 0 ==> Lower(base) in used && forall d :: 2 <= d <= k ==> Lower(base + "_" + Decimal(d)) in used
  {
    SuffixesAre(base);
    name, k := base, 0;
    var duplicate := 2;
    hide Lower;
    while Lower(name) in used
      invariant name == Candidate(base, k) && duplicate == k + 2 && Tried(base, k) <= used
      decreases |used - Tried(base, k)|
    {
      TriedGrows(base, used, k);
      name := base + "_" + Decimal(duplicate);
      duplicate, k := duplicate + 1, k + 1;
    }
    assert forall j :: 0 <= j < k ==> Lower(Candidate(base, j)) in Tried(base, k);
    UnusedIs(base, used, name, k, 0);
  }

  /** The first candidate from the `k`th on that is not used, all before it being used. */
  function Unused(base: string, used: set<string>, k: nat): string
    requires Tried(base, k) <= used
    decreases |used - Tried(base, k)|
  {
    if Lower(Candidate(base, k)) in used then
      TriedGrows(base, used, k);
      Unused(base, used, k + 1)
    else
      Candidate(base, k)
  }

  function FirstUnused(base: string, used: set<string>): string {
    Unused(base, used, 0)
  }

  lemma {:induction false} UnusedIs(base: string, used: set<string>, name: string, k: nat, j: nat)
    requires FirstFree(base, used, name, k) && j <= k
    ensures Tried(base, j) <= used && name == Unused(base, used, j)
    decreases k - j
  {
    hide Lower, Candidate;
    if j < k {
      UnusedIs(base, used, name, k, j + 1);
    }
  }

  lemma {:induction false} UnusedIsFree(base: string, used: set<string>, j: nat) returns (k: nat)
    requires Tried(base, j) <= used
    ensures FirstFree(base, used, Unused(base, used, j), k)
    decreases |used - Tried(base, j)|
  {
    hide Lower, Candidate;
    if Lower(Candidate(base, j)) in used {
      TriedGrows(base, used, j);
      k := UnusedIsFree(base, used, j + 1);
    } else {
      k := j;
      assert forall i :: 0 <= i < j ==> Lower(Candidate(base, i)) in Tried(base, j);
    }
  }

  lemma TriedGrows(base: string, used: set<string>, k: nat)
    requires Tried(base, k) <= used && Lower(Candidate(base, k)) in used
    ensures Tried(base, k + 1) <= used && |used - Tried(base, k + 1)| < |used - Tried(base, k)|
  {
    var next := Lower(Candidate(base, k));
    forall j | 0 <= j < k ensures Lower(Candidate(base, j)) != next {
      CandidatesDiffer(base, j, k);
    }
    hide Lower, Candidate;
    assert Tried(base, k + 1) == Tried(base, k) + {next};
    assert next !in Tried(base, k);
    assert used - Tried(base, k) == (used - Tried(base, k + 1)) + {next};
  }

  // ---- The declaration block ----

  /** One I/O row; `symbol` and `suggestion` are the PLC identifiers derived from it. */
  datatype Row = Row(number: int, alias: string, key: string, symbol: string, suggestion: string, plcType: string)

  predicate DistinctIgnoringCase(names: seq<string>) {
    forall i, j :: 0 <= i < j < |names| ==> Lower(names[i]) != Lower(names[j])
  }

  function DeclarationLine(symbol: string, plcType: string, comment: string): string {
    "    " + symbol + " : " + plcType + "; (* " + comment + " *)"
  }

  function LowerSet(names: seq<string>): set<string> {
    set i | 0 <= i < |names| :: Lower(names[i])
  }

  /** The symbols a block declares: each row's own symbol, made unique against those before it. */
  predicate Declares(rows: seq<Row>, symbols: seq<string>, picks: seq<nat>) {
    && |symbols| == |picks| == |rows|
    && forall i :: 0 <= i < |rows| ==> FirstFree(rows[i].symbol, LowerSet(symbols[..i]), symbols[i], picks[i])
  }

  method DeclarationBlock(rows: seq<Row>, comments: seq<string>) returns (lines: seq<string>, symbols: seq<string>, ghost picks: seq<nat>)
    requires |comments| == |rows|
    ensures Declares(rows, symbols, picks) && DistinctIgnoringCase(symbols)
    ensures |lines| == |rows| + 2 && lines[0] == "VAR_GLOBAL" && lines[|rows| + 1] == "END_VAR"
    ensures forall i :: 0 <= i < |rows| ==>
      lines[i + 1] == "    " + symbols[i] + " : " + rows[i].plcType + "; (* " + comments[i] + " *)"
  {
    var usedSymbols: set<string> := {};
    lines, symbols, picks := ["VAR_GLOBAL"], [], [];
    for i := 0 to |rows|
      invariant |symbols| == |picks| == i && |lines| == i + 1 && lines[0] == "VAR_GLOBAL"
      invariant usedSymbols == LowerSet(symbols)
      invariant Declares(rows[..i], symbols, picks)
      invariant forall j :: 0 <= j < i ==> lines[j + 1] == DeclarationLine(symbols[j], rows[j].plcType, comments[j])
    {
      hide FirstFree, Lower, DeclarationLine;
      var symbol, k := UniqueName(rows[i].symbol, usedSymbols);
      ghost var before := symbols;
      usedSymbols := usedSymbols + {Lower(symbol)};
      symbols, picks := symbols + [symbol], picks + [k];
      LowerSetSnoc(before, symbol);
      DeclaresSnoc(rows, before, picks[..i], symbol, k);
      assert picks == picks[..i] + [k];
      lines := lines + [DeclarationLine(symbol, rows[i].plcType, comments[i])];
    }
    assert rows[..|rows|] == rows;
    DeclaredDistinct(rows, symbols, picks);
    lines := lines + ["END_VAR"];
  }

  lemma LowerSetSnoc(names: seq<string>, name: string)
    ensures LowerSet(names + [name]) == LowerSet(names) + {Lower(name)}
  {
    hide Lower;
    assert forall i :: 0 <= i < |names| ==> (names + [name])[i] == names[i];
    assert (names + [name])[|names|] == name;
  }

  lemma DeclaresSnoc(rows: seq<Row>, symbols: seq<string>, picks: seq<nat>, symbol: string, k: nat)
    requires |symbols| < |rows| && Declares(rows[..|symbols|], symbols, picks)
    requires FirstFree(rows[|symbols|].symbol, LowerSet(symbols), symbol, k)
    ensures Declares(rows[..|symbols| + 1], symbols + [symbol], picks + [k])
  {
    hide FirstFree, LowerSet;
    var n := |symbols|;
    forall i | 0 <= i < n + 1
      ensures FirstFree(rows[..n + 1][i].symbol, LowerSet((symbols + [symbol])[..i]), (symbols + [symbol])[i], (picks + [k])[i])
    {
      assert (symbols + [symbol])[..i] == symbols[..i];
      assert i < n ==> rows[..n][i] == rows[i];
      assert symbols[..n] == symbols;
    }
  }

  /** All symbols of a block are pairwise distinct ignoring case. */
  lemma DeclaredDistinct(rows: seq<Row>, symbols: seq<string>, picks: seq<nat>)
    requires Declares(rows, symbols, picks)
    ensures DistinctIgnoringCase(symbols)
  {
    forall i, j | 0 <= i < j < |symbols| ensures Lower(symbols[i]) != Lower(symbols[j]) {
      assert FirstFree(rows[j].symbol, LowerSet(symbols[..j]), symbols[j], picks[j]);
      assert symbols[..j][i] == symbols[i];
      assert Lower(symbols[i]) in LowerSet(symbols[..j]);
    }
  }

  // ---- The duplicate scan ----

  predicate Twice(rows: seq<Row>, name: string) {
    exists i, j :: 0 <= i < j < |rows| && Lower(rows[i].symbol) == name && Lower(rows[j].symbol) == name
  }

  predicate Once(rows: seq<Row>, name: string) {
    exists j :: 0 <= j < |rows| && Lower(rows[j].symbol) == name
  }

  /** What the scan knows after `rows`, about one name. */
  predicate Seen(rows: seq<Row>, counts: map<string, nat>, duplicates: set<string>, name: string) {
    && (name in duplicates <==> Twice(rows, name)) && (name in counts <==> Once(rows, name))
    && (name in counts ==> counts[name] > 0)
  }

  ghost predicate AllSeen(rows: seq<Row>, counts: map<string, nat>, duplicates: set<string>) {
    forall name :: Seen(rows, counts, duplicates, name)
  }

  method DuplicateSymbols(rows: seq<Row>) returns (duplicates: set<string>)
    ensures forall name :: name in duplicates <==> Twice(rows, name)
  {
    var counts: map<string, nat> := map[];
    duplicates := {};
    assert forall name :: Seen(rows[..0], counts, duplicates, name);
    for i := 0 to |rows|
      invariant AllSeen(rows[..i], counts, duplicates)
    {
      hide Seen, AllSeen, Lower;
      var symbol := Lower(rows[i].symbol);
      var count := (if symbol in counts then counts[symbol] else 0) + 1;
      SeenSnoc(rows[..i], rows[i], counts, duplicates);
      assert rows[..i + 1] == rows[..i] + [rows[i]];
      counts := counts[symbol := count];
      if count > 1 {
        duplicates := duplicates + {symbol};
      }
    }
    assert rows[..|rows|] == rows;
    hide Twice, Once;
    forall name ensures name in duplicates <==> Twice(rows, name) {
      assert Seen(rows, counts, duplicates, name);
    }
  }

  lemma SeenSnoc(rows: seq<Row>, row: Row, counts: map<string, nat>, duplicates: set<string>)
    requires AllSeen(rows, counts, duplicates)
    ensures var symbol := Lower(row.symbol);
      var count := (if symbol in counts then counts[symbol] else 0) + 1;
      AllSeen(rows + [row], counts[symbol := count], if count > 1 then duplicates + {symbol} else duplicates)
  {
    var symbol := Lower(row.symbol);
    var count := (if symbol in counts then counts[symbol] else 0) + 1;
    var counted, found := counts[symbol := count], if count > 1 then duplicates + {symbol} else duplicates;
    forall name ensures Seen(rows + [row], counted, found, name)
    {
      assert Seen(rows, counts, duplicates, name) && Seen(rows, counts, duplicates, symbol);
      hide Twice, Once, Lower;
      OneMoreOnce(rows, row, name);
      OneMoreTwice(rows, row, name);
    }
  }

  lemma OneMoreOnce(rows: seq<Row>, row: Row, name: string)
    ensures Once(rows + [row], name) <==> Once(rows, name) || name == Lower(row.symbol)
  {
    hide Lower;
    var all := rows + [row];
    assert forall k :: 0 <= k < |rows| ==> all[k] == rows[k];
    if j :| 0 <= j < |rows| && Lower(rows[j].symbol) == name {
      assert Lower(all[j].symbol) == name;
    }
    assert all[|rows|] == row;
  }

  lemma OneMoreTwice(rows: seq<Row>, row: Row, name: string)
    ensures Twice(rows + [row], name) <==> Twice(rows, name) || (name == Lower(row.symbol) && Once(rows, name))
  {
    hide Lower;
    var all := rows + [row];
    assert forall k :: 0 <= k < |rows| ==> all[k] == rows[k];
    if j :| 0 <= j < |rows| && Lower(rows[j].symbol) == name && name == Lower(row.symbol) {
      assert Lower(all[j].symbol) == name && Lower(all[|rows|].symbol) == name;
    }
    if p, q :| 0 <= p < q < |all| && Lower(all[p].symbol) == name && Lower(all[q].symbol) == name {
      assert p < |rows| && Lower(rows[p].symbol) == name;
    }
  }

  function Symbols(rows: seq<Row>): seq<string> {
    seq(|rows|, i requires 0 <= i < |rows| => rows[i].symbol)
  }

  /** The block declares every row under its own symbol if and only if the duplicate scan finds nothing. */
  lemma UnchangedIffNoDuplicates(rows: seq<Row>, symbols: seq<string>, picks: seq<nat>)
    requires Declares(rows, symbols, picks)
    ensures symbols == Symbols(rows) <==> forall name :: !Twice(rows, name)
  {
    DeclaredDistinct(rows, symbols, picks);
    if symbols == Symbols(rows) {
      forall name ensures !Twice(rows, name) {
        assert forall i :: 0 <= i < |rows| ==> symbols[i] == rows[i].symbol;
      }
    }
    if forall name :: !Twice(rows, name) {
      KeptUpTo(rows, symbols, picks, |rows|);
    }
  }

  lemma {:induction false} KeptUpTo(rows: seq<Row>, symbols: seq<string>, picks: seq<nat>, n: nat)
    requires Declares(rows, symbols, picks) && n <= |rows| && forall name :: !Twice(rows, name)
    ensures forall i :: 0 <= i < n ==> symbols[i] == rows[i].symbol
  {
    if n > 0 {
      KeptUpTo(rows, symbols, picks, n - 1);
      var i := n - 1;
      assert FirstFree(rows[i].symbol, LowerSet(symbols[..i]), symbols[i], picks[i]);
      if picks[i] > 0 {
        SuffixMeansTwice(rows, symbols, picks, i);
      }
    }
  }

  lemma SuffixMeansTwice(rows: seq<Row>, symbols: seq<string>, picks: seq<nat>, i: nat)
    requires Declares(rows, symbols, picks) && i < |rows| && picks[i] > 0
    requires forall j :: 0 <= j < i ==> symbols[j] == rows[j].symbol
    ensures Twice(rows, Lower(rows[i].symbol))
  {
    assert FirstFree(rows[i].symbol, LowerSet(symbols[..i]), symbols[i], picks[i]);
    assert Lower(Candidate(rows[i].symbol, 0)) in LowerSet(symbols[..i]);
    var j :| 0 <= j < i && Lower(symbols[..i][j]) == Lower(rows[i].symbol);
    assert symbols[..i][j] == rows[j].symbol;
  }

  // ---- The bulk naming plan ----

  /** Metadata by key: alias, tags, note. Only the alias is followed here. */
  type Metadata = map<string, string>

  datatype Plan = Plan(aliases: map<string, string>, updated: nat, skippedExisting: nat, skippedInvalid: nat)

  function Scope(targetRows: seq<int>): set<int> {
    set n | n in targetRows
  }

  /** The plan leaves this row's alias alone. */
  predicate Retained(row: Row, scoped: set<int>, keep: bool) {
    (row.number !in scoped || keep) && Trim(row.alias) != ""
  }

  /** Names taken before the first row is renamed. */
  function Taken(rows: seq<Row>, scoped: set<int>, keep: bool): set<string> {
    set i | 0 <= i < |rows| && Retained(rows[i], scoped, keep) :: Lower(Trim(rows[i].alias))
  }

  function AliasIn(m: Metadata, key: string): string {
    if key in m then m[key] else ""
  }

  predicate KeepsAlias(m: Metadata, key: string, keep: bool) {
    keep && Trim(AliasIn(m, key)) != ""
  }

  /** The new aliases are distinct, from each other and from every name taken at the start. */
  ghost predicate New(aliases: seq<string>, taken: set<string>) {
    DistinctIgnoringCase(aliases) && forall i :: 0 <= i < |aliases| ==> Lower(aliases[i]) !in taken
  }

  /** The row a number stands for: the last one that has it. */
  function RowOf(rows: seq<Row>, n: int): (r: Option<Row>)
    ensures r.Some? ==> r.value in rows && r.value.number == n
  {
    if rows == [] then None
    else if rows[|rows| - 1].number == n then Some(rows[|rows| - 1])
    else RowOf(rows[..|rows| - 1], n)
  }

  /** A target can be named if its number is in the table and its row has a key. */
  predicate Namable(rows: seq<Row>, n: int) {
    RowOf(rows, n).Some? && RowOf(rows, n).value.key != ""
  }

  /** The rows of the targets that can be named, in order. */
  function TargetsOf(rows: seq<Row>, targetRows: seq<int>): seq<Row> {
    if targetRows == [] then []
    else
      var n := targetRows[|targetRows| - 1];
      TargetsOf(rows, targetRows[..|targetRows| - 1]) + if Namable(rows, n) then [RowOf(rows, n).value] else []
  }

  /** Those of them that get a new alias. */
  function Renamed(targets: seq<Row>, m: Metadata, keep: bool): seq<Row> {
    if targets == [] then []
    else
      var row := targets[|targets| - 1];
      Renamed(targets[..|targets| - 1], m, keep) + if KeepsAlias(m, row.key, keep) then [] else [row]
  }

  /** Their aliases: each row's suggestion, made unique against all names taken so far. */
  function NewNames(rows: seq<Row>, taken: set<string>): (names: seq<string>)
    ensures |names| == |rows|
  {
    if rows == [] then []
    else
      var before := NewNames(rows[..|rows| - 1], taken);
      before + [FirstUnused(rows[|rows| - 1].suggestion, taken + LowerSet(before))]
  }

  /** The last of `names` that was made for `key`. */
  function LastName(rows: seq<Row>, names: seq<string>, key: string): string
    requires |names| == |rows|
  {
    if rows == [] then ""
    else if rows[|rows| - 1].key == key then names[|rows| - 1]
    else LastName(rows[..|rows| - 1], names[..|rows| - 1], key)
  }

  function KeysOf(rows: seq<Row>): set<string> {
    set i | 0 <= i < |rows| :: rows[i].key
  }

  /** The plan for `targets`, after `total` numbers: who is skipped, who is named, and how. */
  ghost predicate PlanFor(plan: Plan, targets: seq<Row>, total: nat, m: Metadata, keep: bool, taken: set<string>) {
    var renamed := Renamed(targets, m, keep);
    && plan.updated == |targets| && plan.updated + plan.skippedInvalid == total
    && plan.skippedExisting + |renamed| == |targets|
    && plan.aliases.Keys == KeysOf(targets)
    && forall key :: key in plan.aliases ==> plan.aliases[key] == PlannedAlias(renamed, m, keep, taken, key)
  }

  /** The alias a key is planned to have: the one the metadata holds, where it is kept, or else the new one. */
  function PlannedAlias(renamed: seq<Row>, m: Metadata, keep: bool, taken: set<string>, key: string): string {
    if KeepsAlias(m, key, keep) then AliasIn(m, key) else LastName(renamed, NewNames(renamed, taken), key)
  }

  /** `plan` is the plan for these rows, targets and metadata. */
  ghost predicate IsPlan(plan: Plan, rows: seq<Row>, targetRows: seq<int>, m: Metadata, keep: bool) {
    PlanFor(plan, TargetsOf(rows, targetRows), |targetRows|, m, keep, Taken(rows, Scope(targetRows), keep))
  }

  lemma TakenMeans(rows: seq<Row>, scoped: set<int>, keep: bool, name: string)
    ensures name in Taken(rows, scoped, keep)
      <==> exists i :: 0 <= i < |rows| && (rows[i].number !in scoped || keep) && !Blank(rows[i].alias)
                       && Lower(Trim(rows[i].alias)) == name
  {
    forall i | 0 <= i < |rows| {
      BlankIffTrimmed(rows[i].alias);
    }
    hide Lower, Trim, Blank;
  }

  method TakenAliases(allRows: seq<Row>, scoped: set<int>, keep: bool) returns (used: set<string>)
    ensures used == Taken(allRows, scoped, keep)
    ensures forall name ::
      name in used
      <==> exists i :: 0 <= i < |allRows| && (allRows[i].number !in scoped || keep) && !Blank(allRows[i].alias)
                       && Lower(Trim(allRows[i].alias)) == name
  {
    forall name {
      TakenMeans(allRows, scoped, keep, name);
    }
    used := {};
    for i := 0 to |allRows|
      invariant used == Taken(allRows[..i], scoped, keep)
    {
      var row := allRows[i];
      TakenSnoc(allRows, i, scoped, keep);
      hide Taken, Lower, Trim;
      if row.number in scoped && !keep {
        continue;
      }
      var alias := Trim(row.alias);
      if alias != "" {
        used := used + {Lower(alias)};
      }
    }
    assert allRows[..|allRows|] == allRows;
  }

  lemma TakenSnoc(rows: seq<Row>, i: nat, scoped: set<int>, keep: bool)
    requires i < |rows|
    ensures Taken(rows[..i + 1], scoped, keep) == Taken(rows[..i], scoped, keep)
      + if Retained(rows[i], scoped, keep) then {Lower(Trim(rows[i].alias))} else {}
  {
    hide Lower, Trim, Retained;
    var a, b := rows[..i], rows[..i + 1];
    forall name | name in Taken(a, scoped, keep) ensures name in Taken(b, scoped, keep) {
      var j :| 0 <= j < |a| && Retained(a[j], scoped, keep) && Lower(Trim(a[j].alias)) == name;
      assert b[j] == a[j];
    }
    forall name | name in Taken(b, scoped, keep)
      ensures name in Taken(a, scoped, keep) || (Retained(rows[i], scoped, keep) && name == Lower(Trim(rows[i].alias)))
    {
      var j :| 0 <= j < |b| && Retained(b[j], scoped, keep) && Lower(Trim(b[j].alias)) == name;
      assert j < i ==> a[j] == b[j];
    }
    assert b[i] == rows[i];
  }

  method RowsByNumber(allRows: seq<Row>) returns (byNumber: map<int, Row>)
    ensures forall n :: n in byNumber <==> RowOf(allRows, n).Some?
    ensures forall n :: n in byNumber ==> byNumber[n] == RowOf(allRows, n).value
  {
    byNumber := map[];
    for i := 0 to |allRows|
      invariant forall n :: n in byNumber <==> RowOf(allRows[..i], n).Some?
      invariant forall n :: n in byNumber ==> byNumber[n] == RowOf(allRows[..i], n).value
    {
      byNumber := byNumber[allRows[i].number := allRows[i]];
      assert allRows[..i + 1][..i] == allRows[..i];
    }
    assert allRows[..|allRows|] == allRows;
  }

  lemma TargetsSnoc(rows: seq<Row>, numbers: seq<int>, n: int)
    ensures TargetsOf(rows, numbers + [n])
      == TargetsOf(rows, numbers) + if Namable(rows, n) then [RowOf(rows, n).value] else []
  {
    hide RowOf;
    assert (numbers + [n])[..|numbers|] == numbers;
  }

  method BuildBulkNamingPlan(allRows: seq<Row>, targetRows: seq<int>, metadata: Metadata, keep: bool) returns (plan: Plan)
    ensures IsPlan(plan, allRows, targetRows, metadata, keep)
  {
    var byNumber := RowsByNumber(allRows);
    var used := TakenAliases(allRows, Scope(targetRows), keep);
    hide PlanFor, Taken, TargetsOf, Scope;
    plan := PlanTargets(allRows, targetRows, byNumber, used, metadata, keep);
  }

  /** The loop over the targets, with the names `taken` at its start. */
  method PlanTargets(ghost allRows: seq<Row>, targetRows: seq<int>, byNumber: map<int, Row>, taken: set<string>,
                     metadata: Metadata, keep: bool)
    returns (plan: Plan)
    requires forall n :: n in byNumber <==> RowOf(allRows, n).Some?
    requires forall n :: n in byNumber ==> byNumber[n] == RowOf(allRows, n).value
    ensures PlanFor(plan, TargetsOf(allRows, targetRows), |targetRows|, metadata, keep, taken)
  {
    plan := Plan(map[], 0, 0, 0);
    var used := taken;
    ghost var targets: seq<Row> := [];
    NoTargets(metadata, keep, taken);
    hide Underway, PlanFor, TargetsOf, RowOf, Namable;
    NoNumbers(allRows, targetRows);
    for i := 0 to |targetRows|
      invariant targets == TargetsOf(allRows, targetRows[..i]) && Underway(plan, used, targets, i, metadata, keep, taken)
    {
      ghost var before := targets;
      NextTarget(allRows, targetRows, i);
      targets := TargetsOf(allRows, targetRows[..i + 1]);
      plan, used := TakeNumber(plan, used, byNumber, targetRows[i], metadata, keep, allRows, i, before, taken);
    }
    AllNumbers(targetRows);
    UnderwayIsPlan(plan, used, targets, |targetRows|, metadata, keep, taken);
  }

  lemma NoNumbers(rows: seq<Row>, targetRows: seq<int>)
    ensures TargetsOf(rows, targetRows[..0]) == []
  {
  }

  lemma NextTarget(rows: seq<Row>, targetRows: seq<int>, i: nat)
    requires i < |targetRows|
    ensures TargetsOf(rows, targetRows[..i + 1]) == TargetsOf(rows, targetRows[..i])
      + if Namable(rows, targetRows[i]) then [RowOf(rows, targetRows[i]).value] else []
  {
    TargetsSnoc(rows, targetRows[..i], targetRows[i]);
    assert targetRows[..i + 1] == targetRows[..i] + [targetRows[i]];
  }

  lemma AllNumbers(targetRows: seq<int>)
    ensures targetRows[..|targetRows|] == targetRows
  {
  }

  /** The plan so far, and the names taken so far. */
  ghost predicate Underway(plan: Plan, used: set<string>, targets: seq<Row>, total: nat, m: Metadata, keep: bool, taken: set<string>) {
    PlanFor(plan, targets, total, m, keep, taken) && used == taken + LowerSet(NewNames(Renamed(targets, m, keep), taken))
  }

  lemma UnderwayIsPlan(plan: Plan, used: set<string>, targets: seq<Row>, total: nat, m: Metadata, keep: bool, taken: set<string>)
    requires Underway(plan, used, targets, total, m, keep, taken)
    ensures PlanFor(plan, targets, total, m, keep, taken)
  {
  }

  /** The loop body: skip a number that is not in the table or whose row has no key, name the others. */
  method TakeNumber(plan: Plan, used: set<string>, byNumber: map<int, Row>, number: int, metadata: Metadata, keep: bool,
                    ghost allRows: seq<Row>, ghost i: nat, ghost targets: seq<Row>, ghost taken: set<string>)
    returns (next: Plan, usedNext: set<string>)
    requires number in byNumber <==> RowOf(allRows, number).Some?
    requires number in byNumber ==> byNumber[number] == RowOf(allRows, number).value
    requires Underway(plan, used, targets, i, metadata, keep, taken)
    ensures Underway(next, usedNext, targets + (if Namable(allRows, number) then [RowOf(allRows, number).value] else []),
                     i + 1, metadata, keep, taken)
  {
    hide RowOf, Underway;
    if number !in byNumber {
      SkipTarget(plan, used, targets, i, metadata, keep, taken);
      return plan.(skippedInvalid := plan.skippedInvalid + 1), used;
    }
    var row := byNumber[number];
    if row.key == "" {
      SkipTarget(plan, used, targets, i, metadata, keep, taken);
      return plan.(skippedInvalid := plan.skippedInvalid + 1), used;
    }
    next, usedNext := NameTarget(plan, row, used, metadata, keep, i, targets, taken);
  }

  /** The loop body for a row that can be named. */
  method NameTarget(plan: Plan, row: Row, used: set<string>, metadata: Metadata, keep: bool,
                    ghost i: nat, ghost targets: seq<Row>, ghost taken: set<string>)
    returns (next: Plan, usedNext: set<string>)
    requires Underway(plan, used, targets, i, metadata, keep, taken)
    ensures Underway(next, usedNext, targets + [row], i + 1, metadata, keep, taken)
  {
    var keeps := keep && Trim(AliasIn(metadata, row.key)) != "";
    assert keeps == KeepsAlias(metadata, row.key, keep);
    PlannedHere(targets, row, metadata, keep, taken);
    UsedHere(targets, row, metadata, keep, taken, used);
    assert PlanFor(plan, targets, i, metadata, keep, taken);
    hide PlanFor, NewNames, Renamed, LowerSet, KeepsAlias, PlannedAlias, Trim, Lower, AliasIn, FirstFree, FirstUnused;
    var alias;
    if keeps {
      alias := AliasIn(metadata, row.key);
      usedNext := used;
    } else {
      ghost var k;
      alias, k := UniqueName(row.suggestion, used);
      usedNext := used + {Lower(alias)};
    }
    assert alias == PlannedAlias(Renamed(targets + [row], metadata, keep), metadata, keep, taken, row.key);
    next := plan.(aliases := plan.aliases[row.key := alias], updated := plan.updated + 1,
                  skippedExisting := plan.skippedExisting + if keeps then 1 else 0);
    PlanSnoc(plan, targets, row, i, metadata, keep, taken, next);
  }

  lemma NoTargets(m: Metadata, keep: bool, taken: set<string>)
    ensures Underway(Plan(map[], 0, 0, 0), taken, [], 0, m, keep, taken)
  {
  }

  lemma SkipTarget(plan: Plan, used: set<string>, targets: seq<Row>, i: nat, m: Metadata, keep: bool, taken: set<string>)
    requires Underway(plan, used, targets, i, m, keep, taken)
    ensures Underway(plan.(skippedInvalid := plan.skippedInvalid + 1), used, targets + [], i + 1, m, keep, taken)
  {
    hide PlannedAlias, Renamed, NewNames, LowerSet;
    assert targets + [] == targets;
  }

  lemma RenamedSnoc(targets: seq<Row>, row: Row, m: Metadata, keep: bool)
    ensures Renamed(targets + [row], m, keep)
      == Renamed(targets, m, keep) + if KeepsAlias(m, row.key, keep) then [] else [row]
  {
    hide KeepsAlias;
    assert (targets + [row])[..|targets|] == targets;
  }

  lemma NewNamesSnoc(rows: seq<Row>, row: Row, taken: set<string>)
    ensures NewNames(rows + [row], taken)
      == NewNames(rows, taken) + [FirstUnused(row.suggestion, taken + LowerSet(NewNames(rows, taken)))]
  {
    hide FirstUnused, LowerSet;
    assert (rows + [row])[..|rows|] == rows;
  }

  lemma LastNameSnoc(rows: seq<Row>, names: seq<string>, row: Row, name: string, key: string)
    requires |names| == |rows|
    ensures LastName(rows + [row], names + [name], key) == if row.key == key then name else LastName(rows, names, key)
  {
    assert (rows + [row])[..|rows|] == rows && (names + [name])[..|rows|] == names;
  }

  lemma KeysSnoc(targets: seq<Row>, row: Row)
    ensures KeysOf(targets + [row]) == KeysOf(targets) + {row.key}
  {
    assert forall i :: 0 <= i < |targets| ==> (targets + [row])[i] == targets[i];
    assert (targets + [row])[|targets|] == row;
  }

  lemma PlannedHere(targets: seq<Row>, row: Row, m: Metadata, keep: bool, taken: set<string>)
    ensures var names := NewNames(Renamed(targets, m, keep), taken);
      PlannedAlias(Renamed(targets + [row], m, keep), m, keep, taken, row.key)
      == if KeepsAlias(m, row.key, keep) then AliasIn(m, row.key)
         else FirstUnused(row.suggestion, taken + LowerSet(names))
  {
    var renamed := Renamed(targets, m, keep);
    RenamedSnoc(targets, row, m, keep);
    NewNamesSnoc(renamed, row, taken);
    hide NewNames, KeepsAlias, LowerSet, FirstUnused, Renamed;
    LastNameSnoc(renamed, NewNames(renamed, taken), row, FirstUnused(row.suggestion, taken + LowerSet(NewNames(renamed, taken))), row.key);
    hide LastName;
  }

  lemma UsedHere(targets: seq<Row>, row: Row, m: Metadata, keep: bool, taken: set<string>, used: set<string>)
    requires used == taken + LowerSet(NewNames(Renamed(targets, m, keep), taken))
    ensures taken + LowerSet(NewNames(Renamed(targets + [row], m, keep), taken))
      == if KeepsAlias(m, row.key, keep) then used else used + {Lower(FirstUnused(row.suggestion, used))}
  {
    var renamed := Renamed(targets, m, keep);
    var names := NewNames(renamed, taken);
    RenamedSnoc(targets, row, m, keep);
    hide *;
    if KeepsAlias(m, row.key, keep) {
      assert renamed + [] == renamed;
    } else {
      NewNamesSnoc(renamed, row, taken);
      LowerSetSnoc(names, FirstUnused(row.suggestion, used));
      Regroup(taken, LowerSet(names), {Lower(FirstUnused(row.suggestion, used))});
    }
  }

  lemma Regroup(a: set<string>, b: set<string>, c: set<string>)
    ensures a + (b + c) == (a + b) + c
  {
  }

  /** Naming one more row changes the planned alias of its key alone. */
  lemma PlannedElsewhere(targets: seq<Row>, row: Row, m: Metadata, keep: bool, taken: set<string>, key: string)
    requires key != row.key
    ensures PlannedAlias(Renamed(targets + [row], m, keep), m, keep, taken, key)
      == PlannedAlias(Renamed(targets, m, keep), m, keep, taken, key)
  {
    var renamed := Renamed(targets, m, keep);
    RenamedSnoc(targets, row, m, keep);
    NewNamesSnoc(renamed, row, taken);
    hide NewNames, KeepsAlias, LowerSet, FirstUnused, Renamed;
    LastNameSnoc(renamed, NewNames(renamed, taken), row, FirstUnused(row.suggestion, taken + LowerSet(NewNames(renamed, taken))), key);
    hide LastName;
    assert renamed + [] == renamed;
  }

  lemma PlanSnoc(plan: Plan, targets: seq<Row>, row: Row, i: nat, m: Metadata, keep: bool, taken: set<string>, next: Plan)
    requires PlanFor(plan, targets, i, m, keep, taken)
    requires next == plan.(
      aliases := plan.aliases[row.key := PlannedAlias(Renamed(targets + [row], m, keep), m, keep, taken, row.key)],
      updated := plan.updated + 1,
      skippedExisting := plan.skippedExisting + if KeepsAlias(m, row.key, keep) then 1 else 0)
    ensures PlanFor(next, targets + [row], i + 1, m, keep, taken)
  {
    KeysSnoc(targets, row);
    RenamedSnoc(targets, row, m, keep);
    hide PlannedAlias, Renamed, KeysOf, KeepsAlias;
    forall key | key in next.aliases && key != row.key
      ensures next.aliases[key] == PlannedAlias(Renamed(targets + [row], m, keep), m, keep, taken, key)
    {
      PlannedElsewhere(targets, row, m, keep, taken, key);
    }
  }
}
