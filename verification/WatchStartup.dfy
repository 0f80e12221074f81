/** Watch rows against startup rows: the same comparison made from either side. */
module WatchStartup {
  import opened Words
  import opened Text
  import opened SdoEvidence

  /** A row of either table: its normalised target, if it has a complete one, its value and the type of it. */
  datatype Row = Row(row: int, target: Option<string>, value: string, valueType: string)

  datatype DeltaState = Match | Diff | MissingWatch | NoTarget | NoStartup | Pending

  function LastWith(rows: seq<Row>, key: string): (r: Option<Row>)
    ensures r.Some? ==> r.value in rows && r.value.target == Some(key)
  {
    if rows == [] then None
    else if rows[|rows| - 1].target == Some(key) then Some(rows[|rows| - 1])
    else LastWith(rows[..|rows| - 1], key)
  }

  function CountWith(rows: seq<Row>, key: string): nat {
    if rows == [] then 0
    else CountWith(rows[..|rows| - 1], key) + if rows[|rows| - 1].target == Some(key) then 1 else 0
  }

  function Compared(watch: string, startup: string): DeltaState {
    if Trim(watch) == "" || Trim(startup) == "" then Pending
    else if ComparableEqual(watch, startup) then Match else Diff
  }

  // ---- From the watch side ----

  datatype WatchMatch = WatchMatch(matchingStartupRows: nat, expectedValue: string, expectedType: string, state: DeltaState)

  function WatchState(startup: seq<Row>, w: Row): DeltaState {
    if w.target.None? then NoTarget
    else match LastWith(startup, w.target.value)
      case None => NoStartup
      case Some(s) => Compared(w.value, Trim(s.value))
  }

  method MatchForWatchRow(startup: seq<Row>, w: Row) returns (m: WatchMatch)
    ensures m.state == WatchState(startup, w)
    ensures w.target.Some? ==> m.matchingStartupRows == CountWith(startup, w.target.value)
    ensures w.target.Some? ==> m.matchingStartupRows == |set i | 0 <= i < |startup| && startup[i].target == w.target|
    ensures w.target.Some? ==> (match LastWith(startup, w.target.value)
      case None => m.expectedValue == "" && m.expectedType == ""
      case Some(s) => m.expectedValue == Trim(s.value) && m.expectedType == Trim(s.valueType))
    ensures w.target.None? ==> m == WatchMatch(0, "", "", NoTarget)
  {
    if w.target.None? {
      return WatchMatch(0, "", "", NoTarget);
    }
    hide Trim, ComparableEqual;
    var key := w.target.value;
    CountIs(startup, key);
    assert w.target == Some(key);
    var count, expected, expectedType := 0, "", "";
    for i := 0 to |startup|
      invariant count == CountWith(startup[..i], key)
      invariant match LastWith(startup[..i], key)
        case None => count == 0 && expected == "" && expectedType == ""
        case Some(s) => count > 0 && expected == Trim(s.value) && expectedType == Trim(s.valueType)
    {
      assert startup[..i + 1][..i] == startup[..i];
      if startup[i].target == Some(key) {
        count, expected, expectedType := count + 1, Trim(startup[i].value), Trim(startup[i].valueType);
      }
    }
    assert startup[..|startup|] == startup;
    var state;
    if count <= 0 {
      state := NoStartup;
    } else if Trim(w.value) == "" || Trim(expected) == "" {
      state := Pending;
    } else {
      state := if ComparableEqual(w.value, expected) then Match else Diff;
    }
    m := WatchMatch(count, expected, expectedType, state);
  }

  // ---- From the startup side ----

  datatype StartupDelta = StartupDelta(startupRow: int, watchValue: string, state: DeltaState)

  function StartupState(watch: seq<Row>, s: Row): DeltaState {
    if s.target.None? then NoTarget
    else match LastWith(watch, s.target.value)
      case None => MissingWatch
      case Some(w) => Compared(Trim(w.value), s.value)
  }

  /** The value a startup row is compared with: that of the last watch row with its target. */
  function WatchValue(watch: seq<Row>, s: Row): string {
    if s.target.None? then ""
    else match LastWith(watch, s.target.value) case None => "" case Some(w) => Trim(w.value)
  }

  method EvaluateDeltas(startup: seq<Row>, watch: seq<Row>) returns (deltas: seq<StartupDelta>)
    ensures |deltas| == |startup|
    ensures forall i :: 0 <= i < |startup| ==>
      deltas[i] == StartupDelta(startup[i].row, WatchValue(watch, startup[i]), StartupState(watch, startup[i]))
  {
    var watchValues := WatchValues(watch);
    hide Trim, ComparableEqual, LastWith;
    deltas := [];
    for i := 0 to |startup|
      invariant |deltas| == i
      invariant forall j :: 0 <= j < i ==>
        deltas[j] == StartupDelta(startup[j].row, WatchValue(watch, startup[j]), StartupState(watch, startup[j]))
    {
      var s := startup[i];
      var watchValue, state := "", NoTarget;
      if s.target.None? {
        state := NoTarget;
      } else if s.target.value !in watchValues {
        state := MissingWatch;
      } else {
        watchValue := watchValues[s.target.value];
        if Trim(watchValue) == "" || Trim(s.value) == "" {
          state := Pending;
        } else {
          state := if ComparableEqual(watchValue, s.value) then Match else Diff;
        }
      }
      deltas := deltas + [StartupDelta(s.row, watchValue, state)];
    }
  }

  method WatchValues(watch: seq<Row>) returns (values: map<string, string>)
    ensures forall key :: key in values <==> LastWith(watch, key).Some?
    ensures forall key :: key in values ==> values[key] == Trim(LastWith(watch, key).value.value)
  {
    hide Trim;
    values := map[];
    for i := 0 to |watch|
      invariant forall key :: key in values <==> LastWith(watch[..i], key).Some?
      invariant forall key :: key in values ==> values[key] == Trim(LastWith(watch[..i], key).value.value)
    {
      assert watch[..i + 1][..i] == watch[..i];
      if watch[i].target.Some? {
        values := values[watch[i].target.value := Trim(watch[i].value)];
      }
    }
    assert watch[..|watch|] == watch;
  }

  // ---- What each state says ----

  lemma {:induction false} LastIs(rows: seq<Row>, key: string, i: nat)
    requires i < |rows| && rows[i].target == Some(key) && forall j :: i < j < |rows| ==> rows[j].target != Some(key)
    ensures LastWith(rows, key) == Some(rows[i])
  {
    if i < |rows| - 1 {
      LastIs(rows[..|rows| - 1], key, i);
    }
  }

  lemma {:induction false} NoneIs(rows: seq<Row>, key: string)
    ensures LastWith(rows, key) == None <==> forall j :: 0 <= j < |rows| ==> rows[j].target != Some(key)
  {
    if rows != [] {
      NoneIs(rows[..|rows| - 1], key);
    }
  }

  lemma OneMoreWith(front: seq<Row>, last: Row, key: string)
    ensures var all := front + [last];
      (set j | 0 <= j < |all| && all[j].target == Some(key))
      == (set j | 0 <= j < |front| && front[j].target == Some(key)) + if last.target == Some(key) then {|front|} else {}
  {
  }

  lemma {:induction false} CountIs(rows: seq<Row>, key: string)
    ensures CountWith(rows, key) == |set j | 0 <= j < |rows| && rows[j].target == Some(key)|
  {
    var all := set j | 0 <= j < |rows| && rows[j].target == Some(key);
    if rows == [] {
      assert all == {};
    } else {
      var front, last := rows[..|rows| - 1], rows[|rows| - 1];
      CountIs(front, key);
      OneMoreWith(front, last, key);
      assert CountWith(rows, key) == CountWith(front, key) + if last.target == Some(key) then 1 else 0;
      hide *;
      assert rows == front + [last];
    }
  }

  /** A watch row without a target or without a startup row of its target. */
  lemma WatchAlone(startup: seq<Row>, w: Row)
    ensures WatchState(startup, w) == NoTarget <==> w.target.None?
    ensures WatchState(startup, w) == NoStartup
      <==> w.target.Some? && forall i :: 0 <= i < |startup| ==> startup[i].target != w.target
  {
    if w.target.Some? {
      NoneIs(startup, w.target.value);
    }
    hide LastWith, Trim, ComparableEqual;
  }

  /** A watch row whose target was last given to startup row `i`: pending while one of the two values is blank, then a
      match if they are the same up to spaces and case and a difference if not. */
  lemma WatchBeside(startup: seq<Row>, w: Row, i: nat)
    requires i < |startup| && w.target.Some? && startup[i].target == w.target
    requires forall j :: i < j < |startup| ==> startup[j].target != w.target
    ensures var state, v, x := WatchState(startup, w), w.value, startup[i].value;
      && (state == Pending <==> Blank(v) || Blank(x))
      && (state == Match <==> !Blank(v) && !Blank(x) && Normalized(v) == Normalized(x))
      && (state == Diff <==> !Blank(v) && !Blank(x) && Normalized(v) != Normalized(x))
  {
    LastIs(startup, w.target.value, i);
    ComparedMeans(w.value, startup[i].value);
    hide LastWith, Compared, Trim, Normalized, Blank;
  }

  /** The same from the startup side. */
  lemma StartupAlone(watch: seq<Row>, s: Row)
    ensures StartupState(watch, s) == NoTarget <==> s.target.None?
    ensures StartupState(watch, s) == MissingWatch
      <==> s.target.Some? && forall i :: 0 <= i < |watch| ==> watch[i].target != s.target
    ensures StartupState(watch, s) == NoTarget || StartupState(watch, s) == MissingWatch ==> WatchValue(watch, s) == ""
  {
    if s.target.Some? {
      NoneIs(watch, s.target.value);
    }
    hide LastWith, Trim, ComparableEqual;
  }

  lemma StartupBeside(watch: seq<Row>, s: Row, i: nat)
    requires i < |watch| && s.target.Some? && watch[i].target == s.target
    requires forall j :: i < j < |watch| ==> watch[j].target != s.target
    ensures var state, v, x := StartupState(watch, s), watch[i].value, s.value;
      && WatchValue(watch, s) == Trim(v)
      && (state == Pending <==> Blank(v) || Blank(x))
      && (state == Match <==> !Blank(v) && !Blank(x) && Normalized(v) == Normalized(x))
      && (state == Diff <==> !Blank(v) && !Blank(x) && Normalized(v) != Normalized(x))
  {
    LastIs(watch, s.target.value, i);
    ComparedMeans(watch[i].value, s.value);
    ComparedTrimmed(watch[i].value, s.value);
    hide LastWith, Compared, Trim, Normalized, Blank;
  }

  lemma ComparedMeans(w: string, s: string)
    ensures var state := Compared(w, Trim(s));
      && (state == Pending <==> Blank(w) || Blank(s))
      && (state == Match <==> !Blank(w) && !Blank(s) && Normalized(w) == Normalized(s))
      && (state == Diff <==> !Blank(w) && !Blank(s) && Normalized(w) != Normalized(s))
  {
    BlankIffTrimmed(w);
    BlankIffTrimmed(s);
    NormalizedTrim(s);
    NormalizedEmpty(w);
    TrimTwice(s);
    hide Trim, Normalized, Blank;
  }

  // ---- The two agree ----

  /** The values the two sides compare are trimmed at different places, with the same outcome. */
  lemma ComparedTrimmed(w: string, s: string)
    ensures Compared(w, Trim(s)) == Compared(Trim(w), s)
  {
    NormalizedTrim(w);
    NormalizedTrim(s);
    TrimTwice(w);
    TrimTwice(s);
    hide Trim, Normalized;
  }

  /** For every shared target, the last watch row and the last startup row are told the same state. */
  lemma SidesAgree(startup: seq<Row>, watch: seq<Row>, key: string)
    requires LastWith(startup, key).Some? && LastWith(watch, key).Some?
    ensures var w, s := LastWith(watch, key).value, LastWith(startup, key).value;
      WatchState(startup, w) == StartupState(watch, s)
  {
    ComparedTrimmed(LastWith(watch, key).value.value, LastWith(startup, key).value.value);
    hide Compared, Trim;
  }

  predicate UniqueTargets(rows: seq<Row>) {
    forall i, j :: 0 <= i < j < |rows| && rows[i].target.Some? ==> rows[i].target != rows[j].target
  }

  lemma {:induction false} OnlyIsLast(rows: seq<Row>, i: nat)
    requires UniqueTargets(rows) && i < |rows| && rows[i].target.Some?
    ensures LastWith(rows, rows[i].target.value) == Some(rows[i])
  {
    if i < |rows| - 1 {
      OnlyIsLast(rows[..|rows| - 1], i);
    }
  }

  /** With unique targets that is every pair of rows with a shared target. */
  lemma AllPairsAgree(startup: seq<Row>, watch: seq<Row>, i: nat, j: nat)
    requires UniqueTargets(startup) && UniqueTargets(watch) && i < |startup| && j < |watch|
    requires startup[i].target.Some? && startup[i].target == watch[j].target
    ensures WatchState(startup, watch[j]) == StartupState(watch, startup[i])
  {
    OnlyIsLast(startup, i);
    OnlyIsLast(watch, j);
    hide LastWith;
    SidesAgree(startup, watch, startup[i].target.value);
  }

  // ---- The summary ----

  datatype Summary = Summary(matched: nat, diff: nat, pending: nat, missingWatch: nat)

  function CountState(deltas: seq<StartupDelta>, state: DeltaState): nat {
    if deltas == [] then 0
    else CountState(deltas[..|deltas| - 1], state) + if deltas[|deltas| - 1].state == state then 1 else 0
  }

  /** Every delta is counted once. */
  method SummarizeDeltas(deltas: seq<StartupDelta>) returns (s: Summary)
    ensures s.matched == CountState(deltas, Match) && s.diff == CountState(deltas, Diff)
    ensures s.missingWatch == CountState(deltas, MissingWatch)
    ensures s.matched + s.diff + s.pending + s.missingWatch == |deltas|
  {
    s := Summary(0, 0, 0, 0);
    for i := 0 to |deltas|
      invariant s.matched == CountState(deltas[..i], Match) && s.diff == CountState(deltas[..i], Diff)
      invariant s.missingWatch == CountState(deltas[..i], MissingWatch)
      invariant s.matched + s.diff + s.pending + s.missingWatch == i
    {
      assert deltas[..i + 1][..i] == deltas[..i];
      match deltas[i].state {
        case Match => s := s.(matched := s.matched + 1);
        case Diff => s := s.(diff := s.diff + 1);
        case MissingWatch => s := s.(missingWatch := s.missingWatch + 1);
        case _ => s := s.(pending := s.pending + 1);
      }
    }
    assert deltas[..|deltas|] == deltas;
  }
}
