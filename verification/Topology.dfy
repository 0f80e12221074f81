/** Comparing topology scans: the change list as a patch, and its agreement with the baseline comparison. */
module Topology {
  import opened Words

  datatype SlaveInfo = SlaveInfo(position: int, state: string, flags: string, name: string)

  datatype ChangeKind = Added | Removed | NameChanged | StateChanged | FlagsChanged
  datatype IssueKind = MissingSlave | UnexpectedSlave | NameDiffers | StateDiffers

  /** One finding; a change list and a baseline comparison have the same shape. */
  datatype Report<K> = Report(kind: K, position: int, previous: Option<SlaveInfo>, current: Option<SlaveInfo>)

  type Change = Report<ChangeKind>
  type Issue = Report<IssueKind>

  /** The last slave of each position. */
  function ByPosition(slaves: seq<SlaveInfo>): map<int, SlaveInfo> {
    if slaves == [] then map[]
    else ByPosition(slaves[..|slaves| - 1])[slaves[|slaves| - 1].position := slaves[|slaves| - 1]]
  }

  predicate DistinctPositions(slaves: seq<SlaveInfo>) {
    forall i, j :: 0 <= i < j < |slaves| ==> slaves[i].position != slaves[j].position
  }

  // ---- detectTopologyChanges ----

  function Maybe<K>(c: bool, change: Report<K>): seq<Report<K>> {
    if c then [change] else []
  }

  /** What is reported for one slave of the current scan. */
  function ChangesAt(before: map<int, SlaveInfo>, s: SlaveInfo): seq<Change> {
    if s.position !in before then [Report(Added, s.position, None, Some(s))]
    else
      var p := before[s.position];
      Maybe(p.name != s.name, Report(NameChanged, s.position, Some(p), Some(s)))
      + Maybe(p.state != s.state, Report(StateChanged, s.position, Some(p), Some(s)))
      + Maybe(p.flags != s.flags, Report(FlagsChanged, s.position, Some(p), Some(s)))
  }

  function ChangesOf(before: map<int, SlaveInfo>, current: seq<SlaveInfo>): seq<Change> {
    if current == [] then []
    else ChangesOf(before, current[..|current| - 1]) + ChangesAt(before, current[|current| - 1])
  }

  function RemovalsOf(after: map<int, SlaveInfo>, previous: seq<SlaveInfo>): seq<Change> {
    if previous == [] then []
    else
      var s := previous[|previous| - 1];
      RemovalsOf(after, previous[..|previous| - 1]) + Maybe(s.position !in after, Report(Removed, s.position, Some(s), None))
  }

  function Detected(previous: seq<SlaveInfo>, current: seq<SlaveInfo>): seq<Change> {
    if previous == [] then [] else ChangesOf(ByPosition(previous), current) + RemovalsOf(ByPosition(current), previous)
  }

  method IndexSlaves(slaves: seq<SlaveInfo>) returns (m: map<int, SlaveInfo>)
    ensures m == ByPosition(slaves)
  {
    m := map[];
    for i := 0 to |slaves|
      invariant m == ByPosition(slaves[..i])
    {
      m := m[slaves[i].position := slaves[i]];
      assert slaves[..i + 1][..i] == slaves[..i];
    }
    assert slaves[..|slaves|] == slaves;
  }

  /** The loop body over the current scan. */
  method CompareSlave(before: map<int, SlaveInfo>, s: SlaveInfo) returns (changes: seq<Change>)
    ensures changes == ChangesAt(before, s)
  {
    changes := [];
    if s.position !in before {
      return [Report(Added, s.position, None, Some(s))];
    }
    var p := before[s.position];
    if p.name != s.name {
      changes := changes + [Report(NameChanged, s.position, Some(p), Some(s))];
    }
    if p.state != s.state {
      changes := changes + [Report(StateChanged, s.position, Some(p), Some(s))];
    }
    if p.flags != s.flags {
      changes := changes + [Report(FlagsChanged, s.position, Some(p), Some(s))];
    }
  }

  method DetectTopologyChanges(previous: seq<SlaveInfo>, current: seq<SlaveInfo>) returns (changes: seq<Change>)
    ensures changes == Detected(previous, current)
  {
    changes := [];
    if previous == [] {
      return;
    }
    var before := IndexSlaves(previous);
    var after := IndexSlaves(current);
    hide ByPosition, ChangesAt;
    for i := 0 to |current|
      invariant changes == ChangesOf(before, current[..i])
    {
      var more := CompareSlave(before, current[i]);
      changes := changes + more;
      assert current[..i + 1][..i] == current[..i];
    }
    assert current[..|current|] == current;
    ghost var found := changes;
    assert found + [] == found;
    for i := 0 to |previous|
      invariant changes == found + RemovalsOf(after, previous[..i])
    {
      var s := previous[i];
      assert previous[..i + 1][..i] == previous[..i];
      if s.position !in after {
        changes := changes + [Report(Removed, s.position, Some(s), None)];
      }
      assert found + RemovalsOf(after, previous[..i]) + Maybe(s.position !in after, Report(Removed, s.position, Some(s), None))
          == found + RemovalsOf(after, previous[..i + 1]);
    }
    assert previous[..|previous|] == previous;
  }

  // ---- The list as a patch ----

  /** What the list speaks about. */
  datatype Shown = Shown(name: string, state: string, flags: string)

  function View(s: SlaveInfo): Shown {
    Shown(s.name, s.state, s.flags)
  }

  function Snapshot(slaves: seq<SlaveInfo>): map<int, Shown> {
    if slaves == [] then map[]
    else Snapshot(slaves[..|slaves| - 1])[slaves[|slaves| - 1].position := View(slaves[|slaves| - 1])]
  }

  function Apply(m: map<int, Shown>, c: Change): map<int, Shown> {
    if c.kind == Removed then m - {c.position}
    else if c.current.None? then m
    else
      var s := c.current.value;
      if c.kind == Added then m[c.position := View(s)]
      else if c.position !in m then m
      else if c.kind == NameChanged then m[c.position := m[c.position].(name := s.name)]
      else if c.kind == StateChanged then m[c.position := m[c.position].(state := s.state)]
      else m[c.position := m[c.position].(flags := s.flags)]
  }

  function ApplyAll(m: map<int, Shown>, changes: seq<Change>): map<int, Shown> {
    if changes == [] then m else Apply(ApplyAll(m, changes[..|changes| - 1]), changes[|changes| - 1])
  }

  lemma {:induction false} ApplyBoth(m: map<int, Shown>, a: seq<Change>, b: seq<Change>)
    ensures ApplyAll(m, a + b) == ApplyAll(ApplyAll(m, a), b)
  {
    if b == [] {
      assert a + b == a;
    } else {
      ApplyBoth(m, a, b[..|b| - 1]);
      assert (a + b)[..|a + b| - 1] == a + b[..|b| - 1];
    }
  }

  lemma {:induction false} ApplyMaybe(m: map<int, Shown>, c: bool, change: Change)
    ensures ApplyAll(m, Maybe(c, change)) == if c then Apply(m, change) else m
  {
    if c {
      assert [change][..0] == [];
    }
  }

  lemma {:induction false} SnapshotIs(slaves: seq<SlaveInfo>)
    ensures Snapshot(slaves).Keys == ByPosition(slaves).Keys
    ensures forall p :: p in ByPosition(slaves) ==> Snapshot(slaves)[p] == View(ByPosition(slaves)[p]) && ByPosition(slaves)[p].position == p
  {
    if slaves != [] {
      SnapshotIs(slaves[..|slaves| - 1]);
    }
  }

  lemma {:induction false} PositionsAre(slaves: seq<SlaveInfo>)
    ensures forall p :: p in ByPosition(slaves) <==> exists i :: 0 <= i < |slaves| && slaves[i].position == p
  {
    if slaves != [] {
      var n := |slaves| - 1;
      PositionsAre(slaves[..n]);
      forall p ensures p in ByPosition(slaves) <==> exists i :: 0 <= i < |slaves| && slaves[i].position == p {
        if p in ByPosition(slaves[..n]) {
          var i :| 0 <= i < n && slaves[..n][i].position == p;
          assert slaves[i].position == p;
        }
        if i :| 0 <= i < |slaves| && slaves[i].position == p {
          assert i < n ==> slaves[..n][i].position == p;
        }
        assert p == slaves[n].position ==> p in ByPosition(slaves);
      }
    }
  }

  datatype Field = NameField | StateField | FlagsField

  function Get(v: Shown, f: Field): string {
    match f
    case NameField => v.name
    case StateField => v.state
    case FlagsField => v.flags
  }

  lemma SameFields(v: Shown, w: Shown)
    ensures v == w <==> forall f :: Get(v, f) == Get(w, f)
  {
    assert (forall f :: Get(v, f) == Get(w, f)) ==>
      Get(v, NameField) == Get(w, NameField) && Get(v, StateField) == Get(w, StateField)
      && Get(v, FlagsField) == Get(w, FlagsField);
  }

  /** What one slave makes of an entry: it sets the fields in which it differs from the previous scan. */
  function Merge(was: Shown, p: Shown, s: Shown): Shown {
    Shown(if p.name != s.name then s.name else was.name, if p.state != s.state then s.state else was.state,
          if p.flags != s.flags then s.flags else was.flags)
  }

  lemma {:induction false} ChangesAtPatch(before: map<int, SlaveInfo>, s: SlaveInfo, m: map<int, Shown>)
    requires s.position in before ==> s.position in m
    ensures ApplyAll(m, ChangesAt(before, s)) == m[s.position :=
      if s.position in before then Merge(m[s.position], View(before[s.position]), View(s)) else View(s)]
  {
    var at := s.position;
    if at !in before {
      assert ChangesAt(before, s)[..0] == [];
    } else {
      FieldsPatch(before, s, m);
    }
  }

  lemma {:induction false} FieldsPatch(before: map<int, SlaveInfo>, s: SlaveInfo, m: map<int, Shown>)
    requires s.position in before && s.position in m
    ensures ApplyAll(m, ChangesAt(before, s))
      == m[s.position := Merge(m[s.position], View(before[s.position]), View(s))]
  {
    var at, p := s.position, before[s.position];
    var n := Report(NameChanged, at, Some(p), Some(s));
    var t := Report(StateChanged, at, Some(p), Some(s));
    var f := Report(FlagsChanged, at, Some(p), Some(s));
    var names, states, flags := Maybe(p.name != s.name, n), Maybe(p.state != s.state, t), Maybe(p.flags != s.flags, f);
    assert ChangesAt(before, s) == names + states + flags;
    ApplyBoth(m, names + states, flags);
    ApplyBoth(m, names, states);
    ApplyMaybe(m, p.name != s.name, n);
    hide ApplyAll, Maybe, ChangesAt;
    var m1 := m[at := Merge(m[at], View(p), View(p).(name := s.name))];
    assert ApplyAll(m, names) == m1;
    ApplyMaybe(m1, p.state != s.state, t);
    var m2 := m[at := Merge(m[at], View(p), View(s).(flags := p.flags))];
    assert ApplyAll(m1, states) == m2;
    ApplyMaybe(m2, p.flags != s.flags, f);
  }

  /** The value field `f` is left with at position `p`: the last one reported, or the old one. */
  function Left(b: string, current: seq<SlaveInfo>, p: int, f: Field): string {
    if current == [] then b
    else
      var s := current[|current| - 1];
      if s.position == p && Get(View(s), f) != b then Get(View(s), f)
      else Left(b, current[..|current| - 1], p, f)
  }

  /** `r` is the previous scan with the changes of the current one made, position by position and field by field. */
  ghost predicate Changed(before: map<int, Shown>, current: seq<SlaveInfo>, r: map<int, Shown>) {
    && r.Keys == before.Keys + Snapshot(current).Keys
    && (forall p :: p in r && p !in before ==> r[p] == Snapshot(current)[p])
    && (forall p, f :: p in before ==> Get(r[p], f) == Left(Get(before[p], f), current, p, f))
  }

  lemma {:induction false} ChangedStep(before: map<int, Shown>, front: seq<SlaveInfo>, s: SlaveInfo, r: map<int, Shown>)
    requires Changed(before, front, r)
    ensures s.position in before ==> s.position in r
    ensures Changed(before, front + [s], r[s.position :=
      if s.position in before then Merge(r[s.position], before[s.position], View(s)) else View(s)])
  {
    var at, v, current := s.position, View(s), front + [s];
    assert current[..|front|] == front;
    var r' := r[at := if at in before then Merge(r[at], before[at], v) else v];
    assert Snapshot(current) == Snapshot(front)[at := v];
    hide Snapshot;
    forall p, f | p in before ensures Get(r'[p], f) == Left(Get(before[p], f), current, p, f) {
      assert Get(r[p], f) == Left(Get(before[p], f), front, p, f);
    }
  }

  lemma {:induction false} ChangesPatch(before: map<int, SlaveInfo>, m: map<int, Shown>, current: seq<SlaveInfo>)
    requires before.Keys == m.Keys && forall p :: p in m ==> m[p] == View(before[p])
    ensures Changed(m, current, ApplyAll(m, ChangesOf(before, current)))
  {
    if current != [] {
      var front, s := current[..|current| - 1], current[|current| - 1];
      ChangesPatch(before, m, front);
      assert current == front + [s];
      hide ChangesAt, ApplyAll, View, Changed, Merge;
      ApplyBoth(m, ChangesOf(before, front), ChangesAt(before, s));
      var r := ApplyAll(m, ChangesOf(before, front));
      ChangedStep(m, front, s, r);
      ChangesAtPatch(before, s, r);
    }
  }

  lemma {:induction false} RemovalsPatch(after: map<int, SlaveInfo>, m: map<int, Shown>, previous: seq<SlaveInfo>)
    ensures ApplyAll(m, RemovalsOf(after, previous)) == m - (Snapshot(previous).Keys - after.Keys)
  {
    if previous != [] {
      var front, s := previous[..|previous| - 1], previous[|previous| - 1];
      RemovalsPatch(after, m, front);
      assert previous == front + [s];
      RemovalStep(after, m, front, s);
      assert Snapshot(previous) == Snapshot(front)[s.position := View(s)];
      hide *;
      RemovedKeys(m, Snapshot(front).Keys, after.Keys, s.position);
      assert Snapshot(previous).Keys == Snapshot(front).Keys + {s.position};
    } else {
      assert m - {} == m;
    }
  }

  lemma {:induction false} RemovalStep(after: map<int, SlaveInfo>, m: map<int, Shown>, front: seq<SlaveInfo>, s: SlaveInfo)
    ensures var r := ApplyAll(m, RemovalsOf(after, front));
      ApplyAll(m, RemovalsOf(after, front + [s])) == if s.position in after then r else r - {s.position}
  {
    var c := Report(Removed, s.position, Some(s), None);
    assert (front + [s])[..|front|] == front;
    assert RemovalsOf(after, front + [s]) == RemovalsOf(after, front) + Maybe(s.position !in after, c);
    hide RemovalsOf, ApplyAll;
    ApplyBoth(m, RemovalsOf(after, front), Maybe(s.position !in after, c));
    ApplyMaybe(ApplyAll(m, RemovalsOf(after, front)), s.position !in after, c);
  }

  lemma {:induction false} RemovedKeys(m: map<int, Shown>, keys: set<int>, after: set<int>, at: int)
    ensures m - (keys + {at} - after) == if at in after then m - (keys - after) else m - (keys - after) - {at}
  {
  }

  /** Slave `s` differs from the previous scan in field `f`, where the current scan as a whole does not. */
  predicate Returns(before: map<int, Shown>, after: map<int, Shown>, s: SlaveInfo, f: Field) {
    && s.position in before && s.position in after
    && Get(after[s.position], f) == Get(before[s.position], f) != Get(View(s), f)
  }

  /** No field of a position scanned more than once strays from its previous value and comes back to it. */
  ghost predicate NoFieldReturns(previous: seq<SlaveInfo>, current: seq<SlaveInfo>) {
    forall i, f :: 0 <= i < |current| ==> !Returns(Snapshot(previous), Snapshot(current), current[i], f)
  }

  lemma {:induction false} LeftIs(b: string, current: seq<SlaveInfo>, p: int, f: Field)
    ensures Left(b, current, p, f) == b <==>
      forall i :: 0 <= i < |current| && current[i].position == p ==> Get(View(current[i]), f) == b
    ensures p in Snapshot(current) && Get(Snapshot(current)[p], f) != b ==>
      Left(b, current, p, f) == Get(Snapshot(current)[p], f)
  {
    if current != [] {
      var n := |current| - 1;
      LeftIs(b, current[..n], p, f);
      hide Get, View;
      assert forall i :: 0 <= i < n ==> current[..n][i] == current[i];
    }
  }

  /** Whether field `f` at `p` ends up right. */
  lemma {:induction false} LeftRight(before: map<int, Shown>, current: seq<SlaveInfo>, p: int, f: Field)
    requires p in before && p in Snapshot(current)
    ensures Left(Get(before[p], f), current, p, f) == Get(Snapshot(current)[p], f) <==>
      forall i :: 0 <= i < |current| && current[i].position == p ==> !Returns(before, Snapshot(current), current[i], f)
  {
    LeftIs(Get(before[p], f), current, p, f);
    hide Left, Snapshot, Get, View;
  }

  /** Applying the changes to the previous scan gives the current one if and only if there was a previous scan and no
      field returns, or there is nothing now. */
  lemma {:induction false} PatchIff(previous: seq<SlaveInfo>, current: seq<SlaveInfo>)
    ensures ApplyAll(Snapshot(previous), Detected(previous, current)) == Snapshot(current) <==>
      if previous == [] then current == [] else NoFieldReturns(previous, current)
  {
    if previous != [] {
      PatchRight(previous, current);
    } else if current != [] {
      assert current[|current| - 1].position in Snapshot(current);
    }
  }

  lemma {:induction false} PatchRight(previous: seq<SlaveInfo>, current: seq<SlaveInfo>)
    requires previous != []
    ensures ApplyAll(Snapshot(previous), Detected(previous, current)) == Snapshot(current) <==> NoFieldReturns(previous, current)
  {
    var m, r := PatchIs(previous, current);
    EntriesRight(m, current, r);
    hide ApplyAll, Detected, Snapshot, Changed, Left;
    if NoFieldReturns(previous, current) {
      assert forall p, f :: p in m && p in Snapshot(current) ==> FieldRight(m, current, p, f) by {
        forall p, f | p in m && p in Snapshot(current) ensures FieldRight(m, current, p, f) {
          LeftRight(m, current, p, f);
        }
      }
    }
    if forall p, f :: p in m && p in Snapshot(current) ==> FieldRight(m, current, p, f) {
      forall i, f | 0 <= i < |current| ensures !Returns(m, Snapshot(current), current[i], f) {
        if current[i].position in m && current[i].position in Snapshot(current) {
          assert FieldRight(m, current, current[i].position, f);
          LeftRight(m, current, current[i].position, f);
        }
      }
    }
  }

  /** The patched scan is the changed one without the positions that are gone. */
  lemma {:induction false} PatchIs(previous: seq<SlaveInfo>, current: seq<SlaveInfo>) returns (m: map<int, Shown>, r: map<int, Shown>)
    requires previous != []
    ensures m == Snapshot(previous) && Changed(m, current, r)
    ensures ApplyAll(m, Detected(previous, current)) == r - (m.Keys - Snapshot(current).Keys)
  {
    var before, after := ByPosition(previous), ByPosition(current);
    m := Snapshot(previous);
    SnapshotIs(previous);
    SnapshotIs(current);
    hide ByPosition, ApplyAll, Snapshot, ChangesOf, RemovalsOf, View, Changed;
    ChangesPatch(before, m, current);
    r := ApplyAll(m, ChangesOf(before, current));
    ApplyBoth(m, ChangesOf(before, current), RemovalsOf(after, previous));
    RemovalsPatch(after, r, previous);
  }

  ghost predicate FieldRight(m: map<int, Shown>, current: seq<SlaveInfo>, p: int, f: Field)
    requires p in m && p in Snapshot(current)
  {
    Left(Get(m[p], f), current, p, f) == Get(Snapshot(current)[p], f)
  }

  lemma {:induction false} EntriesRight(m: map<int, Shown>, current: seq<SlaveInfo>, r: map<int, Shown>)
    requires Changed(m, current, r)
    ensures r - (m.Keys - Snapshot(current).Keys) == Snapshot(current) <==>
      forall p, f :: p in m && p in Snapshot(current) ==> FieldRight(m, current, p, f)
  {
    var now := Snapshot(current);
    var kept := r - (m.Keys - now.Keys);
    assert kept.Keys == now.Keys && forall p :: p in now ==> kept[p] == r[p];
    forall p | p in m && p in now ensures r[p] == now[p] <==> forall f :: FieldRight(m, current, p, f) {
      EntryRight(m, current, r, p);
    }
    assert forall p :: p in now && p !in m ==> r[p] == now[p];
    hide Snapshot, Changed, FieldRight;
    if kept == now {
      assert forall p :: p in m && p in now ==> r[p] == kept[p] == now[p];
    }
    if forall p, f :: p in m && p in now ==> FieldRight(m, current, p, f) {
      assert forall p :: p in now ==> kept[p] == now[p];
    }
  }

  lemma {:induction false} EntryRight(m: map<int, Shown>, current: seq<SlaveInfo>, r: map<int, Shown>, p: int)
    requires Changed(m, current, r) && p in m && p in Snapshot(current)
    ensures r[p] == Snapshot(current)[p] <==> forall f :: FieldRight(m, current, p, f)
  {
    SameFields(r[p], Snapshot(current)[p]);
    forall f ensures FieldRight(m, current, p, f) <==> Get(r[p], f) == Get(Snapshot(current)[p], f) {
    }
    hide Snapshot, Left, Get;
  }

  /** With distinct positions the patch is right whenever there was a previous scan. */
  lemma {:induction false} DiffIsAPatch(previous: seq<SlaveInfo>, current: seq<SlaveInfo>)
    requires previous != [] && DistinctPositions(current)
    ensures ApplyAll(Snapshot(previous), Detected(previous, current)) == Snapshot(current)
  {
    PatchIff(previous, current);
    SnapshotIs(current);
    hide ApplyAll, Detected, DistinctPositions, ByPosition, Snapshot, Get;
    forall i, f | 0 <= i < |current| ensures !Returns(Snapshot(previous), Snapshot(current), current[i], f) {
      OnlyEntry(current, i);
    }
  }

  /** A position scanned twice can be patched to the wrong one of its two entries. */
  lemma {:induction false} RepeatedPositionMispatches(a: SlaveInfo, b: SlaveInfo)
    requires a.position == b.position && a.name != b.name
    ensures ApplyAll(Snapshot([b]), Detected([b], [a, b])) != Snapshot([a, b])
  {
    PatchIff([b], [a, b]);
    hide ApplyAll, Detected;
    assert [b][..0] == [] && [a, b][..1] == [a];
    assert Snapshot([a, b]) == Snapshot([a])[b.position := View(b)];
    assert Returns(Snapshot([b]), Snapshot([a, b]), [a, b][0], NameField);
  }

  // ---- What is reported where ----

  ghost predicate Reports<K>(changes: seq<Report<K>>, kind: K, p: int) {
    exists i :: 0 <= i < |changes| && changes[i].kind == kind && changes[i].position == p
  }

  lemma {:induction false} ReportsBoth<K>(a: seq<Report<K>>, b: seq<Report<K>>, kind: K, p: int)
    ensures Reports(a + b, kind, p) <==> Reports(a, kind, p) || Reports(b, kind, p)
  {
    if i :| 0 <= i < |a| && a[i].kind == kind && a[i].position == p {
      assert (a + b)[i] == a[i];
    }
    if i :| 0 <= i < |b| && b[i].kind == kind && b[i].position == p {
      assert (a + b)[|a| + i] == b[i];
    }
  }

  ghost predicate Differs(before: map<int, SlaveInfo>, s: SlaveInfo, kind: ChangeKind) {
    match kind
    case Added => s.position !in before
    case Removed => false
    case NameChanged => s.position in before && before[s.position].name != s.name
    case StateChanged => s.position in before && before[s.position].state != s.state
    case FlagsChanged => s.position in before && before[s.position].flags != s.flags
  }

  lemma {:induction false} ReportsMaybe<K>(c: bool, change: Report<K>, kind: K, p: int)
    ensures Reports(Maybe(c, change), kind, p) <==> c && change.kind == kind && change.position == p
  {
    if c && change.kind == kind && change.position == p {
      assert Maybe(c, change)[0] == change;
    }
  }

  lemma {:induction false} ChangesAtReport(before: map<int, SlaveInfo>, s: SlaveInfo, kind: ChangeKind, p: int)
    ensures Reports(ChangesAt(before, s), kind, p) <==> p == s.position && Differs(before, s, kind)
  {
    var at := s.position;
    if at !in before {
      ReportsMaybe(true, Report(Added, at, None, Some(s)), kind, p);
    } else {
      var q := before[at];
      var n := Report(NameChanged, at, Some(q), Some(s));
      var t := Report(StateChanged, at, Some(q), Some(s));
      var f := Report(FlagsChanged, at, Some(q), Some(s));
      ReportsMaybe(q.name != s.name, n, kind, p);
      ReportsMaybe(q.state != s.state, t, kind, p);
      ReportsMaybe(q.flags != s.flags, f, kind, p);
      ReportsBoth(Maybe(q.name != s.name, n), Maybe(q.state != s.state, t), kind, p);
      ReportsBoth(Maybe(q.name != s.name, n) + Maybe(q.state != s.state, t), Maybe(q.flags != s.flags, f), kind, p);
      hide Reports, Maybe;
    }
  }

  ghost predicate At(current: seq<SlaveInfo>, i: nat, before: map<int, SlaveInfo>, kind: ChangeKind, p: int) {
    i < |current| && current[i].position == p && Differs(before, current[i], kind)
  }

  lemma {:induction false} ChangesReport(before: map<int, SlaveInfo>, current: seq<SlaveInfo>, kind: ChangeKind, p: int)
    ensures Reports(ChangesOf(before, current), kind, p) <==> exists i :: At(current, i, before, kind, p)
  {
    hide Differs;
    if current != [] {
      var front, s := current[..|current| - 1], current[|current| - 1];
      ChangesReport(before, front, kind, p);
      ReportsBoth(ChangesOf(before, front), ChangesAt(before, s), kind, p);
      ChangesAtReport(before, s, kind, p);
      assert ChangesOf(before, current) == ChangesOf(before, front) + ChangesAt(before, s);
      hide Reports, ChangesOf, ChangesAt;
      if i: nat :| At(front, i, before, kind, p) {
        assert At(current, i, before, kind, p);
      }
      if i: nat :| At(current, i, before, kind, p) {
        assert i < |front| ==> At(front, i, before, kind, p);
      }
      assert p == s.position && Differs(before, s, kind) ==> At(current, |front|, before, kind, p);
    }
  }

  lemma {:induction false} RemovalsReport(after: map<int, SlaveInfo>, previous: seq<SlaveInfo>, kind: ChangeKind, p: int)
    ensures Reports(RemovalsOf(after, previous), kind, p) <==> kind == Removed && p in ByPosition(previous) && p !in after
  {
    if previous != [] {
      var front, s := previous[..|previous| - 1], previous[|previous| - 1];
      var c := Report(Removed, s.position, Some(s), None);
      RemovalsReport(after, front, kind, p);
      ReportsBoth(RemovalsOf(after, front), Maybe(s.position !in after, c), kind, p);
      ReportsMaybe(s.position !in after, c, kind, p);
      hide Reports;
    }
  }

  // ---- compareTopologyBaseline ----

  function IssuesAt(actual: map<int, SlaveInfo>, s: SlaveInfo): seq<Issue> {
    if s.position !in actual then [Report(MissingSlave, s.position, Some(s), None)]
    else
      var c := actual[s.position];
      Maybe(c.name != s.name, Report(NameDiffers, s.position, Some(s), Some(c)))
      + Maybe(s.state != "" && c.state != "" && c.state != s.state, Report(StateDiffers, s.position, Some(s), Some(c)))
  }

  function IssuesOf(actual: map<int, SlaveInfo>, baseline: seq<SlaveInfo>): seq<Issue> {
    if baseline == [] then []
    else IssuesOf(actual, baseline[..|baseline| - 1]) + IssuesAt(actual, baseline[|baseline| - 1])
  }

  function UnexpectedOf(expected: map<int, SlaveInfo>, current: seq<SlaveInfo>): seq<Issue> {
    if current == [] then []
    else
      var s := current[|current| - 1];
      UnexpectedOf(expected, current[..|current| - 1])
      + Maybe(s.position !in expected, Report(UnexpectedSlave, s.position, None, Some(s)))
  }

  function Compared(baseline: seq<SlaveInfo>, current: seq<SlaveInfo>): seq<Issue> {
    if baseline == [] then [] else IssuesOf(ByPosition(current), baseline) + UnexpectedOf(ByPosition(baseline), current)
  }

  method CompareTopologyBaseline(baseline: seq<SlaveInfo>, current: seq<SlaveInfo>) returns (issues: seq<Issue>)
    ensures issues == Compared(baseline, current)
  {
    issues := [];
    if baseline == [] {
      return;
    }
    var expected := IndexSlaves(baseline);
    var actual := IndexSlaves(current);
    hide ByPosition;
    for i := 0 to |baseline|
      invariant issues == IssuesOf(actual, baseline[..i])
    {
      var more := CompareExpected(actual, baseline[i]);
      issues := issues + more;
      assert baseline[..i + 1][..i] == baseline[..i];
    }
    assert baseline[..|baseline|] == baseline;
    ghost var found := issues;
    assert found + [] == found;
    for i := 0 to |current|
      invariant issues == found + UnexpectedOf(expected, current[..i])
    {
      var s := current[i];
      assert current[..i + 1][..i] == current[..i];
      if s.position !in expected {
        issues := issues + [Report(UnexpectedSlave, s.position, None, Some(s))];
      }
      assert found + UnexpectedOf(expected, current[..i])
             + Maybe(s.position !in expected, Report(UnexpectedSlave, s.position, None, Some(s)))
          == found + UnexpectedOf(expected, current[..i + 1]);
    }
    assert current[..|current|] == current;
  }

  /** The loop body over the baseline. */
  method CompareExpected(actual: map<int, SlaveInfo>, s: SlaveInfo) returns (issues: seq<Issue>)
    ensures issues == IssuesAt(actual, s)
  {
    issues := [];
    if s.position !in actual {
      return [Report(MissingSlave, s.position, Some(s), None)];
    }
    var c := actual[s.position];
    if c.name != s.name {
      issues := issues + [Report(NameDiffers, s.position, Some(s), Some(c))];
    }
    if s.state != "" && c.state != "" && c.state != s.state {
      issues := issues + [Report(StateDiffers, s.position, Some(s), Some(c))];
    }
  }

  ghost predicate Off(actual: map<int, SlaveInfo>, s: SlaveInfo, kind: IssueKind) {
    match kind
    case MissingSlave => s.position !in actual
    case UnexpectedSlave => false
    case NameDiffers => s.position in actual && actual[s.position].name != s.name
    case StateDiffers =>
      (s.position in actual && s.state != "" && actual[s.position].state != "" && actual[s.position].state != s.state)
  }

  lemma {:induction false} IssuesAtReport(actual: map<int, SlaveInfo>, s: SlaveInfo, kind: IssueKind, p: int)
    ensures Reports(IssuesAt(actual, s), kind, p) <==> p == s.position && Off(actual, s, kind)
  {
    var at := s.position;
    if at !in actual {
      ReportsMaybe(true, Report(MissingSlave, at, Some(s), None), kind, p);
    } else {
      var c := actual[at];
      var n := Report(NameDiffers, at, Some(s), Some(c));
      var t := Report(StateDiffers, at, Some(s), Some(c));
      var stateOff := s.state != "" && c.state != "" && c.state != s.state;
      ReportsMaybe(c.name != s.name, n, kind, p);
      ReportsMaybe(stateOff, t, kind, p);
      ReportsBoth(Maybe(c.name != s.name, n), Maybe(stateOff, t), kind, p);
      hide Reports, Maybe;
    }
  }

  ghost predicate OffAt(baseline: seq<SlaveInfo>, i: nat, actual: map<int, SlaveInfo>, kind: IssueKind, p: int) {
    i < |baseline| && baseline[i].position == p && Off(actual, baseline[i], kind)
  }

  lemma {:induction false} IssuesReport(actual: map<int, SlaveInfo>, baseline: seq<SlaveInfo>, kind: IssueKind, p: int)
    ensures Reports(IssuesOf(actual, baseline), kind, p) <==> exists i :: OffAt(baseline, i, actual, kind, p)
  {
    hide Off;
    if baseline != [] {
      var front, s := baseline[..|baseline| - 1], baseline[|baseline| - 1];
      IssuesReport(actual, front, kind, p);
      ReportsBoth(IssuesOf(actual, front), IssuesAt(actual, s), kind, p);
      IssuesAtReport(actual, s, kind, p);
      hide Reports, IssuesAt;
      if i: nat :| OffAt(front, i, actual, kind, p) {
        assert OffAt(baseline, i, actual, kind, p);
      }
      if i: nat :| OffAt(baseline, i, actual, kind, p) {
        assert i < |front| ==> OffAt(front, i, actual, kind, p);
      }
      assert p == s.position && Off(actual, s, kind) ==> OffAt(baseline, |front|, actual, kind, p);
    }
  }

  lemma {:induction false} UnexpectedReport(expected: map<int, SlaveInfo>, current: seq<SlaveInfo>, kind: IssueKind, p: int)
    ensures Reports(UnexpectedOf(expected, current), kind, p)
      <==> kind == UnexpectedSlave && p in ByPosition(current) && p !in expected
  {
    if current != [] {
      var front, s := current[..|current| - 1], current[|current| - 1];
      var c := Report(UnexpectedSlave, s.position, None, Some(s));
      UnexpectedReport(expected, front, kind, p);
      ReportsBoth(UnexpectedOf(expected, front), Maybe(s.position !in expected, c), kind, p);
      ReportsMaybe(s.position !in expected, c, kind, p);
      hide Reports;
    }
  }

  // ---- The two agree ----

  lemma {:induction false} OnlyEntry(slaves: seq<SlaveInfo>, i: nat)
    requires DistinctPositions(slaves) && i < |slaves|
    ensures slaves[i].position in ByPosition(slaves) && ByPosition(slaves)[slaves[i].position] == slaves[i]
  {
    var n := |slaves| - 1;
    if i < n {
      OnlyEntry(slaves[..n], i);
    }
  }

  /** What the change list reports at a position, said of the two scans as tables. */
  lemma {:induction false} DetectedMeans(previous: seq<SlaveInfo>, current: seq<SlaveInfo>, kind: ChangeKind, p: int)
    requires previous != [] && DistinctPositions(current)
    ensures var before, after := ByPosition(previous), ByPosition(current);
      Reports(Detected(previous, current), kind, p) <==>
        match kind
        case Added => p in after && p !in before
        case Removed => p in before && p !in after
        case NameChanged => p in before && p in after && before[p].name != after[p].name
        case StateChanged => p in before && p in after && before[p].state != after[p].state
        case FlagsChanged => p in before && p in after && before[p].flags != after[p].flags
  {
    var before, after := ByPosition(previous), ByPosition(current);
    ReportsBoth(ChangesOf(before, current), RemovalsOf(after, previous), kind, p);
    ChangesReport(before, current, kind, p);
    RemovalsReport(after, previous, kind, p);
    PositionsAre(current);
    hide Reports, ChangesOf, RemovalsOf, ByPosition, DistinctPositions;
    if i: nat :| i < |current| && current[i].position == p {
      OnlyEntry(current, i);
      assert Differs(before, current[i], kind) ==> At(current, i, before, kind, p);
    }
    if i: nat :| At(current, i, before, kind, p) {
      OnlyEntry(current, i);
    }
  }

  lemma {:induction false} ComparedMeans(baseline: seq<SlaveInfo>, current: seq<SlaveInfo>, kind: IssueKind, p: int)
    requires baseline != [] && DistinctPositions(baseline)
    ensures var before, after := ByPosition(baseline), ByPosition(current);
      Reports(Compared(baseline, current), kind, p) <==>
        match kind
        case MissingSlave => p in before && p !in after
        case UnexpectedSlave => p in after && p !in before
        case NameDiffers => p in before && p in after && before[p].name != after[p].name
        case StateDiffers =>
          (p in before && p in after && before[p].state != "" && after[p].state != "" && before[p].state != after[p].state)
  {
    var before, after := ByPosition(baseline), ByPosition(current);
    ReportsBoth(IssuesOf(after, baseline), UnexpectedOf(before, current), kind, p);
    IssuesReport(after, baseline, kind, p);
    UnexpectedReport(before, current, kind, p);
    PositionsAre(baseline);
    hide Reports, IssuesOf, UnexpectedOf, ByPosition, DistinctPositions;
    if i: nat :| i < |baseline| && baseline[i].position == p {
      OnlyEntry(baseline, i);
      assert Off(after, baseline[i], kind) ==> OffAt(baseline, i, after, kind, p);
    }
    if i: nat :| OffAt(baseline, i, after, kind, p) {
      OnlyEntry(baseline, i);
    }
  }

  /** The change list and the baseline comparison name the same positions as removed, added and renamed; as to states,
      the baseline comparison names those changes where both states are known. */
  lemma {:induction false} ReportsAgree(previous: seq<SlaveInfo>, current: seq<SlaveInfo>, p: int)
    requires DistinctPositions(previous) && DistinctPositions(current)
    ensures var changes, issues := Detected(previous, current), Compared(previous, current);
      && (Reports(changes, Removed, p) <==> Reports(issues, MissingSlave, p))
      && (Reports(changes, Added, p) <==> Reports(issues, UnexpectedSlave, p))
      && (Reports(changes, NameChanged, p) <==> Reports(issues, NameDiffers, p))
      && (Reports(issues, StateDiffers, p) ==> Reports(changes, StateChanged, p))
  {
    if previous != [] {
      DetectedMeans(previous, current, Removed, p);
      DetectedMeans(previous, current, Added, p);
      DetectedMeans(previous, current, NameChanged, p);
      DetectedMeans(previous, current, StateChanged, p);
      ComparedMeans(previous, current, MissingSlave, p);
      ComparedMeans(previous, current, UnexpectedSlave, p);
      ComparedMeans(previous, current, NameDiffers, p);
      ComparedMeans(previous, current, StateDiffers, p);
      hide Reports, Detected, Compared, ByPosition, DistinctPositions;
    }
  }

  /** Every slave of the current scan is as the previous scan has it, and no position is gone. */
  ghost predicate AllAsBefore(previous: seq<SlaveInfo>, current: seq<SlaveInfo>) {
    && (forall i :: 0 <= i < |current| ==> AsBefore(ByPosition(previous), current[i]))
    && ByPosition(previous).Keys <= ByPosition(current).Keys
  }

  predicate AsBefore(before: map<int, SlaveInfo>, s: SlaveInfo) {
    s.position in before && View(before[s.position]) == View(s)
  }

  lemma {:induction false} NoChangesAt(before: map<int, SlaveInfo>, s: SlaveInfo)
    ensures ChangesAt(before, s) == [] <==> AsBefore(before, s)
  {
    if s.position in before {
      var p := before[s.position];
      var n := Report(NameChanged, s.position, Some(p), Some(s));
      var t := Report(StateChanged, s.position, Some(p), Some(s));
      var f := Report(FlagsChanged, s.position, Some(p), Some(s));
      NothingInThree(p.name != s.name, n, p.state != s.state, t, p.flags != s.flags, f);
    }
  }

  lemma NothingInThree(a: bool, n: Change, b: bool, t: Change, c: bool, f: Change)
    ensures Maybe(a, n) + Maybe(b, t) + Maybe(c, f) == [] <==> !a && !b && !c
  {
    assert |Maybe(a, n) + Maybe(b, t) + Maybe(c, f)| == (if a then 1 else 0) + (if b then 1 else 0) + (if c then 1 else 0);
  }

  lemma {:induction false} NoChanges(before: map<int, SlaveInfo>, current: seq<SlaveInfo>)
    ensures ChangesOf(before, current) == [] <==> forall i :: 0 <= i < |current| ==> AsBefore(before, current[i])
  {
    if current != [] {
      var n := |current| - 1;
      NoChanges(before, current[..n]);
      NoChangesAt(before, current[n]);
      assert forall i :: 0 <= i < n ==> current[..n][i] == current[i];
      hide AsBefore, ChangesAt;
      assert |ChangesOf(before, current)| == |ChangesOf(before, current[..n])| + |ChangesAt(before, current[n])|;
    }
  }

  lemma {:induction false} NoRemovals(after: map<int, SlaveInfo>, previous: seq<SlaveInfo>)
    ensures RemovalsOf(after, previous) == [] <==> ByPosition(previous).Keys <= after.Keys
  {
    if previous != [] {
      var front, s := previous[..|previous| - 1], previous[|previous| - 1];
      NoRemovals(after, front);
      var c := Report(Removed, s.position, Some(s), None);
      assert |RemovalsOf(after, previous)| == |RemovalsOf(after, front)| + |Maybe(s.position !in after, c)|;
      assert ByPosition(previous).Keys == ByPosition(front).Keys + {s.position};
    }
  }

  /** Over all scans: nothing is reported if and only if there was no previous scan, or every slave is as before and none
      is gone. */
  lemma {:induction false} EmptyIff(previous: seq<SlaveInfo>, current: seq<SlaveInfo>)
    ensures Detected(previous, current) == [] <==> previous == [] || AllAsBefore(previous, current)
  {
    if previous != [] {
      NoChanges(ByPosition(previous), current);
      NoRemovals(ByPosition(current), previous);
      hide ByPosition, ChangesOf, RemovalsOf, AsBefore;
    }
  }

  /** With a previous scan and distinct positions: if and only if the two scans show the same. */
  lemma {:induction false} EmptyIffSame(previous: seq<SlaveInfo>, current: seq<SlaveInfo>)
    requires previous != [] && DistinctPositions(current)
    ensures Detected(previous, current) == [] <==> Snapshot(previous) == Snapshot(current)
  {
    DiffIsAPatch(previous, current);
    var changes := Detected(previous, current);
    if changes != [] {
      var c := changes[0];
      assert Reports(changes, c.kind, c.position);
      DetectedMeans(previous, current, c.kind, c.position);
      SnapshotIs(previous);
      SnapshotIs(current);
      hide Detected, ByPosition, Reports, DistinctPositions;
      assert c.position in Snapshot(previous) && c.position in Snapshot(current) ==>
        Snapshot(previous)[c.position] != Snapshot(current)[c.position];
      hide Snapshot;
    }
  }

  // ---- The slaves a report carries ----

  /** A scan's table has the last slave of each position. */
  lemma {:induction false} LastEntry(slaves: seq<SlaveInfo>, i: nat)
    requires i < |slaves| && forall j :: i < j < |slaves| ==> slaves[j].position != slaves[i].position
    ensures slaves[i].position in ByPosition(slaves) && ByPosition(slaves)[slaves[i].position] == slaves[i]
  {
    var n := |slaves| - 1;
    if i < n {
      LastEntry(slaves[..n], i);
    }
  }

  lemma ChangesAtCarry(before: map<int, SlaveInfo>, s: SlaveInfo)
    ensures forall c: Change :: c in ChangesAt(before, s) ==>
      && c.kind != Removed && c.position == s.position && c.current == Some(s)
      && if c.kind == Added then c.previous == None
         else c.position in before && c.previous == Some(before[c.position])
  {
  }

  lemma {:induction false} ChangesCarry(before: map<int, SlaveInfo>, current: seq<SlaveInfo>)
    ensures forall c: Change :: c in ChangesOf(before, current) ==>
      && c.kind != Removed && c.current.Some? && c.current.value in current && c.current.value.position == c.position
      && if c.kind == Added then c.previous == None
         else c.position in before && c.previous == Some(before[c.position])
  {
    if current != [] {
      var n := |current| - 1;
      ChangesCarry(before, current[..n]);
      ChangesAtCarry(before, current[n]);
      assert current == current[..n] + [current[n]];
      var more := ChangesAt(before, current[n]);
      assert ChangesOf(before, current) == ChangesOf(before, current[..n]) + more;
      hide ChangesOf, ChangesAt;
      assert forall c: Change :: c in ChangesOf(before, current) <==> c in ChangesOf(before, current[..n]) || c in more;
    }
  }

  lemma {:induction false} RemovalsCarry(after: map<int, SlaveInfo>, previous: seq<SlaveInfo>)
    ensures forall c: Change :: c in RemovalsOf(after, previous) ==>
      c.kind == Removed && c.current == None && c.previous.Some? && c.previous.value in previous
      && c.previous.value.position == c.position
  {
    if previous != [] {
      var n := |previous| - 1;
      RemovalsCarry(after, previous[..n]);
      assert previous == previous[..n] + [previous[n]];
      var s := previous[n];
      var more := Maybe(s.position !in after, Report(Removed, s.position, Some(s), None));
      assert forall c: Change :: c in RemovalsOf(after, previous) <==> c in RemovalsOf(after, previous[..n]) || c in more;
      hide RemovalsOf;
    }
  }

  /** Every change carries the slaves it is about: the one of the current scan unless it is gone, and the one the previous
      scan had last at that position unless it is new. */
  lemma ChangeSlaves(previous: seq<SlaveInfo>, current: seq<SlaveInfo>, c: Change)
    requires c in Detected(previous, current)
    ensures c.kind == Added ==> c.previous == None
    ensures c.kind == Removed ==>
      c.current == None && c.previous.Some? && c.previous.value in previous && c.previous.value.position == c.position
    ensures c.kind != Removed ==> c.current.Some? && c.current.value in current && c.current.value.position == c.position
    ensures c.kind != Removed && c.kind != Added ==>
      c.position in ByPosition(previous) && c.previous == Some(ByPosition(previous)[c.position])
  {
    ChangesCarry(ByPosition(previous), current);
    RemovalsCarry(ByPosition(current), previous);
    hide ChangesOf, RemovalsOf, ByPosition;
  }

  lemma {:induction false} IssuesCarry(actual: map<int, SlaveInfo>, baseline: seq<SlaveInfo>)
    ensures forall c: Issue :: c in IssuesOf(actual, baseline) ==>
      && c.kind != UnexpectedSlave && c.previous.Some? && c.previous.value in baseline
      && c.previous.value.position == c.position
      && if c.kind == MissingSlave then c.current == None
         else c.position in actual && c.current == Some(actual[c.position])
  {
    if baseline != [] {
      var n := |baseline| - 1;
      IssuesCarry(actual, baseline[..n]);
      assert baseline == baseline[..n] + [baseline[n]];
      assert forall c: Issue :: c in IssuesOf(actual, baseline) <==>
        c in IssuesOf(actual, baseline[..n]) || c in IssuesAt(actual, baseline[n]);
      hide IssuesOf;
    }
  }

  lemma {:induction false} UnexpectedCarry(expected: map<int, SlaveInfo>, current: seq<SlaveInfo>)
    ensures forall c: Issue :: c in UnexpectedOf(expected, current) ==>
      c.kind == UnexpectedSlave && c.previous == None && c.current.Some? && c.current.value in current
      && c.current.value.position == c.position
  {
    if current != [] {
      var n := |current| - 1;
      UnexpectedCarry(expected, current[..n]);
      assert current == current[..n] + [current[n]];
      var s := current[n];
      var more := Maybe(s.position !in expected, Report(UnexpectedSlave, s.position, None, Some(s)));
      assert forall c: Issue :: c in UnexpectedOf(expected, current) <==>
        c in UnexpectedOf(expected, current[..n]) || c in more;
      hide UnexpectedOf;
    }
  }

  /** Every issue carries the slave of the baseline unless it is unexpected, and the one the current scan has last at that
      position unless it is missing. */
  lemma IssueSlaves(baseline: seq<SlaveInfo>, current: seq<SlaveInfo>, c: Issue)
    requires c in Compared(baseline, current)
    ensures c.kind == MissingSlave ==> c.current == None
    ensures c.kind == UnexpectedSlave ==>
      c.previous == None && c.current.Some? && c.current.value in current && c.current.value.position == c.position
    ensures c.kind != UnexpectedSlave ==>
      c.previous.Some? && c.previous.value in baseline && c.previous.value.position == c.position
    ensures c.kind != UnexpectedSlave && c.kind != MissingSlave ==>
      c.position in ByPosition(current) && c.current == Some(ByPosition(current)[c.position])
  {
    IssuesCarry(ByPosition(current), baseline);
    UnexpectedCarry(ByPosition(baseline), current);
    hide IssuesOf, UnexpectedOf, ByPosition;
  }
}
