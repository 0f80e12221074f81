/** Cycle statistics of the real-time test: the rolling window, and telemetry taken while the cycle thread runs. */
module RtTest {
  import opened Words

  const ROLLING_WINDOW: nat := 2000
  const INT64_MAX: int := 0x7FFF_FFFF_FFFF_FFFF

  function Total(ds: seq<nat>): nat {
    if ds == [] then 0 else Total(ds[..|ds| - 1]) + ds[|ds| - 1]
  }

  function Min(a: nat, b: nat): nat {
    if a < b then a else b
  }

  /** The window as the loop keeps it: slot i % 2000 holds cycle i, for the last 2000 cycles. */
  predicate Holds(ring: seq<nat>, ds: seq<nat>) {
    && |ring| == Min(|ds|, ROLLING_WINDOW)
    && forall i :: |ds| - |ring| <= i < |ds| ==> ring[i % ROLLING_WINDOW] == ds[i]
  }

  function Last(ds: seq<nat>): (r: seq<nat>)
    ensures |r| == Min(|ds|, ROLLING_WINDOW)
  {
    ds[|ds| - Min(|ds|, ROLLING_WINDOW)..]
  }

  /** The window is a rotation of the last cycles: of all of them, unrotated, until it is full. */
  lemma WindowIsRotation(ring: seq<nat>, ds: seq<nat>)
    requires Holds(ring, ds)
    ensures var w, r := Last(ds), |ds| % ROLLING_WINDOW;
      if |ds| < ROLLING_WINDOW then ring == ds else ring == w[ROLLING_WINDOW - r..] + w[..ROLLING_WINDOW - r]
  {
    var n, r := |ds|, |ds| % ROLLING_WINDOW;
    if n < ROLLING_WINDOW {
      forall i | 0 <= i < n ensures ring[i] == ds[i] {
        SmallMod(i, ROLLING_WINDOW);
        assert ring[i % ROLLING_WINDOW] == ds[i];
      }
    } else {
      var w, q := Last(ds), n / ROLLING_WINDOW;
      forall j | 0 <= j < ROLLING_WINDOW ensures ring[j] == (w[ROLLING_WINDOW - r..] + w[..ROLLING_WINDOW - r])[j] {
        var k := if j < r then q else q - 1;
        var i := ROLLING_WINDOW * k + j;
        assert n == ROLLING_WINDOW * q + r;
        ModPlus(ROLLING_WINDOW, k, j);
        SmallMod(j, ROLLING_WINDOW);
        assert i % ROLLING_WINDOW == j && n - ROLLING_WINDOW <= i < n;
        assert ring[i % ROLLING_WINDOW] == ds[i];
      }
    }
  }

  lemma {:induction false} TotalBetween(ds: seq<nat>, lo: nat, hi: nat)
    requires forall i :: 0 <= i < |ds| ==> lo <= ds[i] <= hi
    ensures lo * |ds| <= Total(ds) <= hi * |ds|
  {
    if ds != [] {
      var front := ds[..|ds| - 1];
      TotalBetween(front, lo, hi);
      assert lo * |ds| == lo * |front| + lo && hi * |ds| == hi * |front| + hi;
    }
  }

  lemma PositiveFactor(n: nat, x: int)
    requires n > 0 && n * x > 0
    ensures x > 0
  {
  }

  lemma QuotientBetween(total: nat, n: nat, lo: nat, hi: nat)
    requires n > 0 && lo * n <= total <= hi * n
    ensures lo <= total / n <= hi
  {
    var q := total / n;
    assert n * q <= total < n * q + n;
    assert n * (q + 1 - lo) == n * q + n - lo * n;
    PositiveFactor(n, q + 1 - lo);
    assert n * (hi + 1 - q) == hi * n + n - n * q;
    PositiveFactor(n, hi + 1 - q);
  }

  /** Least and greatest of the cycles; before the first one, the values they are reset to. */
  predicate MinMax(ds: seq<nat>, lo: int, hi: int) {
    && (ds == [] ==> lo == INT64_MAX && hi == 0)
    && (ds != [] ==> lo in ds && hi in ds)
    && forall i :: 0 <= i < |ds| ==> lo <= ds[i] <= hi && ds[i] < INT64_MAX
  }

  lemma MinMaxKept(ds: seq<nat>, lo: int, hi: int, d: nat)
    requires MinMax(ds, lo, hi) && d < INT64_MAX
    ensures MinMax(ds + [d], if d < lo then d else lo, if d > hi then d else hi)
  {
    var all := ds + [d];
    assert all[|ds|] == d;
    if lo in ds {
      var i :| 0 <= i < |ds| && ds[i] == lo;
      assert all[i] == lo;
    }
    if hi in ds {
      var i :| 0 <= i < |ds| && ds[i] == hi;
      assert all[i] == hi;
    }
  }

  lemma TotalSnoc(ds: seq<nat>, d: nat)
    ensures Total(ds + [d]) == Total(ds) + d
  {
    assert (ds + [d])[..|ds|] == ds;
  }

  datatype Telemetry = Telemetry(cycles: nat, errors: nat, minNs: int, maxNs: int, avgNs: int, jitterNs: int, recent: seq<nat>)

  class RtTestController {
    var cycleCount: nat
    var errorCount: nat
    var minCycleNsec: int
    var maxCycleNsec: int
    var totalCycleNsec: int
    var recentCycles: seq<nat>
    ghost var deltas: seq<nat>
    ghost var failures: nat

    /** The statistics are those of the cycles measured so far. */
    ghost predicate Valid()
      reads this
    {
      && cycleCount == |deltas| && errorCount == failures && failures <= |deltas|
      && Holds(recentCycles, deltas) && totalCycleNsec == Total(deltas)
      && MinMax(deltas, minCycleNsec, maxCycleNsec)
    }

    constructor ()
      ensures Valid() && deltas == []
    {
      cycleCount, errorCount, minCycleNsec, maxCycleNsec, totalCycleNsec, recentCycles := 0, 0, INT64_MAX, 0, 0, [];
      deltas, failures := [], 0;
    }

    /** start(): a new series of cycles. */
    method Start()
      modifies this
      ensures Valid() && deltas == []
    {
      cycleCount, errorCount := 0, 0;
      minCycleNsec, maxCycleNsec, totalCycleNsec, recentCycles := INT64_MAX, 0, 0, [];
      deltas, failures := [], 0;
    }

    /** One iteration of loop(): `delta` is what the monotonic clock measured, `ret` what sending returned. */
    method Cycle(delta: nat, ret: int)
      requires Valid() && delta < INT64_MAX
      modifies this
      ensures Valid() && deltas == old(deltas) + [delta] && failures == old(failures) + if ret < 0 then 1 else 0
    {
      hide Holds, MinMax, Total;
      MinMaxKept(deltas, minCycleNsec, maxCycleNsec, delta);
      TotalSnoc(deltas, delta);
      RingKept(recentCycles, deltas, delta);
      RingSize(recentCycles, deltas);
      if delta < minCycleNsec {
        minCycleNsec := delta;
      }
      if delta > maxCycleNsec {
        maxCycleNsec := delta;
      }
      totalCycleNsec := totalCycleNsec + delta;
      if |recentCycles| < ROLLING_WINDOW {
        recentCycles := recentCycles + [delta];
      } else {
        recentCycles := recentCycles[cycleCount % ROLLING_WINDOW := delta];
      }
      cycleCount := cycleCount + 1;
      deltas := deltas + [delta];
      if ret < 0 {
        errorCount := errorCount + 1;
        failures := failures + 1;
      }
    }

    method GetTelemetry() returns (t: Telemetry)
      requires Valid()
      ensures t.cycles == |deltas| && t.errors == failures && t.errors <= t.cycles
      ensures t.cycles > 0 ==> t.minNs <= t.avgNs <= t.maxNs && t.avgNs == Total(deltas) / |deltas|
      ensures t.cycles > 0 ==> (forall i :: 0 <= i < |deltas| ==> t.minNs <= deltas[i] <= t.maxNs)
      ensures t.cycles > 0 ==> t.minNs in deltas && t.maxNs in deltas
      ensures t.cycles > 0 ==> t.maxNs - t.avgNs <= t.jitterNs && t.avgNs - t.minNs <= t.jitterNs
      ensures t.cycles > 0 ==> t.jitterNs == t.maxNs - t.avgNs || t.jitterNs == t.avgNs - t.minNs
      ensures t.cycles == 0 ==> t.minNs == t.maxNs == t.avgNs == t.jitterNs == 0
      ensures |t.recent| == if |deltas| < 2000 then |deltas| else 2000
      ensures Holds(t.recent, deltas)
    {
      var minNs, maxNs, avgNs, jitterNs := minCycleNsec, maxCycleNsec, 0, 0;
      RingSize(recentCycles, deltas);
      hide Holds;
      if minNs == INT64_MAX {
        minNs := 0;
      }
      if cycleCount > 0 {
        TotalBetween(deltas, minCycleNsec, maxCycleNsec);
        QuotientBetween(Total(deltas), |deltas|, minCycleNsec, maxCycleNsec);
        avgNs := totalCycleNsec / cycleCount;
        jitterNs := if maxNs - avgNs < avgNs - minNs then avgNs - minNs else maxNs - avgNs;
      }
      t := Telemetry(cycleCount, errorCount, minNs, maxNs, avgNs, jitterNs, recentCycles);
    }
  }

  lemma RingSize(ring: seq<nat>, ds: seq<nat>)
    requires Holds(ring, ds)
    ensures |ring| == (if |ds| < 2000 then |ds| else 2000) == Min(|ds|, ROLLING_WINDOW)
    ensures forall i :: |ds| - |ring| <= i < |ds| ==> ring[i % 2000] == ds[i]
  {
  }

  lemma RingKept(ring: seq<nat>, ds: seq<nat>, d: nat)
    requires Holds(ring, ds)
    ensures Holds(if |ring| < ROLLING_WINDOW then ring + [d] else ring[|ds| % ROLLING_WINDOW := d], ds + [d])
  {
    var n := |ds|;
    if |ring| < ROLLING_WINDOW {
      SmallMod(n, ROLLING_WINDOW);
    } else {
      forall i | n + 1 - ROLLING_WINDOW <= i < n ensures i % ROLLING_WINDOW != n % ROLLING_WINDOW {
        DifferentSlots(i, n);
      }
    }
  }

  lemma DifferentSlots(i: nat, n: nat)
    requires i < n < i + ROLLING_WINDOW
    ensures i % ROLLING_WINDOW != n % ROLLING_WINDOW
  {
    var a, b := i / ROLLING_WINDOW, n / ROLLING_WINDOW;
    assert i == ROLLING_WINDOW * a + i % ROLLING_WINDOW && n == ROLLING_WINDOW * b + n % ROLLING_WINDOW;
  }

  // ---- Telemetry beside the running loop ----

  /** The cycle thread has counted a cycle whose sending failed, but not yet the error. */
  datatype Loop = Ready | Owing
  /** telemetry() reads the errors first and the cycles later. */
  datatype Reader = Idle | HasErrors(seen: nat) | Done(errors: nat, cycles: nat)
  datatype State = State(cycles: nat, errors: nat, loop: Loop, reader: Reader)
  datatype Action = CountCycle(failed: bool) | CountError | ReadErrors | ReadCycles

  const INIT: State := State(0, 0, Ready, Idle)

  predicate Enabled(s: State, a: Action) {
    match a
    case CountCycle(_) => s.loop == Ready
    case CountError => s.loop == Owing
    case ReadErrors => !s.reader.HasErrors?
    case ReadCycles => s.reader.HasErrors?
  }

  function Next(s: State, a: Action): State
    requires Enabled(s, a)
  {
    match a
    case CountCycle(failed) => s.(cycles := s.cycles + 1, loop := if failed then Owing else Ready)
    case CountError => s.(errors := s.errors + 1, loop := Ready)
    case ReadErrors => s.(reader := HasErrors(s.errors))
    case ReadCycles => s.(reader := Done(s.reader.seen, s.cycles))
  }

  predicate Moves(states: seq<State>, actions: seq<Action>, t: nat)
    requires |states| == |actions| + 1 && t < |actions|
  {
    Enabled(states[t], actions[t]) && states[t + 1] == Next(states[t], actions[t])
  }

  predicate IsRun(states: seq<State>, actions: seq<Action>) {
    |states| == |actions| + 1 && states[0] == INIT && forall t :: 0 <= t < |actions| ==> Moves(states, actions, t)
  }

  predicate Counted(s: State) {
    && s.errors + (if s.loop == Owing then 1 else 0) <= s.cycles
    && (s.reader.HasErrors? ==> s.reader.seen <= s.errors)
    && (s.reader.Done? ==> s.reader.errors <= s.reader.cycles)
  }

  lemma {:induction false} RunCounts(states: seq<State>, actions: seq<Action>, t: nat)
    requires IsRun(states, actions) && t <= |actions|
    ensures Counted(states[t])
  {
    if t > 0 {
      RunCounts(states, actions, t - 1);
      assert Moves(states, actions, t - 1);
    }
  }

  /** In every interleaving a telemetry snapshot shows no more errors than cycles. */
  lemma SnapshotsAreConsistent(states: seq<State>, actions: seq<Action>, t: nat)
    requires IsRun(states, actions) && t <= |actions| && states[t].reader.Done?
    ensures states[t].reader.errors <= states[t].reader.cycles
  {
    RunCounts(states, actions, t);
  }

  /** The order of the two reads matters: cycles read before errors can be the smaller number. */
  lemma OtherOrderIsInconsistent() returns (states: seq<State>, actions: seq<Action>)
    ensures IsRun(states, actions) && |actions| == 2 && states[0].cycles < states[2].errors
  {
    actions := [CountCycle(true), CountError];
    states := [INIT, Next(INIT, CountCycle(true)), Next(Next(INIT, CountCycle(true)), CountError)];
    assert Moves(states, actions, 0) && Moves(states, actions, 1);
  }
}
