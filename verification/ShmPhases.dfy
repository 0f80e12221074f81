/** The phases a client sees: CONNECTED, RUNNING, DATA_STALE. */
module ShmPhases {
  import opened Words
  import opened ShmProtocol

  datatype Phase = Connected | Running | DataStale

  function Rank(ph: Phase): nat {
    match ph
    case Connected => 0
    case Running => 1
    case DataStale => 2
  }

  /** get_state of an attached client: the version loaded at `vAt`, the flags at `fAt`. */
  function GetState(r: Run, vAt: nat, fAt: nat): Phase
    requires vAt < |r.states| && fAt < |r.states|
  {
    if Version(r.states[vAt]) == 0 then Connected
    else if r.states[fAt].running then Running
    else DataStale
  }

  /** What each phase says about the daemon: CONNECTED is exactly a version of zero, RUNNING means the final stop
      has not begun, DATA_STALE means it has. */
  lemma PhaseMeaning(c: Config, r: Run, vAt: nat, fAt: nat)
    requires IsRun(c, r) && vAt <= fAt < |r.states|
    ensures match GetState(r, vAt, fAt)
      case Connected => r.states[vAt].bumps % TWO_64 == 0
      case Running => r.states[vAt].bumps > 0 && !r.states[fAt].pc.StopBump? && !r.states[fAt].pc.Stopped?
      case DataStale => r.states[vAt].bumps > 0 && (r.states[fAt].pc.StopBump? || r.states[fAt].pc.Stopped?)
  {
    InvAt(c, r, fAt);
    BumpsGrow(c, r, vAt, fAt);
  }

  /** Successive calls never move back, in any interleaving with publishing and stopping, as long as the 64-bit
      version has not wrapped. */
  lemma PhasesMoveForward(c: Config, r: Run, v1: nat, f1: nat, v2: nat, f2: nat)
    requires IsRun(c, r) && v1 <= f1 <= v2 <= f2 < |r.states|
    requires r.states[v2].bumps < TWO_64
    ensures Rank(GetState(r, v1, f1)) <= Rank(GetState(r, v2, f2))
  {
    BumpsGrow(c, r, v1, f1);
    BumpsGrow(c, r, v1, v2);
    BumpsGrow(c, r, v2, f2);
    if GetState(r, v1, f1) == DataStale {
      PhaseMeaning(c, r, v1, f1);
      StaysStopped(c, r, f1, f2);
      InvAt(c, r, f2);
    }
  }

  // ---- At the wrap ----

  /** Every number of bumps up to the last is reached at some instant. */
  lemma {:induction false} BumpsReached(c: Config, r: Run, u: nat, n: nat) returns (t: nat)
    requires IsRun(c, r) && u < |r.states| && n <= r.states[u].bumps
    ensures t <= u && r.states[t].bumps == n
  {
    t := u;
    if n < r.states[u].bumps {
      assert StepAt(c, r, u - 1);
      hide IsRun;
      t := BumpsReached(c, r, u - 1, n);
    }
  }

  /** Two calls of get_state, one after the other, that do not move back. */
  predicate Forward(r: Run, v1: nat, f1: nat, v2: nat, f2: nat)
    requires v1 <= f1 <= v2 <= f2 < |r.states|
  {
    Rank(GetState(r, v1, f1)) <= Rank(GetState(r, v2, f2))
  }

  /** In a run successive results never move back if and only if fewer than 2^64 bumps happen in it. */
  lemma PhaseOrderIff(c: Config, r: Run)
    requires IsRun(c, r)
    ensures (forall v1, f1, v2, f2 :: 0 <= v1 <= f1 <= v2 <= f2 < |r.states| ==> Forward(r, v1, f1, v2, f2))
      <==> r.states[|r.actions|].bumps < TWO_64
  {
    var last := |r.actions|;
    if r.states[last].bumps < TWO_64 {
      forall v1, f1, v2, f2 | 0 <= v1 <= f1 <= v2 <= f2 < |r.states| ensures Forward(r, v1, f1, v2, f2) {
        BumpsGrow(c, r, v2, last);
        PhasesMoveForward(c, r, v1, f1, v2, f2);
      }
    } else {
      var u := BumpsReached(c, r, last, TWO_64);
      var t := BumpsReached(c, r, u, 1);
      assert !Forward(r, t, t, u, u);
    }
  }

  /** One byte, no outputs. */
  const SMALL: Config := Config([], 1)

  /** A whole cycle, from one idle state to the next: first the image is prepared, */
  lemma Prepare(r: Run) returns (r': Run)
    requires IsRun(SMALL, r) && r.states[|r.actions|].pc.Idle? && Shaped(SMALL, r.states[|r.actions|])
    ensures IsRun(SMALL, r') && r.states <= r'.states && |r.actions| < |r'.actions|
    ensures var s, s' := r.states[|r.actions|], r'.states[|r'.actions|];
      Shaped(SMALL, s') && s'.pc.Mark? && s'.bumps == s.bumps
  {
    hide IsRun, Then;
    r' := Then(SMALL, r, Begin([0]));
    r' := Then(SMALL, r', Move(0));
    r' := Then(SMALL, r', Advance);
    r' := Then(SMALL, r', Advance);
  }

  /** then it is published. */
  lemma OneMoreCycle(r: Run) returns (r': Run)
    requires IsRun(SMALL, r) && r.states[|r.actions|].pc.Idle? && Shaped(SMALL, r.states[|r.actions|])
    ensures IsRun(SMALL, r') && r.states <= r'.states && |r.actions| < |r'.actions|
    ensures var s, s' := r.states[|r.actions|], r'.states[|r'.actions|];
      Shaped(SMALL, s') && s'.pc.Idle? && s'.bumps == s.bumps + 1 && s'.running
  {
    hide IsRun, Then;
    r' := Prepare(r);
    r' := Then(SMALL, r', Advance);
    r' := Then(SMALL, r', Advance);
    r' := Then(SMALL, r', Advance);
  }

  /** A run of `n` cycles. */
  lemma {:induction false} CycleMany(n: nat) returns (r: Run)
    requires n > 0
    ensures IsRun(SMALL, r) && Shaped(SMALL, r.states[|r.actions|])
    ensures var s := r.states[|r.actions|]; s.pc.Idle? && s.bumps == n && s.running
    decreases n
  {
    if n == 1 {
      var s := State([[0], [0]], [0], 0, 0, false, Idle, [[0]], [{}, {}]);
      r := Run([s], []);
    } else {
      r := CycleMany(n - 1);
    }
    hide IsRun, Shaped;
    r := OneMoreCycle(r);
  }

  /** When the 64-bit version wraps the order breaks: there is a run in which a client that has seen RUNNING is told
      CONNECTED afterwards. */
  lemma WrapShowsConnected() returns (r: Run, v: nat, w: nat)
    ensures IsRun(SMALL, r) && v <= w < |r.states|
    ensures r.states[v].bumps == TWO_64 - 1 && r.states[w].bumps == TWO_64
    ensures GetState(r, v, v) == Running && GetState(r, w, w) == Connected
  {
    r := CycleMany(TWO_64 - 1);
    v := |r.actions|;
    ghost var before := r.states[v];
    hide IsRun, Shaped;
    r := OneMoreCycle(r);
    w := |r.actions|;
    assert r.states[v] == before;
  }
}
