/** Which client stores survive the daemon's double buffering, and which are lost for good. */
module ShmWrites {
  import opened Words
  import opened DataPlane
  import opened ShmProtocol

  /** The last entry that drives byte `p`: the one whose copy of `p` counts. */
  function LastDriver(entries: seq<MirrorEntry>, n: nat, p: nat): (k: int)
    ensures -1 <= k < |entries|
    ensures k >= 0 ==> Drives(entries[k], n, p)
    ensures forall j :: k < j < |entries| ==> !Drives(entries[j], n, p)
  {
    if entries == [] then -1
    else if Drives(entries[|entries| - 1], n, p) then |entries| - 1
    else LastDriver(entries[..|entries| - 1], n, p)
  }

  predicate DrivenByte(c: Config, p: nat) {
    p < c.size && Driven(c.entries, c.size, p)
  }

  predicate CopiedBy(c: Config, k: nat, done: set<nat>, p: nat)
    requires DrivenByte(c, p) && k < |c.entries|
  {
    var last := LastDriver(c.entries, c.size, p);
    k > last || (k == last && p - c.entries[k].offset in done)
  }

  /** The cycle in progress has made its last copy of `p` into the buffer it prepares. */
  predicate Copied(c: Config, s: State, p: nat)
    requires Shaped(c, s) && DrivenByte(c, p)
  {
    match s.pc
    case ToShm(k, done) => CopiedBy(c, k, done, p)
    case ToDomain(k, _) => k >= LastDriver(c.entries, c.size, p)
    case AtEntry(k) => k > LastDriver(c.entries, c.size, p)
    case Mark | Flip => true
    case _ => false
  }

  /** The cycle in progress has made its last copy of `p` into the bus-side image. */
  predicate Sent(c: Config, s: State, p: nat)
    requires Shaped(c, s) && DrivenByte(c, p)
  {
    match s.pc
    case ToDomain(k, done) => CopiedBy(c, k, done, p)
    case ToShm(k, _) => k > LastDriver(c.entries, c.size, p)
    case AtEntry(k) => k > LastDriver(c.entries, c.size, p)
    case Mark | Flip => true
    case _ => false
  }

  /** The buffer that carries output byte `p` into the future. */
  function Carrier(c: Config, s: State, p: nat): (b: nat)
    requires Shaped(c, s) && DrivenByte(c, p)
    ensures b < 2
  {
    if Copied(c, s, p) then 1 - s.active else s.active
  }

  function Carried(c: Config, s: State, p: nat): Byte
    requires Shaped(c, s) && DrivenByte(c, p)
  {
    s.buf[Carrier(c, s, p)][p]
  }

  lemma CarriedPut(c: Config, s: State, b: nat, at: nat, v: Byte, p: nat)
    requires Shaped(c, s) && Enabled(c, s, Put(b, at, v)) && DrivenByte(c, p)
    ensures Carried(c, Next(c, s, Put(b, at, v)), p) == if b == Carrier(c, s, p) && at == p then v else Carried(c, s, p)
  {
    var s' := Next(c, s, Put(b, at, v));
    assert s'.pc == s.pc && s'.active == s.active && s'.buf == PutByte(s.buf, b, at, v);
    assert Copied(c, s', p) == Copied(c, s, p);
    hide Next, PutByte, Copied, Enabled;
  }

  lemma CarriedMove(c: Config, s: State, i: nat, p: nat)
    requires Shaped(c, s) && Enabled(c, s, Move(i)) && DrivenByte(c, p)
    ensures Carried(c, Next(c, s, Move(i)), p) == Carried(c, s, p)
  {
    HasLastDriver(c, p);
    hide PutByte, LastDriver;
  }

  lemma CarriedAdvance(c: Config, s: State, p: nat)
    requires Shaped(c, s) && Enabled(c, s, Advance) && DrivenByte(c, p)
    ensures Carried(c, Next(c, s, Advance), p) == Carried(c, s, p)
  {
    HasLastDriver(c, p);
    hide LastDriver;
  }

  /** One step, exactly: the carried value of an output byte changes by a client store to its carrier and by
      nothing else. */
  lemma CarriedStep(c: Config, s: State, a: Action, p: nat)
    requires Shaped(c, s) && Enabled(c, s, a) && DrivenByte(c, p)
    ensures Carried(c, Next(c, s, a), p)
      == if a.Put? && a.b == Carrier(c, s, p) && a.p == p then a.v else Carried(c, s, p)
  {
    match a
    case Put(b, at, v) => CarriedPut(c, s, b, at, v, p);
    case Move(i) => CarriedMove(c, s, i, p);
    case Advance => CarriedAdvance(c, s, p);
    case _ =>
  }

  /** Byte `p` holds `v` wherever the cycle in progress still has to take it from, and wherever it already went. */
  predicate Held(c: Config, s: State, p: nat, v: Byte)
    requires Shaped(c, s) && DrivenByte(c, p)
  {
    s.buf[s.active][p] == v && Carried(c, s, p) == v && (Sent(c, s, p) ==> s.domain[p] == v)
  }

  lemma HeldStep(c: Config, s: State, a: Action, p: nat, v: Byte)
    requires Shaped(c, s) && Enabled(c, s, a) && DrivenByte(c, p)
    requires Held(c, s, p, v) && !(a.Put? && a.p == p)
    ensures Held(c, Next(c, s, a), p, v)
  {
    CarriedStep(c, s, a, p);
    HasLastDriver(c, p);
  }

  lemma HasLastDriver(c: Config, p: nat)
    requires DrivenByte(c, p)
    ensures 0 <= LastDriver(c.entries, c.size, p) < |c.entries|
    ensures Drives(c.entries[LastDriver(c.entries, c.size, p)], c.size, p)
  {
    var k :| 0 <= k < |c.entries| && Drives(c.entries[k], c.size, p);
  }

  // ---- Over whole runs ----

  /** No client stores to byte `p` of either buffer in steps `t` .. `u` - 1. */
  predicate NoStore(r: Run, p: nat, t: nat, u: nat)
    requires u <= |r.actions|
  {
    forall w :: t <= w < u ==> !(r.actions[w].Put? && r.actions[w].p == p)
  }

  lemma ShapedAt(c: Config, r: Run, t: nat)
    requires IsRun(c, r) && t < |r.states|
    ensures Shaped(c, r.states[t])
  {
    InvAt(c, r, t);
  }

  lemma {:induction false} CarriedKept(c: Config, r: Run, p: nat, t: nat, u: nat)
    requires IsRun(c, r) && t <= u < |r.states| && DrivenByte(c, p) && NoStore(r, p, t, u)
    ensures Shaped(c, r.states[t]) && Shaped(c, r.states[u])
    ensures Carried(c, r.states[u], p) == Carried(c, r.states[t], p)
    decreases u
  {
    ShapedAt(c, r, t);
    ShapedAt(c, r, u);
    if t < u {
      CarriedKept(c, r, p, t, u - 1);
      assert StepAt(c, r, u - 1);
      hide Carried, Next, Shaped, Enabled;
      CarriedStep(c, r.states[u - 1], r.actions[u - 1], p);
    }
  }

  lemma {:induction false} HeldKept(c: Config, r: Run, p: nat, v: Byte, t: nat, u: nat)
    requires IsRun(c, r) && t <= u < |r.states| && DrivenByte(c, p) && NoStore(r, p, t, u)
    requires Shaped(c, r.states[t]) && Held(c, r.states[t], p, v)
    ensures Shaped(c, r.states[u]) && Held(c, r.states[u], p, v)
    decreases u
  {
    ShapedAt(c, r, u);
    if t < u {
      HeldKept(c, r, p, v, t, u - 1);
      assert StepAt(c, r, u - 1);
      hide Held, Next, Shaped, Enabled;
      HeldStep(c, r.states[u - 1], r.actions[u - 1], p, v);
    }
  }

  /** Which stores survive, exactly: with no later store to the same byte, every image published afterwards
      shows the stored value if and only if the store hit the carrier (or changed nothing). */
  lemma SurvivesIff(c: Config, r: Run, t: nat, u: nat, b: nat, p: nat, v: Byte)
    requires IsRun(c, r) && t < u < |r.states| && DrivenByte(c, p)
    requires r.actions[t] == Put(b, p, v) && NoStore(r, p, t + 1, u)
    requires r.states[u].pc == Flip
    ensures Shaped(c, r.states[t]) && Shaped(c, r.states[u])
    ensures Pending(r.states[u])[p] == v
      <==> (b == Carrier(c, r.states[t], p) || Carried(c, r.states[t], p) == v)
    ensures b != Carrier(c, r.states[t], p) ==> Pending(r.states[u])[p] == Carried(c, r.states[t], p)
  {
    InvAt(c, r, t);
    assert StepAt(c, r, t);
    CarriedStep(c, r.states[t], r.actions[t], p);
    CarriedKept(c, r, p, t + 1, u);
  }

  /** A store to the active buffer before the cycle in progress made its last copy of the byte is in every
      later image, and in the bus-side image of every later cycle including this one. */
  lemma WriteSurvives(c: Config, r: Run, t: nat, u: nat, p: nat, v: Byte)
    requires IsRun(c, r) && t < u < |r.states| && DrivenByte(c, p)
    requires Shaped(c, r.states[t]) && !Copied(c, r.states[t], p)
    requires r.actions[t] == Put(r.states[t].active, p, v) && NoStore(r, p, t + 1, u)
    ensures Shaped(c, r.states[u])
    ensures r.states[u].buf[r.states[u].active][p] == v
    ensures r.states[u].pc == Flip ==> Pending(r.states[u])[p] == v && r.states[u].domain[p] == v
  {
    InvAt(c, r, t + 1);
    assert StepAt(c, r, t);
    HasLastDriver(c, p);
    HeldKept(c, r, p, v, t + 1, u);
  }

  /** The daemon is between a publish and the next overlay loop. */
  predicate BeforeOverlay(s: State) {
    s.pc.Bump? || s.pc.Idle? || s.pc.CopyIn?
  }

  /** A client write as the library performs it: the buffer index loaded at `t0`, then one store per byte (in any
      order) at the instants `at`, all before `t1`. */
  predicate IsWrite(r: Run, t0: nat, t1: nat, at: seq<nat>, off: nat, bytes: seq<Byte>) {
    && |at| == |bytes| && t0 <= t1 < |r.states| && t1 <= |r.actions|
    && forall j :: 0 <= j < |at| ==>
      t0 <= at[j] < t1 && r.actions[at[j]] == Put(r.states[t0].active, off + j, bytes[j])
  }

  lemma {:induction false} ActiveKept(c: Config, r: Run, t: nat, u: nat)
    requires IsRun(c, r) && t <= u < |r.states|
    requires forall w :: t <= w <= u ==> BeforeOverlay(r.states[w])
    ensures r.states[u].active == r.states[t].active
    decreases u
  {
    if t < u {
      ActiveKept(c, r, t, u - 1);
      assert BeforeOverlay(r.states[u - 1]);
      assert StepAt(c, r, u - 1);
    }
  }

  /** A write whose index load and byte stores all fall between one publish and the next overlay loop is whole in
      every image and every bus-side image from the next publish on, until another store to one of its bytes. */
  lemma ClientWriteSurvives(c: Config, r: Run, t0: nat, t1: nat, at: seq<nat>, off: nat, bytes: seq<Byte>, u: nat)
    requires IsRun(c, r) && t1 <= u < |r.states| && IsWrite(r, t0, t1, at, off, bytes)
    requires forall w :: t0 <= w <= t1 ==> BeforeOverlay(r.states[w])
    requires forall j :: 0 <= j < |bytes| ==> DrivenByte(c, off + j) && NoStore(r, off + j, at[j] + 1, u)
    requires r.states[u].pc == Flip && off + |bytes| <= c.size
    ensures Shaped(c, r.states[u])
    ensures Pending(r.states[u])[off..off + |bytes|] == bytes
    ensures r.states[u].domain[off..off + |bytes|] == bytes
  {
    InvAt(c, r, u);
    forall j | 0 <= j < |bytes|
      ensures Pending(r.states[u])[off + j] == bytes[j] && r.states[u].domain[off + j] == bytes[j]
    {
      InvAt(c, r, at[j]);
      ActiveKept(c, r, t0, at[j]);
      assert BeforeOverlay(r.states[at[j]]);
      WriteSurvives(c, r, at[j], u, off + j, bytes[j]);
    }
  }

  /** A write whose index load and stores are separated by a publish is lost for good: every later image keeps
      the value the byte had before. */
  lemma SplitWriteIsLost(c: Config, r: Run, t0: nat, t: nat, u: nat, p: nat, v: Byte)
    requires IsRun(c, r) && t0 < t < u < |r.states| && DrivenByte(c, p)
    requires BeforeOverlay(r.states[t]) && r.states[t].active != r.states[t0].active
    requires r.actions[t] == Put(r.states[t0].active, p, v) && NoStore(r, p, t + 1, u)
    requires r.states[u].pc == Flip
    ensures Shaped(c, r.states[t]) && Shaped(c, r.states[u])
    ensures Pending(r.states[u])[p] == r.states[t].buf[r.states[t].active][p]
  {
    InvAt(c, r, t);
    InvAt(c, r, t0);
    SurvivesIff(c, r, t, u, r.states[t0].active, p, v);
  }

  // ---- A run that loses a write ----

  /** One output byte at offset 0. */
  const ONE_OUTPUT: Config := Config([MirrorEntry(0, 0x7000, 1, 8, "RxPDO", 0)], 1)

  /** The first cycle over that byte when bus and buffers hold zeros, up to the point of flipping. */
  function FirstCycle(): seq<(Pc, Action)> {
    [(Idle, Begin([0])), (CopyIn({}), Move(0)), (CopyIn({0}), Advance), (AtEntry(0), Advance),
     (ToShm(0, {}), Move(0)), (ToShm(0, {0}), Advance), (ToDomain(0, {}), Move(0)), (ToDomain(0, {0}), Advance),
     (AtEntry(1), Advance), (Mark, Advance), (Flip, Advance)]
  }

  function Zeros(pc: Pc): State {
    if pc == Bump then State([[0], [0]], [0], 1, 0, true, Bump, [[0], [0]], [{}, {}])
    else State([[0], [0]], [0], 0, 0, pc == Flip, pc, [[0]], [{}, {}])
  }

  predicate GoesTo(pc: Pc, a: Action, pc': Pc) {
    && Shaped(ONE_OUTPUT, Zeros(pc)) && Enabled(ONE_OUTPUT, Zeros(pc), a)
    && Next(ONE_OUTPUT, Zeros(pc), a) == Zeros(pc')
  }

  lemma CopyInMove()
    ensures GoesTo(CopyIn({}), Move(0), CopyIn({0}))
  {
    ZerosShaped(CopyIn({}));
    PutZero();
    assert {} + {0} == {0};
    hide Applies, Shaped, PutByte, ByteLength;
  }

  lemma CopyInSteps()
    ensures GoesTo(Idle, Begin([0]), CopyIn({})) && GoesTo(CopyIn({}), Move(0), CopyIn({0}))
    ensures GoesTo(CopyIn({0}), Advance, AtEntry(0))
  {
    CopyInMove();
  }

  lemma OneApplies()
    ensures Applies(ONE_OUTPUT, 0) && ByteLength(ONE_OUTPUT.entries[0]) == 1 && ONE_OUTPUT.entries[0].offset == 0
  {
  }

  lemma ZerosShaped(pc: Pc)
    requires pc.ToShm? || pc.ToDomain? ==> pc.k == 0
    requires pc.AtEntry? ==> pc.k <= 1
    ensures Shaped(ONE_OUTPUT, Zeros(pc))
  {
    OneApplies();
    hide Applies;
  }

  lemma OverlayBegins()
    ensures GoesTo(AtEntry(0), Advance, ToShm(0, {}))
  {
    OneApplies();
    ZerosShaped(AtEntry(0));
    hide Applies, Shaped;
  }

  lemma PutZero()
    ensures PutByte([[0], [0]], 1, 0, 0) == [[0], [0]]
  {
    var r := PutByte([[0], [0]], 1, 0, 0);
    assert r[0] == [0] && r[1] == [0];
  }

  lemma OverlayShmMove()
    ensures GoesTo(ToShm(0, {}), Move(0), ToShm(0, {0}))
  {
    OneApplies();
    ZerosShaped(ToShm(0, {}));
    PutZero();
    assert {} + {0} == {0};
    hide Applies, Shaped, PutByte, ByteLength;
  }

  lemma OverlayTurns()
    ensures GoesTo(ToShm(0, {0}), Advance, ToDomain(0, {}))
  {
    OneApplies();
    ZerosShaped(ToShm(0, {0}));
    hide Applies, Shaped, ByteLength;
  }

  lemma OverlayDomainMove()
    ensures GoesTo(ToDomain(0, {}), Move(0), ToDomain(0, {0}))
  {
    OneApplies();
    ZerosShaped(ToDomain(0, {}));
    assert {} + {0} == {0} && [0][0 := 0] == [0];
    hide Applies, Shaped, ByteLength;
  }

  lemma OverlaySteps()
    ensures GoesTo(AtEntry(0), Advance, ToShm(0, {})) && GoesTo(ToShm(0, {}), Move(0), ToShm(0, {0}))
    ensures GoesTo(ToShm(0, {0}), Advance, ToDomain(0, {})) && GoesTo(ToDomain(0, {}), Move(0), ToDomain(0, {0}))
    ensures GoesTo(ToDomain(0, {0}), Advance, AtEntry(1))
  {
    OverlayBegins();
    OverlayShmMove();
    OverlayTurns();
    OverlayDomainMove();
  }

  lemma PublishSteps()
    ensures GoesTo(AtEntry(1), Advance, Mark) && GoesTo(Mark, Advance, Flip) && GoesTo(Flip, Advance, Bump)
  {
  }

  lemma FirstCycleStep(i: nat)
    requires i < 11
    ensures GoesTo(FirstCycle()[i].0, FirstCycle()[i].1, if i == 10 then Bump else FirstCycle()[i + 1].0)
  {
    CopyInSteps();
    OverlaySteps();
    PublishSteps();
    hide GoesTo;
  }

  lemma FirstCycleRun() returns (r: Run)
    ensures IsRun(ONE_OUTPUT, r) && |r.actions| == 11
    ensures r.states[10] == Zeros(Flip) && r.states[11] == Zeros(Bump)
  {
    var steps := FirstCycle();
    var states := seq(11, i requires 0 <= i < 11 => Zeros(steps[i].0)) + [Zeros(Bump)];
    var actions := seq(11, i requires 0 <= i < 11 => steps[i].1);
    r := Run(states, actions);
    forall i | 0 <= i < 11 ensures StepAt(ONE_OUTPUT, r, i) {
      FirstCycleStep(i);
    }
  }

  /** `r'` goes on from `r` with no store to byte 0 up to `u`, where it is about to publish. */
  ghost predicate GoesOn(r: Run, r': Run, u: nat) {
    && IsRun(ONE_OUTPUT, r') && r.states <= r'.states && r.actions <= r'.actions && |r.actions| <= u < |r'.states|
    && NoStore(r', 0, |r.actions|, u) && r'.states[u].pc == Flip
  }

  /** The index is loaded just before the flip and the byte stored just after it. Nobody stores again, and yet
      no continuation ever shows the 7. */
  lemma LostWriteRun() returns (r: Run)
    ensures IsRun(ONE_OUTPUT, r) && |r.actions| == 12 && DrivenByte(ONE_OUTPUT, 0)
    ensures r.states[10].active == 0 && r.actions[11] == Put(0, 0, 7)
    ensures forall r': Run, u: nat :: GoesOn(r, r', u) ==> Shaped(ONE_OUTPUT, r'.states[u]) && Pending(r'.states[u]) == [0]
  {
    var c := ONE_OUTPUT;
    assert Drives(c.entries[0], 1, 0);
    var first := FirstCycleRun();
    ZerosShaped(Bump);
    hide Next, Shaped, Init, StepAt, Then;
    r := Then(c, first, Put(0, 0, 7));
    forall r': Run, u: nat | GoesOn(r, r', u) ensures Shaped(c, r'.states[u]) && Pending(r'.states[u]) == [0] {
      assert r'.actions[11] == Put(0, 0, 7) && r'.states[11] == Zeros(Bump) && r'.states[10] == Zeros(Flip);
      SplitWriteIsLost(c, r', 10, 11, u, 0, 7);
      ShapedAt(c, r', u);
      OneByte(r'.states[u]);
    }
  }

  lemma OneByte(s: State)
    requires Shaped(ONE_OUTPUT, s)
    ensures |Pending(s)| == 1
  {
  }
}
