/** The shared segment as a concurrent protocol: one memory access at a time, in any interleaving. */
module ShmProtocol {
  // Memory is sequentially consistent: every load and store takes effect at once, in one order for everybody.

  import opened Words
  import opened DataPlane

  /** The entry table and the number of bytes the daemon mirrors. */
  datatype Config = Config(entries: seq<MirrorEntry>, size: nat)

  /** What the daemon does next. A `done` set holds the bytes an unfinished memcpy has moved, in any order. */
  datatype Pc =
    | Idle
    | CopyIn(done: set<nat>)
    | AtEntry(k: nat)
    | ToShm(k: nat, done: set<nat>)
    | ToDomain(k: nat, done: set<nat>)
    | Mark
    | Flip
    | Bump
    | StopBump
    | Stopped

  /** `bumps` counts the version stores. `images` and `dirty` are history: the contents of each buffer at the
      moment it became active, and the bytes clients stored to each buffer since it last became active. */
  datatype State = State(
    buf: seq<seq<Byte>>, domain: seq<Byte>, active: nat, bumps: nat, running: bool, pc: Pc,
    images: seq<seq<Byte>>, dirty: seq<set<nat>>)

  /** `Begin` starts a cycle on fresh bus data; `Move` stores one byte of the memcpy in progress;
      `Advance` finishes a memcpy or performs the next header access; `Put` is one client byte store. */
  datatype Action = Begin(bus: seq<Byte>) | Move(i: nat) | Advance | Stop | Put(b: nat, p: nat, v: Byte)

  predicate Applies(c: Config, k: nat) {
    k < |c.entries| && IsOutput(c.entries[k]) && End(c.entries[k]) <= c.size
  }

  predicate Complete(n: nat, done: set<nat>) {
    forall i :: 0 <= i < n ==> i in done
  }

  predicate Enabled(c: Config, s: State, a: Action) {
    match a
    case Begin(bus) => s.pc.Idle? && |bus| == c.size
    case Stop => s.pc.Idle?
    case Put(b, p, _) => b < 2 && p < c.size
    case Move(i) =>
      (match s.pc
       case CopyIn(done) => i < c.size && i !in done
       case ToShm(k, done) => Applies(c, k) && i < ByteLength(c.entries[k]) && i !in done
       case ToDomain(k, done) => Applies(c, k) && i < ByteLength(c.entries[k]) && i !in done
       case _ => false)
    case Advance =>
      (match s.pc
       case CopyIn(done) => Complete(c.size, done)
       case ToShm(k, done) => Applies(c, k) && Complete(ByteLength(c.entries[k]), done)
       case ToDomain(k, done) => Applies(c, k) && Complete(ByteLength(c.entries[k]), done)
       case Idle | Stopped => false
       case _ => true)
  }

  /** Well-shaped states; everything below starts from these. */
  predicate Shaped(c: Config, s: State) {
    && |s.buf| == 2 && |s.buf[0]| == c.size && |s.buf[1]| == c.size && |s.domain| == c.size
    && s.active < 2 && |s.dirty| == 2
    && |s.images| >= 1 && (forall k :: 0 <= k < |s.images| ==> |s.images[k]| == c.size)
    && (s.pc.ToShm? || s.pc.ToDomain? ==> Applies(c, s.pc.k))
    && (s.pc.AtEntry? ==> s.pc.k <= |c.entries|)
  }

  function PutByte(buf: seq<seq<Byte>>, b: nat, p: nat, v: Byte): (r: seq<seq<Byte>>)
    requires b < |buf| && p < |buf[b]|
    ensures |r| == |buf|
    ensures forall b', p' :: 0 <= b' < |buf| && 0 <= p' < |buf[b']| ==>
      |r[b']| == |buf[b']| && r[b'][p'] == if b' == b && p' == p then v else buf[b'][p']
  {
    var row: seq<Byte> := buf[b][p := v];
    buf[b := row]
  }

  function Next(c: Config, s: State, a: Action): (s': State)
    requires Shaped(c, s) && Enabled(c, s, a)
    ensures Shaped(c, s')
  {
    match a
    case Begin(bus) => s.(domain := bus, pc := CopyIn({}))
    case Stop => s.(running := false, pc := StopBump)
    case Put(b, p, v) => s.(buf := PutByte(s.buf, b, p, v), dirty := s.dirty[b := s.dirty[b] + {p}])
    case Move(i) => MoveByte(c, s, i)
    case Advance =>
      match s.pc
      case CopyIn(_) => s.(pc := AtEntry(0))
      case AtEntry(k) =>
        s.(pc := if k == |c.entries| then Mark else if Applies(c, k) then ToShm(k, {}) else AtEntry(k + 1))
      case ToShm(k, _) => s.(pc := ToDomain(k, {}))
      case ToDomain(k, _) => s.(pc := AtEntry(k + 1))
      case Mark => s.(running := true, pc := Flip)
      case Flip =>
        var b := 1 - s.active;
        s.(active := b, pc := Bump, images := s.images + [s.buf[b]], dirty := s.dirty[b := {}])
      case Bump => s.(bumps := s.bumps + 1, pc := Idle)
      case StopBump => s.(bumps := s.bumps + 1, pc := Stopped)
  }

  function MoveByte(c: Config, s: State, i: nat): State
    requires Shaped(c, s) && Enabled(c, s, Move(i))
  {
    var b := 1 - s.active;
    match s.pc
    case CopyIn(done) => s.(buf := PutByte(s.buf, b, i, s.domain[i]), pc := CopyIn(done + {i}))
    case ToShm(k, done) =>
      var p := c.entries[k].offset + i;
      s.(buf := PutByte(s.buf, b, p, s.buf[s.active][p]), pc := ToShm(k, done + {i}))
    case ToDomain(k, done) =>
      var p := c.entries[k].offset + i;
      s.(domain := s.domain[p := s.buf[s.active][p]], pc := ToDomain(k, done + {i}))
  }

  predicate Init(c: Config, s: State) {
    && Shaped(c, s) && s.active == 0 && s.bumps == 0 && !s.running && s.pc == Idle
    && s.images == [s.buf[0]] && s.dirty == [{}, {}]
  }

  datatype Run = Run(states: seq<State>, actions: seq<Action>)

  predicate StepAt(c: Config, r: Run, t: nat)
    requires t < |r.actions| && |r.states| == |r.actions| + 1
  {
    && Shaped(c, r.states[t]) && Enabled(c, r.states[t], r.actions[t])
    && r.states[t + 1] == Next(c, r.states[t], r.actions[t])
  }

  predicate IsRun(c: Config, r: Run) {
    && |r.states| == |r.actions| + 1 && Init(c, r.states[0])
    && forall t :: 0 <= t < |r.actions| ==> StepAt(c, r, t)
  }

  /** The version word clients load. */
  function Version(s: State): UInt64 {
    s.bumps % TWO_64
  }

  /** `r` followed by one more step. */
  function Then(c: Config, r: Run, a: Action): (r': Run)
    requires IsRun(c, r) && Shaped(c, r.states[|r.actions|]) && Enabled(c, r.states[|r.actions|], a)
    ensures IsRun(c, r') && r.states <= r'.states && r'.actions == r.actions + [a]
    ensures r'.states[|r'.actions|] == Next(c, r.states[|r.actions|], a)
  {
    var r' := Run(r.states + [Next(c, r.states[|r.actions|], a)], r.actions + [a]);
    assert forall t :: 0 <= t < |r.actions| ==> StepAt(c, r, t) && StepAt(c, r', t);
    r'
  }

  /** The image being prepared, to be published next. */
  function Pending(s: State): seq<Byte>
    requires |s.buf| == 2 && s.active < 2
  {
    s.buf[1 - s.active]
  }

  // ---- What every step keeps ----

  function Latest(s: State): seq<Byte>
    requires |s.images| >= 1
  {
    s.images[|s.images| - 1]
  }

  ghost predicate Inv(c: Config, s: State) {
    && Shaped(c, s)
    && |s.images| == s.bumps + (if s.pc.Bump? then 2 else if s.pc.Stopped? then 0 else 1)
    && (forall p :: 0 <= p < c.size && p !in s.dirty[s.active] ==> s.buf[s.active][p] == Latest(s)[p])
    && (s.pc.StopBump? || s.pc.Stopped? ==> !s.running)
    && (s.pc.Flip? || s.pc.Bump? || (s.bumps > 0 && !s.pc.StopBump? && !s.pc.Stopped?) ==> s.running)
  }

  lemma InvStep(c: Config, s: State, a: Action)
    requires Inv(c, s) && Enabled(c, s, a)
    ensures Inv(c, Next(c, s, a))
  {
  }

  lemma {:induction false} InvAt(c: Config, r: Run, t: nat)
    requires IsRun(c, r) && t < |r.states|
    ensures Inv(c, r.states[t])
  {
    if t == 0 {
    } else {
      InvAt(c, r, t - 1);
      assert StepAt(c, r, t - 1);
      InvStep(c, r.states[t - 1], r.actions[t - 1]);
    }
  }

  lemma {:induction false} BumpsGrow(c: Config, r: Run, t: nat, u: nat)
    requires IsRun(c, r) && t <= u < |r.states|
    ensures r.states[t].bumps <= r.states[u].bumps
    ensures |r.states[t].images| <= |r.states[u].images|
    decreases u - t
  {
    if t < u {
      assert StepAt(c, r, t);
      BumpsGrow(c, r, t + 1, u);
    }
  }

  // ---- Snapshot reads ----

  /** Seen from `s0`: its active buffer still holds the image it held, wherever no client has stored since it
      was published, and at most one flip has happened. */
  ghost predicate Quiet(c: Config, s0: State, s: State) {
    && Inv(c, s0) && Inv(c, s)
    && (|| (s.active == s0.active && |s.images| == |s0.images|)
        || (s.active == 1 - s0.active && s.pc == Bump && |s.images| == |s0.images| + 1))
    && (forall p :: 0 <= p < c.size && p !in s.dirty[s0.active] ==> s.buf[s0.active][p] == Latest(s0)[p])
  }

  lemma QuietStep(c: Config, s0: State, s: State, a: Action)
    requires Quiet(c, s0, s) && Enabled(c, s, a) && s.bumps == Next(c, s, a).bumps
    ensures Quiet(c, s0, Next(c, s, a))
  {
    InvStep(c, s, a);
  }

  /** While the version word stands still, the buffer a reader picked is never written by the daemon. */
  lemma {:induction false} QuietWindow(c: Config, r: Run, t: nat, u: nat)
    requires IsRun(c, r) && t <= u < |r.states|
    requires r.states[t].bumps == r.states[u].bumps
    ensures Quiet(c, r.states[t], r.states[u])
    decreases u
  {
    InvAt(c, r, t);
    if t < u {
      BumpsGrow(c, r, t, u - 1);
      BumpsGrow(c, r, u - 1, u);
      QuietWindow(c, r, t, u - 1);
      assert StepAt(c, r, u - 1);
      hide Quiet, Next, Inv;
      QuietStep(c, r.states[t], r.states[u - 1], r.actions[u - 1]);
    }
  }

  /** One pass of the double-read loop: the instants of its loads. The bytes are loaded in any order between
      the load of the buffer index and the second load of the version. */
  datatype Attempt = Attempt(v1At: nat, activeAt: nat, bytesAt: seq<nat>, v2At: nat)

  predicate Timed(r: Run, a: Attempt) {
    && a.v1At <= a.activeAt <= a.v2At < |r.states|
    && forall j :: 0 <= j < |a.bytesAt| ==> a.activeAt <= a.bytesAt[j] <= a.v2At
  }

  predicate Accepted(r: Run, a: Attempt)
    requires Timed(r, a)
  {
    Version(r.states[a.v1At]) == Version(r.states[a.v2At])
  }

  function Picked(r: Run, a: Attempt): nat
    requires Timed(r, a)
  {
    r.states[a.activeAt].active
  }

  function Loaded(c: Config, r: Run, a: Attempt, off: nat): (bytes: seq<Byte>)
    requires IsRun(c, r) && Timed(r, a) && off + |a.bytesAt| <= c.size
    ensures |bytes| == |a.bytesAt|
  {
    seq(|a.bytesAt|, j requires 0 <= j < |a.bytesAt| =>
      InvAt(c, r, a.activeAt);
      InvAt(c, r, a.bytesAt[j]);
      r.states[a.bytesAt[j]].buf[Picked(r, a)][off + j])
  }

  /** No byte of the range was a client's own store at the moment it was loaded. */
  predicate Untouched(r: Run, a: Attempt, off: nat)
    requires Timed(r, a)
  {
    forall j :: 0 <= j < |a.bytesAt| ==>
      var s := r.states[a.bytesAt[j]];
      Picked(r, a) < |s.dirty| && off + j !in s.dirty[Picked(r, a)]
  }

  /** `bytes` are those at `off` of one image published by instant `s2`: number v1 or v1 + 1 for a pass begun
      while the daemon runs, and the last one for a pass begun after it stopped. */
  ghost predicate OneImage(s1: State, s2: State, off: nat, bytes: seq<Byte>) {
    exists k :: 0 <= k < |s2.images| && off + |bytes| <= |s2.images[k]|
      && bytes == s2.images[k][off..off + |bytes|]
      && if s1.pc.Stopped? then k == s1.bumps - 1 else s1.bumps <= k <= s1.bumps + 1
  }

  lemma SnapshotRead(c: Config, r: Run, a: Attempt, off: nat)
    requires IsRun(c, r) && Timed(r, a) && off + |a.bytesAt| <= c.size
    requires Accepted(r, a) && r.states[a.v2At].bumps - r.states[a.v1At].bumps < TWO_64
    requires Untouched(r, a, off)
    ensures OneImage(r.states[a.v1At], r.states[a.v2At], off, Loaded(c, r, a, off))
  {
    SameVersion(c, r, a.v1At, a.v2At);
    BumpsGrow(c, r, a.v1At, a.activeAt);
    BumpsGrow(c, r, a.activeAt, a.v2At);
    QuietWindow(c, r, a.activeAt, a.v2At);
    ImagesKept(c, r, a.activeAt, a.v2At);
    StaysStopped(c, r, a.v1At, a.activeAt);
    var s0, s2 := r.states[a.activeAt], r.states[a.v2At];
    var k := |s0.images| - 1;
    forall j | 0 <= j < |a.bytesAt|
      ensures Loaded(c, r, a, off)[j] == s2.images[k][off + j]
    {
      var t := a.bytesAt[j];
      BumpsGrow(c, r, a.activeAt, t);
      BumpsGrow(c, r, t, a.v2At);
      QuietWindow(c, r, a.activeAt, t);
      assert r.states[t].buf[s0.active][off + j] == Latest(s0)[off + j];
    }
    assert |s2.images[k]| == c.size;
    assert Loaded(c, r, a, off) == s2.images[k][off..off + |a.bytesAt|];
  }

  lemma SameVersion(c: Config, r: Run, t: nat, u: nat)
    requires IsRun(c, r) && t <= u < |r.states|
    requires r.states[u].bumps - r.states[t].bumps < TWO_64
    ensures Version(r.states[t]) == Version(r.states[u]) <==> r.states[t].bumps == r.states[u].bumps
  {
    BumpsGrow(c, r, t, u);
  }

  lemma {:induction false} ImagesKept(c: Config, r: Run, t: nat, u: nat)
    requires IsRun(c, r) && t <= u < |r.states|
    ensures r.states[t].images <= r.states[u].images
    decreases u - t
  {
    if t < u {
      assert StepAt(c, r, t);
      assert r.states[t].images <= r.states[t + 1].images;
      ImagesKept(c, r, t + 1, u);
    }
  }

  lemma {:induction false} StaysStopped(c: Config, r: Run, t: nat, u: nat)
    requires IsRun(c, r) && t <= u < |r.states|
    ensures r.states[t].pc.Stopped? ==> r.states[u].pc.Stopped?
    ensures r.states[t].pc.StopBump? ==> r.states[u].pc.StopBump? || r.states[u].pc.Stopped?
    ensures r.states[u].pc.Stopped? && !r.states[t].pc.Stopped? ==> r.states[t].bumps < r.states[u].bumps
    decreases u - t
  {
    if t < u {
      assert StepAt(c, r, t);
      BumpsGrow(c, r, t, t + 1);
      BumpsGrow(c, r, t + 1, u);
      StaysStopped(c, r, t + 1, u);
    }
  }

  /** The whole of read_raw_at past its bounds check: up to four passes, the first accepted one wins. */
  function ReadResult(c: Config, r: Run, tries: seq<Attempt>, off: nat, len: nat): Option<seq<Byte>>
    requires IsRun(c, r) && off + len <= c.size
    requires forall i :: 0 <= i < |tries| ==> Timed(r, tries[i]) && |tries[i].bytesAt| == len
  {
    if tries == [] then None
    else if Accepted(r, tries[0]) then Some(Loaded(c, r, tries[0], off))
    else ReadResult(c, r, tries[1..], off, len)
  }

  predicate InTurn(r: Run, tries: seq<Attempt>) {
    && (forall i :: 0 <= i < |tries| ==> Timed(r, tries[i]))
    && (forall i, j :: 0 <= i < j < |tries| ==> tries[i].v2At <= tries[j].v1At)
  }

  /** A call that reports "version changed" saw at least one version bump in each of its passes. */
  lemma {:induction false} FailedRead(c: Config, r: Run, tries: seq<Attempt>, off: nat, len: nat)
    requires IsRun(c, r) && off + len <= c.size && |tries| > 0 && InTurn(r, tries)
    requires forall i :: 0 <= i < |tries| ==> |tries[i].bytesAt| == len
    requires ReadResult(c, r, tries, off, len).None?
    ensures r.states[tries[|tries| - 1].v2At].bumps >= r.states[tries[0].v1At].bumps + |tries|
  {
    BumpsGrow(c, r, tries[0].v1At, tries[0].v2At);
    assert r.states[tries[0].v1At].bumps != r.states[tries[0].v2At].bumps;
    if |tries| > 1 {
      FailedRead(c, r, tries[1..], off, len);
      BumpsGrow(c, r, tries[0].v2At, tries[1].v1At);
    }
  }

  /** Pass `i` is the one a call returns from: the first accepted one. */
  predicate Wins(r: Run, tries: seq<Attempt>, i: nat)
    requires i < |tries| && forall j :: 0 <= j < |tries| ==> Timed(r, tries[j])
  {
    Accepted(r, tries[i]) && forall j :: 0 <= j < i ==> !Accepted(r, tries[j])
  }

  /** read_raw_at in any interleaving in which fewer than 2^64 bumps fall into the pass it returns from: success is one
      published image, failure took at least four bumps. */
  lemma ReadRawAt(c: Config, r: Run, tries: seq<Attempt>, off: nat, len: nat)
    requires IsRun(c, r) && off + len <= c.size && |tries| == 4 && InTurn(r, tries)
    requires forall i :: 0 <= i < |tries| ==> |tries[i].bytesAt| == len
    requires forall i :: 0 <= i < |tries| && Wins(r, tries, i) ==>
      Untouched(r, tries[i], off) && r.states[tries[i].v2At].bumps - r.states[tries[i].v1At].bumps < TWO_64
    ensures match ReadResult(c, r, tries, off, len)
      case None => r.states[tries[3].v2At].bumps >= r.states[tries[0].v1At].bumps + 4
      case Some(bytes) =>
        |bytes| == len
        && exists i :: 0 <= i < 4 && OneImage(r.states[tries[i].v1At], r.states[tries[i].v2At], off, bytes)
  {
    if ReadResult(c, r, tries, off, len).None? {
      FailedRead(c, r, tries, off, len);
    } else {
      var i := FirstAccepted(c, r, tries, off, len);
      SnapshotRead(c, r, tries[i], off);
    }
  }

  lemma {:induction false} FirstAccepted(c: Config, r: Run, tries: seq<Attempt>, off: nat, len: nat) returns (i: nat)
    requires IsRun(c, r) && off + len <= c.size
    requires forall i :: 0 <= i < |tries| ==> Timed(r, tries[i]) && |tries[i].bytesAt| == len
    requires ReadResult(c, r, tries, off, len).Some?
    ensures i < |tries| && Wins(r, tries, i)
    ensures ReadResult(c, r, tries, off, len).value == Loaded(c, r, tries[i], off)
  {
    if Accepted(r, tries[0]) {
      i := 0;
    } else {
      var k := FirstAccepted(c, r, tries[1..], off, len);
      i := k + 1;
      assert forall j :: 0 < j <= k ==> tries[j] == tries[1..][j - 1];
    }
  }
}
