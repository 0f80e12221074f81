/** An uninterrupted cycle of the step machine is the sequential mirror cycle: how far the copies have come after each
    step, and what has been prepared when the image is published. */
module ShmRefinement {
  import opened Words
  import opened DataPlane
  import opened ShmProtocol

  /** The byte as the first `k` entries leave it. */
  function After(c: Config, k: nat, outputs: seq<Byte>, bus: seq<Byte>, p: nat): Byte
    requires k <= |c.entries| && |outputs| == |bus| == c.size && p < c.size
  {
    if Driven(c.entries[..k], c.size, p) then outputs[p] else bus[p]
  }

  predicate Moved(c: Config, k: nat, done: set<nat>, p: nat)
    requires k < |c.entries|
  {
    Drives(c.entries[k], c.size, p) && p - c.entries[k].offset in done
  }

  /** How far a cycle begun on `bus`, with `outputs` in the active buffer, has come. */
  ghost predicate Progress(c: Config, outputs: seq<Byte>, bus: seq<Byte>, s: State) {
    && Shaped(c, s) && |outputs| == |bus| == c.size
    && (if s.pc.Bump? then Pending(s) == outputs else s.buf[s.active] == outputs)
    && match s.pc
       case CopyIn(done) => s.domain == bus && forall p :: 0 <= p < c.size && p in done ==> Pending(s)[p] == bus[p]
       case AtEntry(k) => Leaves(c, k, outputs, bus, Pending(s)) && Leaves(c, k, outputs, bus, s.domain)
       case ToShm(k, done) =>
         Leaves(c, k, outputs, bus, s.domain) && LeavesSome(c, k, done, outputs, bus, Pending(s))
       case ToDomain(k, done) =>
         Leaves(c, k + 1, outputs, bus, Pending(s)) && LeavesSome(c, k, done, outputs, bus, s.domain)
       case Mark | Flip => Pending(s) == s.domain == Overlay(c.entries, c.size, outputs, bus)
       case Bump => s.buf[s.active] == s.domain == Overlay(c.entries, c.size, outputs, bus)
       case _ => false
  }

  /** The image as the first `k` entries leave it, */
  ghost predicate Leaves(c: Config, k: nat, outputs: seq<Byte>, bus: seq<Byte>, image: seq<Byte>)
    requires k <= |c.entries| && |outputs| == |bus| == c.size
  {
    |image| == c.size && forall p :: 0 <= p < c.size ==> image[p] == After(c, k, outputs, bus, p)
  }

  /** and with the bytes `done` of entry `k` copied. */
  ghost predicate LeavesSome(c: Config, k: nat, done: set<nat>, outputs: seq<Byte>, bus: seq<Byte>, image: seq<Byte>)
    requires k < |c.entries| && |outputs| == |bus| == c.size
  {
    && |image| == c.size
    && forall p :: 0 <= p < c.size ==>
      image[p] == if Moved(c, k, done, p) then outputs[p] else After(c, k, outputs, bus, p)
  }

  lemma OneMoreDriver(c: Config, k: nat, p: nat)
    requires k < |c.entries|
    ensures Driven(c.entries[..k + 1], c.size, p) <==> Driven(c.entries[..k], c.size, p) || Drives(c.entries[k], c.size, p)
  {
    if Driven(c.entries[..k + 1], c.size, p) {
      var j :| 0 <= j <= k && Drives(c.entries[..k + 1][j], c.size, p);
      assert j < k ==> c.entries[..k][j] == c.entries[..k + 1][j];
    }
    if Driven(c.entries[..k], c.size, p) {
      var j :| 0 <= j < k && Drives(c.entries[..k][j], c.size, p);
      assert c.entries[..k + 1][j] == c.entries[..k][j];
    }
    assert c.entries[..k + 1][k] == c.entries[k];
  }

  /** A finished copy for entry `k` is what the first `k` + 1 entries leave. */
  lemma EntryDone(c: Config, k: nat, done: set<nat>, outputs: seq<Byte>, bus: seq<Byte>, p: nat)
    requires Applies(c, k) && Complete(ByteLength(c.entries[k]), done)
    requires |outputs| == |bus| == c.size && p < c.size
    ensures After(c, k + 1, outputs, bus, p)
      == if Moved(c, k, done, p) then outputs[p] else After(c, k, outputs, bus, p)
  {
    OneMoreDriver(c, k, p);
    if Drives(c.entries[k], c.size, p) {
      var i: nat := p - c.entries[k].offset;
      assert i in done;
    }
  }

  lemma EntrySkipped(c: Config, k: nat, outputs: seq<Byte>, bus: seq<Byte>, p: nat)
    requires k < |c.entries| && !Applies(c, k)
    requires |outputs| == |bus| == c.size && p < c.size
    ensures After(c, k + 1, outputs, bus, p) == After(c, k, outputs, bus, p)
  {
    OneMoreDriver(c, k, p);
  }

  lemma MovedOneMore(c: Config, k: nat, done: set<nat>, i: nat, p: nat)
    requires Applies(c, k) && i < ByteLength(c.entries[k])
    ensures Moved(c, k, done + {i}, p) <==> Moved(c, k, done, p) || p == c.entries[k].offset + i
  {
  }

  /** One more byte of entry `k`. */
  lemma LeavesOneMore(c: Config, k: nat, done: set<nat>, outputs: seq<Byte>, bus: seq<Byte>, image: seq<Byte>, i: nat, next: seq<Byte>)
    requires Applies(c, k) && i < ByteLength(c.entries[k]) && |outputs| == |bus| == c.size
    requires LeavesSome(c, k, done, outputs, bus, image) && |next| == c.size
    requires forall p :: 0 <= p < c.size ==> next[p] == if p == c.entries[k].offset + i then outputs[p] else image[p]
    ensures LeavesSome(c, k, done + {i}, outputs, bus, next)
  {
    forall p: nat | p < c.size
      ensures next[p] == if Moved(c, k, done + {i}, p) then outputs[p] else After(c, k, outputs, bus, p)
    {
      MovedOneMore(c, k, done, i, p);
      hide Moved, After, Applies;
    }
  }

  lemma LeavesNone(c: Config, k: nat, outputs: seq<Byte>, bus: seq<Byte>, image: seq<Byte>)
    requires k < |c.entries| && |outputs| == |bus| == c.size && Leaves(c, k, outputs, bus, image)
    ensures LeavesSome(c, k, {}, outputs, bus, image)
  {
    hide After;
  }

  lemma LeavesAll(c: Config, k: nat, done: set<nat>, outputs: seq<Byte>, bus: seq<Byte>, image: seq<Byte>)
    requires Applies(c, k) && Complete(ByteLength(c.entries[k]), done) && |outputs| == |bus| == c.size
    requires LeavesSome(c, k, done, outputs, bus, image)
    ensures Leaves(c, k + 1, outputs, bus, image)
  {
    forall p: nat | p < c.size ensures image[p] == After(c, k + 1, outputs, bus, p) {
      EntryDone(c, k, done, outputs, bus, p);
      hide Moved, After, Applies, Complete;
    }
  }

  lemma CopyInProgress(c: Config, outputs: seq<Byte>, bus: seq<Byte>, s: State, i: nat)
    requires Progress(c, outputs, bus, s) && Enabled(c, s, Move(i)) && s.pc.CopyIn?
    ensures Progress(c, outputs, bus, Next(c, s, Move(i)))
  {
    var s' := Next(c, s, Move(i));
    assert s' == s.(buf := PutByte(s.buf, 1 - s.active, i, bus[i]), pc := CopyIn(s.pc.done + {i}));
    assert s'.buf[s.active] == s.buf[s.active];
    hide Next, Overlay, PutByte, Enabled, Leaves, LeavesSome;
  }

  lemma ToShmProgress(c: Config, outputs: seq<Byte>, bus: seq<Byte>, s: State, i: nat)
    requires Progress(c, outputs, bus, s) && Enabled(c, s, Move(i)) && s.pc.ToShm?
    ensures Progress(c, outputs, bus, Next(c, s, Move(i)))
  {
    var k, done, q := s.pc.k, s.pc.done, c.entries[s.pc.k].offset + i;
    var s' := Next(c, s, Move(i));
    assert s' == s.(buf := PutByte(s.buf, 1 - s.active, q, s.buf[s.active][q]), pc := ToShm(k, done + {i}));
    assert s'.buf[s.active] == outputs;
    hide Next, Overlay, PutByte, Enabled, Leaves, LeavesSome;
    LeavesOneMore(c, k, done, outputs, bus, Pending(s), i, Pending(s'));
  }

  lemma ToDomainProgress(c: Config, outputs: seq<Byte>, bus: seq<Byte>, s: State, i: nat)
    requires Progress(c, outputs, bus, s) && Enabled(c, s, Move(i)) && s.pc.ToDomain?
    ensures Progress(c, outputs, bus, Next(c, s, Move(i)))
  {
    var k, done, q := s.pc.k, s.pc.done, c.entries[s.pc.k].offset + i;
    var s' := Next(c, s, Move(i));
    assert s' == s.(domain := s.domain[q := s.buf[s.active][q]], pc := ToDomain(k, done + {i}));
    hide Next, Overlay, Enabled, Leaves, LeavesSome;
    LeavesOneMore(c, k, done, outputs, bus, s.domain, i, s'.domain);
  }

  lemma MoveProgress(c: Config, outputs: seq<Byte>, bus: seq<Byte>, s: State, i: nat)
    requires Progress(c, outputs, bus, s) && Enabled(c, s, Move(i))
    ensures Progress(c, outputs, bus, Next(c, s, Move(i)))
  {
    if s.pc.CopyIn? {
      CopyInProgress(c, outputs, bus, s, i);
    } else if s.pc.ToShm? {
      ToShmProgress(c, outputs, bus, s, i);
    } else {
      ToDomainProgress(c, outputs, bus, s, i);
    }
    hide Progress, Next;
  }

  lemma LastEntryDone(c: Config, outputs: seq<Byte>, bus: seq<Byte>, s: State)
    requires Progress(c, outputs, bus, s) && s.pc == AtEntry(|c.entries|)
    ensures Progress(c, outputs, bus, Next(c, s, Advance))
  {
    assert c.entries[..|c.entries|] == c.entries;
    assert Pending(s) == s.domain == Overlay(c.entries, c.size, outputs, bus);
    hide After, Moved, Overlay;
  }

  lemma EntryPassed(c: Config, outputs: seq<Byte>, bus: seq<Byte>, s: State, k: nat)
    requires Progress(c, outputs, bus, s) && s.pc == AtEntry(k) && k < |c.entries| && !Applies(c, k)
    ensures Progress(c, outputs, bus, Next(c, s, Advance))
  {
    forall p: nat | p < c.size ensures After(c, k + 1, outputs, bus, p) == After(c, k, outputs, bus, p) {
      EntrySkipped(c, k, outputs, bus, p);
    }
    hide After, Moved, Overlay;
    assert Leaves(c, k + 1, outputs, bus, s.domain) && Leaves(c, k + 1, outputs, bus, Pending(s));
  }

  lemma EntryBegun(c: Config, outputs: seq<Byte>, bus: seq<Byte>, s: State)
    requires Progress(c, outputs, bus, s) && s.pc.AtEntry? && Applies(c, s.pc.k)
    ensures Progress(c, outputs, bus, Next(c, s, Advance))
  {
    LeavesNone(c, s.pc.k, outputs, bus, Pending(s));
    hide Leaves, LeavesSome, Overlay;
  }

  lemma ShmCopied(c: Config, outputs: seq<Byte>, bus: seq<Byte>, s: State)
    requires Progress(c, outputs, bus, s) && s.pc.ToShm? && Enabled(c, s, Advance)
    ensures Progress(c, outputs, bus, Next(c, s, Advance))
  {
    LeavesNone(c, s.pc.k, outputs, bus, s.domain);
    LeavesAll(c, s.pc.k, s.pc.done, outputs, bus, Pending(s));
    hide Leaves, LeavesSome, Overlay;
  }

  lemma DomainCopied(c: Config, outputs: seq<Byte>, bus: seq<Byte>, s: State)
    requires Progress(c, outputs, bus, s) && s.pc.ToDomain? && Enabled(c, s, Advance)
    ensures Progress(c, outputs, bus, Next(c, s, Advance))
  {
    LeavesAll(c, s.pc.k, s.pc.done, outputs, bus, s.domain);
    hide Leaves, LeavesSome, Overlay;
  }

  lemma CopiedIn(c: Config, outputs: seq<Byte>, bus: seq<Byte>, s: State)
    requires Progress(c, outputs, bus, s) && s.pc.CopyIn? && Enabled(c, s, Advance)
    ensures Progress(c, outputs, bus, Next(c, s, Advance))
  {
    assert c.entries[..0] == [];
    hide Overlay;
  }

  lemma AdvanceProgress(c: Config, outputs: seq<Byte>, bus: seq<Byte>, s: State)
    requires Progress(c, outputs, bus, s) && Enabled(c, s, Advance) && !s.pc.Bump?
    ensures Progress(c, outputs, bus, Next(c, s, Advance))
  {
    if s.pc.CopyIn? {
      CopiedIn(c, outputs, bus, s);
    } else if s.pc.ToShm? {
      ShmCopied(c, outputs, bus, s);
    } else if s.pc.ToDomain? {
      DomainCopied(c, outputs, bus, s);
    } else if s.pc.AtEntry? {
      if s.pc.k == |c.entries| {
        LastEntryDone(c, outputs, bus, s);
      } else if Applies(c, s.pc.k) {
        EntryBegun(c, outputs, bus, s);
      } else {
        EntryPassed(c, outputs, bus, s, s.pc.k);
      }
    }
    hide Leaves, LeavesSome, Overlay;
  }

  lemma ProgressStep(c: Config, outputs: seq<Byte>, bus: seq<Byte>, s: State, a: Action)
    requires Progress(c, outputs, bus, s) && Enabled(c, s, a) && !s.pc.Bump? && (a.Move? || a.Advance?)
    ensures Progress(c, outputs, bus, Next(c, s, a))
  {
    if a.Move? {
      MoveProgress(c, outputs, bus, s, a.i);
    } else {
      AdvanceProgress(c, outputs, bus, s);
    }
  }

  lemma {:induction false} ProgressKept(c: Config, r: Run, t: nat, u: nat, bus: seq<Byte>)
    requires IsRun(c, r) && t < u < |r.states| && r.actions[t] == Begin(bus)
    requires forall w :: t < w < u ==> (r.actions[w].Move? || r.actions[w].Advance?) && !r.states[w].pc.Bump?
    ensures Shaped(c, r.states[t])
    ensures Progress(c, r.states[t].buf[r.states[t].active], bus, r.states[u])
    decreases u
  {
    assert StepAt(c, r, t) && StepAt(c, r, u - 1);
    if t + 1 < u {
      ProgressKept(c, r, t, u - 1, bus);
      assert r.actions[u - 1].Move? || r.actions[u - 1].Advance?;
      hide Progress, Next;
      ProgressStep(c, r.states[t].buf[r.states[t].active], bus, r.states[u - 1], r.actions[u - 1]);
    }
  }

  /** What the plane looks like in a state of the step machine. */
  function PlaneIn(s: State, domain: seq<Byte>): Plane
    requires s.active < 2
  {
    Plane(s.buf, domain, s.active, Version(s), 0, 0, if s.running then FLAG_RUNNING else 0, 0)
  }

  /** From the start of a cycle to its version bump, undisturbed by clients, the step machine computes exactly
      the buffers, the bus-side image, the index and the flag of the sequential cycle. */
  lemma QuietCycle(c: Config, r: Run, t: nat, u: nat, bus: seq<Byte>)
    requires IsRun(c, r) && t < u < |r.states| && r.actions[t] == Begin(bus) && 0 < c.size <= MAX_PROCESS_DATA_SIZE
    requires forall w :: t < w < u ==> (r.actions[w].Move? || r.actions[w].Advance?) && !r.states[w].pc.Bump?
    requires r.states[u].pc.Bump?
    ensures Inv(c, r.states[t]) && Inv(c, r.states[u]) && |bus| == c.size
    ensures var s := Cycle(PlaneIn(r.states[t], bus), c.entries, c.size, 0);
      && r.states[u].buf == s.buffers && r.states[u].domain == s.domain
      && r.states[u].active == s.active && IsRunning(s.status) == r.states[u].running
    ensures Latest(r.states[u]) == r.states[u].domain
  {
    InvAt(c, r, t);
    InvAt(c, r, u);
    assert StepAt(c, r, t) && StepAt(c, r, u - 1);
    ProgressKept(c, r, t, u, bus);
    ActiveInCycle(c, r, t, u);
    var s := r.states[u];
    var image := Overlay(c.entries, c.size, r.states[t].buf[r.states[t].active], bus);
    assert s.buf[s.active] == image == image + r.states[t].buf[s.active][c.size..];
    assert s.domain == image + bus[c.size..];
  }

  lemma {:induction false} ActiveInCycle(c: Config, r: Run, t: nat, u: nat)
    requires IsRun(c, r) && t < u < |r.states| && r.actions[t].Begin?
    requires forall w :: t < w < u ==> (r.actions[w].Move? || r.actions[w].Advance?) && !r.states[w].pc.Bump?
    ensures Shaped(c, r.states[u])
    ensures r.states[u].active == if r.states[u].pc.Bump? then 1 - r.states[t].active else r.states[t].active
    ensures r.states[u].pc.Bump? ==> Latest(r.states[u]) == r.states[u].buf[r.states[u].active]
    decreases u
  {
    InvAt(c, r, u);
    assert StepAt(c, r, u - 1);
    if t + 1 < u {
      ActiveInCycle(c, r, t, u - 1);
    }
  }
}
