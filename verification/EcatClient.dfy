/** The studio's connection to the daemon: fields updated by each signal, call and timer tick. */
module EcatClient {
  import opened Words
  import opened Text
  import opened Json
  import opened Framing
  import R = Requests
  import F = RequestFates

  /** What parsing a line as JSON gives: no object, or the fields of a response. */
  datatype Parsed = Malformed | Response(id: string, ok: bool, result: seq<Member>, message: string, code: int)

  /** One line, as an event. */
  function LineEvent(p: Parsed, now: int): (e: R.Event)
    ensures e.BadLine? || (e.Line? && (e.reply.Answered? || e.reply.Rejected?))
  {
    if p.Malformed? then R.BadLine
    else R.Line(p.id, if p.ok then R.Answered(p.result) else R.Rejected(p.message, p.code), now)
  }

  /** The lines of a read, handled one after the other. */
  function HandleAll(s: R.State, lines: seq<string>, parse: string -> Parsed, now: int): R.State
    decreases |lines|
  {
    if lines == [] then s else HandleAll(R.Step(s, LineEvent(parse(lines[0]), now)), lines[1..], parse, now)
  }

  lemma {:induction false} HandleAllInParts(s: R.State, a: seq<string>, b: seq<string>, parse: string -> Parsed, now: int)
    ensures HandleAll(s, a + b, parse, now) == HandleAll(HandleAll(s, a, parse, now), b, parse, now)
    decreases |a|
  {
    if a == [] {
      assert a + b == b;
    } else {
      assert (a + b)[0] == a[0] && (a + b)[1..] == a[1..] + b;
      HandleAllInParts(R.Step(s, LineEvent(parse(a[0]), now)), a[1..], b, parse, now);
    }
  }

  lemma SendAllStep(s: R.State, hs: seq<R.Handler>, k: nat, now: int)
    requires k < |hs|
    ensures R.SendAll(s, hs[k..], now) == R.SendAll(R.Send(s, hs[k], now), hs[k + 1..], now)
  {
    assert hs[k..][1..] == hs[k + 1..];
    hide R.Send;
  }

  lemma TimeOutStep(s: R.State, ids: seq<string>, k: nat, now: int)
    requires k < |ids|
    ensures R.TimeOutAll(s, ids[k..], now)
      == R.TimeOutAll(R.Complete(s, ids[k], R.TimedOut(R.TimeoutText(ids[k], s.timeoutMs)), now), ids[k + 1..], now)
  {
    assert ids[k..][1..] == ids[k + 1..];
    hide R.Complete;
  }

  lemma LoseStep(s: R.State, pending: map<string, R.Request>, ids: seq<string>, k: nat, now: int)
    requires k < |ids| && forall id :: id in ids ==> id in pending
    ensures R.LoseAll(s, pending, ids[k..], now)
      == R.LoseAll(R.Invoke(s, pending[ids[k]].serial, pending[ids[k]].handler, R.Lost, now), pending, ids[k + 1..], now)
  {
    assert ids[k..][1..] == ids[k + 1..];
    hide R.Invoke;
  }

  lemma ListsOneMore(ids: seq<string>, id: string, keys: set<string>)
    requires R.Lists(ids, keys) && id !in keys
    ensures R.Lists(ids + [id], keys + {id})
  {
    assert (set i | i in ids + [id]) == (set i | i in ids) + {id};
    assert forall k :: 0 <= k < |ids| ==> ids[k] in (set i | i in ids);
  }

  lemma ListedAre(ids: seq<string>, keys: set<string>)
    requires R.Lists(ids, keys)
    ensures forall id :: id in ids <==> id in keys
  {
    assert forall id :: id in ids <==> id in (set i | i in ids);
  }

  /** `issued`, `sent`, `log` and `lost` are the history of the object; no branch depends on them. */
  class Client {
    var connected: bool
    var nextId: UInt64
    var handlers: map<string, R.Request>
    var stamps: map<string, int>
    var timeoutMs: int
    var buffer: string
    const parse: string -> Parsed
    var issued: nat
    var sent: seq<R.Sent>
    var log: seq<R.Delivery>
    var lost: set<nat>

    function Abs(): R.State
      reads this
    {
      R.State(connected, nextId, handlers, stamps, timeoutMs, issued, sent, log, lost)
    }

    constructor (parse: string -> Parsed)
      ensures Abs() == R.INIT && buffer == "" && this.parse == parse
      ensures !connected && nextId == 1 && handlers == map[] && timeoutMs == 10000
    {
      connected, nextId, handlers, stamps, timeoutMs, buffer := false, 1, map[], map[], R.DEFAULT_TIMEOUT, "";
      this.parse := parse;
      issued, sent, log, lost := 0, [], [], {};
    }

    method Send(h: R.Handler, now: int)
      modifies this
      ensures Abs() == R.Send(old(Abs()), h, now) && buffer == old(buffer)
      ensures old(connected) ==>
        && handlers == old(handlers)[Decimal(old(nextId)) := R.Request(|old(sent)|, h)]
        && stamps == old(stamps)[Decimal(old(nextId)) := now]
      ensures !old(connected) ==> old(log) + [R.Delivery(|old(sent)|, R.NotConnected)] <= log
      decreases h, 1
    {
      var serial := |sent|;
      if !connected {
        sent := sent + [R.NotIssued];
        R.InvokeGrows(Abs(), serial, h, R.NotConnected, now);
        Invoke(serial, h, R.NotConnected, now);
        return;
      }
      var id := Decimal(nextId);
      lost := lost + R.Replaced(Abs());
      sent, issued := sent + [R.Issued(nextId)], issued + 1;
      nextId := (nextId + 1) % TWO_64;
      handlers := handlers[id := R.Request(serial, h)];
      stamps := stamps[id := now];
    }

    /** Calling a handler: it may send again, one request after the other. */
    method Invoke(serial: nat, h: R.Handler, o: R.Outcome, now: int)
      modifies this
      ensures Abs() == R.Invoke(old(Abs()), serial, h, o, now) && buffer == old(buffer)
      decreases h, 0
    {
      log := log + [R.Delivery(serial, o)];
      var again := if R.Contains(R.ResultObject(o), "error") then h.onError else h.onPlain;
      ghost var start := Abs();
      assert again[0..] == again;
      for k := 0 to |again|
        invariant R.SendAll(Abs(), again[k..], now) == R.SendAll(start, again, now) && buffer == old(buffer)
      {
        SendAllStep(Abs(), again, k, now);
        Send(again[k], now);
      }
    }

    method HandleLine(line: string, now: int)
      modifies this
      ensures Abs() == R.Step(old(Abs()), LineEvent(parse(line), now)) && buffer == old(buffer)
      ensures var p := parse(line);
        && (p.Malformed? ==> Abs() == old(Abs()))
        && (p.Response? && p.id !in old(handlers) ==> log == old(log) && sent == old(sent))
        && (p.Response? && p.id in old(handlers) ==>
             var r := old(handlers)[p.id].serial;
             && (p.ok ==> old(log) + [R.Delivery(r, R.Answered(p.result))] <= log)
             && (!p.ok ==> old(log) + [R.Delivery(r, R.Rejected(p.message, p.code))] <= log))
    {
      var p := parse(line);
      if p.Malformed? {
        return;
      }
      var o := if p.ok then R.Answered(p.result) else R.Rejected(p.message, p.code);
      F.CompleteDelivers(Abs(), p.id, o, now);
      Complete(p.id, o, now);
    }

    /** Takes the handler out of the tables before invoking it. */
    method Complete(id: string, o: R.Outcome, now: int)
      modifies this
      ensures Abs() == R.Complete(old(Abs()), id, o, now) && buffer == old(buffer)
    {
      var found := id in handlers;
      if found {
        var r := handlers[id];
        handlers, stamps := handlers - {id}, stamps - {id};
        Invoke(r.serial, r.handler, o, now);
      } else {
        handlers, stamps := handlers - {id}, stamps - {id};
      }
    }

    /** `ids` is the order in which the table of time stamps was walked. */
    method SweepTimedOutRequests(now: int) returns (ids: seq<string>)
      modifies this
      ensures R.Possible(old(Abs()), R.Sweep(ids, now))
      ensures Abs() == R.Step(old(Abs()), R.Sweep(ids, now)) && buffer == old(buffer)
      ensures forall id :: id in ids <==> id in old(stamps) && now - old(stamps)[id] > old(timeoutMs)
    {
      ids := TimedOutIds(now);
      ghost var start := Abs();
      assert ids[0..] == ids;
      for k := 0 to |ids|
        invariant R.TimeOutAll(Abs(), ids[k..], now) == R.TimeOutAll(start, ids, now) && buffer == old(buffer)
      {
        TimeOutStep(Abs(), ids, k, now);
        Complete(ids[k], R.TimedOut(R.TimeoutText(ids[k], timeoutMs)), now);
      }
    }

    method TimedOutIds(now: int) returns (ids: seq<string>)
      ensures R.Lists(ids, set id | id in stamps && R.Expired(Abs(), id, now))
      ensures forall id :: id in ids <==> id in stamps && now - stamps[id] > timeoutMs
    {
      ids := [];
      var keys := stamps.Keys;
      while keys != {}
        invariant keys <= stamps.Keys
        invariant R.Lists(ids, set id | id in stamps.Keys - keys && R.Expired(Abs(), id, now))
        decreases |keys|
      {
        var id :| id in keys;
        ghost var seen := set i | i in stamps.Keys - keys && R.Expired(Abs(), i, now);
        keys := keys - {id};
        ghost var seenNow := set i | i in stamps.Keys - keys && R.Expired(Abs(), i, now);
        ListsOneMore(ids, id, seen);
        if now - stamps[id] > timeoutMs {
          ids := ids + [id];
          assert seenNow == seen + {id};
        } else {
          assert seenNow == seen;
        }
      }
      ListedAre(ids, set id | id in stamps && R.Expired(Abs(), id, now));
    }

    method SetRequestTimeout(ms: int)
      modifies this
      ensures Abs() == R.Step(old(Abs()), R.SetTimeout(ms)) && buffer == old(buffer)
      ensures timeoutMs == if ms > 0 then ms else 10000
    {
      timeoutMs := if ms > 0 then ms else R.DEFAULT_TIMEOUT;
    }

    method OnConnected()
      modifies this
      ensures Abs() == R.Step(old(Abs()), R.Connected) && buffer == old(buffer) && connected
    {
      connected := true;
    }

    /** Swaps the handlers out and fails them all; `ids` is the order in which the table was walked. */
    method OnDisconnected(now: int) returns (ids: seq<string>)
      modifies this
      ensures R.Possible(old(Abs()), R.Disconnected(ids, now))
      ensures Abs() == R.Step(old(Abs()), R.Disconnected(ids, now)) && buffer == old(buffer)
    {
      connected := false;
      var pending := handlers;
      handlers, stamps := map[], map[];
      ids := Keys(pending);
      assert forall id :: id in ids ==> id in (set i | i in ids);
      hide R.Lists, R.LoseAll;
      FailAll(pending, ids, now);
    }

    /** The loop over the swapped-out handlers. */
    method FailAll(pending: map<string, R.Request>, ids: seq<string>, now: int)
      requires forall id :: id in ids ==> id in pending
      modifies this
      ensures Abs() == R.LoseAll(old(Abs()), pending, ids, now) && buffer == old(buffer)
    {
      ghost var start := Abs();
      assert ids[0..] == ids;
      for k := 0 to |ids|
        invariant R.LoseAll(Abs(), pending, ids[k..], now) == R.LoseAll(start, pending, ids, now) && buffer == old(buffer)
      {
        LoseStep(Abs(), pending, ids, k, now);
        Invoke(pending[ids[k]].serial, pending[ids[k]].handler, R.Lost, now);
      }
    }

    /** Appends what the socket delivered and handles the lines that are now complete. */
    method ReadSocket(data: string, now: int)
      modifies this
      ensures Abs() == HandleAll(old(Abs()), Lines(old(buffer) + data), parse, now)
      ensures buffer == Remainder(old(buffer) + data)
    {
      buffer := buffer + data;
      ghost var all, start := buffer, Abs();
      var newline := FirstNewline(buffer);
      hide FirstNewline, Lines, Remainder;
      while newline < |buffer|
        invariant newline == FirstNewline(buffer) && Remainder(buffer) == Remainder(all)
        invariant HandleAll(Abs(), Lines(buffer), parse, now) == HandleAll(start, Lines(all), parse, now)
        decreases |buffer|
      {
        CutAtNewline(buffer);
        var line := buffer[..newline];
        buffer := buffer[newline + 1..];
        HandleLine(line, now);
        newline := FirstNewline(buffer);
      }
      NoNewline(buffer);
    }
  }

  method Keys(pending: map<string, R.Request>) returns (ids: seq<string>)
    ensures R.Lists(ids, pending.Keys)
  {
    ids := [];
    var keys := pending.Keys;
    while keys != {}
      invariant keys <= pending.Keys && R.Lists(ids, pending.Keys - keys)
      decreases |keys|
    {
      var id :| id in keys;
      ListsOneMore(ids, id, pending.Keys - keys);
      assert pending.Keys - (keys - {id}) == pending.Keys - keys + {id};
      keys := keys - {id};
      ids := ids + [id];
    }
  }

  // ---- Cutting the stream ----

  /** Equal up to when requests were sent. */
  predicate Alike(a: R.State, b: R.State) {
    a.stamps.Keys == b.stamps.Keys && a.(stamps := b.stamps) == b
  }

  lemma {:induction false} SendAlike(a: R.State, b: R.State, h: R.Handler, m: int, n: int)
    requires Alike(a, b)
    ensures Alike(R.Send(a, h, m), R.Send(b, h, n))
    decreases h, 1
  {
    hide Decimal;
    if !a.connected {
      InvokeAlike(a.(sent := a.sent + [R.NotIssued]), b.(sent := b.sent + [R.NotIssued]), |a.sent|, h, R.NotConnected, m, n);
    }
  }

  lemma {:induction false} InvokeAlike(a: R.State, b: R.State, serial: nat, h: R.Handler, o: R.Outcome, m: int, n: int)
    requires Alike(a, b)
    ensures Alike(R.Invoke(a, serial, h, o, m), R.Invoke(b, serial, h, o, n))
    decreases h, 0
  {
    SendAllAlike(R.Logged(a, serial, o), R.Logged(b, serial, o), h.onError, m, n);
    SendAllAlike(R.Logged(a, serial, o), R.Logged(b, serial, o), h.onPlain, m, n);
    hide R.SendAll, R.Contains, R.ResultObject;
  }

  lemma {:induction false} SendAllAlike(a: R.State, b: R.State, hs: seq<R.Handler>, m: int, n: int)
    requires Alike(a, b)
    ensures Alike(R.SendAll(a, hs, m), R.SendAll(b, hs, n))
    decreases hs, 0
  {
    if hs != [] {
      SendAlike(a, b, hs[0], m, n);
      SendAllAlike(R.Send(a, hs[0], m), R.Send(b, hs[0], n), hs[1..], m, n);
      hide R.Send, Alike;
    }
  }

  lemma CompleteAlike(a: R.State, b: R.State, id: string, o: R.Outcome, m: int, n: int)
    requires Alike(a, b)
    ensures Alike(R.Complete(a, id, o, m), R.Complete(b, id, o, n))
  {
    if id in a.handlers {
      InvokeAlike(R.Taken(a, id), R.Taken(b, id), a.handlers[id].serial, a.handlers[id].handler, o, m, n);
    }
    hide R.Invoke;
  }

  /** When lines arrive makes no difference but for the time stamps. */
  lemma {:induction false} HandleAllAlike(a: R.State, b: R.State, lines: seq<string>, parse: string -> Parsed, m: int, n: int)
    requires Alike(a, b)
    ensures Alike(HandleAll(a, lines, parse, m), HandleAll(b, lines, parse, n))
    decreases |lines|
  {
    if lines != [] {
      var e, f := LineEvent(parse(lines[0]), m), LineEvent(parse(lines[0]), n);
      if e.Line? {
        CompleteAlike(a, b, e.id, e.reply, m, n);
      }
      hide Alike, R.Complete;
      HandleAllAlike(R.Step(a, e), R.Step(b, f), lines[1..], parse, m, n);
    }
  }

  datatype Chunk = Chunk(data: string, now: int)

  datatype Link = Link(state: R.State, buffer: string)

  function Data(chunks: seq<Chunk>): (r: seq<string>)
    ensures |r| == |chunks|
  {
    seq(|chunks|, i requires 0 <= i < |chunks| => chunks[i].data)
  }

  /** A connection that delivers `chunks`, each at its own time. */
  function ReadAll(l: Link, chunks: seq<Chunk>, parse: string -> Parsed): Link {
    if chunks == [] then l
    else
      var l', last := ReadAll(l, chunks[..|chunks| - 1], parse), chunks[|chunks| - 1];
      var b := l'.buffer + last.data;
      Link(HandleAll(l'.state, Lines(b), parse, last.now), Remainder(b))
  }

  /** Whatever the cuts and whenever the pieces arrive, every line of the stream is handled once and in order: the same
      requests are completed and sent, and the same bytes are left over, as if all had come at once. */
  lemma {:induction false} CutsDoNotMatterToTheClient(s: R.State, chunks: seq<Chunk>, parse: string -> Parsed, now: int)
    ensures var l, stream := ReadAll(Link(s, ""), chunks, parse), Concat(Data(chunks));
      Alike(l.state, HandleAll(s, Lines(stream), parse, now)) && l.buffer == Remainder(stream)
  {
    if chunks != [] {
      var front, last := chunks[..|chunks| - 1], chunks[|chunks| - 1];
      var before := Concat(Data(front));
      CutsDoNotMatterToTheClient(s, front, parse, now);
      assert Data(chunks)[..|front|] == Data(front);
      var l := ReadAll(Link(s, ""), front, parse);
      var lines := Lines(l.buffer + last.data);
      hide Lines, Remainder, Alike, HandleAll;
      SplitInParts(before, last.data);
      HandleAllInParts(s, Lines(before), lines, parse, now);
      HandleAllAlike(l.state, HandleAll(s, Lines(before), parse, now), lines, parse, last.now, now);
    }
  }
}
