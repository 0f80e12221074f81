/** What each way of ending a request delivers, and to whom. */
module RequestFates {
  import opened Text
  import opened Json
  import opened Requests

  /** The object a handler receives, member by member, keys in order. */
  lemma ObjectReceived(o: Outcome)
    ensures match o
      case Answered(result) => ResultObject(o) == result
      case Rejected(message, code) => ResultObject(o)
        == [Member("error", Bool(true)), Member("errorCode", Num(code)), Member("errorMessage", Str(message))]
      case TimedOut(text) => ResultObject(o)
        == [Member("error", Bool(true)), Member("errorCode", Num(-1)), Member("errorMessage", Str(text))]
      case NotConnected => ResultObject(o)
        == [Member("error", Bool(true)), Member("errorCode", Num(-1)),
            Member("errorMessage", Str("ecatd is not connected"))]
      case Lost => ResultObject(o) == [Member("code", Num(-1)), Member("message", Str("Connection lost"))]
  {
  }

  /** The request under `id` is where it was, or a later send has taken its id. */
  predicate Stays(s: State, s': State, id: string) {
    id in s.handlers ==>
      s.handlers[id].serial in s'.lost || (id in s'.handlers && s'.handlers[id] == s.handlers[id])
  }

  lemma {:induction false} SendStays(s: State, h: Handler, now: int, id: string)
    ensures Stays(s, Send(s, h, now), id)
    decreases h, 1
  {
    if !s.connected {
      InvokeStays(s.(sent := s.sent + [NotIssued]), |s.sent|, h, NotConnected, now, id);
    }
  }

  lemma {:induction false} InvokeStays(s: State, serial: nat, h: Handler, o: Outcome, now: int, id: string)
    ensures Stays(s, Invoke(s, serial, h, o, now), id)
    decreases h, 0
  {
    SendAllStays(Logged(s, serial, o), h.onError, now, id);
    SendAllStays(Logged(s, serial, o), h.onPlain, now, id);
  }

  lemma {:induction false} SendAllStays(s: State, hs: seq<Handler>, now: int, id: string)
    ensures Stays(s, SendAll(s, hs, now), id)
    decreases hs, 0
  {
    if hs != [] {
      SendStays(s, hs[0], now, id);
      SendAllStays(Send(s, hs[0], now), hs[1..], now, id);
      SendAllGrows(Send(s, hs[0], now), hs[1..], now);
    }
  }

  lemma CompleteStays(s: State, other: string, o: Outcome, now: int, id: string)
    requires id != other
    ensures Stays(s, Complete(s, other, o, now), id)
  {
    if other in s.handlers {
      InvokeStays(Taken(s, other), s.handlers[other].serial, s.handlers[other].handler, o, now, id);
    }
  }

  /** A response is handed to the request under its id before anything else happens, and to nobody if there is none. */
  lemma CompleteDelivers(s: State, id: string, o: Outcome, now: int)
    ensures var s' := Complete(s, id, o, now);
      && s.log <= s'.log && s'.timeoutMs == s.timeoutMs
      && (id in s.handlers ==> s.log + [Delivery(s.handlers[id].serial, o)] <= s'.log)
      && (id !in s.handlers ==> s'.log == s.log && s'.sent == s.sent)
  {
    if id in s.handlers {
      InvokeGrows(Taken(s, id), s.handlers[id].serial, s.handlers[id].handler, o, now);
      InvokeTimeout(Taken(s, id), s.handlers[id].serial, s.handlers[id].handler, o, now);
    }
  }

  lemma {:induction false} SendTimeout(s: State, h: Handler, now: int)
    ensures Send(s, h, now).timeoutMs == s.timeoutMs
    decreases h, 1
  {
    if !s.connected {
      InvokeTimeout(s.(sent := s.sent + [NotIssued]), |s.sent|, h, NotConnected, now);
    }
  }

  lemma {:induction false} InvokeTimeout(s: State, serial: nat, h: Handler, o: Outcome, now: int)
    ensures Invoke(s, serial, h, o, now).timeoutMs == s.timeoutMs
    decreases h, 0
  {
    SendAllTimeout(Logged(s, serial, o), h.onError, now);
    SendAllTimeout(Logged(s, serial, o), h.onPlain, now);
  }

  lemma {:induction false} SendAllTimeout(s: State, hs: seq<Handler>, now: int)
    ensures SendAll(s, hs, now).timeoutMs == s.timeoutMs
    decreases hs, 0
  {
    if hs != [] {
      SendTimeout(s, hs[0], now);
      SendAllTimeout(Send(s, hs[0], now), hs[1..], now);
    }
  }

  lemma {:induction false} TimeOutAllLogs(s: State, ids: seq<string>, now: int)
    ensures s.log <= TimeOutAll(s, ids, now).log
    decreases |ids|
  {
    if ids != [] {
      var o := TimedOut(TimeoutText(ids[0], s.timeoutMs));
      CompleteDelivers(s, ids[0], o, now);
      TimeOutAllLogs(Complete(s, ids[0], o, now), ids[1..], now);
    }
  }

  /** A sweep over `ids`: the request under an id of the list is told how long it has waited, a request under any other
      id stays, and in both cases the only way out is an id that one of the handlers has used again. */
  lemma {:induction false} SweepDelivers(s: State, ids: seq<string>, now: int, id: string)
    requires id in s.handlers
    ensures var s', r := TimeOutAll(s, ids, now), s.handlers[id];
      && (id in ids ==>
           || r.serial in s'.lost
           || Delivery(r.serial, TimedOut("Request " + id + " timed out after " + IntText(s.timeoutMs) + "ms")) in s'.log)
      && (id !in ids ==> r.serial in s'.lost || (id in s'.handlers && s'.handlers[id] == r))
    decreases |ids|
  {
    if ids != [] {
      var o := TimedOut(TimeoutText(ids[0], s.timeoutMs));
      var s1 := Complete(s, ids[0], o, now);
      CompleteDelivers(s, ids[0], o, now);
      TimeOutAllGrows(s1, ids[1..], now);
      hide Complete, IntText;
      if ids[0] == id {
        TimeOutAllLogs(s1, ids[1..], now);
        assert s.log + [Delivery(s.handlers[id].serial, o)] <= TimeOutAll(s, ids, now).log;
        assert TimeOutAll(s, ids, now).log[|s.log|] == Delivery(s.handlers[id].serial, o);
      } else {
        CompleteStays(s, ids[0], o, now, id);
        if s.handlers[id].serial !in s1.lost {
          SweepDelivers(s1, ids[1..], now, id);
        }
      }
    }
  }

  lemma {:induction false} LoseAllLogs(s: State, pending: map<string, Request>, ids: seq<string>, now: int)
    requires forall id :: id in ids ==> id in pending
    ensures s.log <= LoseAll(s, pending, ids, now).log
    decreases |ids|
  {
    if ids != [] {
      InvokeGrows(s, pending[ids[0]].serial, pending[ids[0]].handler, Lost, now);
      LoseAllLogs(Invoke(s, pending[ids[0]].serial, pending[ids[0]].handler, Lost, now), pending, ids[1..], now);
    }
  }

  /** The flush of a disconnect tells each request it swapped out that the connection is lost. */
  lemma {:induction false} FlushDelivers(s: State, pending: map<string, Request>, ids: seq<string>, now: int, k: nat)
    requires (forall id :: id in ids ==> id in pending) && k < |ids|
    ensures Delivery(pending[ids[k]].serial, Lost) in LoseAll(s, pending, ids, now).log
    decreases |ids|
  {
    var r := pending[ids[0]];
    var s1 := Invoke(s, r.serial, r.handler, Lost, now);
    InvokeGrows(s, r.serial, r.handler, Lost, now);
    LoseAllLogs(s1, pending, ids[1..], now);
    hide Invoke;
    if k == 0 {
      assert s.log + [Delivery(r.serial, Lost)] <= s1.log <= LoseAll(s1, pending, ids[1..], now).log;
      assert LoseAll(s1, pending, ids[1..], now).log[|s.log|] == Delivery(r.serial, Lost);
    } else {
      FlushDelivers(s1, pending, ids[1..], now, k - 1);
      assert ids[1..][k - 1] == ids[k];
    }
  }
}
