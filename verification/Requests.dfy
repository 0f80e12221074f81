/** Request correlation: each request is answered once or known to be lost. */
module Requests {
  import opened Words
  import opened Text
  import opened Json

  /** What a handler sends again when it is invoked. Some real ones show other keys of the result to the user, but
      which requests they send depends on the "error" key alone. */
  datatype Handler = Handler(onError: seq<Handler>, onPlain: seq<Handler>)

  /** `serial` is the number of the send; it identifies the request in the history, not on the wire. */
  datatype Request = Request(serial: nat, handler: Handler)

  datatype Sent = Issued(number: UInt64) | NotIssued

  datatype Outcome =
    | Answered(result: seq<Member>)
    | Rejected(message: string, code: int)
    | TimedOut(text: string)
    | NotConnected
    | Lost

  datatype Delivery = Delivery(serial: nat, outcome: Outcome)

  /** The client's fields; `issued`, `sent`, `log` and `lost` are its history: `lost` holds the requests whose table
      entry a later send with the same id has replaced. */
  datatype State = State(
    connected: bool, nextId: UInt64, handlers: map<string, Request>, stamps: map<string, int>,
    timeoutMs: int,
    issued: nat, sent: seq<Sent>, log: seq<Delivery>, lost: set<nat>)

  const DEFAULT_TIMEOUT: int := 10000

  const INIT: State := State(false, 1, map[], map[], DEFAULT_TIMEOUT, 0, [], [], {})

  // ---- The objects handlers receive ----

  function ErrorResult(message: string, code: int): seq<Member> {
    [Member("error", Bool(true)), Member("errorCode", Num(code)), Member("errorMessage", Str(message))]
  }

  function ResultObject(o: Outcome): seq<Member> {
    match o
    case Answered(result) => result
    case Rejected(message, code) => ErrorResult(message, code)
    case TimedOut(text) => ErrorResult(text, -1)
    case NotConnected => ErrorResult("ecatd is not connected", -1)
    case Lost => [Member("code", Num(-1)), Member("message", Str("Connection lost"))]
  }

  predicate Contains(members: seq<Member>, key: string) {
    exists i :: 0 <= i < |members| && members[i].key == key
  }

  /** A failure carries the "error" key that handlers look for if and only if it is not a lost connection. */
  lemma FailureShowsUnlessLost(o: Outcome)
    requires !o.Answered?
    ensures Contains(ResultObject(o), "error") <==> !o.Lost?
  {
    if !o.Lost? {
      assert ResultObject(o)[0].key == "error";
    }
  }

  // ---- Operations ----

  function Send(s: State, h: Handler, now: int): State
    decreases h, 1
  {
    if !s.connected then
      Invoke(s.(sent := s.sent + [NotIssued]), |s.sent|, h, NotConnected, now)
    else
      s.(nextId := (s.nextId + 1) % TWO_64,
         handlers := s.handlers[Decimal(s.nextId) := Request(|s.sent|, h)],
         stamps := s.stamps[Decimal(s.nextId) := now],
         issued := s.issued + 1, sent := s.sent + [Issued(s.nextId)], lost := s.lost + Replaced(s))
  }

  /** The request whose entry the next send would replace, if there is one. */
  function Replaced(s: State): set<nat> {
    if Decimal(s.nextId) in s.handlers then {s.handlers[Decimal(s.nextId)].serial} else {}
  }

  function Logged(s: State, serial: nat, o: Outcome): State {
    s.(log := s.log + [Delivery(serial, o)])
  }

  function Invoke(s: State, serial: nat, h: Handler, o: Outcome, now: int): State
    decreases h, 0
  {
    SendAll(Logged(s, serial, o), if Contains(ResultObject(o), "error") then h.onError else h.onPlain, now)
  }

  function SendAll(s: State, hs: seq<Handler>, now: int): State
    decreases hs, 0
  {
    if hs == [] then s else SendAll(Send(s, hs[0], now), hs[1..], now)
  }

  function Taken(s: State, id: string): State {
    s.(handlers := s.handlers - {id}, stamps := s.stamps - {id})
  }

  /** Taking the handler out of the maps and invoking it, if there is one. */
  function Complete(s: State, id: string, o: Outcome, now: int): State {
    if id in s.handlers then Invoke(Taken(s, id), s.handlers[id].serial, s.handlers[id].handler, o, now)
    else Taken(s, id)
  }

  predicate Expired(s: State, id: string, now: int) {
    id in s.stamps && now - s.stamps[id] > s.timeoutMs
  }

  predicate Lists(ids: seq<string>, keys: set<string>) {
    && (forall i, j :: 0 <= i < j < |ids| ==> ids[i] != ids[j])
    && (set id | id in ids) == keys
  }

  function TimeoutText(id: string, ms: int): string {
    "Request " + id + " timed out after " + IntText(ms) + "ms"
  }

  function TimeOutAll(s: State, ids: seq<string>, now: int): State
    decreases |ids|
  {
    if ids == [] then s
    else TimeOutAll(Complete(s, ids[0], TimedOut(TimeoutText(ids[0], s.timeoutMs)), now), ids[1..], now)
  }

  /** Failing the swapped-out handlers one by one. */
  function LoseAll(s: State, pending: map<string, Request>, ids: seq<string>, now: int): State
    requires forall id :: id in ids ==> id in pending
    decreases |ids|
  {
    if ids == [] then s
    else LoseAll(Invoke(s, pending[ids[0]].serial, pending[ids[0]].handler, Lost, now), pending, ids[1..], now)
  }

  function Dropped(s: State): State {
    s.(connected := false, handlers := map[], stamps := map[])
  }

  /** One signal, call or timer tick. The hash tables are walked in the order `ids` lists. */
  datatype Event =
    | Sending(handler: Handler, now: int)
    | Line(id: string, reply: Outcome, now: int)
    | BadLine
    | Sweep(ids: seq<string>, now: int)
    | SetTimeout(ms: int)
    | Connected
    | Disconnected(ids: seq<string>, now: int)

  predicate Possible(s: State, e: Event) {
    match e
    case Line(_, reply, _) => reply.Answered? || reply.Rejected?
    case Sweep(ids, now) => Lists(ids, set id | id in s.stamps && Expired(s, id, now))
    case Disconnected(ids, _) => Lists(ids, s.handlers.Keys)
    case _ => true
  }

  function Step(s: State, e: Event): State
    requires Possible(s, e)
  {
    match e
    case Sending(h, now) => Send(s, h, now)
    case Line(id, reply, now) => Complete(s, id, reply, now)
    case BadLine => s
    case Sweep(ids, now) => TimeOutAll(s, ids, now)
    case SetTimeout(ms) => s.(timeoutMs := if ms > 0 then ms else DEFAULT_TIMEOUT)
    case Connected => s.(connected := true)
    case Disconnected(ids, now) => LoseAll(Dropped(s), s.handlers, ids, now)
  }

  /** `states` is a run: it starts with the new client and each state follows from the one before. */
  predicate IsRun(states: seq<State>, events: seq<Event>) {
    && |states| == |events| + 1 && states[0] == INIT
    && forall t :: 0 <= t < |events| ==> Follows(states, events, t)
  }

  predicate Follows(states: seq<State>, events: seq<Event>, t: nat)
    requires |states| == |events| + 1 && t < |events|
  {
    Possible(states[t], events[t]) && states[t + 1] == Step(states[t], events[t])
  }

  // ---- The invariant ----

  function Times(log: seq<Delivery>, serial: nat): nat {
    if log == [] then 0 else Times(log[..|log| - 1], serial) + if log[|log| - 1].serial == serial then 1 else 0
  }

  /** The request is still in the table, under its id and as itself. */
  predicate Pending(s: State, serial: nat) {
    && serial < |s.sent| && s.sent[serial].Issued?
    && var id := Decimal(s.sent[serial].number);
    && id in s.handlers && s.handlers[id].serial == serial
  }

  function Debt(s: State, serial: nat, owed: set<nat>): nat {
    Times(s.log, serial) + (if Pending(s, serial) then 1 else 0) + (if serial in owed then 1 else 0)
    + (if serial in s.lost then 1 else 0)
  }

  predicate OwnsEntry(s: State, id: string)
    requires id in s.handlers
  {
    var r := s.handlers[id].serial;
    r < |s.sent| && s.sent[r].Issued? && id == Decimal(s.sent[r].number)
  }

  /** Numbers go up, so no two requests share an id. */
  predicate NumbersRise(s: State) {
    && s.nextId == s.issued + 1
    && (forall i :: 0 <= i < |s.sent| && s.sent[i].Issued? ==> 0 < s.sent[i].number < s.nextId)
    && (forall i, j :: 0 <= i < j < |s.sent| && s.sent[i].Issued? && s.sent[j].Issued? ==>
         s.sent[i].number < s.sent[j].number)
  }

  /** The 64-bit id counter has not come round. */
  predicate Fresh(s: State) {
    s.issued < TWO_64 - 1
  }

  /** Every request is one of: pending, delivered once, lost, or in `owed`, that is, taken from the maps and about to
      be delivered. Nothing is lost before the id counter comes round. */
  ghost predicate Inv(s: State, owed: set<nat>) {
    && s.handlers.Keys == s.stamps.Keys
    && (!s.connected ==> s.handlers == map[])
    && (forall id :: id in s.handlers ==> OwnsEntry(s, id))
    && (forall i :: 0 <= i < |s.sent| ==> Debt(s, i, owed) == 1)
    && (forall i :: i >= |s.sent| ==> Times(s.log, i) == 0)
    && (forall i :: i in owed ==> i < |s.sent|)
    && (forall i :: i in s.lost ==> i < |s.sent|)
    && (Fresh(s) ==> NumbersRise(s) && s.lost == {})
  }

  // ---- The history only grows ----

  lemma {:induction false} SendGrows(s: State, h: Handler, now: int)
    ensures var s' := Send(s, h, now); s.connected == s'.connected && s.lost <= s'.lost && s.log <= s'.log
    decreases h, 1
  {
    if !s.connected {
      InvokeGrows(s.(sent := s.sent + [NotIssued]), |s.sent|, h, NotConnected, now);
    }
  }

  lemma {:induction false} InvokeGrows(s: State, serial: nat, h: Handler, o: Outcome, now: int)
    ensures var s' := Invoke(s, serial, h, o, now);
      s.connected == s'.connected && s.lost <= s'.lost && s.log + [Delivery(serial, o)] <= s'.log
    decreases h, 0
  {
    SendAllGrows(Logged(s, serial, o), h.onError, now);
    SendAllGrows(Logged(s, serial, o), h.onPlain, now);
  }

  lemma {:induction false} SendAllGrows(s: State, hs: seq<Handler>, now: int)
    ensures var s' := SendAll(s, hs, now); s.connected == s'.connected && s.lost <= s'.lost && s.log <= s'.log
    decreases hs, 0
  {
    if hs != [] {
      SendGrows(s, hs[0], now);
      SendAllGrows(Send(s, hs[0], now), hs[1..], now);
    }
  }

  // ---- The invariant is kept ----

  lemma NewIdIsFree(s: State, owed: set<nat>)
    requires Inv(s, owed) && NumbersRise(s)
    ensures Replaced(s) == {}
  {
    var id := Decimal(s.nextId);
    if id in s.handlers {
      assert OwnsEntry(s, id);
      DecimalInjective(s.sent[s.handlers[id].serial].number, s.nextId);
    }
  }

  lemma IssuedNumberRises(s: State, s': State)
    requires NumbersRise(s) && s'.issued == s.issued + 1 < TWO_64 - 1
    requires s'.nextId == (s.nextId + 1) % TWO_64 && s'.sent == s.sent + [Issued(s.nextId)]
    ensures NumbersRise(s')
  {
    SmallMod(s.nextId + 1, TWO_64);
  }

  /** The request that loses its entry was pending before and nothing else. */
  lemma ReplacedWasPending(s: State, owed: set<nat>, r: nat)
    requires Inv(s, owed) && r in Replaced(s)
    ensures Pending(s, r) && Times(s.log, r) == 0 && r !in owed && r !in s.lost
  {
    assert OwnsEntry(s, Decimal(s.nextId));
    assert Debt(s, r, owed) == 1;
    hide Decimal, Times;
  }

  /** Issuing an id changes who is pending only for the new request and the one it replaces. */
  lemma PendingAfterIssue(s: State, h: Handler, now: int, i: nat)
    requires s.connected && i < |s.sent| && forall id :: id in s.handlers ==> OwnsEntry(s, id)
    ensures Pending(Send(s, h, now), i) <==> Pending(s, i) && i !in Replaced(s)
  {
    assert Decimal(s.nextId) in s.handlers ==> OwnsEntry(s, Decimal(s.nextId));
    hide Decimal;
  }

  lemma IssueKeeps(s: State, h: Handler, now: int, owed: set<nat>)
    requires Inv(s, owed) && s.connected
    ensures Inv(Send(s, h, now), owed)
  {
    var s' := Send(s, h, now);
    if Fresh(s') {
      IssueNumbers(s, h, now, owed);
    }
    IssueOwns(s, h, now);
    IssueLost(s, h, now, owed);
    IssueDebts(s, h, now, owed);
    hide Decimal, Times, NumbersRise, Debt, OwnsEntry, Replaced, Fresh;
  }

  lemma IssueDebts(s: State, h: Handler, now: int, owed: set<nat>)
    requires Inv(s, owed) && s.connected
    ensures forall i :: 0 <= i < |Send(s, h, now).sent| ==> Debt(Send(s, h, now), i, owed) == 1
  {
    var s' := Send(s, h, now);
    assert |s'.sent| == |s.sent| + 1;
    hide Inv, Send, Debt;
    forall i: nat | i < |s'.sent| ensures Debt(s', i, owed) == 1 {
      if i < |s.sent| {
        OldRequest(s, h, now, owed, i);
      } else {
        NewRequest(s, h, now, owed);
      }
    }
  }

  lemma IssueNumbers(s: State, h: Handler, now: int, owed: set<nat>)
    requires Inv(s, owed) && s.connected && Fresh(Send(s, h, now))
    ensures NumbersRise(Send(s, h, now)) && Send(s, h, now).lost == {}
  {
    NewIdIsFree(s, owed);
    IssuedNumberRises(s, Send(s, h, now));
    hide NumbersRise, Decimal;
  }

  lemma IssueLost(s: State, h: Handler, now: int, owed: set<nat>)
    requires Inv(s, owed) && s.connected
    ensures forall i :: i in Send(s, h, now).lost ==> i < |s.sent|
  {
    forall i | i in Replaced(s) ensures i < |s.sent| {
      ReplacedWasPending(s, owed, i);
    }
    hide Decimal, Replaced;
  }

  lemma OldRequest(s: State, h: Handler, now: int, owed: set<nat>, i: nat)
    requires Inv(s, owed) && s.connected && i < |s.sent|
    ensures Debt(Send(s, h, now), i, owed) == 1
  {
    PendingAfterIssue(s, h, now, i);
    assert Debt(s, i, owed) == 1;
    if i in Replaced(s) {
      ReplacedWasPending(s, owed, i);
    }
    hide Decimal, Times, Inv, Pending;
  }

  lemma NewRequest(s: State, h: Handler, now: int, owed: set<nat>)
    requires Inv(s, owed) && s.connected
    ensures Debt(Send(s, h, now), |s.sent|, owed) == 1
  {
    var i := |s.sent|;
    if i in Replaced(s) {
      ReplacedWasPending(s, owed, i);
    }
    assert Times(s.log, i) == 0 && i !in owed && i !in s.lost;
    hide Decimal, Times, Inv;
  }

  lemma IssueOwns(s: State, h: Handler, now: int)
    requires s.connected && forall id :: id in s.handlers ==> OwnsEntry(s, id)
    ensures forall id :: id in Send(s, h, now).handlers ==> OwnsEntry(Send(s, h, now), id)
  {
    hide Decimal;
    forall id | id in Send(s, h, now).handlers ensures OwnsEntry(Send(s, h, now), id) {
      assert id != Decimal(s.nextId) ==> OwnsEntry(s, id);
    }
  }

  lemma LogKeeps(s: State, serial: nat, o: Outcome, owed: set<nat>)
    requires Inv(s, owed + {serial}) && serial !in owed && serial < |s.sent|
    ensures Inv(Logged(s, serial, o), owed)
  {
    var s' := Logged(s, serial, o);
    TimesOfOneMore(s.log, Delivery(serial, o));
    hide Times;
    forall i: nat | i < |s'.sent| ensures Debt(s', i, owed) == 1 {
      assert Debt(s, i, owed + {serial}) == 1;
      assert Pending(s', i) == Pending(s, i);
    }
    forall id | id in s'.handlers ensures OwnsEntry(s', id) {
      assert OwnsEntry(s, id);
    }
    assert forall i :: i in owed ==> i in owed + {serial};
  }

  lemma TimesOfOneMore(log: seq<Delivery>, d: Delivery)
    ensures forall i :: Times(log + [d], i) == Times(log, i) + if i == d.serial then 1 else 0
  {
    assert (log + [d])[..|log|] == log;
  }

  lemma UnissuedKeeps(s: State, owed: set<nat>)
    requires Inv(s, owed) && !s.connected
    ensures Inv(s.(sent := s.sent + [NotIssued]), owed + {|s.sent|})
  {
    var s' := s.(sent := s.sent + [NotIssued]);
    forall i: nat | i < |s'.sent| ensures Debt(s', i, owed + {|s.sent|}) == 1 {
      if i < |s.sent| {
        assert Debt(s, i, owed) == 1;
        assert Pending(s', i) == Pending(s, i);
      } else {
        assert Times(s.log, i) == 0;
      }
    }
  }

  lemma {:induction false} SendKeeps(s: State, h: Handler, now: int, owed: set<nat>)
    requires Inv(s, owed)
    ensures Inv(Send(s, h, now), owed)
    decreases h, 1
  {
    if s.connected {
      IssueKeeps(s, h, now, owed);
    } else {
      UnissuedKeeps(s, owed);
      assert |s.sent| !in owed;
      hide Inv;
      InvokeKeeps(s.(sent := s.sent + [NotIssued]), |s.sent|, h, NotConnected, now, owed);
    }
  }

  lemma {:induction false} InvokeKeeps(s: State, serial: nat, h: Handler, o: Outcome, now: int, owed: set<nat>)
    requires Inv(s, owed + {serial}) && serial !in owed && serial < |s.sent|
    ensures Inv(Invoke(s, serial, h, o, now), owed)
    decreases h, 0
  {
    LogKeeps(s, serial, o, owed);
    hide Inv;
    if Contains(ResultObject(o), "error") {
      SendAllKeeps(Logged(s, serial, o), h.onError, now, owed);
    } else {
      SendAllKeeps(Logged(s, serial, o), h.onPlain, now, owed);
    }
  }

  lemma {:induction false} SendAllKeeps(s: State, hs: seq<Handler>, now: int, owed: set<nat>)
    requires Inv(s, owed)
    ensures Inv(SendAll(s, hs, now), owed)
    decreases hs, 0
  {
    if hs != [] {
      SendKeeps(s, hs[0], now, owed);
      SendAllKeeps(Send(s, hs[0], now), hs[1..], now, owed);
    }
  }

  lemma EntryIsPending(s: State, owed: set<nat>, id: string)
    requires Inv(s, owed) && id in s.handlers
    ensures Pending(s, s.handlers[id].serial) && s.handlers[id].serial !in owed
    ensures Times(s.log, s.handlers[id].serial) == 0
    ensures id == Decimal(s.sent[s.handlers[id].serial].number)
  {
    assert OwnsEntry(s, id);
    assert Debt(s, s.handlers[id].serial, owed) == 1;
  }

  lemma PendingAfterTaking(s: State, id: string, i: nat)
    requires id in s.handlers && OwnsEntry(s, id)
    ensures Pending(Taken(s, id), i) <==> Pending(s, i) && i != s.handlers[id].serial
  {
    hide Decimal;
  }

  lemma TakenKeeps(s: State, id: string, owed: set<nat>)
    requires Inv(s, owed) && id in s.handlers
    ensures Inv(Taken(s, id), owed + {s.handlers[id].serial})
  {
    var s' := Taken(s, id);
    EntryIsPending(s, owed, id);
    forall i | i in s'.handlers ensures OwnsEntry(s', i) {
      assert OwnsEntry(s, i);
    }
    TakenDebts(s, id, owed);
    hide Decimal, Times, Debt, OwnsEntry, NumbersRise, Pending;
  }

  lemma TakenDebts(s: State, id: string, owed: set<nat>)
    requires Inv(s, owed) && id in s.handlers
    ensures forall i :: 0 <= i < |s.sent| ==> Debt(Taken(s, id), i, owed + {s.handlers[id].serial}) == 1
  {
    var s', r := Taken(s, id), s.handlers[id].serial;
    EntryIsPending(s, owed, id);
    assert OwnsEntry(s, id);
    assert forall i :: 0 <= i < |s.sent| ==> Debt(s, i, owed) == 1;
    hide Decimal, Times, Debt, OwnsEntry, Inv, Pending;
    forall i: nat | i < |s.sent| ensures Debt(s', i, owed + {r}) == 1 {
      PendingAfterTaking(s, id, i);
      DebtMoves(s, s', i, owed, r);
    }
  }

  /** Taking a request from the table makes it owed. */
  lemma DebtMoves(s: State, s': State, i: nat, owed: set<nat>, r: nat)
    requires s'.log == s.log && s'.lost == s.lost && Debt(s, i, owed) == 1
    requires Pending(s, r) && (Pending(s', i) <==> Pending(s, i) && i != r)
    ensures Debt(s', i, owed + {r}) == 1
  {
    hide Times, Pending;
  }

  lemma CompleteKeeps(s: State, id: string, o: Outcome, now: int)
    requires Inv(s, {})
    ensures Inv(Complete(s, id, o, now), {})
  {
    if id in s.handlers {
      EntryIsPending(s, {}, id);
      TakenKeeps(s, id, {});
      hide Inv;
      InvokeKeeps(Taken(s, id), s.handlers[id].serial, s.handlers[id].handler, o, now, {});
    } else {
      assert Taken(s, id) == s;
    }
  }

  lemma CompleteGrows(s: State, id: string, o: Outcome, now: int)
    ensures s.connected == Complete(s, id, o, now).connected && s.lost <= Complete(s, id, o, now).lost
  {
    if id in s.handlers {
      InvokeGrows(Taken(s, id), s.handlers[id].serial, s.handlers[id].handler, o, now);
    }
  }

  lemma {:induction false} TimeOutAllGrows(s: State, ids: seq<string>, now: int)
    ensures s.connected == TimeOutAll(s, ids, now).connected && s.lost <= TimeOutAll(s, ids, now).lost
    decreases |ids|
  {
    if ids != [] {
      var s' := Complete(s, ids[0], TimedOut(TimeoutText(ids[0], s.timeoutMs)), now);
      CompleteGrows(s, ids[0], TimedOut(TimeoutText(ids[0], s.timeoutMs)), now);
      TimeOutAllGrows(s', ids[1..], now);
    }
  }

  lemma {:induction false} TimeOutAllKeeps(s: State, ids: seq<string>, now: int)
    requires Inv(s, {})
    ensures Inv(TimeOutAll(s, ids, now), {})
    decreases |ids|
  {
    if ids != [] {
      hide Inv;
      var text := TimedOut(TimeoutText(ids[0], s.timeoutMs));
      CompleteKeeps(s, ids[0], text, now);
      TimeOutAllKeeps(Complete(s, ids[0], text, now), ids[1..], now);
    }
  }

  /** The serials of the swapped-out requests that are still to be failed. */
  function Owed(pending: map<string, Request>, ids: seq<string>): set<nat>
    requires forall id :: id in ids ==> id in pending
  {
    set id | id in ids :: pending[id].serial
  }

  predicate SerialsDiffer(pending: map<string, Request>, ids: seq<string>)
    requires forall id :: id in ids ==> id in pending
  {
    forall i, j :: 0 <= i < j < |ids| ==> pending[ids[i]].serial != pending[ids[j]].serial
  }

  lemma OwedFirst(pending: map<string, Request>, ids: seq<string>)
    requires ids != [] && (forall id :: id in ids ==> id in pending) && SerialsDiffer(pending, ids)
    ensures Owed(pending, ids) == Owed(pending, ids[1..]) + {pending[ids[0]].serial}
    ensures pending[ids[0]].serial !in Owed(pending, ids[1..])
  {
    assert forall id :: id in ids <==> id == ids[0] || id in ids[1..];
    forall id | id in ids[1..] ensures pending[id].serial != pending[ids[0]].serial {
      var j :| 0 < j < |ids| && ids[j] == id;
    }
  }

  lemma {:induction false} LoseAllGrows(s: State, pending: map<string, Request>, ids: seq<string>, now: int)
    requires forall id :: id in ids ==> id in pending
    ensures s.connected == LoseAll(s, pending, ids, now).connected && s.lost <= LoseAll(s, pending, ids, now).lost
    decreases |ids|
  {
    if ids != [] {
      InvokeGrows(s, pending[ids[0]].serial, pending[ids[0]].handler, Lost, now);
      LoseAllGrows(Invoke(s, pending[ids[0]].serial, pending[ids[0]].handler, Lost, now), pending, ids[1..], now);
    }
  }

  lemma {:induction false} LoseAllKeeps(s: State, pending: map<string, Request>, ids: seq<string>, now: int)
    requires (forall id :: id in ids ==> id in pending) && SerialsDiffer(pending, ids)
    requires Inv(s, Owed(pending, ids))
    ensures Inv(LoseAll(s, pending, ids, now), {})
    decreases |ids|
  {
    if ids == [] {
      assert Owed(pending, ids) == {};
    } else {
      var r := pending[ids[0]];
      var s' := Invoke(s, r.serial, r.handler, Lost, now);
      OwedFirst(pending, ids);
      assert r.serial in Owed(pending, ids);
      InvokeKeeps(s, r.serial, r.handler, Lost, now, Owed(pending, ids[1..]));
      hide Inv;
      LoseAllKeeps(s', pending, ids[1..], now);
    }
  }

  lemma DroppedKeeps(s: State, ids: seq<string>)
    requires Inv(s, {}) && Lists(ids, s.handlers.Keys)
    ensures forall id :: id in ids ==> id in s.handlers
    ensures SerialsDiffer(s.handlers, ids) && Inv(Dropped(s), Owed(s.handlers, ids))
  {
    assert forall id :: id in ids <==> id in s.handlers by {
      assert forall id :: id in ids <==> id in (set i | i in ids);
    }
    var s', owed := Dropped(s), Owed(s.handlers, ids);
    hide Decimal, Times;
    forall i: nat | i < |s.sent| ensures Debt(s', i, owed) == 1 {
      assert Debt(s, i, {}) == 1;
      if Pending(s, i) {
        assert Decimal(s.sent[i].number) in ids;
      }
      if i in owed {
        var id :| id in ids && s.handlers[id].serial == i;
        EntryIsPending(s, {}, id);
      }
      assert i in owed <==> Pending(s, i);
    }
    forall i | i in owed ensures i < |s.sent| {
      var id :| id in ids && s.handlers[id].serial == i;
      EntryIsPending(s, {}, id);
    }
    forall i, j | 0 <= i < j < |ids| ensures s.handlers[ids[i]].serial != s.handlers[ids[j]].serial {
      EntryIsPending(s, {}, ids[i]);
      EntryIsPending(s, {}, ids[j]);
    }
  }

  lemma StepKeeps(s: State, e: Event)
    requires Inv(s, {}) && Possible(s, e)
    ensures Inv(Step(s, e), {})
  {
    match e
    case Sending(h, now) => SendKeeps(s, h, now, {});
    case Line(id, reply, now) => CompleteKeeps(s, id, reply, now);
    case BadLine =>
    case Sweep(ids, now) => TimeOutAllKeeps(s, ids, now);
    case SetTimeout(ms) => SameButFlags(s, Step(s, e));
    case Connected => SameButFlags(s, Step(s, e));
    case Disconnected(ids, now) =>
      DroppedKeeps(s, ids);
      hide Inv;
      LoseAllKeeps(Dropped(s), s.handlers, ids, now);
  }

  lemma SameButFlags(s: State, s': State)
    requires Inv(s, {}) && (s.connected ==> s'.connected)
    requires s' == s.(connected := s'.connected, timeoutMs := s'.timeoutMs)
    ensures Inv(s', {})
  {
    forall i: nat | i < |s.sent| ensures Debt(s', i, {}) == 1 {
      assert Debt(s, i, {}) == 1;
      assert Pending(s', i) == Pending(s, i);
    }
    forall id | id in s'.handlers ensures OwnsEntry(s', id) {
      assert OwnsEntry(s, id);
    }
  }

  lemma StepGrows(s: State, e: Event)
    requires Possible(s, e)
    ensures s.lost <= Step(s, e).lost
    ensures e.Disconnected? ==> !Step(s, e).connected
  {
    match e
    case Sending(h, now) => SendGrows(s, h, now);
    case Line(id, reply, now) => CompleteGrows(s, id, reply, now);
    case BadLine =>
    case Sweep(ids, now) => TimeOutAllGrows(s, ids, now);
    case SetTimeout(_) =>
    case Connected =>
    case Disconnected(ids, now) => LoseAllGrows(Dropped(s), s.handlers, ids, now);
  }

  lemma {:induction false} RunKeeps(states: seq<State>, events: seq<Event>, t: nat)
    requires IsRun(states, events) && t <= |events|
    ensures Inv(states[t], {})
  {
    if t == 0 {
    } else {
      assert Follows(states, events, t - 1);
      hide IsRun;
      RunKeeps(states, events, t - 1);
      StepKeeps(states[t - 1], events[t - 1]);
    }
  }

  // ---- What it means ----

  /** At every point of every run each request ever made is exactly one of: pending, delivered once, or lost; the two
      tables have the same ids; and until the id counter comes round nothing is lost and all ids are below the next. */
  lemma ExactlyOnce(states: seq<State>, events: seq<Event>, t: nat, serial: nat)
    requires IsRun(states, events) && t <= |events| && serial < |states[t].sent|
    ensures var s := states[t];
      && Times(s.log, serial) == (if Pending(s, serial) || serial in s.lost then 0 else 1)
      && !(Pending(s, serial) && serial in s.lost)
      && s.handlers.Keys == s.stamps.Keys
      && (Fresh(s) ==> s.lost == {} && (s.sent[serial].Issued? ==> s.sent[serial].number < s.nextId))
  {
    RunKeeps(states, events, t);
    assert Debt(states[t], serial, {}) == 1;
  }

  ghost predicate Accounted(s: State) {
    forall serial :: 0 <= serial < |s.sent| ==> Times(s.log, serial) == if Pending(s, serial) then 0 else 1
  }

  /** So every request is pending or delivered once if and only if no send has replaced a pending entry. */
  lemma AccountedIffNoneLost(states: seq<State>, events: seq<Event>, t: nat)
    requires IsRun(states, events) && t <= |events|
    ensures Accounted(states[t]) <==> states[t].lost == {}
  {
    RunKeeps(states, events, t);
    var s := states[t];
    forall serial: nat | serial < |s.sent|
      ensures Times(s.log, serial) == (if Pending(s, serial) || serial in s.lost then 0 else 1)
      ensures !(Pending(s, serial) && serial in s.lost)
    {
      ExactlyOnce(states, events, t, serial);
    }
    hide Inv, IsRun, Pending, Times;
    if r :| r in s.lost {
      LostIsSent(states, events, t, r);
      assert Times(s.log, r) == 0;
    }
  }

  lemma LostIsSent(states: seq<State>, events: seq<Event>, t: nat, r: nat)
    requires IsRun(states, events) && t <= |events| && r in states[t].lost
    ensures r < |states[t].sent|
  {
    RunKeeps(states, events, t);
  }

  /** Nothing is delivered that was not sent, and no entry of the table is without its request. */
  lemma NothingInvented(states: seq<State>, events: seq<Event>, t: nat)
    requires IsRun(states, events) && t <= |events|
    ensures var s := states[t];
      && (forall i :: i >= |s.sent| ==> Times(s.log, i) == 0)
      && (forall id :: id in s.handlers ==> Pending(s, s.handlers[id].serial))
  {
    RunKeeps(states, events, t);
    forall id | id in states[t].handlers ensures Pending(states[t], states[t].handlers[id].serial) {
      EntryIsPending(states[t], {}, id);
    }
  }

  /** After a disconnect nothing is left waiting: every request so far has been delivered exactly once or is lost. */
  lemma NonePendingAfterDisconnect(states: seq<State>, events: seq<Event>, t: nat, serial: nat)
    requires IsRun(states, events) && t < |events|
    requires events[t].Disconnected? && serial < |states[t + 1].sent|
    ensures var s := states[t + 1];
      Times(s.log, serial) == (if serial in s.lost then 0 else 1) && s.handlers == map[] && s.stamps == map[]
  {
    assert Follows(states, events, t);
    StepGrows(states[t], events[t]);
    RunKeeps(states, events, t + 1);
    assert Debt(states[t + 1], serial, {}) == 1;
    assert states[t + 1].stamps.Keys == {};
  }

  /** While numbers rise, only the request that was given an id can be found under it. */
  lemma OnlyOwner(s: State, serial: nat)
    requires Inv(s, {}) && NumbersRise(s) && serial < |s.sent| && s.sent[serial].Issued?
    requires Decimal(s.sent[serial].number) in s.handlers
    ensures Pending(s, serial)
  {
    var id := Decimal(s.sent[serial].number);
    assert OwnsEntry(s, id);
    var r := s.handlers[id].serial;
    DecimalInjective(s.sent[serial].number, s.sent[r].number);
    hide Decimal, Inv;
    assert r == serial;
  }

  lemma LateIdIsUnknown(s: State, serial: nat)
    requires Inv(s, {}) && NumbersRise(s) && serial < |s.sent| && s.sent[serial].Issued? && Times(s.log, serial) == 1
    ensures Decimal(s.sent[serial].number) !in s.handlers
  {
    assert Debt(s, serial, {}) == 1;
    hide Decimal;
    if Decimal(s.sent[serial].number) in s.handlers {
      OnlyOwner(s, serial);
    }
  }

  /** A response to a request that has already been delivered changes nothing and reaches nobody, if and only if its
      id is not in the table; and that is so until the id counter comes round. */
  lemma LateResponseIsDropped(states: seq<State>, events: seq<Event>, t: nat, serial: nat)
    requires IsRun(states, events) && t < |events| && events[t].Line?
    requires serial < |states[t].sent| && states[t].sent[serial].Issued?
    requires events[t].id == Decimal(states[t].sent[serial].number) && Times(states[t].log, serial) == 1
    ensures states[t + 1] == states[t] <==> events[t].id !in states[t].handlers
    ensures Fresh(states[t]) ==> states[t + 1] == states[t]
  {
    assert Follows(states, events, t);
    RunKeeps(states, events, t);
    var s, e := states[t], events[t];
    assert s.handlers.Keys == s.stamps.Keys;
    if Fresh(s) {
      LateIdIsUnknown(s, serial);
    }
    hide IsRun, Times, Decimal, Inv;
    CompleteIsIdle(s, e.id, e.reply, e.now);
    assert states[t + 1] == Complete(s, e.id, e.reply, e.now);
  }

  lemma CompleteIsIdle(s: State, id: string, o: Outcome, now: int)
    requires s.handlers.Keys == s.stamps.Keys
    ensures Complete(s, id, o, now) == s <==> id !in s.handlers
  {
    KnownIdDelivers(s, id, o, now);
    if id !in s.handlers {
      assert s.handlers - {id} == s.handlers && s.stamps - {id} == s.stamps;
    }
    hide Invoke;
  }

  lemma KnownIdDelivers(s: State, id: string, o: Outcome, now: int)
    ensures id in s.handlers ==> Complete(s, id, o, now).log != s.log
  {
    if id in s.handlers {
      InvokeGrows(Taken(s, id), s.handlers[id].serial, s.handlers[id].handler, o, now);
    }
  }

  lemma {:induction false} TimesOfPrefix(log: seq<Delivery>, more: seq<Delivery>, serial: nat)
    requires log <= more
    ensures Times(log, serial) <= Times(more, serial)
  {
    if log != more {
      TimesOfPrefix(log, more[..|more| - 1], serial);
    }
  }

  /** A response to a pending request is delivered first of all to that request. */
  lemma ResponseReachesItsRequest(states: seq<State>, events: seq<Event>, t: nat, serial: nat)
    requires IsRun(states, events) && t < |events| && events[t].Line?
    requires Pending(states[t], serial) && events[t].id == Decimal(states[t].sent[serial].number)
    ensures states[t].log + [Delivery(serial, events[t].reply)] <= states[t + 1].log
    ensures Times(states[t + 1].log, serial) == 1
  {
    var s, s', e := states[t], states[t + 1], events[t];
    assert Follows(states, events, t);
    RunKeeps(states, events, t + 1);
    hide IsRun;
    var r := s.handlers[e.id];
    InvokeGrows(Taken(s, e.id), r.serial, r.handler, e.reply, e.now);
    assert s' == Invoke(Taken(s, e.id), r.serial, r.handler, e.reply, e.now);
    hide Step, Invoke, Taken;
    TimesOfOneMore(s.log, Delivery(serial, e.reply));
    TimesOfPrefix(s.log + [Delivery(serial, e.reply)], s'.log, serial);
    DeliveredOnce(s', serial);
  }

  lemma DeliveredOnce(s: State, serial: nat)
    requires Inv(s, {}) && Times(s.log, serial) > 0
    ensures Times(s.log, serial) == 1
  {
    assert serial < |s.sent| ==> Debt(s, serial, {}) == 1;
    hide Times;
  }

  // ---- When a request is lost ----

  /** A send loses a request if and only if the id it is about to use is still in the table. */
  lemma SendLosesIff(states: seq<State>, events: seq<Event>, t: nat)
    requires IsRun(states, events) && t < |events| && events[t].Sending? && states[t].connected
    ensures states[t + 1].lost != states[t].lost <==> Decimal(states[t].nextId) in states[t].handlers
  {
    assert Follows(states, events, t);
    RunKeeps(states, events, t);
    var s := states[t];
    if Decimal(s.nextId) in s.handlers {
      ReplacedWasPending(s, {}, s.handlers[Decimal(s.nextId)].serial);
    }
  }

  lemma {:induction false} LostStays(states: seq<State>, events: seq<Event>, t: nat, u: nat)
    requires IsRun(states, events) && t <= u <= |events|
    ensures states[t].lost <= states[u].lost
  {
    if t < u {
      assert Follows(states, events, u - 1);
      StepGrows(states[u - 1], events[u - 1]);
      LostStays(states, events, t, u - 1);
    }
  }

  /** Such a send replaces the older request's entry: at every later point of the run that request is neither pending
      nor has it been delivered. */
  lemma ReusedIdLosesRequest(states: seq<State>, events: seq<Event>, t: nat, u: nat)
    requires IsRun(states, events) && t < u <= |events| && events[t].Sending? && states[t].connected
    requires Decimal(states[t].nextId) in states[t].handlers
    ensures var r := states[t].handlers[Decimal(states[t].nextId)].serial;
      && Pending(states[t], r) && r < |states[u].sent|
      && Times(states[u].log, r) == 0 && !Pending(states[u], r)
  {
    assert Follows(states, events, t);
    RunKeeps(states, events, t);
    var s := states[t];
    var r := s.handlers[Decimal(s.nextId)].serial;
    ReplacedWasPending(s, {}, r);
    LostStays(states, events, t + 1, u);
    assert r in states[u].lost;
    LostIsSent(states, events, u, r);
    hide IsRun, Inv, Times, Pending;
    ExactlyOnce(states, events, u, r);
  }

  const NO_REPLY: Handler := Handler([], [])

  lemma OneMoreEvent(states: seq<State>, events: seq<Event>, e: Event) returns (states': seq<State>, events': seq<Event>)
    requires IsRun(states, events) && Possible(states[|events|], e)
    ensures IsRun(states', events') && |events'| == |events| + 1
    ensures states'[|events'|] == Step(states[|events|], e)
  {
    states', events' := states + [Step(states[|events|], e)], events + [e];
    hide Step, Possible;
    forall t: nat | t < |events'| ensures Follows(states', events', t) {
      assert t < |events| ==> Follows(states, events, t);
    }
  }

  /** Sending `k` requests that are never answered. The first keeps its entry until the counter has come round. */
  lemma {:induction false} SendMany(k: nat) returns (states: seq<State>, events: seq<Event>)
    requires 0 < k <= TWO_64
    ensures IsRun(states, events)
    ensures var s := states[|events|];
      && s.connected && s.nextId == (1 + k) % TWO_64
      && Decimal(1) in s.handlers && s.handlers[Decimal(1)].serial == 0
    decreases k
  {
    if k == 1 {
      states, events := OneMoreEvent([INIT], [], Connected);
      states, events := OneMoreEvent(states, events, Sending(NO_REPLY, 0));
      SmallMod(2, TWO_64);
    } else {
      states, events := SendMany(k - 1);
      DecimalInjective(k % TWO_64, 1);
      CounterStep(k);
      hide Decimal;
      states, events := OneMoreEvent(states, events, Sending(NO_REPLY, 0));
    }
  }

  lemma CounterStep(k: nat)
    requires 1 < k <= TWO_64
    ensures k % TWO_64 != 1 && (k % TWO_64 + 1) % TWO_64 == (1 + k) % TWO_64
  {
    if k < TWO_64 {
      SmallMod(k, TWO_64);
    } else {
      ModPlus(TWO_64, 1, 0);
      ModPlus(TWO_64, 1, 1);
    }
  }

  /** Such a run exists: after 2^64 sends the first request still waits, and the next send loses it. */
  lemma LostRequestRun() returns (states: seq<State>, events: seq<Event>)
    ensures IsRun(states, events) && 0 in states[|events|].lost && !Accounted(states[|events|])
  {
    states, events := SendMany(TWO_64);
    ModPlus(TWO_64, 1, 1);
    SmallMod(1, TWO_64);
    states, events := OneMoreEvent(states, events, Sending(NO_REPLY, 0));
    hide IsRun, Decimal;
    AccountedIffNoneLost(states, events, |events|);
  }

  // ---- What a lost connection looks like ----

  /** The handler of a download sends the verifying upload unless its result has an "error" key. */
  const DOWNLOAD_HANDLER: Handler := Handler([], [Handler([], [])])

  /** A download cut off by a disconnect is therefore taken for a success: its upload is sent, and fails at once. */
  lemma LostDownloadLooksDone(s: State, serial: nat, now: int)
    requires !s.connected
    ensures Invoke(s, serial, DOWNLOAD_HANDLER, Lost, now).log
      == s.log + [Delivery(serial, Lost), Delivery(|s.sent|, NotConnected)]
  {
    FailureShowsUnlessLost(Lost);
    FailureShowsUnlessLost(NotConnected);
    var upload := DOWNLOAD_HANDLER.onPlain[0];
    var s1 := Logged(s, serial, Lost);
    var s2 := s1.(sent := s1.sent + [NotIssued]);
    assert SendAll(s1, [upload], now) == SendAll(Send(s1, upload, now), [], now);
    assert Send(s1, upload, now) == Invoke(s2, |s.sent|, upload, NotConnected, now);
    assert Invoke(s2, |s.sent|, upload, NotConnected, now) == Logged(s2, |s.sent|, NotConnected);
  }
}
