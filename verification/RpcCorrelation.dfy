/**
  Request/response correlation on a storer link (server/internal/gateway/storer/rpc_client.go, link_runtime.go) as
  an interleaving step machine. Any number of callers register a request id, write a frame and wait; the link's
  frame loop hands responses over; timeouts and the disconnect race with both. Each section under `pendingMu` and
  each channel operation is one step.
*/
module RpcCorrelation {
  import opened Common

  /** A response frame; `id` is the request id of its header. */
  datatype Reply = Reply(id: nat, payload: seq<byte>)

  datatype ChanOp = Send | Close

  /** A response channel: every operation ever done on it, and the reply it buffers. */
  datatype Chan = Chan(log: seq<ChanOp>, buffer: Option<Reply>)

  datatype Outcome = Got(reply: Reply) | ConnectionClosed | WriteFailed | TimedOut

  /** Where a call stands: it has its request id, its channel is registered, its frame is written, the write failed,
      its timer fired, or it returned. */
  datatype Place = Numbered | Registered | Waiting | Unsent | Expired | Finished(outcome: Outcome)

  /** One `roundTripWithTimeout`; its channel is its own. */
  datatype Call = Call(id: nat, timed: bool, place: Place, chan: Chan)

  /** Where the frame loop stands in `handleResponse`. */
  datatype Handler = Reading | Popped(call: Option<nat>, reply: Reply) | Sent(answered: nat)

  /** `link` says how far `Serve` has come: serving, its frame loop ended, and `closePending` done. */
  datatype Link = Serving | FramesEnded | Disconnected

  datatype Sys = Sys(
    nextId: nat, pending: map<nat, nat>, calls: map<nat, Call>, handler: Handler, connOpen: bool, link: Link)

  datatype Action =
    | TakeId(call: nat, timed: bool)
    | Register(call: nat)
    | WriteFrame(call: nat, succeeds: bool)
    | Receive(call: nat)
    | TimerFires(call: nat)
    | Withdraw(call: nat)
    | PopResponse(reply: Reply)
    | SendResponse
    | CloseResponse
    | CloseConn
    | EndFrames
    | ClosePending

  /** `nextNonZeroRequestID`. */
  function NextRequestId(n: nat): nat {
    if (n + 1) % U64_LIMIT == 0 then 1 else (n + 1) % U64_LIMIT
  }

  /** Request ids count up and skip zero where the 64-bit counter wraps. */
  lemma NextRequestIdCounts(n: nat)
    requires n < U64_LIMIT
    ensures NextRequestId(n) == if n == 0xFFFF_FFFF_FFFF_FFFF then 1 else n + 1
  {
  }

  predicate IsClosed(chan: Chan) { Close in chan.log }

  predicate At(s: Sys, call: nat, place: Place) {
    call in s.calls && s.calls[call].place == place
  }

  predicate Enabled(s: Sys, a: Action) {
    match a
    case TakeId(call, _) => call !in s.calls
    case Register(call) => At(s, call, Numbered)
    case WriteFrame(call, succeeds) => At(s, call, Registered) && (succeeds ==> s.connOpen)
    case Receive(call) => At(s, call, Waiting) && (s.calls[call].chan.buffer.Some? || IsClosed(s.calls[call].chan))
    case TimerFires(call) => At(s, call, Waiting) && s.calls[call].timed
    case Withdraw(call) => At(s, call, Unsent) || At(s, call, Expired)
    case PopResponse(_) => s.handler == Reading && s.link == Serving
    case SendResponse => s.handler.Popped? && (s.handler.call.Some? ==> s.handler.call.value in s.calls)
    case CloseResponse => s.handler.Sent? && s.handler.answered in s.calls
    case CloseConn => true
    case EndFrames => s.handler == Reading && s.link == Serving
    case ClosePending => s.link == FramesEnded && !s.connOpen
  }

  function SetCall(s: Sys, call: nat, c: Call): Sys {
    s.(calls := s.calls[call := c])
  }

  function Closed(c: Call): Call {
    c.(chan := c.chan.(log := c.chan.log + [Close]))
  }

  function Next(s: Sys, a: Action): Sys
    requires Enabled(s, a)
  {
    match a
    case TakeId(call, timed) =>
      var id := NextRequestId(s.nextId);
      SetCall(s, call, Call(id, timed, Numbered, Chan([], None))).(nextId := id)
    case Register(call) =>
      SetCall(s, call, s.calls[call].(place := Registered)).(pending := s.pending[s.calls[call].id := call])
    case WriteFrame(call, succeeds) =>
      SetCall(s, call, s.calls[call].(place := if succeeds then Waiting else Unsent))
    case Receive(call) =>
      var c := s.calls[call];
      (match c.chan.buffer
       case Some(reply) => SetCall(s, call, c.(place := Finished(Got(reply)), chan := c.chan.(buffer := None)))
       case None => SetCall(s, call, c.(place := Finished(ConnectionClosed))))
    case TimerFires(call) => SetCall(s, call, s.calls[call].(place := Expired))
    case Withdraw(call) =>
      var c := s.calls[call];
      SetCall(s, call, c.(place := Finished(if c.place == Unsent then WriteFailed else TimedOut)))
        .(pending := s.pending - {c.id})
    case PopResponse(reply) =>
      s.(handler := Popped(if reply.id in s.pending then Some(s.pending[reply.id]) else None, reply),
         pending := s.pending - {reply.id})
    case SendResponse =>
      (match s.handler.call
       case None => s.(handler := Reading)
       case Some(call) =>
         var chan := s.calls[call].chan;
         SetCall(s, call, s.calls[call].(chan := Chan(chan.log + [Send], Some(s.handler.reply))))
           .(handler := Sent(call)))
    case CloseResponse => SetCall(s, s.handler.answered, Closed(s.calls[s.handler.answered])).(handler := Reading)
    case CloseConn => s.(connOpen := false)
    case EndFrames => s.(link := FramesEnded)
    case ClosePending => PendingClosed(s)
  }

  /** `closePending`. */
  function PendingClosed(s: Sys): Sys {
    s.(link := Disconnected, pending := map[],
       calls := map call | call in s.calls ::
         if call in s.pending.Values then Closed(s.calls[call]) else s.calls[call])
  }

  predicate Initial(s: Sys) {
    && s.pending == map[] && s.calls == map[] && s.handler == Reading && s.connOpen && s.link == Serving
    && s.nextId == 0
  }

  ghost predicate ValidRun(s: Sys, actions: seq<Action>)
    decreases |actions|
  {
    actions != [] ==> Enabled(s, actions[0]) && ValidRun(Next(s, actions[0]), actions[1..])
  }

  ghost function After(s: Sys, actions: seq<Action>): Sys
    requires ValidRun(s, actions)
    decreases |actions|
  {
    if actions == [] then s else After(Next(s, actions[0]), actions[1..])
  }

  // ---------------------------------------------------------------- the invariant

  predicate HandlerHolds(s: Sys, call: nat) { s.handler.Popped? && s.handler.call == Some(call) }

  predicate IsPending(s: Sys, call: nat) {
    call in s.calls && s.calls[call].id in s.pending && s.pending[s.calls[call].id] == call
  }

  /** The channel of a call: untouched while the call is pending or its reply is in hand, then at most one send and
      one close. A buffered reply has the call's own id. */
  predicate ChanOk(s: Sys, call: nat) {
    call in s.calls ==>
      var chan := s.calls[call].chan;
      && chan.log in {[], [Send], [Close], [Send, Close]}
      && (IsPending(s, call) || HandlerHolds(s, call) ==> chan.log == [])
      && (chan.log == [Send] <==> s.handler == Sent(call))
      && (chan.log == [] || chan.log == [Close] ==> chan.buffer == None)
      && (chan.buffer.Some? ==> chan.buffer.value.id == s.calls[call].id)
  }

  /** The caller has not looked at its channel yet. */
  predicate Unanswered(p: Place) { p == Registered || p == Waiting }

  /** A waiting call that has neither a reply nor a closed channel is pending or about to get its reply; a finished
      one is not pending and got no reply but its own. */
  predicate PlaceOk(s: Sys, call: nat) {
    call in s.calls ==>
      var c := s.calls[call];
      && 0 < c.id <= s.nextId
      && (c.place == Numbered ==> c.chan == Chan([], None) && !IsPending(s, call) && !HandlerHolds(s, call))
      && (Unanswered(c.place) && c.chan.log == [] ==> IsPending(s, call) || HandlerHolds(s, call))
      && (Unanswered(c.place) && c.chan.log != [] && c.chan.log != [Close] ==> c.chan.buffer.Some?)
      && (c.place.Finished? ==> !IsPending(s, call))
      && (c.place.Finished? && c.place.outcome.Got? ==> c.place.outcome.reply.id == c.id)
      && (s.link == Disconnected && IsPending(s, call) ==> c.place == Registered || c.place == Unsent)
  }

  /** Every pending entry names the one call that has its id. */
  predicate PendingOk(s: Sys, id: nat) {
    id in s.pending ==> s.pending[id] in s.calls && s.calls[s.pending[id]].id == id
  }

  ghost predicate IdsDistinct(s: Sys) {
    forall call, call' :: call in s.calls && call' in s.calls && s.calls[call].id == s.calls[call'].id ==> call == call'
  }

  predicate HandlerOk(s: Sys) {
    match s.handler
    case Reading => true
    case Popped(None, _) => true
    case Popped(Some(call), reply) => call in s.calls && s.calls[call].id == reply.id && reply.id !in s.pending
    case Sent(call) => call in s.calls
  }

  ghost predicate Inv(s: Sys) {
    && (forall call :: ChanOk(s, call))
    && (forall call :: PlaceOk(s, call))
    && (forall id :: PendingOk(s, id))
    && IdsDistinct(s)
    && HandlerOk(s)
    && (s.link != Serving ==> s.handler == Reading)
    && (s.link == Disconnected ==> !s.connOpen)
  }

  function IdsTaken(actions: seq<Action>): nat {
    if actions == [] then 0 else (if actions[0].TakeId? then 1 else 0) + IdsTaken(actions[1..])
  }

  /** The request ids are not used up: fewer than 2^64 calls. */
  predicate IdsLeft(s: Sys, actions: seq<Action>) {
    s.nextId + IdsTaken(actions) < U64_LIMIT
  }

  lemma OneStepIds(s: Sys, actions: seq<Action>)
    requires actions != [] && Enabled(s, actions[0]) && IdsLeft(s, actions)
    ensures IdsLeft(s, [actions[0]]) && IdsLeft(Next(s, actions[0]), actions[1..])
    ensures actions[0].TakeId? ==> s.nextId + 1 < U64_LIMIT
  {
    assert IdsTaken([actions[0]]) == if actions[0].TakeId? then 1 else 0;
  }

  lemma HandlerKept(s: Sys, a: Action)
    requires Inv(s) && Enabled(s, a) && (a.TakeId? ==> s.nextId + 1 < U64_LIMIT)
    ensures HandlerOk(Next(s, a))
  {
    if a.PopResponse? {
      assert PendingOk(s, a.reply.id);
    }
    if s.handler.Popped? && s.handler.call.Some? {
      assert PlaceOk(s, s.handler.call.value);
    }
  }

  lemma IdsStayDistinct(s: Sys, a: Action)
    requires Inv(s) && Enabled(s, a) && (a.TakeId? ==> s.nextId + 1 < U64_LIMIT)
    ensures IdsDistinct(Next(s, a))
  {
    forall call | call in s.calls ensures s.calls[call].id <= s.nextId {
      assert PlaceOk(s, call);
    }
  }

  lemma PendingKept(s: Sys, a: Action, id: nat)
    requires Inv(s) && Enabled(s, a) && (a.TakeId? ==> s.nextId + 1 < U64_LIMIT)
    ensures PendingOk(Next(s, a), id)
  {
    assert PendingOk(s, id);
  }

  /** A pending id that names a call makes the call pending. */
  lemma PendingCalls(s: Sys, call: nat)
    requires Inv(s) && call in s.calls
    ensures call in s.pending.Values <==> IsPending(s, call)
  {
    if call in s.pending.Values {
      var id :| id in s.pending && s.pending[id] == call;
      assert PendingOk(s, id);
    }
  }

  lemma CallKept(s: Sys, a: Action, call: nat)
    requires Inv(s) && Enabled(s, a) && (a.TakeId? ==> s.nextId + 1 < U64_LIMIT)
    ensures ChanOk(Next(s, a), call) && PlaceOk(Next(s, a), call)
  {
    assert ChanOk(s, call) && PlaceOk(s, call);
    match a
    case TakeId(other, timed) => TakeIdKeeps(s, other, timed, call);
    case Register(other) => RegisterKeeps(s, other, call);
    case Withdraw(other) => WithdrawKeeps(s, other, call);
    case PopResponse(reply) => PopKeeps(s, reply, call);
    case SendResponse => SendKeeps(s, call);
    case CloseResponse => CloseKeeps(s, call);
    case ClosePending => ClosePendingKeeps(s, call);
    case Receive(other) => ReceiveKeeps(s, other, call);
    case _ =>
  }

  lemma ClosePendingKeeps(s: Sys, call: nat)
    requires Inv(s) && Enabled(s, ClosePending)
    ensures ChanOk(Next(s, ClosePending), call) && PlaceOk(Next(s, ClosePending), call)
  {
    assert ChanOk(s, call) && PlaceOk(s, call);
    if call in s.calls {
      PendingCalls(s, call);
      assert [] + [Close] == [Close];
    }
  }

  lemma ReceiveKeeps(s: Sys, other: nat, call: nat)
    requires Inv(s) && Enabled(s, Receive(other))
    ensures ChanOk(Next(s, Receive(other)), call) && PlaceOk(Next(s, Receive(other)), call)
  {
    assert ChanOk(s, call) && PlaceOk(s, call) && ChanOk(s, other) && PlaceOk(s, other);
  }

  /** A fresh request id belongs to no pending call. */
  lemma TakeIdKeeps(s: Sys, other: nat, timed: bool, call: nat)
    requires Inv(s) && Enabled(s, TakeId(other, timed)) && s.nextId + 1 < U64_LIMIT
    ensures ChanOk(Next(s, TakeId(other, timed)), call) && PlaceOk(Next(s, TakeId(other, timed)), call)
  {
    assert ChanOk(s, call) && PlaceOk(s, call);
    assert HandlerOk(s) && PendingOk(s, s.nextId + 1);
  }

  lemma RegisterKeeps(s: Sys, other: nat, call: nat)
    requires Inv(s) && Enabled(s, Register(other))
    ensures ChanOk(Next(s, Register(other)), call) && PlaceOk(Next(s, Register(other)), call)
  {
    assert ChanOk(s, call) && PlaceOk(s, call) && ChanOk(s, other) && PlaceOk(s, other);
  }

  lemma WithdrawKeeps(s: Sys, other: nat, call: nat)
    requires Inv(s) && Enabled(s, Withdraw(other))
    ensures ChanOk(Next(s, Withdraw(other)), call) && PlaceOk(Next(s, Withdraw(other)), call)
  {
    assert ChanOk(s, call) && PlaceOk(s, call) && ChanOk(s, other) && PlaceOk(s, other);
  }

  lemma PopKeeps(s: Sys, reply: Reply, call: nat)
    requires Inv(s) && Enabled(s, PopResponse(reply))
    ensures ChanOk(Next(s, PopResponse(reply)), call) && PlaceOk(Next(s, PopResponse(reply)), call)
  {
    assert ChanOk(s, call) && PlaceOk(s, call) && PendingOk(s, reply.id);
  }

  lemma SendKeeps(s: Sys, call: nat)
    requires Inv(s) && Enabled(s, SendResponse)
    ensures ChanOk(Next(s, SendResponse), call) && PlaceOk(Next(s, SendResponse), call)
  {
    assert ChanOk(s, call) && PlaceOk(s, call);
    if s.handler.call.Some? {
      assert ChanOk(s, s.handler.call.value) && PlaceOk(s, s.handler.call.value);
      assert [] + [Send] == [Send];
    }
  }

  lemma CloseKeeps(s: Sys, call: nat)
    requires Inv(s) && Enabled(s, CloseResponse)
    ensures ChanOk(Next(s, CloseResponse), call) && PlaceOk(Next(s, CloseResponse), call)
  {
    assert ChanOk(s, call) && PlaceOk(s, call) && ChanOk(s, s.handler.answered) && PlaceOk(s, s.handler.answered);
    assert [Send] + [Close] == [Send, Close];
  }

  lemma NextKeepsInv(s: Sys, a: Action)
    requires Inv(s) && Enabled(s, a) && IdsLeft(s, [a])
    ensures Inv(Next(s, a))
  {
    OneStepIds(s, [a]);
    forall call ensures ChanOk(Next(s, a), call) && PlaceOk(Next(s, a), call) {
      CallKept(s, a, call);
    }
    forall id ensures PendingOk(Next(s, a), id) {
      PendingKept(s, a, id);
    }
    HandlerKept(s, a);
    IdsStayDistinct(s, a);
  }

  lemma {:induction false} RunKeepsInv(s: Sys, actions: seq<Action>)
    requires Inv(s) && ValidRun(s, actions) && IdsLeft(s, actions)
    ensures Inv(After(s, actions))
    decreases |actions|
  {
    if actions != [] {
      OneStepIds(s, actions);
      NextKeepsInv(s, actions[0]);
      RunKeepsInv(Next(s, actions[0]), actions[1..]);
    }
  }

  lemma InitialInv(s: Sys)
    requires Initial(s)
    ensures Inv(s)
  {
  }

  // ---------------------------------------------------------------- the guarantees

  /** In every run, whatever responses arrive, a caller only ever receives the reply with its own request id, and a
      channel sees at most one send and one close, with no send after the close, so no channel operation panics. */
  lemma RepliesMatchCalls(s: Sys, actions: seq<Action>, call: nat)
    requires Initial(s) && ValidRun(s, actions) && IdsLeft(s, actions)
    requires call in After(s, actions).calls
    ensures var c := After(s, actions).calls[call];
      && c.chan.log in {[], [Send], [Close], [Send, Close]}
      && (c.place.Finished? && c.place.outcome.Got? ==> c.place.outcome.reply.id == c.id)
  {
    InitialInv(s);
    RunKeepsInv(s, actions);
    assert ChanOk(After(s, actions), call) && PlaceOk(After(s, actions), call);
  }

  // ---------------------------------------------------------------- outcomes and their causes

  /** What the calls, the channels and the handler hold goes back to actions of the past. */
  ghost predicate History(s: Sys, past: seq<Action>) {
    && (s.handler.Popped? ==> PopResponse(s.handler.reply) in past)
    && (forall call :: CallHistory(s, past, call))
  }

  ghost predicate CallHistory(s: Sys, past: seq<Action>, call: nat) {
    call in s.calls ==>
      var c := s.calls[call];
      && (c.chan.buffer.Some? ==> PopResponse(c.chan.buffer.value) in past)
      && (c.chan.log == [Close] ==> ClosePending in past)
      && (c.place == Unsent ==> WriteFrame(call, false) in past)
      && (c.place == Expired || c.place == Finished(TimedOut) ==> c.timed)
      && (c.place == Expired ==> TimerFires(call) in past)
      && (c.place.Finished? ==> CauseOf(call, c.place.outcome) in past)
  }

  /** The action an outcome goes back to. */
  function CauseOf(call: nat, outcome: Outcome): Action {
    match outcome
    case Got(reply) => PopResponse(reply)
    case ConnectionClosed => ClosePending
    case WriteFailed => WriteFrame(call, false)
    case TimedOut => TimerFires(call)
  }

  /** The actions of the link on the channels of calls. */
  predicate IsHandlers(a: Action) { a == SendResponse || a == CloseResponse || a == ClosePending }

  lemma HistoryOfHandler(s: Sys, past: seq<Action>, a: Action, call: nat)
    requires Inv(s) && History(s, past) && Enabled(s, a) && IsHandlers(a) && call in s.calls
    ensures CallHistory(Next(s, a), past + [a], call)
  {
    assert ChanOk(s, call) && CallHistory(s, past, call);
    assert [] + [Send] == [Send] && [Send] + [Close] == [Send, Close] && [] + [Close] == [Close];
    PendingCalls(s, call);
  }

  lemma HistoryOfReceive(s: Sys, past: seq<Action>, call: nat)
    requires Inv(s) && History(s, past) && Enabled(s, Receive(call))
    ensures CallHistory(Next(s, Receive(call)), past + [Receive(call)], call)
  {
    assert ChanOk(s, call) && PlaceOk(s, call) && CallHistory(s, past, call);
    PendingCalls(s, call);
  }

  lemma CallHistoryKept(s: Sys, past: seq<Action>, a: Action, call: nat)
    requires Inv(s) && History(s, past) && Enabled(s, a)
    ensures CallHistory(Next(s, a), past + [a], call)
  {
    assert CallHistory(s, past, call);
    if IsHandlers(a) {
      if call in s.calls {
        HistoryOfHandler(s, past, a, call);
      }
    } else if a == Receive(call) {
      HistoryOfReceive(s, past, call);
    } else {
      hide Inv, History;
      assert a in past + [a];
    }
  }

  lemma HistoryKept(s: Sys, past: seq<Action>, a: Action)
    requires Inv(s) && History(s, past) && Enabled(s, a)
    ensures History(Next(s, a), past + [a])
  {
    forall call ensures CallHistory(Next(s, a), past + [a], call) {
      CallHistoryKept(s, past, a, call);
    }
    assert a in past + [a];
  }

  lemma {:induction false} RunHistory(s: Sys, past: seq<Action>, actions: seq<Action>)
    requires Inv(s) && History(s, past) && ValidRun(s, actions) && IdsLeft(s, actions)
    ensures History(After(s, actions), past + actions)
    decreases |actions|
  {
    hide Inv, Next, Enabled, IdsLeft, History;
    if actions == [] {
      assert past + actions == past;
    } else {
      OneStepIds(s, actions);
      NextKeepsInv(s, actions[0]);
      HistoryKept(s, past, actions[0]);
      RunHistory(Next(s, actions[0]), past + [actions[0]], actions[1..]);
      assert past + [actions[0]] + actions[1..] == past + actions;
    }
  }

  /** In every run each outcome has its cause: a call returns a reply only if exactly that reply, payload and all, came
      in; it reports a closed connection only after `closePending`, a failed write only if its own write failed, and a
      timeout only if it has a timer and that fired. */
  lemma OutcomeHasCause(s: Sys, actions: seq<Action>, call: nat)
    requires Initial(s) && ValidRun(s, actions) && IdsLeft(s, actions)
    requires call in After(s, actions).calls && After(s, actions).calls[call].place.Finished?
    ensures CauseOf(call, After(s, actions).calls[call].place.outcome) in actions
    ensures After(s, actions).calls[call].place == Finished(TimedOut) ==> After(s, actions).calls[call].timed
  {
    InitialInv(s);
    RunHistory(s, [], actions);
    assert [] + actions == actions;
    assert CallHistory(After(s, actions), actions, call);
  }

  // ---------------------------------------------------------------- delivery

  /** The reply that was popped for the call is on its way, or in the channel, or was received; nothing else was. */
  predicate Delivering(s: Sys, call: nat, reply: Reply) {
    && call in s.calls && s.calls[call].id == reply.id
    && var c := s.calls[call];
       && (c.place.Finished? && c.place.outcome.Got? ==> c.place.outcome.reply == reply)
       && if s.handler == Popped(Some(call), reply) then
            && c.chan == Chan([], None) && c.place != Numbered
            && (c.place.Finished? ==> !c.place.outcome.Got? && c.place.outcome != ConnectionClosed)
          else
            && c.chan.log in {[Send], [Send, Close]} && c.place != Numbered && c.place != Finished(ConnectionClosed)
            && c.chan.buffer == if c.place == Finished(Got(reply)) then None else Some(reply)
  }

  lemma HandlerDelivers(s: Sys, a: Action, call: nat, reply: Reply)
    requires Inv(s) && Enabled(s, a) && Delivering(s, call, reply) && IsHandlers(a)
    ensures Delivering(Next(s, a), call, reply)
  {
    assert ChanOk(s, call);
    assert [] + [Send] == [Send] && [Send] + [Close] == [Send, Close];
    PendingCalls(s, call);
  }

  lemma PopKeepsDelivering(s: Sys, other: Reply, call: nat, reply: Reply)
    requires Inv(s) && Enabled(s, PopResponse(other)) && Delivering(s, call, reply)
    ensures Delivering(Next(s, PopResponse(other)), call, reply)
  {
    assert ChanOk(s, call);
    PendingCalls(s, call);
  }

  lemma DeliveringKept(s: Sys, a: Action, call: nat, reply: Reply)
    requires Inv(s) && Enabled(s, a) && Delivering(s, call, reply) && IdsLeft(s, [a])
    ensures Delivering(Next(s, a), call, reply)
  {
    if IsHandlers(a) {
      HandlerDelivers(s, a, call, reply);
    } else if a.PopResponse? {
      PopKeepsDelivering(s, a.reply, call, reply);
    } else {
      hide Inv;
    }
  }

  lemma {:induction false} DeliveringInRun(s: Sys, actions: seq<Action>, call: nat, reply: Reply)
    requires Inv(s) && ValidRun(s, actions) && Delivering(s, call, reply) && IdsLeft(s, actions)
    ensures Delivering(After(s, actions), call, reply) && Inv(After(s, actions))
    decreases |actions|
  {
    hide Inv, Next, Enabled, IdsLeft, Delivering;
    if actions != [] {
      OneStepIds(s, actions);
      NextKeepsInv(s, actions[0]);
      DeliveringKept(s, actions[0], call, reply);
      DeliveringInRun(Next(s, actions[0]), actions[1..], call, reply);
    }
  }

  /** The first response with the id of a pending call is delivered to it: in every continuation in which the handler
      has handed it over, the call, if it still waits, receives exactly that reply, and if it has received
      something, it was that reply. Until then the handler's next step is enabled. */
  lemma PoppedIsDelivered(s: Sys, reply: Reply, actions: seq<Action>)
    requires Inv(s) && Enabled(s, PopResponse(reply)) && reply.id in s.pending
    requires ValidRun(Next(s, PopResponse(reply)), actions) && IdsLeft(Next(s, PopResponse(reply)), actions)
    ensures var call, end := s.pending[reply.id], After(Next(s, PopResponse(reply)), actions);
      && call in end.calls
      && (end.handler == Popped(Some(call), reply) ==> Enabled(end, SendResponse))
      && (end.handler != Popped(Some(call), reply) && At(end, call, Waiting) ==>
            Enabled(end, Receive(call)) && At(Next(end, Receive(call)), call, Finished(Got(reply))))
      && (end.calls[call].place.Finished? && end.calls[call].place.outcome.Got? ==>
            end.calls[call].place.outcome.reply == reply)
  {
    var call, s' := s.pending[reply.id], Next(s, PopResponse(reply));
    assert PendingOk(s, reply.id);
    assert ChanOk(s, call) && PlaceOk(s, call);
    OneStepIds(s, [PopResponse(reply)]);
    PopKeepsInv(s, reply);
    DeliveringInRun(s', actions, call, reply);
  }

  lemma PopKeepsInv(s: Sys, reply: Reply)
    requires Inv(s) && Enabled(s, PopResponse(reply))
    ensures Inv(Next(s, PopResponse(reply)))
  {
    var a := PopResponse(reply);
    forall call ensures ChanOk(Next(s, a), call) && PlaceOk(Next(s, a), call) {
      CallKept(s, a, call);
    }
    forall id ensures PendingOk(Next(s, a), id) {
      PendingKept(s, a, id);
    }
    HandlerKept(s, a);
    IdsStayDistinct(s, a);
  }

  /** A response that no pending call asked for changes nothing. */
  lemma StrayReplyIgnored(s: Sys, reply: Reply)
    requires Enabled(s, PopResponse(reply)) && reply.id !in s.pending
    ensures Enabled(Next(s, PopResponse(reply)), SendResponse)
    ensures Next(Next(s, PopResponse(reply)), SendResponse) == s
  {
    assert s.pending - {reply.id} == s.pending;
  }

  /** The handler's send never blocks or panics: the one-place buffer is empty and the channel open. */
  lemma SendFindsRoom(s: Sys)
    requires Inv(s) && s.handler.Popped? && s.handler.call.Some?
    ensures Enabled(s, SendResponse)
    ensures s.calls[s.handler.call.value].chan == Chan([], None)
  {
    assert ChanOk(s, s.handler.call.value);
  }

  /** How many steps of its own a call still has to take once the link is disconnected. */
  function StepsLeft(p: Place): nat {
    match p
    case Numbered => 3
    case Registered => 2
    case Waiting => 2
    case Unsent => 1
    case Expired => 1
    case Finished(_) => 0
  }

  /** The caller's own step after a disconnect. */
  function OwnStep(s: Sys, call: nat): Action
    requires call in s.calls
  {
    match s.calls[call].place
    case Numbered => Register(call)
    case Registered => WriteFrame(call, false)
    case Waiting => Receive(call)
    case Unsent => Withdraw(call)
    case Expired => Withdraw(call)
    case Finished(_) => CloseConn
  }

  /** After the connection was closed and `closePending` ran, no caller stays blocked: each unfinished call, also one
      that only then registers, has a step of its own that is enabled and brings it closer to returning. */
  lemma NobodyStaysBlocked(s: Sys, call: nat)
    requires Inv(s) && s.link == Disconnected && call in s.calls && !s.calls[call].place.Finished?
    ensures Enabled(s, OwnStep(s, call))
    ensures StepsLeft(Next(s, OwnStep(s, call)).calls[call].place) < StepsLeft(s.calls[call].place)
  {
    assert ChanOk(s, call) && PlaceOk(s, call);
  }

  /** The steps of others never set a call back or block it again. */
  lemma OthersDoNotBlock(s: Sys, a: Action, call: nat)
    requires Inv(s) && s.link == Disconnected && call in s.calls && Enabled(s, a) && IdsLeft(s, [a])
    ensures Next(s, a).link == Disconnected && call in Next(s, a).calls
    ensures StepsLeft(Next(s, a).calls[call].place) <= StepsLeft(s.calls[call].place)
  {
    assert ChanOk(s, call) && PlaceOk(s, call);
  }

  /** The steps of the caller itself. */
  predicate IsOwn(a: Action, call: nat) {
    a == Register(call) || a == Receive(call) || a == TimerFires(call) || a == Withdraw(call)
    || (a.WriteFrame? && a.call == call)
  }

  function OwnSteps(actions: seq<Action>, call: nat): nat {
    if actions == [] then 0 else (if IsOwn(actions[0], call) then 1 else 0) + OwnSteps(actions[1..], call)
  }

  /** Every step a caller can take brings its call closer to returning, whichever it takes. */
  lemma OwnStepAdvances(s: Sys, a: Action, call: nat)
    requires Inv(s) && s.link == Disconnected && call in s.calls && Enabled(s, a) && IsOwn(a, call)
    ensures StepsLeft(Next(s, a).calls[call].place) < StepsLeft(s.calls[call].place)
  {
  }

  lemma {:induction false} OwnStepsUseUp(s: Sys, actions: seq<Action>, call: nat)
    requires Inv(s) && s.link == Disconnected && call in s.calls && ValidRun(s, actions) && IdsLeft(s, actions)
    ensures var end := After(s, actions);
      && Inv(end) && end.link == Disconnected && call in end.calls
      && StepsLeft(end.calls[call].place) + OwnSteps(actions, call) <= StepsLeft(s.calls[call].place)
    decreases |actions|
  {
    hide Inv, Next, Enabled, StepsLeft, IsOwn, IdsLeft;
    if actions != [] {
      var a := actions[0];
      OneStepIds(s, actions);
      NextKeepsInv(s, a);
      OthersDoNotBlock(s, a, call);
      if IsOwn(a, call) {
        OwnStepAdvances(s, a, call);
      }
      OwnStepsUseUp(Next(s, a), actions[1..], call);
    }
  }

  /** In every run, once the link is disconnected, a call has returned after at most three steps of its own; until
      then its next step is enabled, whatever the others do. */
  lemma CallsReturn(s0: Sys, before: seq<Action>, actions: seq<Action>, call: nat)
    requires Initial(s0) && ValidRun(s0, before) && IdsLeft(s0, before)
    requires After(s0, before).link == Disconnected && call in After(s0, before).calls
    requires ValidRun(After(s0, before), actions) && IdsLeft(After(s0, before), actions)
    ensures var end := After(After(s0, before), actions);
      && call in end.calls && OwnSteps(actions, call) <= 3
      && (OwnSteps(actions, call) == 3 ==> end.calls[call].place.Finished?)
      && (!end.calls[call].place.Finished? ==> Enabled(end, OwnStep(end, call)))
  {
    hide Inv, Next, Enabled, Initial, IsOwn;
    InitialInv(s0);
    RunKeepsInv(s0, before);
    OwnStepsUseUp(After(s0, before), actions, call);
    var end := After(After(s0, before), actions);
    if !end.calls[call].place.Finished? {
      NobodyStaysBlocked(end, call);
    }
  }

  // ---------------------------------------------------------------- were the order of `Serve` another

  /** A `Serve` that disconnects before it closes the connection: `closePending` runs when the frame loop ended,
      whether or not the connection is closed. */
  predicate EarlyEnabled(s: Sys, a: Action) {
    if a == ClosePending then s.link == FramesEnded else Enabled(s, a)
  }

  function EarlyNext(s: Sys, a: Action): Sys
    requires EarlyEnabled(s, a)
  {
    if a == ClosePending then PendingClosed(s) else Next(s, a)
  }

  ghost predicate EarlyRun(s: Sys, actions: seq<Action>)
    decreases |actions|
  {
    actions != [] ==> EarlyEnabled(s, actions[0]) && EarlyRun(EarlyNext(s, actions[0]), actions[1..])
  }

  ghost function EarlyAfter(s: Sys, actions: seq<Action>): Sys
    requires EarlyRun(s, actions)
    decreases |actions|
  {
    if actions == [] then s else EarlyAfter(EarlyNext(s, actions[0]), actions[1..])
  }

  /** The call waits, without a timer, on a channel that nobody will touch. */
  predicate Stuck(s: Sys, call: nat) {
    && s.link == Disconnected && s.handler == Reading
    && At(s, call, Waiting) && !s.calls[call].timed && s.calls[call].chan == Chan([], None)
  }

  lemma {:induction false} StuckForever(s: Sys, actions: seq<Action>, call: nat)
    requires Stuck(s, call) && EarlyRun(s, actions)
    ensures Stuck(EarlyAfter(s, actions), call)
    decreases |actions|
  {
    if actions != [] {
      StuckForever(EarlyNext(s, actions[0]), actions[1..], call);
    }
  }

  lemma StuckWaits(s: Sys, call: nat)
    requires Stuck(s, call)
    ensures At(s, call, Waiting) && forall a :: IsOwn(a, call) ==> !EarlyEnabled(s, a)
  {
  }

  const EARLY_RUN: seq<Action> := [EndFrames, ClosePending, TakeId(1, false), Register(1), WriteFrame(1, true)]

  lemma EarlyCallSticks(s: Sys)
    requires s.link == Disconnected && s.handler == Reading && s.connOpen
    requires 1 in s.calls && s.calls[1] == Call(s.calls[1].id, false, Registered, Chan([], None))
    ensures EarlyRun(s, [WriteFrame(1, true)]) && Stuck(EarlyAfter(s, [WriteFrame(1, true)]), 1)
  {
    EarlyStep(s, WriteFrame(1, true), []);
  }

  lemma EarlyRunSticks(s: Sys)
    requires Initial(s)
    ensures EarlyRun(s, EARLY_RUN) && Stuck(EarlyAfter(s, EARLY_RUN), 1)
  {
    hide EarlyRun, EarlyAfter, Stuck;
    var s1 := EarlyNext(s, EndFrames);
    var s2 := EarlyNext(s1, ClosePending);
    var s3 := EarlyNext(s2, TakeId(1, false));
    var s4 := EarlyNext(s3, Register(1));
    EarlyCallSticks(s4);
    EarlyStep(s3, Register(1), [WriteFrame(1, true)]);
    var run := [Register(1)] + [WriteFrame(1, true)];
    EarlyStep(s2, TakeId(1, false), run);
    run := [TakeId(1, false)] + run;
    EarlyStep(s1, ClosePending, run);
    run := [ClosePending] + run;
    EarlyStep(s, EndFrames, run);
    assert [EndFrames] + run == EARLY_RUN;
  }

  lemma EarlyStep(s: Sys, a: Action, rest: seq<Action>)
    requires EarlyEnabled(s, a) && EarlyRun(EarlyNext(s, a), rest)
    ensures EarlyRun(s, [a] + rest) && EarlyAfter(s, [a] + rest) == EarlyAfter(EarlyNext(s, a), rest)
  {
    assert ([a] + rest)[1..] == rest;
  }

  /** The order of `Serve` matters: were `closePending` to run before the connection is closed, a run leads to a call
      that registers and writes in between and then waits for ever, in every continuation, also once the connection
      is closed. */
  lemma CloseFirstMatters(s: Sys)
    requires Initial(s)
    ensures EarlyRun(s, EARLY_RUN)
    ensures forall rest :: EarlyRun(EarlyAfter(s, EARLY_RUN), rest) ==>
      var end := EarlyAfter(EarlyAfter(s, EARLY_RUN), rest);
      At(end, 1, Waiting) && forall a :: IsOwn(a, 1) ==> !EarlyEnabled(end, a)
  {
    hide Stuck, EarlyEnabled, EarlyRun, EarlyAfter, EARLY_RUN, At, IsOwn;
    EarlyRunSticks(s);
    forall rest | EarlyRun(EarlyAfter(s, EARLY_RUN), rest)
      ensures var end := EarlyAfter(EarlyAfter(s, EARLY_RUN), rest);
        At(end, 1, Waiting) && forall a :: IsOwn(a, 1) ==> !EarlyEnabled(end, a)
    {
      StuckForever(EarlyAfter(s, EARLY_RUN), rest, 1);
      StuckWaits(EarlyAfter(EarlyAfter(s, EARLY_RUN), rest), 1);
    }
  }
}
