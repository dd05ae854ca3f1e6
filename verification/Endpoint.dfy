/** One endpoint of the Debug Adapter Protocol (`Impl` in `src/session.cpp`, `Session::send` in
    `include/dap/session.h`), connected to a peer that may send anything.

    Each step is what one thread does between two points where others can interfere. Threads that
    send are in `pending` until their frame is on the wire or refused. */
module Endpoints {
  import opened Threads
  import opened Options
  import opened Serialization
  import opened RoundTrip
  import opened Messages

  const UINT32_MODULUS: nat := 0x1_0000_0000

  /** The value of the n-th `nextSeq++`, a `uint32_t` that starts at 1. */
  function Number(n: nat): nat { (n + 1) % UINT32_MODULUS }

  /** The same as the `int` that requests are filed under. */
  function SeqOf(n: nat): int {
    if Number(n) < UINT32_MODULUS / 2 then Number(n) else Number(n) - UINT32_MODULUS
  }

  /** A request and how far its sender has come. */
  datatype Phase = Numbered | Registered | Sending | OnWire | SendFailed | ErrorSet
  datatype Call = Call(command: string, args: Value, after: Option<nat>, phase: Phase)

  /** An entry of the table of pending responses. */
  datatype Entry = Entry(ty: Type, call: nat)

  /** A message on its way out, with the n-th number: a request, an event, or the reply to the request
      at index `at` of the log. `after` is set when a response-sent handler sends it: that of the request
      at this index of the log. */
  datatype Frame =
    | RequestF(n: nat, command: string, args: Value, after: Option<nat>)
    | EventF(n: nat, event: string, body: Value, after: Option<nat>)
    | ReplyF(n: nat, at: nat, requestSeq: int, command: string, out: Outcome, after: Option<nat>)

  /** Work for the dispatch thread, from the message at index `at` of the log. */
  datatype Payload =
    | RequestP(at: nat, seq_: int, command: string, args: Value)
    | EventP(at: nat, event: string, body: Value)

  /** One call of `promise::set_value`. */
  datatype SetBy = SendError | Answered(at: nat, effect: Effect)
  datatype PromiseSet = PromiseSet(call: nat, how: SetBy)

  /** The protocol, and the commands and events with a registered handler. */
  datatype Config = Config(p: Protocol, handlers: set<string>, eventHandlers: set<string>)

  /** `calls`, `refused`, `answered`, `log`, `dispatched`, `results`, `sets`, `replied` and `sent`
      are histories; a request stays in `calls` for good. */
  datatype Endpoint = Endpoint(
    cfg: Config,
    numbered: nat,                   // how often nextSeq was incremented
    calls: map<nat, Call>,
    table: map<int, Entry>,          // responseMap
    refused: set<nat>,               // calls whose number was taken when they were registered
    answered: map<nat, nat>,         // calls whose entry was taken out, and by which message
    log: seq<Json>,                  // messages received
    inbox: seq<Payload>,
    dispatched: seq<Payload>,
    results: map<nat, Outcome>,      // what the handler of the request at that index produced
    sets: seq<PromiseSet>,
    pending: map<Tid, Frame>,
    replied: set<nat>,               // requests for which send of the reply has returned
    sent: seq<Frame>,
    open: bool)

  // ------------------------------------------------------------------- steps

  datatype Event =
    | NumberRequest(command: string, args: Value, after: Option<nat>)
    | Register(n: nat)
    | StartRequest(t: Tid, n: nat)
    | SetSendError(n: nat)
    | StartEvent(t: Tid, event: string, body: Value, after: Option<nat>)
    | StartReply(t: Tid, i: nat, out: Outcome, after: Option<nat>)    // the handler of dispatched[i] calls back
    | Transmit(t: Tid)
    | Receive(j: Json)
    | Dispatch
    | CloseWriter

  ghost predicate InPhase(e: Endpoint, n: nat, phase: Phase) { n in e.calls && e.calls[n].phase == phase }

  ghost predicate GoodOutcome(p: Protocol, c: string, out: Outcome) {
    c in p.requests && (out.Success? ==> GoodValue(out.v, p.requests[c].resp))
  }

  /** A response-sent handler runs once the response has been handed to `send`. */
  ghost predicate MayFollow(e: Endpoint, after: Option<nat>) { after.Some? ==> after.value in e.replied }

  /** Callers send well-typed values, and a handler calls back at most once. */
  ghost predicate Enabled(e: Endpoint, ev: Event) {
    match ev
    case NumberRequest(c, args, after) =>
      c in e.cfg.p.requests && GoodValue(args, e.cfg.p.requests[c].args) && MayFollow(e, after)
    case Register(n) => InPhase(e, n, Numbered) && e.calls[n].command in e.cfg.p.requests
    case StartRequest(t, n) => InPhase(e, n, Registered) && t !in e.pending
    case SetSendError(n) => InPhase(e, n, SendFailed)
    case StartEvent(t, name, body, after) =>
      && name in e.cfg.p.events && GoodValue(body, e.cfg.p.events[name]) && t !in e.pending
      && MayFollow(e, after)
    case StartReply(t, i, out, after) =>
      && i < |e.dispatched| && e.dispatched[i].RequestP? && e.dispatched[i].at !in e.results
      && GoodOutcome(e.cfg.p, e.dispatched[i].command, out) && t !in e.pending
      && MayFollow(e, after)
    case Transmit(t) => t in e.pending && (e.pending[t].RequestF? ==> e.pending[t].n in e.calls)
    case Receive(_) => true
    case Dispatch => e.inbox != []
    case CloseWriter => true
  }

  function SetPhase(e: Endpoint, n: nat, phase: Phase): (r: Endpoint)
    requires n in e.calls
  {
    e.(calls := e.calls[n := e.calls[n].(phase := phase)])
  }

  /** `emplace`: an entry that is already there stays. */
  function Emplace(table: map<int, Entry>, k: int, x: Entry): map<int, Entry> {
    if k in table then table else table[k := x]
  }

  function RegisterCall(e: Endpoint, n: nat): Endpoint
    requires n in e.calls && e.calls[n].command in e.cfg.p.requests
  {
    SetPhase(e, n, Registered).(
      table := Emplace(e.table, SeqOf(n), Entry(e.cfg.p.requests[e.calls[n].command].resp, n)),
      refused := if SeqOf(n) in e.table then e.refused + {n} else e.refused)
  }

  function RequestFrame(c: Call, n: nat): Frame { RequestF(n, c.command, c.args, c.after) }

  function Reply(e: Endpoint, t: Tid, i: nat, out: Outcome, after: Option<nat>): Endpoint
    requires i < |e.dispatched| && e.dispatched[i].RequestP?
  {
    var r := e.dispatched[i];
    e.(numbered := e.numbered + 1, results := e.results[r.at := out],
       pending := e.pending[t := ReplyF(e.numbered, r.at, r.seq_, r.command, out, after)])
  }

  /** `send(const std::string&)`, as one step: the frame goes on the wire exactly when the writer
      is open. */
  function TransmitFrame(e: Endpoint, t: Tid): Endpoint
    requires t in e.pending && (e.pending[t].RequestF? ==> e.pending[t].n in e.calls)
  {
    var f := e.pending[t];
    var e' := e.(pending := e.pending - {t}, sent := if e.open then e.sent + [f] else e.sent);
    match f
    case RequestF(n, _, _, _) => SetPhase(e', n, if e.open then OnWire else SendFailed)
    case ReplyF(_, at, _, _, _, _) => e'.(replied := e.replied + {at})
    case EventF(_, _, _, _) => e'
  }

  function PayloadOf(k: Incoming, at: nat): seq<Payload> {
    match k
    case RequestIn(q, c, args) => [RequestP(at, q, c, args)]
    case EventIn(n, body) => [EventP(at, n, body)]
    case _ => []
  }

  function Kind(cfg: Config, j: Json): Incoming { Classify(cfg.p, cfg.handlers, cfg.eventHandlers, j) }

  /** `processMessage`. */
  function ReceiveMessage(e: Endpoint, j: Json): Endpoint {
    var e' := e.(log := e.log + [j]);
    var k := Kind(e.cfg, j);
    if k.ResponseIn? then ReceiveResponse(e', k.requestSeq, j)
    else e'.(inbox := e.inbox + PayloadOf(k, |e.log|))
  }

  /** `processResponse`: the entry is gone before anything else in the message is looked at. */
  function ReceiveResponse(e: Endpoint, q: int, j: Json): Endpoint
    requires e.log != []
  {
    if q !in e.table then e
    else
      var Entry(ty, n) := e.table[q];
      var effect := EffectOf(ty, j);
      e.(table := e.table - {q}, answered := e.answered[n := |e.log| - 1],
         sets := if effect.NoCall? then e.sets else e.sets + [PromiseSet(n, Answered(|e.log| - 1, effect))])
  }

  ghost function Apply(e: Endpoint, ev: Event): Endpoint
    requires Enabled(e, ev)
  {
    match ev
    case NumberRequest(c, args, after) =>
      e.(numbered := e.numbered + 1, calls := e.calls[e.numbered := Call(c, args, after, Numbered)])
    case Register(n) => RegisterCall(e, n)
    case StartRequest(t, n) =>
      SetPhase(e, n, Sending).(pending := e.pending[t := RequestFrame(e.calls[n], n)])
    case SetSendError(n) =>
      SetPhase(e, n, ErrorSet).(sets := e.sets + [PromiseSet(n, SendError)])
    case StartEvent(t, name, body, after) =>
      e.(numbered := e.numbered + 1,
         pending := e.pending[t := EventF(e.numbered, name, body, after)])
    case StartReply(t, i, out, after) => Reply(e, t, i, out, after)
    case Transmit(t) => TransmitFrame(e, t)
    case Receive(j) => ReceiveMessage(e, j)
    case Dispatch => e.(inbox := e.inbox[1..], dispatched := e.dispatched + [e.inbox[0]])
    case CloseWriter => e.(open := false)
  }

  // -------------------------------------------------------------- invariants

  ghost predicate GoodCall(e: Endpoint, n: nat)
    requires n in e.calls
  {
    && n < e.numbered && e.calls[n].command in e.cfg.p.requests
    && GoodValue(e.calls[n].args, e.cfg.p.requests[e.calls[n].command].args)
    && MayFollow(e, e.calls[n].after)
  }

  ghost predicate CallInv(e: Endpoint) {
    forall n | n in e.calls :: GoodCall(e, n)
  }

  ghost predicate PendingCalls(e: Endpoint) {
    forall t | t in e.pending && e.pending[t].RequestF? :: e.pending[t].n in e.calls
  }

  function ResponseType(e: Endpoint, n: nat): Type
    requires n in e.calls && e.calls[n].command in e.cfg.p.requests
  {
    e.cfg.p.requests[e.calls[n].command].resp
  }

  /** An entry stands for a registered request that has not been answered. */
  ghost predicate GoodEntry(e: Endpoint, k: int)
    requires CallInv(e) && k in e.table
  {
    var n := e.table[k].call;
    && n in e.calls && e.calls[n].phase != Numbered && n !in e.answered
    && k == SeqOf(n) && e.table[k].ty == ResponseType(e, n)
  }

  /** The table holds exactly the registered requests whose response has not been looked up, as
      long as no registration has been refused, which takes 2^32 numbers. */
  ghost predicate TableInv(e: Endpoint)
    requires CallInv(e)
  {
    && (forall k | k in e.table :: GoodEntry(e, k))
    && (forall n | n in e.answered :: n in e.calls && e.calls[n].phase != Numbered)
    && (e.refused == {} ==>
          forall n | n in e.calls && e.calls[n].phase != Numbered && n !in e.answered :: FiledUnder(e, n, SeqOf(n)))
    && (e.numbered <= UINT32_MODULUS ==> e.refused == {})
  }

  ghost predicate FiledUnder(e: Endpoint, n: nat, k: int) { k in e.table && e.table[k].call == n }

  ghost predicate GoodSet(e: Endpoint, s: PromiseSet)
    requires CallInv(e)
  {
    && s.call in e.calls
    && match s.how
       case SendError => e.calls[s.call].phase == ErrorSet
       case Answered(at, effect) =>
         && s.call in e.answered && e.answered[s.call] == at && at < |e.log|
         && effect == EffectOf(ResponseType(e, s.call), e.log[at]) && !effect.NoCall?
  }

  /** Every promise set is accounted for, no handler is called twice, and every look-up came from
      a response of its own with the right number. */
  ghost predicate SetInv(e: Endpoint)
    requires CallInv(e)
  {
    && (forall i | 0 <= i < |e.sets| :: GoodSet(e, e.sets[i]))
    && (forall i, j | 0 <= i < j < |e.sets| && e.sets[i].call == e.sets[j].call ::
          e.sets[i].how.SendError? != e.sets[j].how.SendError?)
    && (forall n | n in e.answered :: e.answered[n] < |e.log| && Kind(e.cfg, e.log[e.answered[n]]) == ResponseIn(SeqOf(n)))
    && (forall n, m | n in e.answered && m in e.answered && n != m :: e.answered[n] != e.answered[m])
  }

  /** No answer is lost on the way to its promise. */
  ghost predicate AnswerInv(e: Endpoint)
    requires CallInv(e)
  {
    forall n | n in e.answered && n in e.calls && e.answered[n] < |e.log| :: AnswerSet(e, n)
  }

  ghost predicate AnswerSet(e: Endpoint, n: nat)
    requires CallInv(e) && n in e.answered && n in e.calls && e.answered[n] < |e.log|
  {
    var effect := EffectOf(ResponseType(e, n), e.log[e.answered[n]]);
    effect.NoCall? || PromiseSet(n, Answered(e.answered[n], effect)) in e.sets
  }

  /** The accepted requests and events of a log, in its order. */
  function Accepted(cfg: Config, log: seq<Json>): seq<Payload> {
    if log == [] then []
    else Accepted(cfg, log[..|log| - 1]) + PayloadOf(Kind(cfg, log[|log| - 1]), |log| - 1)
  }

  /** The dispatch thread sees the accepted messages in wire order. */
  predicate OrderInv(e: Endpoint) {
    e.dispatched + e.inbox == Accepted(e.cfg, e.log)
  }

  /** A frame says what its request or its handler's result is. */
  ghost predicate GoodFrame(e: Endpoint, f: Frame) {
    MayFollow(e, f.after) &&
    match f
    case RequestF(n, _, _, _) => n in e.calls && f == RequestFrame(e.calls[n], n)
    case EventF(_, name, body, _) => name in e.cfg.p.events && GoodValue(body, e.cfg.p.events[name])
    case ReplyF(_, at, q, c, out, _) =>
      && at in e.results && e.results[at] == out && GoodOutcome(e.cfg.p, c, out) && at < |e.log|
      && Kind(e.cfg, e.log[at]).RequestIn? && Kind(e.cfg, e.log[at]).seq_ == q && Kind(e.cfg, e.log[at]).command == c
  }

  /** The call or reply of a frame is still being sent. */
  ghost predicate BeingSent(e: Endpoint, f: Frame) {
    match f
    case RequestF(n, _, _, _) => InPhase(e, n, Sending)
    case ReplyF(_, at, _, _, _, _) => at !in e.replied
    case EventF(_, _, _, _) => true
  }

  ghost predicate WasSent(e: Endpoint, f: Frame) {
    match f
    case RequestF(n, _, _, _) => InPhase(e, n, OnWire)
    case ReplyF(_, at, _, _, _, _) => at in e.replied
    case EventF(_, _, _, _) => true
  }

  /** Two frames of the same request, or two replies to the same request. */
  predicate Clash(f: Frame, g: Frame) {
    || (f.RequestF? && g.RequestF? && f.n == g.n)
    || (f.ReplyF? && g.ReplyF? && f.at == g.at)
  }

  ghost predicate IsPending(e: Endpoint, n: nat) {
    exists t :: t in e.pending && e.pending[t].RequestF? && e.pending[t].n == n
  }

  /** A request in the middle of being sent has a thread that sends it. */
  ghost predicate SendingInv(e: Endpoint) {
    forall n | InPhase(e, n, Sending) :: IsPending(e, n)
  }

  ghost predicate PendingInv(e: Endpoint) {
    && SendingInv(e)
    && (forall t | t in e.pending :: GoodFrame(e, e.pending[t]) && BeingSent(e, e.pending[t]))
    && (forall t, u | t in e.pending && u in e.pending && t != u :: !Clash(e.pending[t], e.pending[u]))
  }

  ghost predicate SentInv(e: Endpoint) {
    && (forall i | 0 <= i < |e.sent| :: GoodFrame(e, e.sent[i]) && WasSent(e, e.sent[i]))
    && (forall i, j | 0 <= i < j < |e.sent| :: !Clash(e.sent[i], e.sent[j]))
  }

  ghost predicate HasReply(fs: seq<Frame>, at: nat) {
    exists i :: 0 <= i < |fs| && fs[i].ReplyF? && fs[i].at == at
  }

  /** What a response-sent handler sends follows its response. */
  ghost predicate AfterInv(e: Endpoint) {
    && (e.open ==> forall at | at in e.replied :: HasReply(e.sent, at))
    && (forall j | 0 <= j < |e.sent| && e.sent[j].after.Some? ::
          HasReply(e.sent[..j], e.sent[j].after.value))
  }

  /** Only handlers' results are sent back, and a request fails to be sent only when the writer is
      closed. */
  ghost predicate ResultInv(e: Endpoint) {
    && (forall at | at in e.replied :: at in e.results)
    && (forall n | n in e.calls && (e.calls[n].phase == SendFailed || e.calls[n].phase == ErrorSet) :: !e.open)
    && (forall n | InPhase(e, n, ErrorSet) :: PromiseSet(n, SendError) in e.sets)
  }

  ghost predicate Ran(done: seq<Payload>, at: nat) {
    exists i :: 0 <= i < |done| && done[i].RequestP? && done[i].at == at
  }

  /** Only a handler that was run has a result. */
  ghost predicate RanInv(e: Endpoint) {
    forall at | at in e.results :: Ran(e.dispatched, at)
  }

  ghost predicate Inv(e: Endpoint) {
    && RanInv(e)
    && CallInv(e) && TableInv(e) && SetInv(e) && AnswerInv(e) && OrderInv(e)
    && PendingInv(e) && SentInv(e) && AfterInv(e) && ResultInv(e)
  }

  ghost predicate Init(e: Endpoint) {
    && e.numbered == 0 && e.calls == map[] && e.table == map[] && e.refused == {} && e.answered == map[] && e.log == []
    && e.inbox == [] && e.dispatched == [] && e.results == map[] && e.sets == [] && e.pending == map[]
    && e.replied == {} && e.sent == []
  }

  // ------------------------------------------------------------ preservation

  /** What every step keeps of the past. */
  ghost predicate Grows(e: Endpoint, e': Endpoint) {
    && e'.cfg == e.cfg && e.numbered <= e'.numbered && e.log <= e'.log && e.replied <= e'.replied
    && (e'.open ==> e.open)
    && (forall n | n in e.calls :: SameCall(e, e', n))
    && (forall at | at in e.results :: at in e'.results && e'.results[at] == e.results[at])
  }

  ghost predicate SameCall(e: Endpoint, e': Endpoint, n: nat)
    requires n in e.calls
  {
    n in e'.calls && e'.calls[n].(phase := Numbered) == e.calls[n].(phase := Numbered)
  }

  /** A phase no call has entered or left. */
  ghost predicate SamePhase(e: Endpoint, e': Endpoint, phase: Phase) {
    forall n :: InPhase(e, n, phase) <==> InPhase(e', n, phase)
  }

  lemma GoodFrameGrows(e: Endpoint, e': Endpoint, f: Frame)
    requires Grows(e, e') && GoodFrame(e, f)
    ensures GoodFrame(e', f)
  {
    hide GoodValue, Kind;
  }

  lemma SendingKept(e: Endpoint, e': Endpoint)
    requires SendingInv(e) && forall n | InPhase(e', n, Sending) :: InPhase(e, n, Sending) || IsPending(e', n)
    requires forall n, t | InPhase(e', n, Sending) && t in e.pending && e.pending[t].RequestF? && e.pending[t].n == n ::
               t in e'.pending && e'.pending[t] == e.pending[t]
    ensures SendingInv(e')
  {
    forall n | InPhase(e', n, Sending)
      ensures IsPending(e', n)
    {
      if !IsPending(e', n) {
        assert IsPending(e, n);
      }
    }
  }

  lemma PendingKept(e: Endpoint, e': Endpoint)
    requires PendingInv(e) && Grows(e, e')
    requires e'.pending == e.pending && e'.replied == e.replied && SamePhase(e, e', Sending)
    ensures PendingInv(e')
  {
    hide GoodFrame, Grows, SendingInv;
    SendingKept(e, e');
    forall t | t in e'.pending
      ensures GoodFrame(e', e'.pending[t]) && BeingSent(e', e'.pending[t])
    {
      GoodFrameGrows(e, e', e.pending[t]);
    }
  }

  lemma SentKept(e: Endpoint, e': Endpoint)
    requires SentInv(e) && Grows(e, e') && e'.sent == e.sent && SamePhase(e, e', OnWire)
    ensures SentInv(e')
  {
    hide GoodFrame;
    forall i | 0 <= i < |e'.sent|
      ensures GoodFrame(e', e'.sent[i]) && WasSent(e', e'.sent[i])
    {
      GoodFrameGrows(e, e', e.sent[i]);
    }
  }

  lemma TableKept(e: Endpoint, e': Endpoint)
    requires CallInv(e) && CallInv(e') && TableInv(e) && Grows(e, e')
    requires e'.table == e.table && e'.answered == e.answered && e'.refused == e.refused
    requires forall n :: InPhase(e, n, Numbered) ==> InPhase(e', n, Numbered)
    requires forall n | n in e'.calls && e'.calls[n].phase != Numbered :: n in e.calls && e.calls[n].phase != Numbered
    requires forall n | n in e.calls && e.calls[n].phase != Numbered :: e'.calls[n].phase != Numbered
    ensures TableInv(e')
  {
    hide GoodCall, SeqOf;
    forall k | k in e'.table
      ensures GoodEntry(e', k)
    {
      assert GoodEntry(e, k);
      assert SameCall(e, e', e.table[k].call);
    }
  }

  lemma SetsKept(e: Endpoint, e': Endpoint)
    requires CallInv(e) && CallInv(e') && SetInv(e) && AnswerInv(e) && Grows(e, e')
    requires e'.sets == e.sets && e'.answered == e.answered && SamePhase(e, e', ErrorSet)
    requires forall n | n in e'.answered :: n in e.calls
    ensures SetInv(e') && AnswerInv(e')
  {
    hide GoodCall, SeqOf, EffectOf, Kind;
    forall i | 0 <= i < |e'.sets|
      ensures GoodSet(e', e'.sets[i])
    {
      assert GoodSet(e, e.sets[i]);
      assert SameCall(e, e', e.sets[i].call);
      assert e.sets[i].how.SendError? ==> InPhase(e, e.sets[i].call, ErrorSet);
    }
    forall n | n in e'.answered
      ensures n in e'.calls && e'.answered[n] < |e'.log| && AnswerSet(e', n)
    {
      assert AnswerSet(e, n);
      assert SameCall(e, e', n);
    }
  }

  lemma CallsOfPending(e: Endpoint)
    requires PendingInv(e)
    ensures PendingCalls(e)
  {
    hide GoodValue, Kind;
  }

  lemma CommandOf(e: Endpoint, n: nat)
    requires CallInv(e) && n in e.calls
    ensures e.calls[n].command in e.cfg.p.requests
  {
    assert GoodCall(e, n);
  }

  lemma NumberRequestKeeps(e: Endpoint, c: string, args: Value, after: Option<nat>)
    requires Inv(e) && Enabled(e, NumberRequest(c, args, after))
    ensures Inv(Apply(e, NumberRequest(c, args, after)))
  {
    hide GoodValue, GoodFrame, SeqOf, EffectOf, Kind, Accepted, HasReply, Ran, TableInv, SetInv, AnswerInv, PendingInv, SentInv;
    CallsOfPending(e);
    var e' := Apply(e, NumberRequest(c, args, after));
    assert e.numbered !in e.calls;
    TableAnswered(e);
    TableKept(e, e');
    SetsKept(e, e');
    PendingKept(e, e');
    SentKept(e, e');
  }

  lemma TableAnswered(e: Endpoint)
    requires CallInv(e) && TableInv(e)
    ensures forall n | n in e.answered :: n in e.calls && e.calls[n].phase != Numbered
  {}

  /** Numbers repeat only after 2^32 of them. */
  lemma SeqOfInjective(n: nat, m: nat)
    ensures SeqOf(n) == SeqOf(m) <==> n % UINT32_MODULUS == m % UINT32_MODULUS
  {
    assert SeqOf(n) == SeqOf(m) <==> Number(n) == Number(m);
  }

  lemma RegisterTable(e: Endpoint, n: nat)
    requires CallInv(e) && TableInv(e) && InPhase(e, n, Numbered) && CallInv(RegisterCall(e, n))
    ensures TableInv(RegisterCall(e, n))
  {
    hide GoodCall, SeqOf;
    CommandOf(e, n);
    var e' := RegisterCall(e, n);
    forall k | k in e'.table
      ensures GoodEntry(e', k)
    {
      if k in e.table {
        assert GoodEntry(e, k);
      }
    }
    RefusedLate(e, n);
  }

  /** A number is taken only after 2^32 others. */
  lemma RefusedLate(e: Endpoint, n: nat)
    requires CallInv(e) && TableInv(e) && InPhase(e, n, Numbered)
    ensures SeqOf(n) in e.table ==> e.numbered > UINT32_MODULUS
  {
    hide GoodValue, SeqOf;
    if SeqOf(n) in e.table {
      var m := e.table[SeqOf(n)].call;
      assert GoodEntry(e, SeqOf(n)) && GoodCall(e, n) && GoodCall(e, m);
      SeqOfInjective(n, m);
    }
  }

  lemma RegisterKeeps(e: Endpoint, n: nat)
    requires Inv(e) && Enabled(e, Register(n))
    ensures Inv(Apply(e, Register(n)))
  {
    hide GoodCall, GoodValue, GoodFrame, SeqOf, EffectOf, Kind, Accepted, HasReply, Ran, TableInv, SetInv, AnswerInv, PendingInv, SentInv;
    CommandOf(e, n);
    var e' := RegisterCall(e, n);
    CallsKept(e, e');
    TableAnswered(e);
    RegisterTable(e, n);
    SetsKept(e, e');
    PendingKept(e, e');
    SentKept(e, e');
  }

  lemma CallsKept(e: Endpoint, e': Endpoint)
    requires CallInv(e) && Grows(e, e') && e'.calls.Keys == e.calls.Keys
    ensures CallInv(e')
  {
    hide GoodValue;
    forall n | n in e'.calls
      ensures GoodCall(e', n)
    {
      assert GoodCall(e, n) && SameCall(e, e', n);
    }
  }

  lemma StartRequestKeeps(e: Endpoint, t: Tid, n: nat)
    requires Inv(e) && Enabled(e, StartRequest(t, n))
    ensures Inv(Apply(e, StartRequest(t, n)))
  {
    hide GoodCall, GoodValue, GoodFrame, SeqOf, EffectOf, Kind, Accepted, HasReply, Ran, TableInv, SetInv, AnswerInv, PendingInv, SentInv;
    CallsOfPending(e);
    var e' := Apply(e, StartRequest(t, n));
    CallsKept(e, e');
    TableAnswered(e);
    TableKept(e, e');
    SetsKept(e, e');
    SentKept(e, e');
    StartRequestPending(e, t, n);
  }

  lemma StartRequestPending(e: Endpoint, t: Tid, n: nat)
    requires CallInv(e) && PendingInv(e) && Enabled(e, StartRequest(t, n))
    ensures PendingInv(Apply(e, StartRequest(t, n)))
  {
    hide GoodFrame, GoodValue, SendingInv;
    var e' := Apply(e, StartRequest(t, n));
    assert GoodCall(e, n);
    assert e'.pending[t].n == n;
    SendingKept(e, e');
    forall u | u in e.pending
      ensures GoodFrame(e', e.pending[u]) && BeingSent(e', e.pending[u])
    {
      GoodFrameGrows(e, e', e.pending[u]);
    }
    assert GoodFrame(e', e'.pending[t]) by { RequestFrameGood(e', n); }
  }

  lemma RequestFrameGood(e: Endpoint, n: nat)
    requires n in e.calls && MayFollow(e, e.calls[n].after)
    ensures GoodFrame(e, RequestFrame(e.calls[n], n))
  {}

  lemma SetSendErrorKeeps(e: Endpoint, n: nat)
    requires Inv(e) && Enabled(e, SetSendError(n))
    ensures Inv(Apply(e, SetSendError(n)))
  {
    hide GoodCall, GoodValue, GoodFrame, SeqOf, EffectOf, Kind, Accepted, HasReply, Ran, TableInv, SetInv, AnswerInv, PendingInv, SentInv;
    CallsOfPending(e);
    var e' := Apply(e, SetSendError(n));
    CallsKept(e, e');
    TableKept(e, e');
    PendingKept(e, e');
    SentKept(e, e');
    SendErrorSets(e, n);
  }

  lemma SendErrorSets(e: Endpoint, n: nat)
    requires CallInv(e) && SetInv(e) && AnswerInv(e) && InPhase(e, n, SendFailed)
    ensures var e' := SetPhase(e, n, ErrorSet).(sets := e.sets + [PromiseSet(n, SendError)]);
            CallInv(e') && SetInv(e') && AnswerInv(e')
  {
    hide SeqOf, EffectOf, Kind, GoodValue;
    var e' := SetPhase(e, n, ErrorSet).(sets := e.sets + [PromiseSet(n, SendError)]);
    forall m | m in e'.calls
      ensures GoodCall(e', m)
    {
      assert GoodCall(e, m);
    }
    forall i | 0 <= i < |e.sets|
      ensures GoodSet(e', e'.sets[i])
    {
      assert GoodSet(e, e.sets[i]);
    }
    forall m | m in e'.answered && m in e'.calls && e'.answered[m] < |e'.log|
      ensures AnswerSet(e', m)
    {
      assert AnswerSet(e, m);
    }
  }

  /** A thread enters `send` with a frame that no one else is sending. */
  lemma NewPending(e: Endpoint, e': Endpoint, t: Tid, f: Frame)
    requires PendingInv(e) && Grows(e, e') && t !in e.pending
    requires e'.pending == e.pending[t := f] && e'.replied == e.replied && e'.calls == e.calls
    requires GoodFrame(e', f) && BeingSent(e', f)
    requires forall u | u in e.pending :: !Clash(f, e.pending[u])
    ensures PendingInv(e')
  {
    hide GoodFrame, SendingInv;
    SendingKept(e, e');
    forall u | u in e.pending
      ensures GoodFrame(e', e.pending[u]) && BeingSent(e', e.pending[u])
    {
      GoodFrameGrows(e, e', e.pending[u]);
    }
  }

  lemma StartEventKeeps(e: Endpoint, t: Tid, name: string, body: Value, after: Option<nat>)
    requires Inv(e) && Enabled(e, StartEvent(t, name, body, after))
    ensures Inv(Apply(e, StartEvent(t, name, body, after)))
  {
    hide GoodCall, GoodValue, SeqOf, EffectOf, Kind, Accepted, HasReply, Ran, TableInv, SetInv, AnswerInv, PendingInv, SentInv;
    CallsOfPending(e);
    var e' := Apply(e, StartEvent(t, name, body, after));
    CallsKept(e, e');
    TableAnswered(e);
    TableKept(e, e');
    SetsKept(e, e');
    SentKept(e, e');
    NewPending(e, e', t, e'.pending[t]);
  }

  /** An accepted message says what its payload says. */
  lemma {:induction false} AcceptedAt(cfg: Config, log: seq<Json>, i: nat)
    requires i < |Accepted(cfg, log)|
    ensures var x := Accepted(cfg, log)[i]; x.at < |log| && PayloadOf(Kind(cfg, log[x.at]), x.at) == [x]
  {
    hide Kind;
    var before := log[..|log| - 1];
    if i < |Accepted(cfg, before)| {
      AcceptedAt(cfg, before, i);
    }
  }

  lemma ReplyFrameGood(e: Endpoint, i: nat)
    requires OrderInv(e) && i < |e.dispatched| && e.dispatched[i].RequestP?
    ensures var r := e.dispatched[i];
            r.at < |e.log| && Kind(e.cfg, e.log[r.at]) == RequestIn(r.seq_, r.command, r.args)
  {
    hide Kind, Accepted;
    assert e.dispatched[i] == Accepted(e.cfg, e.log)[i];
    AcceptedAt(e.cfg, e.log, i);
  }

  lemma RanAt(done: seq<Payload>, i: nat)
    requires i < |done| && done[i].RequestP?
    ensures Ran(done, done[i].at)
  {}

  lemma RanMore(done: seq<Payload>, x: Payload, at: nat)
    requires Ran(done, at)
    ensures Ran(done + [x], at)
  {
    var i :| 0 <= i < |done| && done[i].RequestP? && done[i].at == at;
    assert (done + [x])[i] == done[i];
  }

  lemma NoReplyPending(e: Endpoint, at: nat)
    requires PendingInv(e) && at !in e.results
    ensures forall u | u in e.pending && e.pending[u].ReplyF? :: e.pending[u].at != at
  {
    hide Kind, GoodValue;
  }

  lemma StartReplyKeeps(e: Endpoint, t: Tid, i: nat, out: Outcome, after: Option<nat>)
    requires Inv(e) && Enabled(e, StartReply(t, i, out, after))
    ensures Inv(Apply(e, StartReply(t, i, out, after)))
  {
    hide GoodCall, GoodValue, SeqOf, EffectOf, Kind, Accepted, HasReply, Ran, TableInv, SetInv, AnswerInv, PendingInv, SentInv;
    CallsOfPending(e);
    var e' := Apply(e, StartReply(t, i, out, after));
    CallsKept(e, e');
    TableAnswered(e);
    TableKept(e, e');
    SetsKept(e, e');
    SentKept(e, e');
    ReplyFrameGood(e, i);
    NoReplyPending(e, e.dispatched[i].at);
    RanAt(e.dispatched, i);
    NewPending(e, e', t, e'.pending[t]);
  }

  lemma DispatchKeeps(e: Endpoint)
    requires Inv(e) && Enabled(e, Dispatch)
    ensures Inv(Apply(e, Dispatch))
  {
    hide GoodCall, GoodValue, GoodFrame, SeqOf, EffectOf, Kind, Accepted, HasReply, Ran, TableInv, SetInv, AnswerInv, PendingInv, SentInv;
    CallsOfPending(e);
    var e' := Apply(e, Dispatch);
    CallsKept(e, e');
    TableAnswered(e);
    TableKept(e, e');
    SetsKept(e, e');
    PendingKept(e, e');
    SentKept(e, e');
    forall at | at in e.results
      ensures Ran(e'.dispatched, at)
    {
      RanMore(e.dispatched, e.inbox[0], at);
    }
    assert e.inbox == [e.inbox[0]] + e.inbox[1..];
    assert e'.dispatched + e'.inbox == e.dispatched + e.inbox;
  }

  lemma CloseKeeps(e: Endpoint)
    requires Inv(e)
    ensures Inv(e.(open := false))
  {
    hide GoodCall, GoodValue, GoodFrame, SeqOf, EffectOf, Kind, Accepted, HasReply, Ran, TableInv, SetInv, AnswerInv, PendingInv, SentInv;
    var e' := e.(open := false);
    CallsKept(e, e');
    TableAnswered(e);
    TableKept(e, e');
    SetsKept(e, e');
    PendingKept(e, e');
    SentKept(e, e');
  }

  /** The frame of thread t, while it is being sent. */
  lemma PendingFrame(e: Endpoint, t: Tid)
    requires PendingInv(e) && t in e.pending
    ensures GoodFrame(e, e.pending[t]) && BeingSent(e, e.pending[t])
    ensures e.pending[t].RequestF? ==> e.pending[t].n in e.calls
    ensures e.pending[t].ReplyF? ==> e.pending[t].at in e.results
    ensures MayFollow(e, e.pending[t].after)
  {
    hide GoodValue, Kind;
  }

  lemma TransmitGrows(e: Endpoint, t: Tid)
    requires PendingInv(e) && t in e.pending && PendingCalls(e)
    ensures Grows(e, TransmitFrame(e, t))
  {
    hide GoodFrame;
  }

  lemma TransmitPending(e: Endpoint, t: Tid)
    requires PendingInv(e) && t in e.pending && PendingCalls(e)
    ensures PendingInv(TransmitFrame(e, t))
  {
    hide GoodFrame, Grows, SendingInv;
    var e' := TransmitFrame(e, t);
    TransmitGrows(e, t);
    SendingKept(e, e');
    forall u | u in e'.pending
      ensures GoodFrame(e', e'.pending[u]) && BeingSent(e', e'.pending[u])
    {
      GoodFrameGrows(e, e', e.pending[u]);
      assert !Clash(e.pending[t], e.pending[u]);
    }
  }

  lemma TransmitSent(e: Endpoint, t: Tid)
    requires PendingInv(e) && SentInv(e) && t in e.pending && PendingCalls(e)
    ensures SentInv(TransmitFrame(e, t))
  {
    hide GoodFrame, Grows;
    var e' := TransmitFrame(e, t);
    var f := e.pending[t];
    TransmitGrows(e, t);
    PendingFrame(e, t);
    GoodFrameGrows(e, e', f);
    forall i | 0 <= i < |e.sent|
      ensures GoodFrame(e', e.sent[i]) && WasSent(e', e.sent[i]) && !Clash(e.sent[i], f)
    {
      GoodFrameGrows(e, e', e.sent[i]);
    }
  }

  lemma HasReplySnoc(fs: seq<Frame>, f: Frame, at: nat)
    ensures HasReply(fs + [f], at) <==> HasReply(fs, at) || (f.ReplyF? && f.at == at)
  {
    if HasReply(fs, at) {
      var i :| 0 <= i < |fs| && fs[i].ReplyF? && fs[i].at == at;
      assert (fs + [f])[i] == fs[i];
    }
    if f.ReplyF? && f.at == at {
      assert (fs + [f])[|fs|] == f;
    }
  }

  lemma TransmitAfter(e: Endpoint, t: Tid)
    requires PendingInv(e) && AfterInv(e) && t in e.pending && PendingCalls(e)
    ensures AfterInv(TransmitFrame(e, t))
  {
    hide HasReply, GoodFrame;
    var e' := TransmitFrame(e, t);
    var f := e.pending[t];
    PendingFrame(e, t);
    if e.open {
      forall at: nat { HasReplySnoc(e.sent, f, at); }
      forall j | 0 <= j < |e'.sent| && e'.sent[j].after.Some?
        ensures HasReply(e'.sent[..j], e'.sent[j].after.value)
      {
        assert e'.sent[..j] == e.sent[..j];
      }
    }
  }

  /** What sending leaves alone. */
  lemma TransmitRest(e: Endpoint, t: Tid)
    requires t in e.pending && BeingSent(e, e.pending[t]) && PendingCalls(e)
    ensures var e' := TransmitFrame(e, t);
            && e'.cfg == e.cfg && e'.table == e.table && e'.refused == e.refused && e'.answered == e.answered && e'.sets == e.sets
            && e'.log == e.log && e'.dispatched == e.dispatched && e'.inbox == e.inbox && e'.results == e.results
            && e'.calls.Keys == e.calls.Keys && SamePhase(e, e', ErrorSet) && SamePhase(e, e', Numbered)
  {
    match e.pending[t] {
      case RequestF(_, _, _, _) =>
      case EventF(_, _, _, _) =>
      case ReplyF(_, _, _, _, _, _) =>
    }
  }

  lemma TransmitResults(e: Endpoint, t: Tid)
    requires ResultInv(e) && t in e.pending && PendingCalls(e)
    requires e.pending[t].ReplyF? ==> e.pending[t].at in e.results
    requires BeingSent(e, e.pending[t])
    ensures ResultInv(TransmitFrame(e, t))
  {
    match e.pending[t] {
      case RequestF(_, _, _, _) =>
      case EventF(_, _, _, _) =>
      case ReplyF(_, _, _, _, _, _) =>
    }
  }

  lemma TransmitKeeps(e: Endpoint, t: Tid)
    requires Inv(e) && Enabled(e, Transmit(t))
    ensures Inv(Apply(e, Transmit(t)))
  {
    hide GoodCall, GoodValue, GoodFrame, SeqOf, EffectOf, Kind, Accepted, AfterInv, Ran, TableInv, SetInv, AnswerInv, PendingInv, SentInv, TransmitFrame, ResultInv, RanInv, Grows;
    CallsOfPending(e);
    var e' := TransmitFrame(e, t);
    PendingFrame(e, t);
    TransmitGrows(e, t);
    TransmitRest(e, t);
    CallsKept(e, e');
    TableAnswered(e);
    PhaseOnly(e, e');
    TableKept(e, e');
    SetsKept(e, e');
    TransmitResults(e, t);
    TransmitPending(e, t);
    TransmitSent(e, t);
    TransmitAfter(e, t);
    assert RanInv(e') by { RanSame(e, e'); }
  }

  lemma RanSame(e: Endpoint, e': Endpoint)
    requires RanInv(e) && e'.results == e.results && e'.dispatched == e.dispatched
    ensures RanInv(e')
  {}

  lemma PhaseOnly(e: Endpoint, e': Endpoint)
    requires e'.calls.Keys == e.calls.Keys && SamePhase(e, e', Numbered)
    ensures forall n | n in e'.calls && e'.calls[n].phase != Numbered :: n in e.calls && e.calls[n].phase != Numbered
    ensures forall n | n in e.calls && e.calls[n].phase != Numbered :: e'.calls[n].phase != Numbered
  {
    forall n | n in e.calls
      ensures e.calls[n].phase == Numbered <==> e'.calls[n].phase == Numbered
    {
      assert InPhase(e, n, Numbered) <==> InPhase(e', n, Numbered);
    }
  }

  lemma AcceptedSnoc(cfg: Config, log: seq<Json>, j: Json)
    ensures Accepted(cfg, log + [j]) == Accepted(cfg, log) + PayloadOf(Kind(cfg, j), |log|)
  {
    hide Kind;
    assert (log + [j])[..|log|] == log;
  }

  lemma ResponseTable(e: Endpoint, q: int, j: Json)
    requires CallInv(e) && TableInv(e) && e.log != []
    ensures CallInv(ReceiveResponse(e, q, j)) && TableInv(ReceiveResponse(e, q, j))
  {
    hide GoodValue, SeqOf, EffectOf;
    var e' := ReceiveResponse(e, q, j);
    CallsKept(e, e');
    if q in e.table {
      assert GoodEntry(e, q);
      forall k | k in e'.table
        ensures GoodEntry(e', k)
      {
        assert GoodEntry(e, k);
      }
      forall n | e.refused == {} && n in e'.calls && e'.calls[n].phase != Numbered && n !in e'.answered
        ensures FiledUnder(e', n, SeqOf(n))
      {
        assert FiledUnder(e, n, SeqOf(n));
      }
    }
  }

  lemma ResponseSets(e: Endpoint, q: int, j: Json)
    requires CallInv(e) && TableInv(e) && SetInv(e) && AnswerInv(e)
    requires e.log != [] && e.log[|e.log| - 1] == j && Kind(e.cfg, j) == ResponseIn(q)
    requires forall n | n in e.answered :: e.answered[n] < |e.log| - 1
    requires CallInv(ReceiveResponse(e, q, j))
    ensures SetInv(ReceiveResponse(e, q, j)) && AnswerInv(ReceiveResponse(e, q, j))
  {
    hide GoodCall, SeqOf, EffectOf, Kind;
    var e' := ReceiveResponse(e, q, j);
    if q in e.table {
      assert GoodEntry(e, q);
      forall i | 0 <= i < |e.sets|
        ensures GoodSet(e', e.sets[i])
      {
        assert GoodSet(e, e.sets[i]);
      }
      forall n | n in e'.answered && n in e'.calls && e'.answered[n] < |e'.log|
        ensures AnswerSet(e', n)
      {
        assert n != e.table[q].call ==> AnswerSet(e, n);
      }
    }
  }

  /** The log grows before the message is looked at. */
  lemma LogGrows(e: Endpoint, j: Json)
    requires Inv(e)
    ensures var e1 := e.(log := e.log + [j]);
            && CallInv(e1) && TableInv(e1) && SetInv(e1) && AnswerInv(e1) && PendingInv(e1) && SentInv(e1)
            && AfterInv(e1) && ResultInv(e1) && RanInv(e1) && forall n | n in e1.answered :: e1.answered[n] < |e.log|
  {
    hide GoodCall, GoodValue, GoodFrame, SeqOf, EffectOf, Kind, Accepted, HasReply, Ran, TableInv, SetInv, AnswerInv, PendingInv, SentInv;
    var e1 := e.(log := e.log + [j]);
    CallsKept(e, e1);
    TableAnswered(e);
    TableKept(e, e1);
    SetsKept(e, e1);
    PendingKept(e, e1);
    SentKept(e, e1);
    AnsweredBefore(e);
  }

  lemma AnsweredBefore(e: Endpoint)
    requires CallInv(e) && SetInv(e)
    ensures forall n | n in e.answered :: e.answered[n] < |e.log|
  {
    hide GoodSet, Kind, SeqOf, GoodCall;
  }

  /** Everything but the order of the inbox survives a response. */
  lemma ResponseKeeps(e: Endpoint, q: int, j: Json)
    requires CallInv(e) && TableInv(e) && SetInv(e) && AnswerInv(e) && PendingInv(e) && SentInv(e)
    requires AfterInv(e) && ResultInv(e) && RanInv(e)
    requires e.log != [] && e.log[|e.log| - 1] == j && Kind(e.cfg, j) == ResponseIn(q)
    requires forall n | n in e.answered :: e.answered[n] < |e.log| - 1
    ensures var e' := ReceiveResponse(e, q, j);
            && CallInv(e') && TableInv(e') && SetInv(e') && AnswerInv(e') && PendingInv(e') && SentInv(e')
            && AfterInv(e') && ResultInv(e') && RanInv(e')
            && e'.cfg == e.cfg && e'.log == e.log && e'.dispatched == e.dispatched && e'.inbox == e.inbox
  {
    hide GoodCall, GoodValue, GoodFrame, SeqOf, EffectOf, Kind, Accepted, HasReply, Ran, TableInv, SetInv, AnswerInv, PendingInv, SentInv;
    var e' := ReceiveResponse(e, q, j);
    ResponseTable(e, q, j);
    ResponseSets(e, q, j);
    PendingKept(e, e');
    SentKept(e, e');
  }

  lemma InboxKeeps(e: Endpoint, more: seq<Payload>)
    requires CallInv(e) && TableInv(e) && SetInv(e) && AnswerInv(e) && PendingInv(e) && SentInv(e)
    requires AfterInv(e) && ResultInv(e) && RanInv(e)
    ensures var e' := e.(inbox := e.inbox + more);
            && CallInv(e') && TableInv(e') && SetInv(e') && AnswerInv(e') && PendingInv(e') && SentInv(e')
            && AfterInv(e') && ResultInv(e') && RanInv(e')
  {
    hide GoodCall, GoodValue, GoodFrame, SeqOf, EffectOf, Kind, Accepted, HasReply, Ran, TableInv, SetInv, AnswerInv, PendingInv, SentInv;
    var e' := e.(inbox := e.inbox + more);
    CallsKept(e, e');
    TableAnswered(e);
    TableKept(e, e');
    SetsKept(e, e');
    PendingKept(e, e');
    SentKept(e, e');
  }

  lemma ReceiveKeeps(e: Endpoint, j: Json)
    requires Inv(e)
    ensures Inv(ReceiveMessage(e, j))
  {
    hide CallInv, TableInv, SetInv, AnswerInv, PendingInv, SentInv, AfterInv, ResultInv, RanInv, Kind, Accepted, ReceiveResponse;
    var e1 := e.(log := e.log + [j]);
    var k := Kind(e.cfg, j);
    LogGrows(e, j);
    AcceptedSnoc(e.cfg, e.log, j);
    if k.ResponseIn? {
      ResponseKeeps(e1, k.requestSeq, j);
      assert PayloadOf(k, |e.log|) == [];
    } else {
      InboxKeeps(e1, PayloadOf(k, |e.log|));
      assert e.dispatched + (e.inbox + PayloadOf(k, |e.log|)) == (e.dispatched + e.inbox) + PayloadOf(k, |e.log|);
    }
  }

  lemma InvKept(e: Endpoint, ev: Event)
    requires Inv(e) && Enabled(e, ev)
    ensures Inv(Apply(e, ev))
  {
    hide GoodCall, TableInv, SetInv, AnswerInv, OrderInv, PendingInv, SentInv, AfterInv, ResultInv;
    match ev {
      case NumberRequest(c, args, after) => NumberRequestKeeps(e, c, args, after);
      case Register(n) => RegisterKeeps(e, n);
      case StartRequest(t, n) => StartRequestKeeps(e, t, n);
      case SetSendError(n) => SetSendErrorKeeps(e, n);
      case StartEvent(t, name, body, after) => StartEventKeeps(e, t, name, body, after);
      case StartReply(t, i, out, after) => StartReplyKeeps(e, t, i, out, after);
      case Transmit(t) => TransmitKeeps(e, t);
      case Receive(j) => ReceiveKeeps(e, j);
      case Dispatch => DispatchKeeps(e);
      case CloseWriter => CloseKeeps(e);
    }
  }

  ghost predicate Runs(e: Endpoint, es: seq<Event>, e': Endpoint)
    decreases es
  {
    if es == [] then e' == e else Enabled(e, es[0]) && Runs(Apply(e, es[0]), es[1..], e')
  }

  lemma InitTables(e: Endpoint)
    requires Init(e)
    ensures CallInv(e) && TableInv(e) && SetInv(e) && AnswerInv(e)
  {
    hide GoodCall, GoodEntry, GoodSet, AnswerSet, FiledUnder, Kind, SeqOf;
  }

  lemma InitFrames(e: Endpoint)
    requires Init(e)
    ensures PendingInv(e) && SentInv(e) && AfterInv(e) && ResultInv(e) && RanInv(e) && OrderInv(e)
  {
    hide GoodFrame, BeingSent, WasSent, HasReply, Ran, IsPending, Kind;
  }

  lemma InitInv(e: Endpoint)
    requires Init(e)
    ensures Inv(e)
  {
    hide Init, CallInv, TableInv, SetInv, AnswerInv, PendingInv, SentInv, AfterInv, ResultInv, RanInv, OrderInv;
    InitTables(e);
    InitFrames(e);
  }

  lemma {:induction false} RunsKeepInv(e: Endpoint, es: seq<Event>, e': Endpoint)
    requires Inv(e) && Runs(e, es, e')
    ensures Inv(e')
    decreases es
  {
    hide Inv, Apply, Enabled;
    if es != [] {
      InvKept(e, es[0]);
      RunsKeepInv(Apply(e, es[0]), es[1..], e');
    }
  }

  // ------------------------------------------- theorems, whatever the peer does

  /** A thread inside `send` can always go on, whatever phase it is in. */
  lemma NeverStuck(e0: Endpoint, es: seq<Event>, e: Endpoint)
    requires Init(e0) && Runs(e0, es, e)
    ensures forall n | InPhase(e, n, Numbered) :: Enabled(e, Register(n))
    ensures forall n, t | InPhase(e, n, Registered) && t !in e.pending :: Enabled(e, StartRequest(t, n))
    ensures forall t | t in e.pending :: Enabled(e, Transmit(t))
    ensures forall n | InPhase(e, n, SendFailed) :: Enabled(e, SetSendError(n))
    ensures forall n | InPhase(e, n, Sending) :: IsPending(e, n)
  {
    hide TableInv, SetInv, AnswerInv, OrderInv, SentInv, AfterInv, ResultInv, GoodFrame, GoodValue;
    InitInv(e0);
    RunsKeepInv(e0, es, e);
    CallsOfPending(e);
    forall n | InPhase(e, n, Numbered)
      ensures Enabled(e, Register(n))
    {
      assert GoodCall(e, n);
    }
  }

  /** A registered request whose response has not been looked up. */
  ghost predicate Awaiting(e: Endpoint, n: nat) {
    n in e.calls && e.calls[n].phase != Numbered && n !in e.answered
  }

  /** As long as no registration has been refused, the table holds exactly the awaiting requests,
      each under its own number and with its own response type. */
  lemma TableIsExact(e0: Endpoint, es: seq<Event>, e: Endpoint)
    requires Init(e0) && Runs(e0, es, e) && e.refused == {}
    ensures forall n :: Awaiting(e, n) ==>
              e.calls[n].command in e.cfg.p.requests && SeqOf(n) in e.table && e.table[SeqOf(n)] == Entry(ResponseType(e, n), n)
    ensures forall k | k in e.table :: Awaiting(e, e.table[k].call) && k == SeqOf(e.table[k].call)
  {
    hide SetInv, AnswerInv, OrderInv, PendingInv, SentInv, AfterInv, ResultInv, SeqOf, GoodValue;
    InitInv(e0);
    RunsKeepInv(e0, es, e);
    assert forall k | k in e.table :: GoodEntry(e, k);
    forall n | Awaiting(e, n)
      ensures e.calls[n].command in e.cfg.p.requests && SeqOf(n) in e.table && e.table[SeqOf(n)] == Entry(ResponseType(e, n), n)
    {
      assert GoodCall(e, n);
      assert FiledUnder(e, n, SeqOf(n));
      assert GoodEntry(e, SeqOf(n));
    }
  }

  /** No registration is refused while at most 2^32 messages have been numbered, also past the
      signed wrap. */
  lemma NeverRefused(e0: Endpoint, es: seq<Event>, e: Endpoint)
    requires Init(e0) && Runs(e0, es, e) && e.numbered <= UINT32_MODULUS
    ensures e.refused == {}
  {
    hide CallInv, SetInv, AnswerInv, OrderInv, PendingInv, SentInv, AfterInv, ResultInv, RanInv;
    InitInv(e0);
    RunsKeepInv(e0, es, e);
  }

  /** Registering a request is refused exactly when one that is still awaited has the same number,
      which takes 2^32 numbers in between. */
  lemma NotFiledIff(e: Endpoint, n: nat)
    requires Inv(e) && Enabled(e, Register(n))
    ensures Apply(e, Register(n)).table == e.table
       <==> exists k :: k in e.table && e.table[k].call % UINT32_MODULUS == n % UINT32_MODULUS
  {
    hide SetInv, AnswerInv, OrderInv, PendingInv, SentInv, AfterInv, ResultInv, GoodValue, SeqOf;
    if SeqOf(n) in e.table {
      assert GoodEntry(e, SeqOf(n));
      SeqOfInjective(n, e.table[SeqOf(n)].call);
    }
    forall k | k in e.table && e.table[k].call % UINT32_MODULUS == n % UINT32_MODULUS
      ensures k == SeqOf(n)
    {
      assert GoodEntry(e, k);
      SeqOfInjective(n, e.table[k].call);
    }
  }

  /** No response handler is called twice, however often the peer repeats a response; each call
      decodes, with the type registered for the request, a response that bears its number. */
  lemma CalledAtMostOnce(e0: Endpoint, es: seq<Event>, e: Endpoint, i: nat)
    requires Init(e0) && Runs(e0, es, e) && i < |e.sets| && e.sets[i].how.Answered?
    ensures forall j | 0 <= j < |e.sets| && j != i && e.sets[j].how.Answered? :: e.sets[j].call != e.sets[i].call
    ensures var n := e.sets[i].call; var at := e.sets[i].how.at;
            && n in e.calls && e.calls[n].command in e.cfg.p.requests && at < |e.log|
            && Kind(e.cfg, e.log[at]) == ResponseIn(SeqOf(n))
            && e.sets[i].how.effect == EffectOf(ResponseType(e, n), e.log[at])
  {
    hide TableInv, AnswerInv, OrderInv, PendingInv, SentInv, AfterInv, ResultInv, GoodValue, SeqOf, EffectOf, Kind;
    InitInv(e0);
    RunsKeepInv(e0, es, e);
    assert GoodSet(e, e.sets[i]);
    assert GoodCall(e, e.sets[i].call);
  }

  /** A request that could not be sent stays filed: a response bearing its number, if one came,
      would set its promise a second time. */
  lemma FailedSendStaysFiled(e: Endpoint, n: nat, j: Json)
    requires Inv(e) && e.refused == {} && InPhase(e, n, ErrorSet) && n !in e.answered
    requires Kind(e.cfg, j) == ResponseIn(SeqOf(n)) && e.calls[n].command in e.cfg.p.requests
    ensures var effect := EffectOf(ResponseType(e, n), j); var answer := PromiseSet(n, Answered(|e.log|, effect));
            && PromiseSet(n, SendError) in e.sets
            && ReceiveMessage(e, j).sets == if effect.NoCall? then e.sets else e.sets + [answer]
  {
    hide GoodCall, SetInv, AnswerInv, OrderInv, PendingInv, SentInv, AfterInv, RanInv, Kind, EffectOf, SeqOf;
    assert FiledUnder(e, n, SeqOf(n)) && GoodEntry(e, SeqOf(n));
  }

  ghost predicate SetTwice(e: Endpoint, n: nat) {
    exists i, j :: 0 <= i < j < |e.sets| && e.sets[i].call == n == e.sets[j].call
  }

  /** The one way to set a promise twice: the request could not be sent, and yet a response that
      calls the handler has come, before or after. */
  ghost predicate AnsweredUnsent(e: Endpoint, n: nat) {
    && InPhase(e, n, ErrorSet) && n in e.answered && e.answered[n] < |e.log|
    && e.calls[n].command in e.cfg.p.requests
    && !EffectOf(ResponseType(e, n), e.log[e.answered[n]]).NoCall?
  }

  /** Whatever the peer does, a promise is set twice exactly when its request could not be sent and
      a response for it was received all the same. */
  lemma SetTwiceIff(e0: Endpoint, es: seq<Event>, e: Endpoint, n: nat)
    requires Init(e0) && Runs(e0, es, e)
    ensures SetTwice(e, n) <==> AnsweredUnsent(e, n)
  {
    hide TableInv, OrderInv, PendingInv, SentInv, AfterInv, RanInv, GoodValue, SeqOf, EffectOf, Kind;
    InitInv(e0);
    RunsKeepInv(e0, es, e);
    if AnsweredUnsent(e, n) {
      assert AnswerSet(e, n);
      var a, b := PromiseSet(n, SendError), PromiseSet(n, Answered(e.answered[n], EffectOf(ResponseType(e, n), e.log[e.answered[n]])));
      assert a in e.sets && b in e.sets;
      var i :| 0 <= i < |e.sets| && e.sets[i] == a;
      var j :| 0 <= j < |e.sets| && e.sets[j] == b;
      assert i < j || j < i;
    }
    if SetTwice(e, n) {
      var i, j :| 0 <= i < j < |e.sets| && e.sets[i].call == n == e.sets[j].call;
      assert GoodSet(e, e.sets[i]) && GoodSet(e, e.sets[j]) && GoodCall(e, n);
    }
  }

  lemma FirstStep(e: Endpoint, ev: Event, es: seq<Event>, e': Endpoint)
    requires Enabled(e, ev) && Runs(Apply(e, ev), es, e')
    ensures Runs(e, [ev] + es, e')
  {
    hide Enabled, Apply;
    assert ([ev] + es)[0] == ev && ([ev] + es)[1..] == es;
  }

  /** What a failed `send` of request 0 does, step by step, once it is registered. */
  lemma SendFails(e: Endpoint) returns (es: seq<Event>, e': Endpoint)
    requires InPhase(e, 0, Registered) && e.pending == map[]
    ensures Runs(e, es, e')
    ensures e'.sets == e.sets + [PromiseSet(0, SendError)] && e'.table == e.table && e'.log == e.log && e'.cfg == e.cfg
  {
    var e1 := Apply(e, CloseWriter);
    var e2 := Apply(e1, StartRequest(0, 0));
    var e3 := Apply(e2, Transmit(0));
    e' := Apply(e3, SetSendError(0));
    hide Apply, Enabled;
    FirstStep(e3, SetSendError(0), [], e');
    FirstStep(e2, Transmit(0), [SetSendError(0)], e');
    FirstStep(e1, StartRequest(0, 0), [Transmit(0)] + [SetSendError(0)], e');
    es := [CloseWriter] + ([StartRequest(0, 0)] + ([Transmit(0)] + [SetSendError(0)]));
    FirstStep(e, CloseWriter, [StartRequest(0, 0)] + ([Transmit(0)] + [SetSendError(0)]), e');
  }

  /** A forged response to request 0 calls its handler. */
  lemma ForgedAnswer(e: Endpoint, ty: Type, j: Json)
    requires e.table == map[SeqOf(0) := Entry(ty, 0)] && Kind(e.cfg, j) == ResponseIn(SeqOf(0))
    requires !EffectOf(ty, j).NoCall?
    ensures var e' := ReceiveMessage(e, j);
            && Runs(e, [Receive(j)], e')
            && e'.sets == e.sets + [PromiseSet(0, Answered(|e.log|, EffectOf(ty, j)))]
            && e'.calls == e.calls && e'.pending == e.pending
  {
    hide Kind, EffectOf, SeqOf;
    FirstStep(e, Receive(j), [], ReceiveMessage(e, j));
  }

  lemma {:induction false} RunsJoin(e: Endpoint, es: seq<Event>, mid: Endpoint, es': seq<Event>, e': Endpoint)
    requires Runs(e, es, mid) && Runs(mid, es', e')
    ensures Runs(e, es + es', e')
    decreases es
  {
    hide Enabled, Apply;
    if es == [] {
      assert es + es' == es';
    } else {
      RunsJoin(Apply(e, es[0]), es[1..], mid, es', e');
      assert (es + es')[0] == es[0] && (es + es')[1..] == es[1..] + es';
    }
  }

  /** Request 0, numbered and registered. */
  lemma FirstRequest(e0: Endpoint, c: string, args: Value) returns (es: seq<Event>, e: Endpoint)
    requires Init(e0) && c in e0.cfg.p.requests && GoodValue(args, e0.cfg.p.requests[c].args)
    ensures Runs(e0, es, e)
    ensures InPhase(e, 0, Registered) && e.pending == map[] && e.sets == [] && e.log == [] && e.cfg == e0.cfg
    ensures e.calls[0] == Call(c, args, None, Registered) && e.sent == [] && e.open == e0.open && e.refused == {}
    ensures forall ev | ev in es :: !ev.Receive?
    ensures e.table == map[SeqOf(0) := Entry(e0.cfg.p.requests[c].resp, 0)]
  {
    hide GoodValue, SeqOf;
    var number := NumberRequest(c, args, None);
    var e1 := Apply(e0, number);
    e := Apply(e1, Register(0));
    FirstStep(e1, Register(0), [], e);
    es := [number] + [Register(0)];
    FirstStep(e0, number, [Register(0)], e);
  }

  /** Request 0, on the wire. */
  lemma RequestGoesOut(e0: Endpoint, c: string, args: Value) returns (es: seq<Event>, e: Endpoint)
    requires Init(e0) && e0.open && c in e0.cfg.p.requests && GoodValue(args, e0.cfg.p.requests[c].args)
    ensures Runs(e0, es, e) && forall ev | ev in es :: !ev.Receive?
    ensures e.sent == [RequestF(0, c, args, None)] && e.log == [] && e.cfg == e0.cfg && e.refused == {}
  {
    hide GoodValue, SeqOf, Init;
    var es1, e1 := FirstRequest(e0, c, args);
    var e2 := Apply(e1, StartRequest(0, 0));
    e := Apply(e2, Transmit(0));
    var es2 := [StartRequest(0, 0)] + [Transmit(0)];
    FirstStep(e2, Transmit(0), [], e);
    FirstStep(e1, StartRequest(0, 0), [Transmit(0)], e);
    RunsJoin(e0, es1, e1, es2, e);
    es := es1 + es2;
  }

  /** A first request, dispatched and answered with any outcome. */
  lemma RequestIsServed(e0: Endpoint, j: Json, out: Outcome) returns (es: seq<Event>, e: Endpoint)
    requires Init(e0) && e0.open && Kind(e0.cfg, j).RequestIn? && GoodOutcome(e0.cfg.p, Kind(e0.cfg, j).command, out)
    ensures Runs(ReceiveMessage(e0, j), es, e) && forall ev | ev in es :: !ev.Receive?
    ensures var k := Kind(e0.cfg, j);
            && e.sent == [ReplyF(0, 0, k.seq_, k.command, out, None)]
            && e.dispatched == [RequestP(0, k.seq_, k.command, k.args)] && e.cfg == e0.cfg
  {
    hide Kind;
    var e1 := ReceiveMessage(e0, j);
    var e2 := Apply(e1, Dispatch);
    var reply := StartReply(0, 0, out, None);
    var e3 := Apply(e2, reply);
    e := Apply(e3, Transmit(0));
    FirstStep(e3, Transmit(0), [], e);
    FirstStep(e2, reply, [Transmit(0)], e);
    es := [Dispatch] + ([reply] + [Transmit(0)]);
    FirstStep(e1, Dispatch, [reply] + [Transmit(0)], e);
  }

  /** Both ways to set a promise twice can happen, with every request and every reply: the forged
      response comes after the failed send, or before it. */
  lemma SetTwiceHappens(e0: Endpoint, c: string, args: Value, out: Outcome, early: bool)
    returns (es: seq<Event>, e: Endpoint)
    requires Init(e0) && GoodProtocol(e0.cfg.p) && c in e0.cfg.p.requests
    requires GoodValue(args, e0.cfg.p.requests[c].args) && GoodOutcome(e0.cfg.p, c, out)
    ensures Runs(e0, es, e) && SetTwice(e, 0)
  {
    hide GoodType, Classify, EffectOf, ReplyMsg, Runs, ReceiveMessage, Init, CanonicalIn, HasType;
    var ty := e0.cfg.p.requests[c].resp;
    var j := ReplyMsg(0, SeqOf(0), c, ty, out);
    ReplyArrives(e0.cfg.p, e0.cfg.handlers, e0.cfg.eventHandlers, 0, SeqOf(0), c, ty, out);
    var es1, e1 := FirstRequest(e0, c, args);
    var es2: seq<Event>, es3: seq<Event>, e2: Endpoint;
    if early {
      es2, e2 := [Receive(j)], ReceiveMessage(e1, j);
      ForgedAnswer(e1, ty, j);
      es3, e := SendFails(e2);
    } else {
      es2, e2 := SendFails(e1);
      es3, e := [Receive(j)], ReceiveMessage(e2, j);
      ForgedAnswer(e2, ty, j);
    }
    RunsJoin(e0, es1, e1, es2, e2);
    RunsJoin(e0, es1 + es2, e2, es3, e);
    es := (es1 + es2) + es3;
    assert e.sets[0].call == 0 == e.sets[1].call;
  }

  /** The dispatch thread takes the accepted requests and events exactly in wire order. */
  lemma DispatchedInWireOrder(e0: Endpoint, es: seq<Event>, e: Endpoint)
    requires Init(e0) && Runs(e0, es, e)
    ensures e.dispatched <= Accepted(e.cfg, e.log)
    ensures forall i, j | 0 <= i < j < |e.dispatched| :: e.dispatched[i].at < e.dispatched[j].at
  {
    InitInv(e0);
    RunsKeepInv(e0, es, e);
    hide CallInv, TableInv, SetInv, AnswerInv, PendingInv, SentInv, AfterInv, ResultInv, RanInv, Accepted;
    forall i, j | 0 <= i < j < |e.dispatched|
      ensures e.dispatched[i].at < e.dispatched[j].at
    {
      DispatchedInOrder(e, i, j);
    }
  }

  lemma DispatchedInOrder(e: Endpoint, i: nat, j: nat)
    requires Inv(e) && i < j < |e.dispatched|
    ensures e.dispatched[i].at < e.dispatched[j].at
  {
    hide CallInv, TableInv, SetInv, AnswerInv, PendingInv, SentInv, AfterInv, ResultInv, RanInv, Kind, Accepted, PayloadOf;
    assert e.dispatched[i] == (e.dispatched + e.inbox)[i] && e.dispatched[j] == (e.dispatched + e.inbox)[j];
    AcceptedInOrder(e.cfg, e.log, i, j);
  }

  lemma {:induction false} AcceptedInOrder(cfg: Config, log: seq<Json>, i: nat, j: nat)
    requires i < j < |Accepted(cfg, log)|
    ensures Accepted(cfg, log)[i].at < Accepted(cfg, log)[j].at
    decreases |log|
  {
    hide Kind;
    var before := log[..|log| - 1];
    if j < |Accepted(cfg, before)| {
      AcceptedInOrder(cfg, before, i, j);
    } else {
      AcceptedAt(cfg, before, i);
    }
  }

  lemma ReplyBefore(e: Endpoint, j: nat) returns (i: nat)
    requires Inv(e) && j < |e.sent| && e.sent[j].after.Some?
    ensures i < j && e.sent[i].ReplyF? && e.sent[i].at == e.sent[j].after.value
  {
    hide CallInv, TableInv, SetInv, AnswerInv, OrderInv, PendingInv, SentInv, ResultInv, RanInv;
    i :| 0 <= i < j && e.sent[..j][i].ReplyF? && e.sent[..j][i].at == e.sent[j].after.value;
  }

  /** A frame sent from a response-sent handler follows its response on the wire. */
  lemma ResponseComesFirst(e0: Endpoint, es: seq<Event>, e: Endpoint, j: nat) returns (i: nat)
    requires Init(e0) && Runs(e0, es, e)
    requires j < |e.sent| && e.sent[j].after.Some?
    ensures i < j && e.sent[i].ReplyF? && e.sent[i].at == e.sent[j].after.value
  {
    hide Inv;
    InitInv(e0);
    RunsKeepInv(e0, es, e);
    i := ReplyBefore(e, j);
  }

  // ------------------------------------------------------- nothing accepted is lost

  /** The payload says what the message said. */
  ghost predicate SaysMessage(k: Incoming, x: Payload) {
    match x
    case RequestP(_, q, c, args) => k == RequestIn(q, c, args)
    case EventP(_, n, body) => k == EventIn(n, body)
  }

  lemma {:induction false} AcceptedIff(cfg: Config, log: seq<Json>, x: Payload)
    ensures x in Accepted(cfg, log) <==> x.at < |log| && SaysMessage(Kind(cfg, log[x.at]), x)
  {
    hide Kind;
    if log != [] {
      var n := |log| - 1;
      AcceptedIff(cfg, log[..n], x);
      var k := Kind(cfg, log[n]);
      assert x in PayloadOf(k, n) <==> x.at == n && SaysMessage(k, x);
      assert x.at < n ==> log[..n][x.at] == log[x.at];
    }
  }

  /** In every run the dispatch thread has been given, or has waiting for it, exactly the accepted
      requests and events, with what they said: none is lost, none is made up. */
  lemma NothingAcceptedIsLost(e0: Endpoint, es: seq<Event>, e: Endpoint, x: Payload)
    requires Init(e0) && Runs(e0, es, e)
    ensures x in e.dispatched + e.inbox <==> x.at < |e.log| && SaysMessage(Kind(e.cfg, e.log[x.at]), x)
  {
    hide Inv, Kind;
    InitInv(e0);
    RunsKeepInv(e0, es, e);
    InboxIs(e, x);
  }

  lemma InboxIs(e: Endpoint, x: Payload)
    requires Inv(e)
    ensures x in e.dispatched + e.inbox <==> x.at < |e.log| && SaysMessage(Kind(e.cfg, e.log[x.at]), x)
  {
    hide CallInv, TableInv, SetInv, AnswerInv, PendingInv, SentInv, AfterInv, ResultInv, RanInv, Kind, Accepted;
    AcceptedIff(e.cfg, e.log, x);
  }

  /** What waits can always be dispatched, all of it. */
  lemma {:induction false} InboxDrains(e: Endpoint) returns (es: seq<Event>, e': Endpoint)
    ensures Runs(e, es, e') && forall ev | ev in es :: !ev.Receive?
    ensures e'.inbox == [] && e'.dispatched == e.dispatched + e.inbox
    ensures e' == e.(inbox := [], dispatched := e'.dispatched)
    decreases |e.inbox|
  {
    if e.inbox == [] {
      es, e' := [], e;
      assert e.dispatched + [] == e.dispatched;
    } else {
      var rest: seq<Event>;
      var next := Apply(e, Dispatch);
      rest, e' := InboxDrains(next);
      FirstStep(e, Dispatch, rest, e');
      es := [Dispatch] + rest;
      assert next.dispatched + next.inbox == e.dispatched + e.inbox;
    }
  }

  // ------------------------------------------------------------------- look-ups

  /** A response takes the entry with its number out of the table, whatever else it says, and
      touches no other. */
  lemma LookUpErases(e: Endpoint, j: Json)
    requires Kind(e.cfg, j).ResponseIn?
    ensures ReceiveMessage(e, j).table == e.table - {Kind(e.cfg, j).requestSeq}
  {
    hide Kind, EffectOf;
    var q := Kind(e.cfg, j).requestSeq;
    assert q !in e.table ==> e.table - {q} == e.table;
  }

  /** A frame goes on the wire exactly when the writer is open, and only then does its request count
      as sent; the response-sent handler of a reply may run either way. */
  lemma TransmitOutcome(e: Endpoint, t: Tid)
    requires Enabled(e, Transmit(t))
    ensures var f, e' := e.pending[t], TransmitFrame(e, t);
            && e'.pending == e.pending - {t} && e'.sent == (if e.open then e.sent + [f] else e.sent)
            && e'.calls.Keys == e.calls.Keys && e'.numbered == e.numbered && e'.results == e.results
            && (f.RequestF? ==> InPhase(e', f.n, if e.open then OnWire else SendFailed))
            && e'.replied == if f.ReplyF? then e.replied + {f.at} else e.replied
  {
    match e.pending[t] {
      case RequestF(_, _, _, _) =>
      case EventF(_, _, _, _) =>
      case ReplyF(_, _, _, _, _, _) =>
    }
  }

  // -------------------------------------------------------------------- numbers

  /** Numbers begin with 1 and go up by one, modulo 2^32. */
  lemma NumbersCount(n: nat)
    ensures Number(0) == 1 && Number(n) < 0x1_0000_0000 && Number(n + 1) == (Number(n) + 1) % 0x1_0000_0000
  {}

  /** A request is filed under the 32-bit signed integer congruent to its number. */
  lemma SeqOfIs(n: nat)
    ensures -0x8000_0000 <= SeqOf(n) < 0x8000_0000 && SeqOf(n) % UINT32_MODULUS == Number(n)
  {}

  lemma NumberInjective(n: nat, m: nat)
    requires n < UINT32_MODULUS && m < UINT32_MODULUS
    ensures Number(n) == Number(m) <==> n == m
  {}

  /** A number given out, and not to a request unless this is it. */
  ghost predicate OwnNumber(e: Endpoint, f: Frame) {
    f.n < e.numbered && (f.RequestF? || f.n !in e.calls)
  }

  ghost predicate NumberInv(e: Endpoint) {
    && (forall t | t in e.pending :: OwnNumber(e, e.pending[t]))
    && (forall i | 0 <= i < |e.sent| :: OwnNumber(e, e.sent[i]))
    && (forall t, u | t in e.pending && u in e.pending && t != u :: e.pending[t].n != e.pending[u].n)
    && (forall i, j | 0 <= i < j < |e.sent| :: e.sent[i].n != e.sent[j].n)
    && (forall t, i | t in e.pending && 0 <= i < |e.sent| :: e.pending[t].n != e.sent[i].n)
  }

  /** A thread enters `send` with a number of its own. */
  lemma NewNumber(e: Endpoint, e': Endpoint, t: Tid, f: Frame)
    requires NumberInv(e) && t !in e.pending && e'.pending == e.pending[t := f] && e'.sent == e.sent
    requires e'.calls.Keys == e.calls.Keys && e.numbered <= e'.numbered && OwnNumber(e', f)
    requires forall u | u in e.pending :: e.pending[u].n != f.n
    requires forall i | 0 <= i < |e.sent| :: e.sent[i].n != f.n
    ensures NumberInv(e')
  {}

  lemma NumberInvSame(e: Endpoint, e': Endpoint)
    requires NumberInv(e) && e'.pending == e.pending && e'.sent == e.sent && e.numbered <= e'.numbered
    requires forall n | n in e'.calls :: n in e.calls || n >= e.numbered
    ensures NumberInv(e')
  {}

  lemma TransmitNumber(e: Endpoint, t: Tid)
    requires NumberInv(e) && Enabled(e, Transmit(t))
    ensures NumberInv(TransmitFrame(e, t))
  {
    hide TransmitFrame;
    TransmitOutcome(e, t);
  }

  /** No frame of a request is about before it is being sent. */
  lemma NotSentYet(e: Endpoint, n: nat)
    requires Inv(e) && NumberInv(e) && InPhase(e, n, Registered)
    ensures forall u | u in e.pending :: e.pending[u].n != n
    ensures forall i | 0 <= i < |e.sent| :: e.sent[i].n != n
  {
    hide CallInv, TableInv, SetInv, AnswerInv, OrderInv, AfterInv, ResultInv, RanInv, GoodFrame, SendingInv;
    forall u | u in e.pending
      ensures e.pending[u].n != n
    {
      assert BeingSent(e, e.pending[u]) && OwnNumber(e, e.pending[u]);
    }
    forall i | 0 <= i < |e.sent|
      ensures e.sent[i].n != n
    {
      assert WasSent(e, e.sent[i]) && OwnNumber(e, e.sent[i]);
    }
  }

  lemma CallBelow(e: Endpoint)
    requires CallInv(e)
    ensures e.numbered !in e.calls
  {
    assert e.numbered in e.calls ==> GoodCall(e, e.numbered);
  }

  lemma NumberInvKept(e: Endpoint, ev: Event)
    requires Inv(e) && NumberInv(e) && Enabled(e, ev)
    ensures NumberInv(Apply(e, ev))
  {
    hide NumberInv, GoodValue, Kind, EffectOf, SeqOf, TransmitFrame, ReceiveMessage;
    hide TableInv, SetInv, AnswerInv, OrderInv, PendingInv, SentInv, AfterInv, ResultInv, RanInv, GoodCall;
    var e' := Apply(e, ev);
    match ev {
      case StartRequest(t, n) =>
        NotSentYet(e, n);
        OwnRequest(e, n);
        NewNumber(e, e', t, e'.pending[t]);
      case StartEvent(t, _, _, _) =>
        CallBelow(e);
        BelowNumbered(e);
        NewNumber(e, e', t, e'.pending[t]);
      case StartReply(t, _, _, _) =>
        CallBelow(e);
        BelowNumbered(e);
        NewNumber(e, e', t, e'.pending[t]);
      case Transmit(t) => TransmitNumber(e, t);
      case Receive(j) =>
        ReceivedNumbers(e, j);
        NumberInvSame(e, e');
      case _ => NumberInvSame(e, e');
    }
  }

  lemma OwnRequest(e: Endpoint, n: nat)
    requires CallInv(e) && n in e.calls
    ensures n < e.numbered
  {
    assert GoodCall(e, n);
  }

  lemma BelowNumbered(e: Endpoint)
    requires NumberInv(e)
    ensures forall t | t in e.pending :: e.pending[t].n != e.numbered
    ensures forall i | 0 <= i < |e.sent| :: e.sent[i].n != e.numbered
  {
    assert forall t | t in e.pending :: OwnNumber(e, e.pending[t]);
    assert forall i | 0 <= i < |e.sent| :: OwnNumber(e, e.sent[i]);
  }

  lemma ReceivedNumbers(e: Endpoint, j: Json)
    ensures var e' := ReceiveMessage(e, j);
            e'.pending == e.pending && e'.sent == e.sent && e'.numbered == e.numbered && e'.calls == e.calls
  {
    hide Kind, EffectOf;
  }

  lemma {:induction false} RunsKeepNumbers(e: Endpoint, es: seq<Event>, e': Endpoint)
    requires Inv(e) && NumberInv(e) && Runs(e, es, e')
    ensures NumberInv(e')
    decreases es
  {
    hide Inv, NumberInv, Apply, Enabled;
    if es != [] {
      InvKept(e, es[0]);
      NumberInvKept(e, es[0]);
      RunsKeepNumbers(Apply(e, es[0]), es[1..], e');
    }
  }

  /** In every run, no two messages on the wire, of whatever kind, bear the same number, while at most
      2^32 have been given out. */
  lemma NumbersDiffer(e0: Endpoint, es: seq<Event>, e: Endpoint, i: nat, j: nat)
    requires Init(e0) && Runs(e0, es, e) && e.numbered <= UINT32_MODULUS && i < j < |e.sent|
    ensures Number(e.sent[i].n) != Number(e.sent[j].n)
  {
    hide Inv, Number;
    InitInv(e0);
    RunsKeepNumbers(e0, es, e);
    assert OwnNumber(e, e.sent[i]) && OwnNumber(e, e.sent[j]);
    NumberInjective(e.sent[i].n, e.sent[j].n);
  }

  // ------------------------------------------------------------------- results

  ghost predicate IsReplying(e: Endpoint, at: nat) {
    exists t :: t in e.pending && e.pending[t].ReplyF? && e.pending[t].at == at
  }

  /** Every result a handler has produced is on its way, or has been handed to `send`. */
  ghost predicate ReplyingInv(e: Endpoint) {
    forall at | at in e.results :: at in e.replied || IsReplying(e, at)
  }

  lemma ReplyingSame(e: Endpoint, e': Endpoint)
    requires ReplyingInv(e) && e'.results == e.results && e.replied <= e'.replied
    requires forall t | t in e.pending && e.pending[t].ReplyF? && e.pending[t].at !in e'.replied ::
               t in e'.pending && e'.pending[t] == e.pending[t]
    ensures ReplyingInv(e')
  {
    forall at | at in e'.results && at !in e'.replied
      ensures IsReplying(e', at)
    {
      var t :| t in e.pending && e.pending[t].ReplyF? && e.pending[t].at == at;
      assert t in e'.pending;
    }
  }

  lemma ReplyingKept(e: Endpoint, ev: Event)
    requires ReplyingInv(e) && Enabled(e, ev)
    ensures ReplyingInv(Apply(e, ev))
  {
    hide ReplyingInv, GoodValue, Kind, EffectOf, SeqOf, ReceiveMessage, TransmitFrame;
    var e' := Apply(e, ev);
    match ev {
      case Transmit(t) =>
        TransmitOutcome(e, t);
        ReplyingSame(e, e');
      case StartReply(t, i, out, after) => ReplyingMore(e, t, i, out, after);
      case Receive(j) =>
        ReceivedReplies(e, j);
        ReplyingSame(e, e');
      case _ => ReplyingSame(e, e');
    }
  }

  lemma ReceivedReplies(e: Endpoint, j: Json)
    ensures var e' := ReceiveMessage(e, j); e'.pending == e.pending && e'.results == e.results && e'.replied == e.replied
  {
    hide Kind, EffectOf;
  }

  lemma ReplyingMore(e: Endpoint, t: Tid, i: nat, out: Outcome, after: Option<nat>)
    requires ReplyingInv(e) && Enabled(e, StartReply(t, i, out, after))
    ensures ReplyingInv(Reply(e, t, i, out, after))
  {
    hide GoodValue;
    var e' := Reply(e, t, i, out, after);
    assert e'.pending[t].ReplyF?;
    forall at | at in e'.results && at !in e'.replied
      ensures IsReplying(e', at)
    {
      if at != e.dispatched[i].at {
        var u :| u in e.pending && e.pending[u].ReplyF? && e.pending[u].at == at;
        assert e'.pending[u] == e.pending[u];
      }
    }
  }

  lemma {:induction false} RunsKeepReplying(e: Endpoint, es: seq<Event>, e': Endpoint)
    requires ReplyingInv(e) && Runs(e, es, e')
    ensures ReplyingInv(e')
    decreases es
  {
    hide ReplyingInv, Apply, Enabled;
    if es != [] {
      ReplyingKept(e, es[0]);
      RunsKeepReplying(Apply(e, es[0]), es[1..], e');
    }
  }

  /** In every run, what a handler has produced is being sent, or has been handed to `send`, after
      which its response-sent handler may run. */
  lemma NoResultIsForgotten(e0: Endpoint, es: seq<Event>, e: Endpoint, at: nat)
    requires Init(e0) && Runs(e0, es, e) && at in e.results
    ensures at in e.replied || IsReplying(e, at)
  {
    RunsKeepReplying(e0, es, e);
  }
}
