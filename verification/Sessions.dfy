/** Two sessions joined by two FIFO wires. What one has received is always a beginning of what the
    other has sent; `ByteSessions` shows that the byte streams between them behave so. */
module Sessions {
  import opened Threads
  import opened Options
  import opened Serialization
  import opened RoundTrip
  import opened Messages
  import opened Endpoints

  /** A frame as the JSON message that goes on the wire. */
  ghost predicate Sendable(p: Protocol, f: Frame) {
    match f
    case RequestF(_, c, args, _) => c in p.requests && GoodValue(args, p.requests[c].args)
    case EventF(_, name, body, _) => name in p.events && GoodValue(body, p.events[name])
    case ReplyF(_, _, q, c, out, _) => IsInt64(q) && GoodOutcome(p, c, out)
  }

  function Msg(p: Protocol, f: Frame): Json
    requires Sendable(p, f)
  {
    match f
    case RequestF(n, c, args, _) => RequestMsg(SeqOf(n), c, Encode(p.requests[c].args, args, JNull).json)
    case EventF(n, name, body, _) => EventMsg(Number(n), name, Encode(p.events[name], body, JNull).json)
    case ReplyF(n, _, q, c, out, _) => ReplyMsg(Number(n), q, c, p.requests[c].resp, out)
  }

  /** What the receiver should make of a frame. */
  function Expected(cfg: Config, f: Frame): Incoming {
    match f
    case RequestF(n, c, args, _) => if c in cfg.handlers then RequestIn(SeqOf(n), c, args) else Rejected
    case EventF(_, name, body, _) => if name in cfg.eventHandlers then EventIn(name, body) else Rejected
    case ReplyF(_, _, q, _, _, _) => ResponseIn(q)
  }

  lemma ArrivesAsSent(cfg: Config, f: Frame)
    requires GoodProtocol(cfg.p) && Sendable(cfg.p, f)
    ensures Kind(cfg, Msg(cfg.p, f)) == Expected(cfg, f)
    ensures f.ReplyF? ==> EffectOf(cfg.p.requests[f.command].resp, Msg(cfg.p, f)) == Intended(f.out)
  {
    hide GoodType, GoodValue, Classify, EffectOf, Encode, RequestMsg, EventMsg, ReplyMsg, Intended;
    match f {
      case RequestF(n, c, args, _) => RequestArrives(cfg.p, cfg.handlers, cfg.eventHandlers, SeqOf(n), c, args);
      case EventF(n, name, body, _) => EventArrives(cfg.p, cfg.handlers, cfg.eventHandlers, Number(n), name, body);
      case ReplyF(n, _, q, c, out, _) =>
        ReplyArrives(cfg.p, cfg.handlers, cfg.eventHandlers, Number(n), q, c, cfg.p.requests[c].resp, out);
    }
  }

  // ------------------------------------------------------------------ system

  datatype Sys = Sys(a: Endpoint, b: Endpoint)

  datatype SysEvent = OnA(ev: Event) | OnB(ev: Event) | DeliverToA | DeliverToB

  ghost predicate CanDeliver(x: Endpoint, y: Endpoint) {
    |x.log| < |y.sent| && Sendable(y.cfg.p, y.sent[|x.log|])
  }

  ghost function Deliver(x: Endpoint, y: Endpoint): Endpoint
    requires CanDeliver(x, y)
  {
    ReceiveMessage(x, Msg(y.cfg.p, y.sent[|x.log|]))
  }

  ghost predicate SysEnabled(s: Sys, e: SysEvent) {
    match e
    case OnA(ev) => !ev.Receive? && Enabled(s.a, ev)
    case OnB(ev) => !ev.Receive? && Enabled(s.b, ev)
    case DeliverToA => CanDeliver(s.a, s.b)
    case DeliverToB => CanDeliver(s.b, s.a)
  }

  ghost function SysApply(s: Sys, e: SysEvent): Sys
    requires SysEnabled(s, e)
  {
    match e
    case OnA(ev) => s.(a := Apply(s.a, ev))
    case OnB(ev) => s.(b := Apply(s.b, ev))
    case DeliverToA => s.(a := Deliver(s.a, s.b))
    case DeliverToB => s.(b := Deliver(s.b, s.a))
  }

  ghost predicate SysRuns(s: Sys, es: seq<SysEvent>, s': Sys)
    decreases es
  {
    if es == [] then s' == s else SysEnabled(s, es[0]) && SysRuns(SysApply(s, es[0]), es[1..], s')
  }

  ghost predicate SysInit(s: Sys) {
    Init(s.a) && Init(s.b) && s.a.cfg.p == s.b.cfg.p && GoodProtocol(s.a.cfg.p)
  }

  // --------------------------------------------------------------- invariant

  /** x has received a beginning of what y has sent. */
  ghost predicate Linked(x: Endpoint, y: Endpoint) {
    |x.log| <= |y.sent| && forall i | 0 <= i < |x.log| :: Carried(x, y, i)
  }

  ghost predicate Carried(x: Endpoint, y: Endpoint, i: nat)
    requires i < |x.log| <= |y.sent|
  {
    Sendable(y.cfg.p, y.sent[i]) && x.log[i] == Msg(y.cfg.p, y.sent[i])
  }

  /** Every reply x has received has reached the request it is the reply to. */
  ghost predicate Answers(x: Endpoint, y: Endpoint)
    requires |x.log| <= |y.sent|
  {
    x.refused == {} ==> forall at | 0 <= at < |x.log| && y.sent[at].ReplyF? :: AnsweredBy(x, y.sent[at].at, at)
  }

  ghost predicate AnsweredBy(x: Endpoint, idx: nat, at: nat) {
    idx < |x.sent| && x.sent[idx].RequestF? && x.sent[idx].n in x.answered && x.answered[x.sent[idx].n] == at
  }

  ghost predicate PairInv(x: Endpoint, y: Endpoint) {
    && Inv(x) && Inv(y) && x.cfg.p == y.cfg.p && GoodProtocol(x.cfg.p)
    && Linked(x, y) && Linked(y, x)
  }

  ghost predicate SysInv(s: Sys) {
    PairInv(s.a, s.b) && Answers(s.a, s.b) && Answers(s.b, s.a)
  }

  // ------------------------------------------------------------------ lemmas

  lemma SentIsGood(e: Endpoint, i: nat)
    requires Inv(e) && i < |e.sent|
    ensures GoodFrame(e, e.sent[i]) && WasSent(e, e.sent[i])
    ensures e.sent[i].RequestF? ==> GoodCall(e, e.sent[i].n)
  {
    hide GoodFrame, GoodCall, TableInv, SetInv, AnswerInv, OrderInv, PendingInv, AfterInv, ResultInv, RanInv;
    if e.sent[i].RequestF? {
      assert InPhase(e, e.sent[i].n, OnWire);
    }
  }

  /** What the message at index i of the log was when it was sent. */
  lemma LogIs(x: Endpoint, y: Endpoint, i: nat)
    requires x.cfg.p == y.cfg.p && GoodProtocol(x.cfg.p) && Linked(x, y) && i < |x.log|
    ensures Kind(x.cfg, x.log[i]) == Expected(x.cfg, y.sent[i])
    ensures y.sent[i].ReplyF? ==>
              && y.sent[i].command in x.cfg.p.requests
              && EffectOf(x.cfg.p.requests[y.sent[i].command].resp, x.log[i]) == Intended(y.sent[i].out)
  {
    hide GoodProtocol, GoodValue, Kind, EffectOf, Expected, Intended, Msg;
    assert Carried(x, y, i);
    ArrivesAsSent(x.cfg, y.sent[i]);
  }

  /** A reply from y belongs to the request from x that it names. */
  lemma ReplyIsTo(x: Endpoint, y: Endpoint, f: Frame)
    requires PairInv(x, y) && f.ReplyF? && GoodFrame(y, f)
    ensures f.at < |y.log| && f.at < |x.sent| && x.sent[f.at].RequestF?
    ensures f.requestSeq == SeqOf(x.sent[f.at].n) && f.command == x.sent[f.at].command
    ensures f.at in y.results && y.results[f.at] == f.out
  {
    hide Inv, GoodProtocol, GoodValue, Kind, EffectOf, SeqOf;
    LogIs(y, x, f.at);
  }

  /** Everything an endpoint puts on the wire can be sent. */
  lemma GoodIsSendable(e: Endpoint, i: nat)
    requires Inv(e) && i < |e.sent|
    ensures Sendable(e.cfg.p, e.sent[i])
  {
    hide Inv, GoodValue, Classify, Encode;
    SentIsGood(e, i);
    var f := e.sent[i];
    if f.ReplyF? {
      RequestNumber(e.cfg.p, e.cfg.handlers, e.cfg.eventHandlers, e.log[f.at]);
    }
  }

  lemma TransmitSends(e: Endpoint, t: Tid)
    requires Enabled(e, Transmit(t))
    ensures var e' := TransmitFrame(e, t);
            && e'.cfg == e.cfg && e'.log == e.log && e'.answered == e.answered && e'.refused == e.refused
            && e'.open == e.open && e'.pending == e.pending - {t}
            && e'.sent == if e.open then e.sent + [e.pending[t]] else e.sent
  {
    match e.pending[t] {
      case RequestF(_, _, _, _) =>
      case EventF(_, _, _, _) =>
      case ReplyF(_, _, _, _, _, _) =>
    }
  }

  lemma ApplyGrows(e: Endpoint, ev: Event)
    requires Inv(e) && Enabled(e, ev) && !ev.Receive?
    ensures var e' := Apply(e, ev);
            && e'.cfg == e.cfg && e'.log == e.log && e'.answered == e.answered
            && e.sent <= e'.sent && e.refused <= e'.refused
  {
    hide Inv, ReceiveMessage, TransmitFrame, SeqOf, Number, GoodValue;
    match ev {
      case Transmit(t) => TransmitSends(e, t);
      case _ =>
    }
  }

  lemma LinkedGrows(x: Endpoint, y: Endpoint, x': Endpoint, y': Endpoint)
    requires Linked(x, y) && x'.log == x.log && y.sent <= y'.sent && y'.cfg == y.cfg
    ensures Linked(x', y')
  {
    hide Msg, Sendable;
    forall i | 0 <= i < |x'.log|
      ensures Carried(x', y', i)
    {
      assert Carried(x, y, i);
    }
  }

  lemma AnswersGrow(x: Endpoint, y: Endpoint, x': Endpoint, y': Endpoint)
    requires |x.log| <= |y.sent| && Answers(x, y)
    requires x'.log == x.log && x.sent <= x'.sent && x'.answered == x.answered && x.refused <= x'.refused
    requires y.sent <= y'.sent
    ensures Answers(x', y')
  {
    if x'.refused == {} {
      forall at | 0 <= at < |x'.log| && y'.sent[at].ReplyF?
        ensures AnsweredBy(x', y'.sent[at].at, at)
      {
        assert AnsweredBy(x, y.sent[at].at, at);
      }
    }
  }

  lemma LocalKeeps(x: Endpoint, y: Endpoint, ev: Event)
    requires PairInv(x, y) && Answers(x, y) && Answers(y, x) && Enabled(x, ev) && !ev.Receive?
    ensures var x' := Apply(x, ev); PairInv(x', y) && Answers(x', y) && Answers(y, x')
  {
    hide Inv, Enabled, Apply, GoodProtocol, Linked, Answers;
    assert |x.log| <= |y.sent| && |y.log| <= |x.sent| by { LinkedLengths(x, y); LinkedLengths(y, x); }
    var x' := Apply(x, ev);
    InvKept(x, ev);
    ApplyGrows(x, ev);
    LinkedGrows(x, y, x', y);
    LinkedGrows(y, x, y, x');
    AnswersGrow(x, y, x', y);
    AnswersGrow(y, x, y, x');
  }

  lemma LinkedLengths(x: Endpoint, y: Endpoint)
    requires Linked(x, y)
    ensures |x.log| <= |y.sent|
  {}

  /** Distinct frames on the wire belong to distinct requests. */
  lemma NoClash(e: Endpoint, i: nat, j: nat)
    requires Inv(e) && i < |e.sent| && j < |e.sent|
    ensures Clash(e.sent[i], e.sent[j]) ==> i == j
  {
    hide CallInv, GoodFrame, TableInv, SetInv, AnswerInv, OrderInv, PendingInv, AfterInv, ResultInv, RanInv;
    assert i < j ==> !Clash(e.sent[i], e.sent[j]);
    assert j < i ==> !Clash(e.sent[j], e.sent[i]);
  }

  /** One message answers one call. */
  lemma AnswersDiffer(e: Endpoint, n: nat, m: nat)
    requires Inv(e) && n in e.answered && m in e.answered && e.answered[n] == e.answered[m]
    ensures n == m
  {
    hide GoodCall, SeqOf, Kind, GoodSet, TableInv, AnswerInv, OrderInv, PendingInv, SentInv, AfterInv, ResultInv, RanInv;
  }

  lemma AnsweredInv(e: Endpoint, n: nat)
    requires Inv(e) && n in e.answered
    ensures n in e.calls && e.answered[n] < |e.log| && Kind(e.cfg, e.log[e.answered[n]]) == ResponseIn(SeqOf(n))
  {
    hide GoodCall, SeqOf, Kind, AnswerInv, OrderInv, PendingInv, SentInv, AfterInv, ResultInv, RanInv, GoodValue;
  }

  /** The response that answered request n is the only reply to the only frame of n. */
  lemma ResponseIsTo(x: Endpoint, y: Endpoint, n: nat)
    requires PairInv(x, y) && Answers(x, y) && x.refused == {} && n in x.answered
    ensures var at := x.answered[n];
            && at < |x.log| <= |y.sent| && y.sent[at].ReplyF? && GoodFrame(y, y.sent[at])
            && var idx := y.sent[at].at; idx < |x.sent| && x.sent[idx].RequestF? && x.sent[idx].n == n
  {
    hide Inv, GoodProtocol, GoodValue, Kind, EffectOf, SeqOf, GoodFrame, Linked;
    LinkedLengths(x, y);
    AnsweredInv(x, n);
    var at := x.answered[n];
    LogIs(x, y, at);
    SentIsGood(y, at);
    assert AnsweredBy(x, y.sent[at].at, at);
    AnswersDiffer(x, n, x.sent[y.sent[at].at].n);
  }

  /** When a reply comes in, its request is still awaiting it. */
  lemma StillAwaiting(x: Endpoint, y: Endpoint)
    requires PairInv(x, y) && Answers(x, y) && |x.log| < |y.sent| && y.sent[|x.log|].ReplyF? && x.refused == {}
    ensures var idx := y.sent[|x.log|].at;
            idx < |x.sent| && x.sent[idx].RequestF? && InPhase(x, x.sent[idx].n, OnWire) && x.sent[idx].n !in x.answered
  {
    hide Inv, GoodProtocol, GoodValue, Kind, EffectOf, SeqOf, GoodFrame, Linked, Answers;
    var f := y.sent[|x.log|];
    SentIsGood(y, |x.log|);
    ReplyIsTo(x, y, f);
    SentIsGood(x, f.at);
    var n := x.sent[f.at].n;
    if n in x.answered {
      var at := x.answered[n];
      ResponseIsTo(x, y, n);
      NoClash(x, f.at, y.sent[at].at);
      NoClash(y, |x.log|, at);
    }
  }

  lemma ReceiveGrows(e: Endpoint, j: Json)
    ensures var e' := ReceiveMessage(e, j);
            && e'.cfg == e.cfg && e'.log == e.log + [j] && e'.sent == e.sent && e'.refused == e.refused
            && e'.calls == e.calls
  {
    hide Kind, EffectOf, ReceiveResponse;
    var k := Kind(e.cfg, j);
    if k.ResponseIn? {
      ResponseGrows(e.(log := e.log + [j]), k.requestSeq, j);
    }
  }

  lemma ResponseGrows(e: Endpoint, q: int, j: Json)
    requires e.log != []
    ensures var e' := ReceiveResponse(e, q, j);
            && e'.cfg == e.cfg && e'.log == e.log && e'.sent == e.sent && e'.refused == e.refused
            && e'.calls == e.calls
  {
    hide EffectOf;
  }

  /** What receiving the reply to an awaiting request does. */
  lemma ReceiveAnswers(e: Endpoint, j: Json, n: nat)
    requires Inv(e) && e.refused == {} && InPhase(e, n, OnWire) && n !in e.answered
    requires Kind(e.cfg, j) == ResponseIn(SeqOf(n))
    ensures ReceiveMessage(e, j).answered == e.answered[n := |e.log|]
  {
    hide GoodCall, SetInv, AnswerInv, OrderInv, PendingInv, SentInv, AfterInv, ResultInv, RanInv, Kind, EffectOf, SeqOf;
    assert FiledUnder(e, n, SeqOf(n));
  }

  lemma ReceiveOther(e: Endpoint, j: Json)
    requires !Kind(e.cfg, j).ResponseIn?
    ensures ReceiveMessage(e, j).answered == e.answered
  {
    hide Kind;
  }

  lemma DeliverLinks(x: Endpoint, y: Endpoint)
    requires Linked(x, y) && CanDeliver(x, y)
    ensures Linked(Deliver(x, y), y)
  {
    hide Msg, Sendable, ReceiveMessage;
    var x' := Deliver(x, y);
    ReceiveGrows(x, Msg(y.cfg.p, y.sent[|x.log|]));
    forall i | 0 <= i < |x'.log|
      ensures Carried(x', y, i)
    {
      assert i < |x.log| ==> Carried(x, y, i);
    }
  }

  /** How the new message changes the record of answers. */
  lemma DeliverAnswered(x: Endpoint, y: Endpoint)
    requires PairInv(x, y) && Answers(x, y) && CanDeliver(x, y) && x.refused == {}
    ensures var f := y.sent[|x.log|]; var x' := Deliver(x, y);
            if f.ReplyF? then
              && f.at < |x.sent| && x.sent[f.at].RequestF? && x.sent[f.at].n !in x.answered
              && x'.answered == x.answered[x.sent[f.at].n := |x.log|]
            else x'.answered == x.answered
  {
    hide Inv, GoodProtocol, GoodValue, Kind, EffectOf, SeqOf, GoodFrame, Msg, ReceiveMessage, Linked;
    var f := y.sent[|x.log|];
    ArrivesAsSent(x.cfg, f);
    if f.ReplyF? {
      StillAwaiting(x, y);
      SentIsGood(y, |x.log|);
      ReplyIsTo(x, y, f);
      ReceiveAnswers(x, Msg(y.cfg.p, f), x.sent[f.at].n);
    } else {
      ReceiveOther(x, Msg(y.cfg.p, f));
    }
  }

  lemma DeliverAnswers(x: Endpoint, y: Endpoint)
    requires PairInv(x, y) && CanDeliver(x, y) && Answers(x, y)
    requires |Deliver(x, y).log| <= |y.sent|
    ensures Answers(Deliver(x, y), y)
  {
    hide PairInv, Msg, ReceiveMessage, Sendable;
    var x' := Deliver(x, y);
    ReceiveGrows(x, Msg(y.cfg.p, y.sent[|x.log|]));
    if x'.refused == {} {
      DeliverAnswered(x, y);
      forall at | 0 <= at < |x'.log| && y.sent[at].ReplyF?
        ensures AnsweredBy(x', y.sent[at].at, at)
      {
        assert at < |x.log| ==> AnsweredBy(x, y.sent[at].at, at);
      }
    }
  }

  lemma DeliverKeeps(x: Endpoint, y: Endpoint)
    requires PairInv(x, y) && Answers(x, y) && Answers(y, x) && CanDeliver(x, y)
    ensures var x' := Deliver(x, y); PairInv(x', y) && Answers(x', y) && Answers(y, x')
  {
    hide Inv, GoodProtocol, Linked, Answers, Msg, ReceiveMessage, Sendable;
    var x' := Deliver(x, y);
    ReceiveGrows(x, Msg(y.cfg.p, y.sent[|x.log|]));
    ReceiveKeeps(x, Msg(y.cfg.p, y.sent[|x.log|]));
    DeliverLinks(x, y);
    LinkedGrows(y, x, y, x');
    LinkedLengths(x', y);
    LinkedLengths(y, x);
    DeliverAnswers(x, y);
    AnswersGrow(y, x, y, x');
  }

  lemma SysInvKept(s: Sys, e: SysEvent)
    requires SysInv(s) && SysEnabled(s, e)
    ensures SysInv(SysApply(s, e))
  {
    hide Inv, GoodProtocol, Linked, Answers, Apply, Deliver, Enabled, CanDeliver;
    match e {
      case OnA(ev) => LocalKeeps(s.a, s.b, ev);
      case OnB(ev) => LocalKeeps(s.b, s.a, ev);
      case DeliverToA => DeliverKeeps(s.a, s.b);
      case DeliverToB => DeliverKeeps(s.b, s.a);
    }
  }

  lemma SysInitInv(s: Sys)
    requires SysInit(s)
    ensures SysInv(s)
  {
    hide GoodProtocol, Inv;
    InitInv(s.a);
    InitInv(s.b);
  }

  lemma {:induction false} SysRunsKeepInv(s: Sys, es: seq<SysEvent>, s': Sys)
    requires SysInv(s) && SysRuns(s, es, s')
    ensures SysInv(s')
    decreases es
  {
    hide SysInv, SysApply, SysEnabled;
    if es != [] {
      SysInvKept(s, es[0]);
      SysRunsKeepInv(SysApply(s, es[0]), es[1..], s');
    }
  }

  // ---------------------------------------------------------------- theorems

  lemma SetIs(e: Endpoint, i: nat)
    requires Inv(e) && i < |e.sets|
    ensures CallInv(e) && GoodSet(e, e.sets[i])
    ensures e.sets[i].how.Answered? ==> Kind(e.cfg, e.log[e.sets[i].how.at]) == ResponseIn(SeqOf(e.sets[i].call))
  {
    hide GoodCall, TableInv, AnswerInv, OrderInv, PendingInv, SentInv, AfterInv, ResultInv, RanInv, Kind, EffectOf, SeqOf;
    assert GoodSet(e, e.sets[i]);
  }

  lemma HandlerRan(e: Endpoint, at: nat) returns (i: nat)
    requires Inv(e) && at in e.results
    ensures i < |e.dispatched| && e.dispatched[i].RequestP? && e.dispatched[i].at == at && at < |e.log|
    ensures Kind(e.cfg, e.log[at]) == RequestIn(e.dispatched[i].seq_, e.dispatched[i].command, e.dispatched[i].args)
  {
    hide CallInv, TableInv, SetInv, AnswerInv, PendingInv, SentInv, AfterInv, ResultInv, Kind, Accepted;
    assert Ran(e.dispatched, at);
    i :| 0 <= i < |e.dispatched| && e.dispatched[i].RequestP? && e.dispatched[i].at == at;
    ReplyFrameGood(e, i);
  }

  /** Correlation, in terms of one state. */
  lemma Correlates(x: Endpoint, y: Endpoint, i: nat) returns (idx: nat, h: nat)
    requires PairInv(x, y) && Answers(x, y) && x.refused == {} && i < |x.sets| && x.sets[i].how.Answered?
    ensures x.sets[i].call in x.calls
    ensures var n := x.sets[i].call;
            && idx < |x.sent| && x.sent[idx] == RequestFrame(x.calls[n], n)
            && idx in y.results && x.sets[i].how.effect == Intended(y.results[idx])
            && h < |y.dispatched| && y.dispatched[h] == RequestP(idx, SeqOf(n), x.calls[n].command, x.calls[n].args)
  {
    hide Inv, GoodProtocol, GoodValue, Kind, EffectOf, SeqOf, Intended, Linked;
    var n, at := x.sets[i].call, x.sets[i].how.at;
    SetIs(x, i);
    ResponseIsTo(x, y, n);
    var f := y.sent[at];
    idx := f.at;
    ReplyIsTo(x, y, f);
    SentIsGood(x, idx);
    LogIs(x, y, at);
    h := HandlerRan(y, idx);
    LogIs(y, x, idx);
  }

  /** x and y are the two ends, either way round. */
  predicate Ends(s: Sys, x: Endpoint, y: Endpoint) {
    (x == s.a && y == s.b) || (x == s.b && y == s.a)
  }

  lemma EndsInv(s0: Sys, es: seq<SysEvent>, s: Sys, x: Endpoint, y: Endpoint)
    requires SysInit(s0) && SysRuns(s0, es, s) && Ends(s, x, y)
    ensures PairInv(x, y) && Answers(x, y)
  {
    hide Inv, GoodProtocol, Linked, Answers;
    SysInitInv(s0);
    SysRunsKeepInv(s0, es, s);
  }

  /** The condition below holds at least until an endpoint has numbered 2^32 messages. */
  lemma FewNumbersSuffice(s0: Sys, es: seq<SysEvent>, s: Sys, x: Endpoint, y: Endpoint)
    requires SysInit(s0) && SysRuns(s0, es, s) && Ends(s, x, y) && x.numbered <= UINT32_MODULUS
    ensures x.refused == {}
  {
    hide GoodProtocol, Linked, Answers, SysInit, SysRuns;
    hide CallInv, SetInv, AnswerInv, OrderInv, PendingInv, SentInv, AfterInv, ResultInv, RanInv;
    EndsInv(s0, es, s, x, y);
  }

  /** Correlation, in every interleaving of two sessions: a response handler is only ever called
      with the result that the peer's handler produced for the very request it was registered
      for, and that handler was given the arguments that were sent. However many messages have
      been numbered, it holds as long as no registration has been refused. */
  lemma Correlation(s0: Sys, es: seq<SysEvent>, s: Sys, x: Endpoint, y: Endpoint, i: nat) returns (idx: nat, h: nat)
    requires SysInit(s0) && SysRuns(s0, es, s) && Ends(s, x, y) && x.refused == {}
    requires i < |x.sets| && x.sets[i].how.Answered?
    ensures x.sets[i].call in x.calls
    ensures var n := x.sets[i].call;
            && idx < |x.sent| && x.sent[idx] == RequestFrame(x.calls[n], n)
            && idx in y.results && x.sets[i].how.effect == Intended(y.results[idx])
            && h < |y.dispatched| && y.dispatched[h] == RequestP(idx, SeqOf(n), x.calls[n].command, x.calls[n].args)
  {
    hide PairInv, Answers, SysInit, SysRuns;
    EndsInv(s0, es, s, x, y);
    idx, h := Correlates(x, y, i);
  }

  lemma OnceByKind(e: Endpoint, i: nat, j: nat)
    requires Inv(e) && i < j < |e.sets| && e.sets[i].call == e.sets[j].call
    ensures e.sets[i].how.SendError? != e.sets[j].how.SendError?
  {
    hide GoodCall, TableInv, AnswerInv, OrderInv, PendingInv, SentInv, AfterInv, ResultInv, RanInv, GoodSet;
  }

  /** How a call whose promise was set was sent. */
  lemma SetPhases(x: Endpoint, y: Endpoint, i: nat)
    requires PairInv(x, y) && Answers(x, y) && x.refused == {} && i < |x.sets|
    ensures InPhase(x, x.sets[i].call, if x.sets[i].how.SendError? then ErrorSet else OnWire)
  {
    hide Inv, GoodProtocol, GoodValue, Kind, EffectOf, SeqOf, Linked, GoodFrame;
    SetIs(x, i);
    if x.sets[i].how.Answered? {
      var idx, h := Correlates(x, y, i);
      SentIsGood(x, idx);
    }
  }

  lemma ErrorIsSet(e: Endpoint)
    requires Inv(e)
    ensures forall n :: InPhase(e, n, ErrorSet) ==> PromiseSet(n, SendError) in e.sets
  {
    hide CallInv, TableInv, SetInv, AnswerInv, OrderInv, PendingInv, SentInv, AfterInv, RanInv;
  }

  /** Each promise is set at most once: with an error exactly when its request could not be sent,
      and otherwise only if it is on the wire. */
  lemma PromiseSetOnce(s0: Sys, es: seq<SysEvent>, s: Sys, x: Endpoint, y: Endpoint, i: nat)
    requires SysInit(s0) && SysRuns(s0, es, s) && Ends(s, x, y) && x.refused == {} && i < |x.sets|
    ensures forall j | 0 <= j < |x.sets| && j != i :: x.sets[j].call != x.sets[i].call
    ensures InPhase(x, x.sets[i].call, if x.sets[i].how.SendError? then ErrorSet else OnWire)
    ensures forall n :: InPhase(x, n, ErrorSet) ==> PromiseSet(n, SendError) in x.sets
  {
    hide Inv, GoodProtocol, Linked, Answers, SysInit, SysRuns;
    EndsInv(s0, es, s, x, y);
    ErrorIsSet(x);
    SetPhases(x, y, i);
    forall j | 0 <= j < |x.sets| && j != i
      ensures x.sets[j].call != x.sets[i].call
    {
      SetPhases(x, y, j);
      if x.sets[j].call == x.sets[i].call {
        OnceByKind(x, if i < j then i else j, if i < j then j else i);
      }
    }
  }

  lemma AnswerIsSet(e: Endpoint, n: nat)
    requires Inv(e) && n in e.answered && CallInv(e)
    ensures n in e.calls && e.answered[n] < |e.log| && AnswerSet(e, n)
  {
    hide GoodCall, OrderInv, PendingInv, SentInv, AfterInv, ResultInv, RanInv, SeqOf, Kind, EffectOf, AnswerSet;
  }

  /** Every reply that has been received has set the promise of the request it replies to. */
  lemma EveryReplyCounts(s0: Sys, es: seq<SysEvent>, s: Sys, x: Endpoint, y: Endpoint, at: nat)
    requires SysInit(s0) && SysRuns(s0, es, s) && Ends(s, x, y) && x.refused == {}
    requires at < |x.log| && at < |y.sent| && y.sent[at].ReplyF?
    ensures var f := y.sent[at];
            && f.at < |x.sent| && x.sent[f.at].RequestF?
            && PromiseSet(x.sent[f.at].n, Answered(at, Intended(f.out))) in x.sets
  {
    hide Inv, GoodProtocol, GoodValue, Kind, EffectOf, SeqOf, GoodFrame, SysInit, SysRuns, Linked;
    EndsInv(s0, es, s, x, y);
    ReplySets(x, y, at);
  }

  lemma ReplySets(x: Endpoint, y: Endpoint, at: nat)
    requires PairInv(x, y) && Answers(x, y) && x.refused == {}
    requires at < |x.log| && y.sent[at].ReplyF?
    ensures var f := y.sent[at];
            && f.at < |x.sent| && x.sent[f.at].RequestF?
            && PromiseSet(x.sent[f.at].n, Answered(at, Intended(f.out))) in x.sets
  {
    hide Inv, GoodProtocol, GoodValue, Kind, EffectOf, SeqOf, GoodFrame, Linked, CallInv;
    LinkedLengths(x, y);
    var f := y.sent[at];
    assert AnsweredBy(x, f.at, at);
    var n := x.sent[f.at].n;
    SentIsGood(y, at);
    ReplyIsTo(x, y, f);
    SentIsGood(x, f.at);
    LogIs(x, y, at);
    InvCalls(x);
    AnswerIsSet(x, n);
    RequestFrameIs(x, f.at);
  }

  lemma InvCalls(e: Endpoint)
    requires Inv(e)
    ensures CallInv(e)
  {}

  lemma RequestFrameIs(e: Endpoint, i: nat)
    requires i < |e.sent| && GoodFrame(e, e.sent[i])
    ensures e.sent[i].RequestF? ==> e.sent[i].n in e.calls && e.calls[e.sent[i].n].command == e.sent[i].command
  {}

  /** What a handler is given is what was sent. */
  predicate SaysThatOf(x: Payload, f: Frame) {
    match x
    case RequestP(_, q, c, args) => f.RequestF? && q == SeqOf(f.n) && c == f.command && args == f.args
    case EventP(_, name, body) => f.EventF? && name == f.event && body == f.body
  }

  /** Requests and events reach their handlers intact and in the order of the wire. */
  lemma Delivered(s0: Sys, es: seq<SysEvent>, s: Sys, x: Endpoint, y: Endpoint, h: nat)
    requires SysInit(s0) && SysRuns(s0, es, s) && Ends(s, x, y) && h < |x.dispatched|
    ensures x.dispatched[h].at < |y.sent| && SaysThatOf(x.dispatched[h], y.sent[x.dispatched[h].at])
    ensures forall i | 0 <= i < h :: x.dispatched[i].at < x.dispatched[h].at
  {
    hide Inv, GoodProtocol, GoodValue, Kind, EffectOf, SeqOf, SysInit, SysRuns, Linked;
    EndsInv(s0, es, s, x, y);
    DispatchedIs(x, h);
    LogIs(x, y, x.dispatched[h].at);
    LinkedLengths(x, y);
    forall i | 0 <= i < h
      ensures x.dispatched[i].at < x.dispatched[h].at
    {
      DispatchedInOrder(x, i, h);
    }
  }

  lemma DispatchedIs(e: Endpoint, i: nat)
    requires Inv(e) && i < |e.dispatched|
    ensures e.dispatched[i].at < |e.log|
    ensures PayloadOf(Kind(e.cfg, e.log[e.dispatched[i].at]), e.dispatched[i].at) == [e.dispatched[i]]
  {
    hide CallInv, TableInv, SetInv, AnswerInv, PendingInv, SentInv, AfterInv, ResultInv, RanInv, Kind, Accepted, PayloadOf;
    assert e.dispatched[i] == (e.dispatched + e.inbox)[i];
    AcceptedAt(e.cfg, e.log, i);
  }

  /** By the time a handler runs for an event that was sent from a response-sent handler, the
      promise of the request has been set: the initialize response comes before the initialized
      event at the client, too. */
  lemma ResponseBeforeEvent(s0: Sys, es: seq<SysEvent>, s: Sys, x: Endpoint, y: Endpoint, h: nat) returns (i: nat)
    requires SysInit(s0) && SysRuns(s0, es, s) && Ends(s, x, y) && x.refused == {}
    requires h < |x.dispatched| && x.dispatched[h].at < |y.sent|
    requires y.sent[x.dispatched[h].at].after.Some?
    ensures var idx := y.sent[x.dispatched[h].at].after.value;
            idx < |x.sent| && x.sent[idx].RequestF? && i < |x.sets| && x.sets[i].call == x.sent[idx].n
  {
    hide Inv, GoodProtocol, GoodValue, Kind, EffectOf, SeqOf, SysInit, SysRuns, Linked, Answers;
    EndsInv(s0, es, s, x, y);
    var j := x.dispatched[h].at;
    DispatchedIs(x, h);
    var at := ReplyBefore(y, j);
    ReplySets(x, y, at);
    i :| 0 <= i < |x.sets| && x.sets[i] == PromiseSet(x.sent[y.sent[at].at].n, Answered(at, Intended(y.sent[at].out)));
  }

  /** One end of the system, and the delivery of a message to it. */
  function End(s: Sys, atA: bool): Endpoint { if atA then s.a else s.b }

  function DeliverTo(atA: bool): SysEvent { if atA then DeliverToA else DeliverToB }

  lemma EndInv(s: Sys, atA: bool)
    requires SysInv(s)
    ensures PairInv(End(s, atA), End(s, !atA)) && Answers(End(s, atA), End(s, !atA))
  {
    hide Inv, GoodProtocol, Linked, Answers;
  }

  /** Delivery never gets stuck: either session can always receive all that its peer has sent. */
  lemma {:induction false} CatchesUp(s: Sys, atA: bool) returns (es: seq<SysEvent>, s': Sys)
    requires SysInv(s)
    ensures SysRuns(s, es, s') && SysInv(s')
    ensures End(s', !atA) == End(s, !atA) && |End(s', atA).log| == |End(s, !atA).sent|
    ensures End(s', atA).refused == End(s, atA).refused && End(s', atA).sent == End(s, atA).sent
    ensures End(s', atA).cfg == End(s, atA).cfg
    decreases |End(s, !atA).sent| - |End(s, atA).log|
  {
    hide Inv, PairInv, SysInv, Answers, Msg, Sendable, ReceiveMessage, Linked;
    var x, y := End(s, atA), End(s, !atA);
    EndInv(s, atA);
    PairFacts(x, y);
    if |x.log| == |y.sent| {
      es, s' := [], s;
    } else {
      GoodIsSendable(y, |x.log|);
      var mid := SysApply(s, DeliverTo(atA));
      SysInvKept(s, DeliverTo(atA));
      ReceiveGrows(x, Msg(y.cfg.p, y.sent[|x.log|]));
      var rest: seq<SysEvent>;
      rest, s' := CatchesUp(mid, atA);
      es := [DeliverTo(atA)] + rest;
      assert es[0] == DeliverTo(atA) && es[1..] == rest;
    }
  }

  lemma PairFacts(x: Endpoint, y: Endpoint)
    requires PairInv(x, y)
    ensures Inv(y) && |x.log| <= |y.sent|
  {
    hide Inv, GoodProtocol;
  }

  /** A reply that is on the wire can always still reach its request, and then sets its promise to
      what the handler produced. */
  lemma ReplyCanArrive(s0: Sys, es0: seq<SysEvent>, s: Sys, atA: bool, at: nat) returns (es: seq<SysEvent>, s': Sys)
    requires SysInit(s0) && SysRuns(s0, es0, s) && End(s, atA).refused == {}
    requires at < |End(s, !atA).sent| && End(s, !atA).sent[at].ReplyF?
    ensures SysRuns(s, es, s') && End(s', !atA) == End(s, !atA)
    ensures var x, f := End(s, atA), End(s, !atA).sent[at];
            && f.at < |x.sent| && x.sent[f.at].RequestF?
            && PromiseSet(x.sent[f.at].n, Answered(at, Intended(f.out))) in End(s', atA).sets
  {
    hide SysInv, PairInv, Answers, Intended, SysInit, SysRuns;
    SysInitInv(s0);
    SysRunsKeepInv(s0, es0, s);
    es, s' := CatchesUp(s, atA);
    EndInv(s', atA);
    ReplySets(End(s', atA), End(s', !atA), at);
  }

  lemma {:induction false} SysRunsJoin(s: Sys, es: seq<SysEvent>, s': Sys, es': seq<SysEvent>, s'': Sys)
    requires SysRuns(s, es, s') && SysRuns(s', es', s'')
    ensures SysRuns(s, es + es', s'')
    decreases es
  {
    hide SysEnabled, SysApply;
    if es == [] {
      assert es + es' == es';
    } else {
      SysRunsJoin(SysApply(s, es[0]), es[1..], s', es', s'');
      assert (es + es')[0] == es[0] && (es + es')[1..] == es[1..] + es';
    }
  }

  lemma {:induction false} StepsAtA(s: Sys, es: seq<Event>, e: Endpoint) returns (ses: seq<SysEvent>)
    requires Runs(s.a, es, e) && forall ev | ev in es :: !ev.Receive?
    ensures SysRuns(s, ses, s.(a := e))
    decreases es
  {
    hide Enabled, Apply;
    if es == [] {
      ses := [];
    } else {
      var rest := StepsAtA(s.(a := Apply(s.a, es[0])), es[1..], e);
      ses := [OnA(es[0])] + rest;
      assert ses[0] == OnA(es[0]) && ses[1..] == rest;
    }
  }

  lemma {:induction false} StepsAtB(s: Sys, es: seq<Event>, e: Endpoint) returns (ses: seq<SysEvent>)
    requires Runs(s.b, es, e) && forall ev | ev in es :: !ev.Receive?
    ensures SysRuns(s, ses, s.(b := e))
    decreases es
  {
    hide Enabled, Apply;
    if es == [] {
      ses := [];
    } else {
      var rest := StepsAtB(s.(b := Apply(s.b, es[0])), es[1..], e);
      ses := [OnB(es[0])] + rest;
      assert ses[0] == OnB(es[0]) && ses[1..] == rest;
    }
  }

  lemma DeliveryToB(s: Sys)
    requires CanDeliver(s.b, s.a)
    ensures SysRuns(s, [DeliverToB], s.(b := Deliver(s.b, s.a)))
  {
    hide CanDeliver, Deliver;
    assert [DeliverToB][1..] == [];
  }

  /** A complete exchange: from the start, every request that has a handler can be sent, delivered,
      dispatched with its arguments, answered with every outcome, and that outcome can reach the
      promise. */
  lemma EveryExchangeHappens(s0: Sys, c: string, args: Value, out: Outcome) returns (es: seq<SysEvent>, s: Sys)
    requires SysInit(s0) && s0.a.open && s0.b.open && c in s0.a.cfg.p.requests && c in s0.b.cfg.handlers
    requires GoodValue(args, s0.a.cfg.p.requests[c].args) && GoodOutcome(s0.a.cfg.p, c, out)
    ensures SysRuns(s0, es, s)
    ensures s.b.dispatched == [RequestP(0, SeqOf(0), c, args)]
    ensures PromiseSet(0, Answered(0, Intended(out))) in s.a.sets
  {
    hide Init, GoodProtocol, GoodValue, GoodOutcome, Kind, Msg, Runs, SysRuns, ReceiveMessage, Intended;
    var f := RequestF(0, c, args, None);
    var esA, a := RequestGoesOut(s0.a, c, args);
    var ses1 := StepsAtA(s0, esA, a);
    var s1 := s0.(a := a);
    InitLog(s0.b);
    DeliveryToB(s1);
    var s2 := s1.(b := Deliver(s1.b, s1.a));
    ArrivesAsSent(s0.b.cfg, f);
    var esB, b := RequestIsServed(s0.b, Msg(a.cfg.p, f), out);
    var ses3 := StepsAtB(s2, esB, b);
    var s3 := s2.(b := b);
    SysRunsJoin(s0, ses1, s1, [DeliverToB], s2);
    SysRunsJoin(s0, ses1 + [DeliverToB], s2, ses3, s3);
    var es3 := (ses1 + [DeliverToB]) + ses3;
    var ses4: seq<SysEvent>;
    ses4, s := ReplyCanArrive(s0, es3, s3, true, 0);
    SysRunsJoin(s0, es3, s3, ses4, s);
    es := es3 + ses4;
  }

  lemma InitLog(e: Endpoint)
    requires Init(e)
    ensures e.log == []
  {}

  // ------------------------------------------------- nothing sent is lost on the way

  /** The payload a frame should become at a receiver that has a handler for it. */
  ghost predicate Handled(cfg: Config, f: Frame) {
    match f
    case RequestF(_, c, _, _) => c in cfg.handlers
    case EventF(_, name, _, _) => name in cfg.eventHandlers
    case ReplyF(_, _, _, _, _, _) => false
  }

  function PayloadFor(f: Frame, i: nat): Payload
    requires !f.ReplyF?
  {
    match f
    case RequestF(n, c, args, _) => RequestP(i, SeqOf(n), c, args)
    case EventF(_, name, body, _) => EventP(i, name, body)
  }

  lemma FrameIsHandled(x: Endpoint, y: Endpoint, i: nat)
    requires PairInv(x, y) && i < |x.log| <= |y.sent| && Handled(x.cfg, y.sent[i])
    ensures PayloadFor(y.sent[i], i) in x.dispatched + x.inbox
  {
    hide Inv, GoodProtocol, Kind, EffectOf, SeqOf, Intended, Linked;
    LogIs(x, y, i);
    InboxIs(x, PayloadFor(y.sent[i], i));
  }

  /** Every request and event that has been received, and has a handler, has been dispatched or waits
      to be, with what it was sent with. */
  lemma EveryFrameIsHandled(s0: Sys, es: seq<SysEvent>, s: Sys, x: Endpoint, y: Endpoint, i: nat)
    requires SysInit(s0) && SysRuns(s0, es, s) && Ends(s, x, y)
    requires i < |x.log| && i < |y.sent| && Handled(x.cfg, y.sent[i])
    ensures PayloadFor(y.sent[i], i) in x.dispatched + x.inbox
  {
    hide PairInv, Answers, SysInit, SysRuns, Handled, PayloadFor;
    EndsInv(s0, es, s, x, y);
    PairFacts(x, y);
    FrameIsHandled(x, y, i);
  }

  lemma StepsAt(s: Sys, atA: bool, es: seq<Event>, e: Endpoint) returns (ses: seq<SysEvent>, s': Sys)
    requires Runs(End(s, atA), es, e) && forall ev | ev in es :: !ev.Receive?
    ensures SysRuns(s, ses, s') && End(s', atA) == e && End(s', !atA) == End(s, !atA)
  {
    hide SysRuns, Runs;
    if atA {
      ses := StepsAtA(s, es, e);
      s' := s.(a := e);
    } else {
      ses := StepsAtB(s, es, e);
      s' := s.(b := e);
    }
  }

  /** A request or event on the wire can always still reach its handler, with what it was sent with. */
  lemma FrameCanBeHandled(s0: Sys, es0: seq<SysEvent>, s: Sys, atA: bool, i: nat) returns (es: seq<SysEvent>, s': Sys)
    requires SysInit(s0) && SysRuns(s0, es0, s)
    requires i < |End(s, !atA).sent| && Handled(End(s, atA).cfg, End(s, !atA).sent[i])
    ensures SysRuns(s, es, s') && PayloadFor(End(s, !atA).sent[i], i) in End(s', atA).dispatched
  {
    hide SysInv, PairInv, Answers, SysInit, SysRuns, Handled, PayloadFor, Runs;
    SysInitInv(s0);
    SysRunsKeepInv(s0, es0, s);
    var es1, s1 := CatchesUp(s, atA);
    EndInv(s1, atA);
    var x, y := End(s1, atA), End(s1, !atA);
    FrameIsHandled(x, y, i);
    var drain, e := InboxDrains(x);
    var es2: seq<SysEvent>;
    es2, s' := StepsAt(s1, atA, drain, e);
    SysRunsJoin(s, es1, s1, es2, s');
    es := es1 + es2;
  }

  /** From the start, every event that has a handler can be sent, and reach it with its body. */
  lemma EveryEventHappens(s0: Sys, name: string, body: Value) returns (es: seq<SysEvent>, s: Sys)
    requires SysInit(s0) && s0.a.open && name in s0.a.cfg.p.events && name in s0.b.cfg.eventHandlers
    requires GoodValue(body, s0.a.cfg.p.events[name])
    ensures SysRuns(s0, es, s) && EventP(0, name, body) in s.b.dispatched
  {
    hide GoodProtocol, GoodValue, SysRuns, Runs;
    var e1 := Apply(s0.a, StartEvent(0, name, body, None));
    var e2 := Apply(e1, Transmit(0));
    NoSteps(e2);
    FirstStep(e1, Transmit(0), [], e2);
    assert [Transmit(0)] + [] == [Transmit(0)];
    FirstStep(s0.a, StartEvent(0, name, body, None), [Transmit(0)], e2);
    var es1 := StepsAtA(s0, [StartEvent(0, name, body, None)] + [Transmit(0)], e2);
    var s1 := s0.(a := e2);
    assert e2.sent == [EventF(0, name, body, None)];
    var es2: seq<SysEvent>;
    es2, s := FrameCanBeHandled(s0, es1, s1, false, 0);
    SysRunsJoin(s0, es1, s1, es2, s);
    es := es1 + es2;
  }

  lemma NoSteps(e: Endpoint)
    ensures Runs(e, [], e)
  {}

  /** A reply on the wire names, by command and number, the request it answers, and bears its own
      number. */
  lemma ReplyNamesRequest(x: Endpoint, y: Endpoint, i: nat)
    requires PairInv(x, y) && i < |y.sent| && y.sent[i].ReplyF?
    ensures var f := y.sent[i];
            && Sendable(y.cfg.p, f) && f.at < |x.sent| && x.sent[f.at].RequestF? && Msg(y.cfg.p, f).JObject?
            && var m := Msg(y.cfg.p, f).m;
            && {"seq", "request_seq", "command"} <= m.Keys
            && m["command"] == JString(x.sent[f.at].command) && m["request_seq"] == JInt(SeqOf(x.sent[f.at].n))
            && m["seq"] == JInt(Number(f.n))
  {
    hide Inv, GoodProtocol, Kind, SeqOf, Number, Linked, Encode;
    SentIsGood(y, i);
    GoodIsSendable(y, i);
    ReplyIsTo(x, y, y.sent[i]);
    var f := y.sent[i];
    MessageMembers(Number(f.n), f.requestSeq, f.command, "", y.cfg.p.requests[f.command].resp, f.out, JNull);
  }

  /** Every message bears its number: a request the signed one it is filed under. */
  lemma MessageBearsNumber(p: Protocol, f: Frame)
    requires Sendable(p, f)
    ensures Msg(p, f).JObject? && "seq" in Msg(p, f).m
    ensures Msg(p, f).m["seq"] == JInt(if f.RequestF? then SeqOf(f.n) else Number(f.n))
  {
    hide Encode, SeqOf, Number;
  }
}
