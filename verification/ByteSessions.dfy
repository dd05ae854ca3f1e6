/** The two sessions over real byte streams. Each side's threads go through the send lock and the
    two writes of `FrameWire`; a message is received when the framing of the bytes that have come
    out of the pipe yields it. Every such run is a run of `Sessions`, so what is proved there
    holds here. */
module ByteSessions {
  import opened Threads
  import opened Options
  import opened Serialization
  import opened RoundTrip
  import opened Messages
  import opened Endpoints
  import opened Sessions
  import F = Framing
  import P = Pipes
  import W = FrameWire

  /** The JSON library's printer and parser. */
  datatype Text = Text(dump: Json -> seq<F.byte>, parse: seq<F.byte> -> Json)

  /** An endpoint and its outgoing wire. */
  datatype Side = Side(e: Endpoint, w: W.State)

  /** m is the text of frame f, and the parser reads it back. */
  ghost predicate IsText(x: Text, p: Protocol, f: Frame, m: seq<F.byte>) {
    Sendable(p, f) && m == x.dump(Msg(p, f)) && x.parse(m) == Msg(p, f) && m != []
  }

  datatype SideEvent =
    | Local(ev: Event)        // anything but sending, receiving and closing
    | Wire(we: W.Event)       // a step of a sending thread, of the peer's reader, or closing
    | Read                    // the next message is received

  /** The step that decides what `send` returns: a refusal, or the second write. */
  predicate Decides(w: W.State, we: W.Event) {
    match we
    case CheckOpen(_) => w.pipe.closed
    case WriteHeader(_) => w.pipe.closed
    case WriteBody(_) => true
    case _ => false
  }

  /** The messages read so far and the next one. */
  function Reads(w: W.State, n: nat): seq<seq<F.byte>> { F.Results(F.Ignore, w.pipe.consumed, n) }

  ghost predicate SideEnabled(x: Text, s: Side, peer: W.State, v: SideEvent) {
    match v
    case Local(ev) => !ev.Transmit? && !ev.Receive? && !ev.CloseWriter? && Enabled(s.e, ev)
    case Wire(we) =>
      && W.Enabled(s.w, we)
      && (we.Send? ==> we.t in s.e.pending && IsText(x, s.e.cfg.p, s.e.pending[we.t], we.msg))
      && (Decides(s.w, we) ==> Enabled(s.e, Transmit(we.t)))
    case Read => var r := Reads(peer, |s.e.log| + 1); |r| > |s.e.log| && r[|s.e.log|] != []
  }

  ghost function SideApply(x: Text, s: Side, peer: W.State, v: SideEvent): Side
    requires SideEnabled(x, s, peer, v)
  {
    match v
    case Local(ev) => s.(e := Apply(s.e, ev))
    case Wire(we) =>
      Side(if Decides(s.w, we) then TransmitFrame(s.e, we.t)
           else if we == W.PipeEvent(P.CloseEvent) then s.e.(open := false) else s.e,
           W.Apply(s.w, we))
    case Read => s.(e := ReceiveMessage(s.e, x.parse(Reads(peer, |s.e.log| + 1)[|s.e.log|])))
  }

  datatype Both = Both(a: Side, b: Side)
  datatype BothEvent = AtA(v: SideEvent) | AtB(v: SideEvent)

  ghost predicate BothEnabled(x: Text, s: Both, v: BothEvent) {
    match v
    case AtA(v) => SideEnabled(x, s.a, s.b.w, v)
    case AtB(v) => SideEnabled(x, s.b, s.a.w, v)
  }

  ghost function BothApply(x: Text, s: Both, v: BothEvent): Both
    requires BothEnabled(x, s, v)
  {
    match v
    case AtA(v) => s.(a := SideApply(x, s.a, s.b.w, v))
    case AtB(v) => s.(b := SideApply(x, s.b, s.a.w, v))
  }

  ghost predicate BothRuns(x: Text, s: Both, vs: seq<BothEvent>, s': Both)
    decreases vs
  {
    if vs == [] then s' == s else BothEnabled(x, s, vs[0]) && BothRuns(x, BothApply(x, s, vs[0]), vs[1..], s')
  }

  ghost predicate BothInit(s: Both) {
    && SysInit(Sys(s.a.e, s.b.e)) && W.Init(s.a.w) && W.Init(s.b.w)
    && s.a.e.open == !s.a.w.pipe.closed && s.b.e.open == !s.b.w.pipe.closed
  }

  // --------------------------------------------------------------- invariant

  /** A thread between entering `send` and the step that decides. */
  predicate Undecided(p: W.Pc) { p.Entering? || p.Locked? || p.Checked? || p.HeaderOut? }

  ghost predicate WireText(x: Text, s: Side) {
    && |s.w.sent| == |s.e.sent|
    && forall i | 0 <= i < |s.e.sent| :: IsText(x, s.e.cfg.p, s.e.sent[i], s.w.sent[i])
  }

  ghost predicate PendingText(x: Text, s: Side) {
    forall t | t in s.w.pc && Undecided(s.w.pc[t]) ::
      t in s.e.pending && IsText(x, s.e.cfg.p, s.e.pending[t], s.w.pc[t].msg)
  }

  /** Bytes and messages agree. */
  ghost predicate SideInv(x: Text, s: Side) {
    W.Inv(s.w) && s.e.open == !s.w.pipe.closed && WireText(x, s) && PendingText(x, s)
  }

  /** What has been received had been read. */
  ghost predicate ReadInv(e: Endpoint, peer: W.State) {
    |e.log| <= |peer.sent| && F.Frames(peer.sent[..|e.log|]) <= peer.pipe.consumed
  }

  ghost predicate BothInv(x: Text, s: Both) {
    && SideInv(x, s.a) && SideInv(x, s.b) && ReadInv(s.a.e, s.b.w) && ReadInv(s.b.e, s.a.w)
    && SysInv(Sys(s.a.e, s.b.e))
  }

  // ------------------------------------------------------------------ lemmas

  /** A thread that is about to be decided is pending. */
  lemma DeciderIsPending(x: Text, s: Side, we: W.Event)
    requires SideInv(x, s) && W.Enabled(s.w, we) && Decides(s.w, we)
    ensures we.t in s.e.pending && we.t in s.w.pc && Undecided(s.w.pc[we.t])
    ensures IsText(x, s.e.cfg.p, s.e.pending[we.t], s.w.pc[we.t].msg)
  {
    hide W.Inv, IsText;
  }

  /** The deciding steps are exactly those that make a thread leave `send`. */
  lemma DecidesIff(w: W.State, we: W.Event)
    requires W.Enabled(w, we) && !we.PipeEvent?
    ensures we.t in W.Apply(w, we).pc
    ensures Decides(w, we) <==> W.Apply(w, we).pc[we.t].Leaving?
  {
    hide P.Write, F.Header;
  }

  lemma LocalSide(x: Text, s: Side, ev: Event)
    requires SideInv(x, s) && Inv(s.e) && Enabled(s.e, ev) && !ev.Transmit? && !ev.Receive? && !ev.CloseWriter?
    ensures SideInv(x, s.(e := Apply(s.e, ev)))
  {
    hide W.Inv, IsText, Inv, GoodValue, SeqOf;
    LocalApply(s.e, ev);
  }

  /** Apart from sending and receiving, a step leaves the wire and the threads in `send` alone. */
  lemma LocalApply(e: Endpoint, ev: Event)
    requires Enabled(e, ev) && !ev.Transmit? && !ev.Receive? && !ev.CloseWriter?
    ensures var e' := Apply(e, ev);
            && e'.cfg == e.cfg && e'.sent == e.sent && e'.open == e.open && e'.log == e.log
            && forall t | t in e.pending :: t in e'.pending && e'.pending[t] == e.pending[t]
  {
    hide GoodValue, SeqOf, TransmitFrame, ReceiveMessage;
  }

  /** The deciding step puts frame and text on the wire together, or neither. */
  lemma DecidingSide(x: Text, s: Side, we: W.Event)
    requires SideInv(x, s) && W.Enabled(s.w, we) && Decides(s.w, we) && Enabled(s.e, Transmit(we.t))
    ensures SideInv(x, Side(TransmitFrame(s.e, we.t), W.Apply(s.w, we)))
  {
    hide W.Inv, IsText, TransmitFrame, Enabled, P.Write, F.Header;
    DeciderIsPending(x, s, we);
    TransmitSends(s.e, we.t);
    W.InvKept(s.w, we);
    PipeWriteOpen(s.w.pipe, s.w.pc[we.t].msg);
    PipeWriteOpen(s.w.pipe, F.Header(|s.w.pc[we.t].msg|));
  }

  lemma PipeWriteOpen(p: P.State, bytes: seq<F.byte>)
    ensures P.Write(p, bytes).closed == p.closed
  {}

  lemma PipeEventOpen(p: P.State, e: P.Event)
    requires P.Enabled(p, e) && !e.WriteEvent?
    ensures P.Apply(p, e).closed == (p.closed || e.CloseEvent?)
  {}

  lemma OtherWireSide(x: Text, s: Side, we: W.Event)
    requires SideInv(x, s) && W.Enabled(s.w, we) && !Decides(s.w, we)
    requires we.Send? ==> we.t in s.e.pending && IsText(x, s.e.cfg.p, s.e.pending[we.t], we.msg)
    ensures SideInv(x, Side(if we == W.PipeEvent(P.CloseEvent) then s.e.(open := false) else s.e, W.Apply(s.w, we)))
  {
    hide W.Inv, IsText, P.Write, P.Apply, F.Header;
    W.InvKept(s.w, we);
    match we {
      case PipeEvent(pe) => PipeEventOpen(s.w.pipe, pe);
      case WriteHeader(t) => PipeWriteOpen(s.w.pipe, F.Header(|s.w.pc[t].msg|));
      case _ =>
    }
  }

  lemma PipeReads(p: P.State, e: P.Event)
    requires P.Enabled(p, e)
    ensures p.consumed <= P.Apply(p, e).consumed
  {}

  lemma WireGrows(w: W.State, we: W.Event)
    requires W.Enabled(w, we)
    ensures var w' := W.Apply(w, we); w.sent <= w'.sent && w.pipe.consumed <= w'.pipe.consumed
  {
    hide P.Apply, F.Header;
    if we.PipeEvent? {
      PipeReads(w.pipe, we.e);
    }
  }

  lemma ReadInvGrows(e: Endpoint, w: W.State, w': W.State)
    requires ReadInv(e, w) && w.sent <= w'.sent && w.pipe.consumed <= w'.pipe.consumed
    ensures ReadInv(e, w')
  {
    hide F.Frames;
    assert w'.sent[..|e.log|] == w.sent[..|e.log|];
  }

  /** A message read is the next message sent. */
  lemma ReadIsDeliver(x: Text, e: Endpoint, peer: Side)
    requires SideInv(x, peer) && ReadInv(e, peer.w) && SideEnabled(x, Side(e, peer.w), peer.w, Read)
    ensures CanDeliver(e, peer.e)
    ensures x.parse(Reads(peer.w, |e.log| + 1)[|e.log|]) == Msg(peer.e.cfg.p, peer.e.sent[|e.log|])
    ensures |e.log| < |peer.w.sent| && F.Frames(peer.w.sent[..|e.log| + 1]) <= peer.w.pipe.consumed
  {
    hide W.Inv, F.Frames, F.Results, Sendable, Msg;
    W.NextRead(peer.w, |e.log|);
    assert IsText(x, peer.e.cfg.p, peer.e.sent[|e.log|], peer.w.sent[|e.log|]);
  }

  /** What a step over bytes is in terms of messages. */
  datatype Meaning = Nothing | Does(ev: Event) | Receives

  ghost predicate Means(m: Meaning, e: Endpoint, peer: Endpoint, e': Endpoint) {
    match m
    case Nothing => e' == e
    case Does(ev) => !ev.Receive? && Enabled(e, ev) && e' == Apply(e, ev)
    case Receives => CanDeliver(e, peer) && e' == Deliver(e, peer)
  }

  lemma SideMeans(x: Text, s: Side, peer: Side, v: SideEvent) returns (m: Meaning)
    requires SideInv(x, s) && SideInv(x, peer) && Inv(s.e)
    requires ReadInv(s.e, peer.w) && ReadInv(peer.e, s.w) && SideEnabled(x, s, peer.w, v)
    ensures var s' := SideApply(x, s, peer.w, v);
            && Means(m, s.e, peer.e, s'.e)
            && SideInv(x, s') && ReadInv(s'.e, peer.w) && ReadInv(peer.e, s'.w)
  {
    hide SideInv, Inv, Enabled, CanDeliver, Deliver, W.Apply, W.Enabled, Decides, TransmitFrame, ReceiveMessage, ReadInv, IsText;
    match v {
      case Local(ev) =>
        m := Does(ev);
        LocalSide(x, s, ev);
        LocalApply(s.e, ev);
        ReadInvSame(s.e, Apply(s.e, ev), peer.w);
      case Wire(we) =>
        WireGrows(s.w, we);
        ReadInvGrows(peer.e, s.w, W.Apply(s.w, we));
        m := WireMeans(x, s, peer, we);
      case Read =>
        m := ReadMeans(x, s, peer);
    }
  }

  lemma ReadInvSame(e: Endpoint, e': Endpoint, w: W.State)
    requires ReadInv(e, w) && e'.log == e.log
    ensures ReadInv(e', w)
  {}

  lemma WireMeans(x: Text, s: Side, peer: Side, we: W.Event) returns (m: Meaning)
    requires SideInv(x, s) && ReadInv(s.e, peer.w) && SideEnabled(x, s, peer.w, Wire(we))
    ensures var s' := SideApply(x, s, peer.w, Wire(we));
            Means(m, s.e, peer.e, s'.e) && SideInv(x, s') && ReadInv(s'.e, peer.w)
  {
    hide SideInv, CanDeliver, Deliver, W.Apply, W.Enabled, TransmitFrame, ReadInv, IsText;
    if Decides(s.w, we) {
      m := Does(Transmit(we.t));
      DecidingSide(x, s, we);
      TransmitSends(s.e, we.t);
      ReadInvSame(s.e, TransmitFrame(s.e, we.t), peer.w);
    } else {
      m := if we == W.PipeEvent(P.CloseEvent) then Does(CloseWriter) else Nothing;
      OtherWireSide(x, s, we);
      ReadInvSame(s.e, s.e.(open := false), peer.w);
    }
  }

  lemma ReadMeans(x: Text, s: Side, peer: Side) returns (m: Meaning)
    requires SideInv(x, s) && SideInv(x, peer) && ReadInv(s.e, peer.w) && SideEnabled(x, s, peer.w, Read)
    ensures var s' := SideApply(x, s, peer.w, Read);
            Means(m, s.e, peer.e, s'.e) && SideInv(x, s') && ReadInv(s'.e, peer.w)
  {
    hide W.Inv, F.Frames, ReceiveMessage, Sendable, Msg, IsText, F.Results;
    m := Receives;
    ReadIsDeliver(x, s.e, peer);
    ReceiveGrows(s.e, Msg(peer.e.cfg.p, peer.e.sent[|s.e.log|]));
    ReceiveLeaves(s.e, Msg(peer.e.cfg.p, peer.e.sent[|s.e.log|]));
  }

  lemma ReceiveLeaves(e: Endpoint, j: Json)
    ensures ReceiveMessage(e, j).open == e.open && ReceiveMessage(e, j).pending == e.pending
  {
    hide Kind, EffectOf;
  }

  ghost function Abs(s: Both): Sys { Sys(s.a.e, s.b.e) }

  lemma SysOfMeaning(s: Sys, m: Meaning, e': Endpoint) returns (es: seq<SysEvent>)
    requires Means(m, s.a, s.b, e')
    ensures SysRuns(s, es, s.(a := e'))
  {
    hide Enabled, Apply, CanDeliver, Deliver;
    match m {
      case Nothing => es := [];
      case Does(ev) => es := [OnA(ev)]; assert SysRuns(SysApply(s, es[0]), es[1..], s.(a := e'));
      case Receives => es := [DeliverToA]; assert SysRuns(SysApply(s, es[0]), es[1..], s.(a := e'));
    }
  }

  lemma SysOfMeaningB(s: Sys, m: Meaning, e': Endpoint) returns (es: seq<SysEvent>)
    requires Means(m, s.b, s.a, e')
    ensures SysRuns(s, es, s.(b := e'))
  {
    hide Enabled, Apply, CanDeliver, Deliver;
    match m {
      case Nothing => es := [];
      case Does(ev) => es := [OnB(ev)]; assert SysRuns(SysApply(s, es[0]), es[1..], s.(b := e'));
      case Receives => es := [DeliverToB]; assert SysRuns(SysApply(s, es[0]), es[1..], s.(b := e'));
    }
  }

  lemma BothStep(x: Text, s: Both, v: BothEvent) returns (es: seq<SysEvent>)
    requires BothInv(x, s) && BothEnabled(x, s, v)
    ensures BothInv(x, BothApply(x, s, v)) && SysRuns(Abs(s), es, Abs(BothApply(x, s, v)))
  {
    hide SideInv, ReadInv, Inv, GoodProtocol, Linked, Answers, SideEnabled, SideApply, Means, SysRuns;
    var s' := BothApply(x, s, v);
    match v {
      case AtA(w) =>
        var m := SideMeans(x, s.a, s.b, w);
        es := SysOfMeaning(Abs(s), m, s'.a.e);
      case AtB(w) =>
        var m := SideMeans(x, s.b, s.a, w);
        es := SysOfMeaningB(Abs(s), m, s'.b.e);
    }
    SysRunsKeepInv(Abs(s), es, Abs(s'));
  }

  lemma BothInitInv(x: Text, s: Both)
    requires BothInit(s)
    ensures BothInv(x, s)
  {
    hide SysInit, SysInv, IsText;
    SysInitInv(Abs(s));
    W.InitInv(s.a.w);
    W.InitInv(s.b.w);
    InitEmpty(Abs(s));
  }

  lemma InitEmpty(s: Sys)
    requires SysInit(s)
    ensures s.a.log == [] && s.b.log == [] && s.a.sent == [] && s.b.sent == []
  {
    hide GoodProtocol;
  }

  /** Every run over bytes, with any number of sending threads on both sides, is a run of two
      sessions over FIFO message queues. */
  lemma {:induction false} BytesRefineMessages(x: Text, s: Both, vs: seq<BothEvent>, s': Both) returns (es: seq<SysEvent>)
    requires BothInv(x, s) && BothRuns(x, s, vs, s')
    ensures SysRuns(Abs(s), es, Abs(s')) && BothInv(x, s')
    decreases vs
  {
    hide BothInv, BothEnabled, BothApply, SysEnabled, SysApply;
    if vs == [] {
      es := [];
    } else {
      var mid := BothApply(x, s, vs[0]);
      var first := BothStep(x, s, vs[0]);
      var rest := BytesRefineMessages(x, mid, vs[1..], s');
      SysRunsJoin(Abs(s), first, Abs(mid), rest, Abs(s'));
      es := first + rest;
    }
  }

  /** Every state over bytes is one that two sessions over message queues can reach. */
  lemma Reachable(x: Text, s0: Both, vs: seq<BothEvent>, s: Both) returns (es: seq<SysEvent>)
    requires BothInit(s0) && BothRuns(x, s0, vs, s)
    ensures SysInit(Abs(s0)) && SysRuns(Abs(s0), es, Abs(s))
  {
    hide BothInv, BothRuns, SysRuns, SysInit;
    BothInitInv(x, s0);
    es := BytesRefineMessages(x, s0, vs, s);
  }

  /** Correlation, end to end: over byte pipes, header and body writes of any number of threads,
      closing at any moment, and any schedule. */
  lemma EndToEnd(x: Text, s0: Both, vs: seq<BothEvent>, s: Both, e: Endpoint, peer: Endpoint, i: nat)
    returns (idx: nat, h: nat)
    requires BothInit(s0) && BothRuns(x, s0, vs, s) && Ends(Abs(s), e, peer) && e.refused == {}
    requires i < |e.sets| && e.sets[i].how.Answered?
    ensures e.sets[i].call in e.calls
    ensures var n := e.sets[i].call;
            && idx < |e.sent| && e.sent[idx] == RequestFrame(e.calls[n], n)
            && idx in peer.results && e.sets[i].how.effect == Intended(peer.results[idx])
            && h < |peer.dispatched| && peer.dispatched[h] == RequestP(idx, SeqOf(n), e.calls[n].command, e.calls[n].args)
  {
    hide BothInit, BothRuns, SysRuns, SysInit;
    var es := Reachable(x, s0, vs, s);
    idx, h := Correlation(Abs(s0), es, Abs(s), e, peer, i);
  }

  /** Over bytes, too, each promise is set at most once: with an error exactly when its request
      could not be sent, and otherwise only if it is on the wire. */
  lemma BytesSetOnce(x: Text, s0: Both, vs: seq<BothEvent>, s: Both, e: Endpoint, peer: Endpoint, i: nat)
    requires BothInit(s0) && BothRuns(x, s0, vs, s) && Ends(Abs(s), e, peer) && e.refused == {} && i < |e.sets|
    ensures forall j | 0 <= j < |e.sets| && j != i :: e.sets[j].call != e.sets[i].call
    ensures InPhase(e, e.sets[i].call, if e.sets[i].how.SendError? then ErrorSet else OnWire)
    ensures forall n :: InPhase(e, n, ErrorSet) ==> PromiseSet(n, SendError) in e.sets
  {
    hide BothInit, BothRuns, SysRuns, SysInit;
    var es := Reachable(x, s0, vs, s);
    PromiseSetOnce(Abs(s0), es, Abs(s), e, peer, i);
  }

  /** Over bytes, too, handlers are given what was sent, in the order of the wire. */
  lemma BytesDelivered(x: Text, s0: Both, vs: seq<BothEvent>, s: Both, e: Endpoint, peer: Endpoint, h: nat)
    requires BothInit(s0) && BothRuns(x, s0, vs, s) && Ends(Abs(s), e, peer) && h < |e.dispatched|
    ensures e.dispatched[h].at < |peer.sent| && SaysThatOf(e.dispatched[h], peer.sent[e.dispatched[h].at])
    ensures forall i | 0 <= i < h :: e.dispatched[i].at < e.dispatched[h].at
  {
    hide BothInit, BothRuns, SysRuns, SysInit, SaysThatOf;
    var es := Reachable(x, s0, vs, s);
    Delivered(Abs(s0), es, Abs(s), e, peer, h);
  }

  /** Over bytes, too, the response has set its promise before what was sent after it is handled. */
  lemma BytesResponseFirst(x: Text, s0: Both, vs: seq<BothEvent>, s: Both, e: Endpoint, peer: Endpoint, h: nat)
    returns (i: nat)
    requires BothInit(s0) && BothRuns(x, s0, vs, s) && Ends(Abs(s), e, peer) && e.refused == {}
    requires h < |e.dispatched| && e.dispatched[h].at < |peer.sent| && peer.sent[e.dispatched[h].at].after.Some?
    ensures var idx := peer.sent[e.dispatched[h].at].after.value;
            idx < |e.sent| && e.sent[idx].RequestF? && i < |e.sets| && e.sets[i].call == e.sent[idx].n
  {
    hide BothInit, BothRuns, SysRuns, SysInit;
    var es := Reachable(x, s0, vs, s);
    i := ResponseBeforeEvent(Abs(s0), es, Abs(s), e, peer, h);
  }

  /** Over bytes, too, every request and event that has been received, and has a handler, has been
      dispatched or waits to be. */
  lemma BytesHandled(x: Text, s0: Both, vs: seq<BothEvent>, s: Both, e: Endpoint, peer: Endpoint, i: nat)
    requires BothInit(s0) && BothRuns(x, s0, vs, s) && Ends(Abs(s), e, peer)
    requires i < |e.log| && i < |peer.sent| && Handled(e.cfg, peer.sent[i])
    ensures PayloadFor(peer.sent[i], i) in e.dispatched + e.inbox
  {
    hide BothInit, BothRuns, SysRuns, SysInit, Handled, PayloadFor;
    var es := Reachable(x, s0, vs, s);
    EveryFrameIsHandled(Abs(s0), es, Abs(s), e, peer, i);
  }

  /** As soon as the bytes of the next message have come out of the pipe, it can be received. */
  lemma WholeMessageIsReadable(x: Text, e: Endpoint, peer: Side)
    requires SideInv(x, peer) && ReadInv(e, peer.w) && |e.log| < |peer.w.sent|
    ensures SideEnabled(x, Side(e, peer.w), peer.w, Read) <==> F.Frames(peer.w.sent[..|e.log| + 1]) <= peer.w.pipe.consumed
  {
    hide W.Inv, F.Frames, F.Results, Sendable, Msg;
    W.NextRead(peer.w, |e.log|);
    assert IsText(x, peer.e.cfg.p, peer.e.sent[|e.log|], peer.w.sent[|e.log|]);
  }

  /** The endpoint never holds up a thread inside `send`: every step its wire allows can be taken. */
  lemma SendersGoOn(x: Text, s0: Both, vs: seq<BothEvent>, s: Both, side: Side, peer: Side, we: W.Event)
    requires BothInit(s0) && BothRuns(x, s0, vs, s) && ((side == s.a && peer == s.b) || (side == s.b && peer == s.a))
    requires W.Enabled(side.w, we) && !we.Send?
    ensures SideEnabled(x, side, peer.w, Wire(we))
  {
    hide W.Inv, BothRuns, BothInit, Inv, IsText;
    BothInitInv(x, s0);
    var es := BytesRefineMessages(x, s0, vs, s);
    if Decides(side.w, we) {
      DeciderIsPending(x, side, we);
      PendingCanTransmit(side.e, we.t);
    }
  }

  lemma PendingCanTransmit(e: Endpoint, t: Tid)
    requires Inv(e) && t in e.pending
    ensures Enabled(e, Transmit(t))
  {
    hide CallInv, TableInv, SetInv, AnswerInv, OrderInv, PendingInv, SentInv, AfterInv, ResultInv, RanInv;
    CallsOfPending(e);
  }
}
