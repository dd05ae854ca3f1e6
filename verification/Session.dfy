/** The endpoint as an object. Each method is a part of a member function of `Impl` that no other
    thread can interfere with. */
module SessionCode {
  import opened Options
  import opened Serialization
  import opened RoundTrip
  import opened Messages
  import M = Endpoints

  class Session {
    const cfg: M.Config
    var nextSeq: nat
    var responseMap: map<int, M.Entry>
    var inbox: seq<M.Payload>
    var received: nat               // how many messages have come in, to tell payloads apart
    ghost var past: M.Endpoint      // everything else about the endpoint

    ghost predicate Valid() reads this {
      nextSeq == M.Number(past.numbered) && received == |past.log| && past.cfg == cfg
    }

    ghost function View(): M.Endpoint reads this {
      past.(table := responseMap, inbox := inbox)
    }

    constructor (cfg: M.Config, ghost e: M.Endpoint)
      requires M.Init(e) && e.cfg == cfg
      ensures Valid() && View() == e && M.Inv(View()) && nextSeq == 1
    {
      hide M.Inv;
      M.InitInv(e);
      this.cfg, nextSeq, responseMap, inbox, received, past := cfg, 1, map[], [], 0, e;
    }

    /** `nextSeq++`, which wraps. */
    method NextNumber() returns (u: nat)
      requires Valid()
      modifies this`nextSeq, this`past
      ensures Valid() && u == M.Number(old(past.numbered))
      ensures past == old(past).(numbered := old(past.numbered) + 1)
      ensures u == old(nextSeq) && nextSeq == if u == 0xFFFF_FFFF then 0 else u + 1
    {
      u := nextSeq;
      nextSeq := (nextSeq + 1) % M.UINT32_MODULUS;
      past := past.(numbered := past.numbered + 1);
    }

    /** `int seq = nextSeq++`: the number becomes signed. */
    method NumberRequest(c: string, args: Value, ghost after: Option<nat>) returns (seq_: int)
      requires Valid() && M.Enabled(View(), M.NumberRequest(c, args, after))
      modifies this
      ensures Valid() && View() == M.Apply(old(View()), M.NumberRequest(c, args, after))
      ensures seq_ == M.SeqOf(old(past.numbered))
      ensures old(M.Inv(View())) ==> M.Inv(View())
    {
      hide M.Inv, GoodValue;
      if M.Inv(View()) {
        M.InvKept(View(), M.NumberRequest(c, args, after));
      }
      ghost var n := past.numbered;
      var u := NextNumber();
      seq_ := if u < M.UINT32_MODULUS / 2 then u else u - M.UINT32_MODULUS;
      past := past.(calls := past.calls[n := M.Call(c, args, after, M.Numbered)]);
    }

    /** `EventHandlers::put` for responses; n stands for the handler. */
    method PutResponse(seq_: int, ty: Type, n: nat)
      requires Valid() && M.Enabled(View(), M.Register(n)) && seq_ == M.SeqOf(n) && ty == M.ResponseType(View(), n)
      modifies this
      ensures Valid() && View() == M.Apply(old(View()), M.Register(n))
      ensures old(M.Inv(View())) ==> M.Inv(View())
    {
      hide M.Inv;
      if M.Inv(View()) {
        M.InvKept(View(), M.Register(n));
      }
      if seq_ !in responseMap {
        responseMap := responseMap[seq_ := M.Entry(ty, n)];
      } else {
        past := past.(refused := past.refused + {n});
      }
      past := M.SetPhase(past, n, M.Registered);
    }

    /** `EventHandlers::response`: an entry can be had once. */
    method TakeResponse(q: int) returns (r: Option<M.Entry>)
      modifies this`responseMap
      ensures r == if q in old(responseMap) then Some(old(responseMap)[q]) else None
      ensures responseMap == old(responseMap) - {q}
    {
      if q !in responseMap {
        return None;
      }
      r := Some(responseMap[q]);
      responseMap := responseMap - {q};
    }

    method ProcessResponse(j: Json, q: int)
      requires Valid() && past.log != []
      modifies this
      ensures Valid() && View() == M.ReceiveResponse(old(View()), q, j) && inbox == old(inbox)
    {
      hide EffectOf;
      var r := TakeResponse(q);
      if r.None? {
        assert old(responseMap) - {q} == old(responseMap);
        return;
      }
      var effect := EffectOf(r.value.ty, j);
      ghost var at := |past.log| - 1;
      past := past.(answered := past.answered[r.value.call := at]);
      if !effect.NoCall? {
        past := past.(sets := past.sets + [M.PromiseSet(r.value.call, M.Answered(at, effect))]);
      }
    }

    /** `processMessage`: a response takes effect at once; a request or event is work for later. */
    method ProcessMessage(j: Json) returns (out: seq<M.Payload>)
      requires Valid()
      modifies this
      ensures Valid() && inbox == old(inbox)
      ensures View().(inbox := old(inbox) + out) == M.ReceiveMessage(old(View()), j)
      ensures match Classify(cfg.p, cfg.handlers, cfg.eventHandlers, j)
              case RequestIn(q, c, args) => out == [M.RequestP(old(received), q, c, args)]
              case EventIn(name, body) => out == [M.EventP(old(received), name, body)]
              case _ => out == []
    {
      hide Classify, M.ReceiveResponse;
      out := [];
      var at := received;
      received := received + 1;
      past := past.(log := past.log + [j]);
      match Classify(cfg.p, cfg.handlers, cfg.eventHandlers, j) {
        case ResponseIn(q) => ProcessResponse(j, q);
        case RequestIn(q, c, args) => out := [M.RequestP(at, q, c, args)];
        case EventIn(name, body) => out := [M.EventP(at, name, body)];
        case Rejected =>
      }
    }

    /** One turn of the receive thread. */
    method Receive(j: Json)
      requires Valid()
      modifies this
      ensures Valid() && View() == M.ReceiveMessage(old(View()), j)
      ensures old(M.Inv(View())) ==> M.Inv(View())
    {
      hide M.Inv, Classify, M.ReceiveMessage;
      if M.Inv(View()) {
        M.ReceiveKeeps(View(), j);
      }
      var out := ProcessMessage(j);
      inbox := inbox + out;
    }

    /** One turn of the dispatch thread. */
    method Dispatch() returns (x: M.Payload)
      requires Valid() && M.Enabled(View(), M.Dispatch)
      modifies this
      ensures Valid() && View() == M.Apply(old(View()), M.Dispatch) && old(inbox) == [x] + inbox
      ensures old(M.Inv(View())) ==> M.Inv(View())
    {
      hide M.Inv;
      if M.Inv(View()) {
        M.InvKept(View(), M.Dispatch);
      }
      x := inbox[0];
      inbox := inbox[1..];
      past := past.(dispatched := past.dispatched + [x]);
    }
  }
}
