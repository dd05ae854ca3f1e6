/** The three kinds of DAP message as JSON trees: how `src/session.cpp` builds them, and how
    `processMessage` takes them apart. */
module Messages {
  import opened Options
  import opened Serialization
  import opened RoundTrip

  /** The shared protocol: the argument and response type of each request, the body of each event. */
  datatype RequestType = RequestType(args: Type, resp: Type)
  datatype Protocol = Protocol(requests: map<string, RequestType>, events: map<string, Type>)

  /** Protocol structs round-trip. */
  ghost predicate GoodType(t: Type) { t.TStruct? && WellNamed(t) && Faithful(t) }

  ghost predicate GoodProtocol(p: Protocol) {
    && (forall c | c in p.requests :: GoodType(p.requests[c].args) && GoodType(p.requests[c].resp))
    && (forall n | n in p.events :: GoodType(p.events[n]))
  }

  datatype Outcome = Success(v: Value) | Failure(message: string)

  // ---------------------------------------------------------------- building

  function RequestMsg(seq_: int, command: string, args: Json): Json {
    JObject(map["seq" := JInt(seq_), "type" := JString("request"), "command" := JString(command), "arguments" := args])
  }

  function EventMsg(seq_: int, event: string, body: Json): Json {
    JObject(map["seq" := JInt(seq_), "type" := JString("event"), "event" := JString(event), "body" := body])
  }

  function SuccessMsg(seq_: int, requestSeq: int, command: string, body: Json): Json {
    JObject(map["seq" := JInt(seq_), "type" := JString("response"), "request_seq" := JInt(requestSeq),
                "success" := JBool(true), "command" := JString(command), "body" := body])
  }

  function ErrorMsg(seq_: int, requestSeq: int, command: string, message: string): Json {
    JObject(map["seq" := JInt(seq_), "type" := JString("response"), "request_seq" := JInt(requestSeq),
                "success" := JBool(false), "command" := JString(command), "message" := JString(message)])
  }

  function ReplyMsg(seq_: int, requestSeq: int, command: string, ty: Type, out: Outcome): Json
    requires out.Success? ==> HasType(out.v, ty)
  {
    match out
    case Success(v) => SuccessMsg(seq_, requestSeq, command, Encode(ty, v, JNull).json)
    case Failure(m) => ErrorMsg(seq_, requestSeq, command, m)
  }

  // ------------------------------------------------------------------ taking apart

  datatype Incoming =
    | Rejected                                                 // reported to the error handler and dropped
    | RequestIn(seq_: int, command: string, args: Value)
    | EventIn(event: string, body: Value)
    | ResponseIn(requestSeq: int)

  function StringField(name: string, j: Json): Option<string> {
    match DecodeField(Field(name, TStr), j)
    case Some(VStr(s)) => Some(s)
    case _ => None
  }

  function IntField(name: string, j: Json): Option<int> {
    match DecodeField(Field(name, TInt), j)
    case Some(VInt(i)) => Some(i)
    case _ => None
  }

  /** `processMessage`, up to the point where the message takes effect. */
  function Classify(p: Protocol, handlers: set<string>, eventHandlers: set<string>, j: Json): Incoming {
    var type_ := StringField("type", j);
    var seq_ := IntField("seq", j);
    if type_.None? || seq_.None? then Rejected
    else if type_.value == "request" then ClassifyRequest(p, handlers, j, seq_.value)
    else if type_.value == "event" then ClassifyEvent(p, eventHandlers, j)
    else if type_.value == "response" then
      (match IntField("request_seq", j) case None => Rejected case Some(q) => ResponseIn(q))
    else Rejected
  }

  function ClassifyRequest(p: Protocol, handlers: set<string>, j: Json, seq_: int): Incoming {
    match StringField("command", j)
    case None => Rejected
    case Some(c) =>
      if c !in handlers || c !in p.requests then Rejected
      else (match DecodeField(Field("arguments", p.requests[c].args), j)
            case None => Rejected
            case Some(args) => RequestIn(seq_, c, args))
  }

  function ClassifyEvent(p: Protocol, handlers: set<string>, j: Json): Incoming {
    match StringField("event", j)
    case None => Rejected
    case Some(n) =>
      if n !in handlers || n !in p.events then Rejected
      else (match DecodeField(Field("body", p.events[n]), j)
            case None => Rejected
            case Some(body) => EventIn(n, body))
  }

  /** What a response does to the handler that was waiting for it. */
  datatype Effect =
    | NoCall                   // malformed: the handler is dropped without being called
    | GotResponse(v: Value)
    | GotUndecoded             // called, with a response whose body did not decode
    | GotError(message: string)

  const ERROR_BUFFER := 2048

  /** An error message passes through a C string in a fixed buffer. */
  function ErrorText(m: string): string {
    var s := UpToNul(m);
    if |s| < ERROR_BUFFER then s else s[..ERROR_BUFFER - 1]
  }

  function UpToNul(m: string): string {
    if m == [] || m[0] == '\0' then [] else [m[0]] + UpToNul(m[1..])
  }

  /** `processResponse`, once the table entry has been found. */
  function EffectOf(ty: Type, j: Json): Effect {
    match DecodeField(Field("success", TBool), j)
    case Some(VBool(true)) =>
      (match DecodeField(Field("body", ty), j) case Some(v) => GotResponse(v) case None => GotUndecoded)
    case Some(VBool(false)) =>
      (match StringField("message", j) case None => NoCall case Some(m) => GotError(ErrorText(m)))
    case _ => NoCall
  }

  /** The effect a handler's outcome should have at the other end. */
  function Intended(out: Outcome): Effect {
    match out
    case Success(v) => GotResponse(v)
    case Failure(m) => GotError(ErrorText(m))
  }

  // ------------------------------------------------------------------ lemmas

  lemma StringFieldIs(name: string, m: map<string, Json>, s: string)
    requires name in m && m[name] == JString(s)
    ensures StringField(name, JObject(m)) == Some(s)
  {
    assert DecodeField(Field(name, TStr), JObject(m)) == Some(VStr(s));
  }

  lemma IntFieldIs(name: string, m: map<string, Json>, i: int)
    requires name in m && m[name] == JInt(i) && IsInt64(i)
    ensures IntField(name, JObject(m)) == Some(i)
  {
    assert DecodeField(Field(name, TInt), JObject(m)) == Some(VInt(i));
  }

  /** Numbers are read as 64-bit integers. */
  lemma IntFieldRange(name: string, j: Json)
    ensures var r := IntField(name, j); r.Some? ==> IsInt64(r.value)
  {
    if j.JObject? && name in j.m {
      assert DecodeField(Field(name, TInt), j) == Decode(TInt, j.m[name]);
    }
  }

  lemma RequestNumber(p: Protocol, h: set<string>, eh: set<string>, j: Json)
    ensures var k := Classify(p, h, eh, j); k.RequestIn? ==> IsInt64(k.seq_)
  {
    hide IntField, StringField, DecodeField;
    IntFieldRange("seq", j);
  }

  lemma BoolFieldIs(name: string, m: map<string, Json>, b: bool)
    requires name in m && m[name] == JBool(b)
    ensures DecodeField(Field(name, TBool), JObject(m)) == Some(VBool(b))
  {}

  /** A request arrives as it was sent, if a handler is registered for it. */
  lemma RequestArrives(p: Protocol, h: set<string>, eh: set<string>, seq_: int, c: string, args: Value)
    requires GoodProtocol(p) && c in p.requests && GoodValue(args, p.requests[c].args) && IsInt64(seq_)
    ensures Classify(p, h, eh, RequestMsg(seq_, c, Encode(p.requests[c].args, args, JNull).json))
         == if c in h then RequestIn(seq_, c, args) else Rejected
  {
    hide Encode, Decode;
    var t := p.requests[c].args;
    var j := RequestMsg(seq_, c, Encode(t, args, JNull).json);
    RoundTrips(t, args);
    StringFieldIs("type", j.m, "request");
    StringFieldIs("command", j.m, c);
    IntFieldIs("seq", j.m, seq_);
    assert DecodeField(Field("arguments", t), j) == Some(args);
  }

  /** An event arrives as it was sent, if a handler is registered for it. */
  lemma EventArrives(p: Protocol, h: set<string>, eh: set<string>, seq_: int, n: string, body: Value)
    requires GoodProtocol(p) && n in p.events && GoodValue(body, p.events[n]) && IsInt64(seq_)
    ensures Classify(p, h, eh, EventMsg(seq_, n, Encode(p.events[n], body, JNull).json))
         == if n in eh then EventIn(n, body) else Rejected
  {
    hide Encode, Decode;
    var t := p.events[n];
    var j := EventMsg(seq_, n, Encode(t, body, JNull).json);
    RoundTrips(t, body);
    StringFieldIs("type", j.m, "event");
    StringFieldIs("event", j.m, n);
    IntFieldIs("seq", j.m, seq_);
    assert DecodeField(Field("body", t), j) == Some(body);
  }

  /** A reply arrives as the outcome the handler produced. */
  lemma ReplyArrives(p: Protocol, h: set<string>, eh: set<string>, seq_: int, q: int, c: string, ty: Type, out: Outcome)
    requires GoodType(ty) && IsInt64(seq_) && IsInt64(q)
    requires out.Success? ==> GoodValue(out.v, ty)
    ensures var j := ReplyMsg(seq_, q, c, ty, out);
            Classify(p, h, eh, j) == ResponseIn(q) && EffectOf(ty, j) == Intended(out)
  {
    hide Encode, Decode;
    var j := ReplyMsg(seq_, q, c, ty, out);
    if out.Success? {
      RoundTrips(ty, out.v);
    }
    StringFieldIs("type", j.m, "response");
    IntFieldIs("seq", j.m, seq_);
    IntFieldIs("request_seq", j.m, q);
    BoolFieldIs("success", j.m, out.Success?);
    if out.Success? {
      assert DecodeField(Field("body", ty), j) == Some(out.v);
    } else {
      StringFieldIs("message", j.m, out.message);
    }
  }

  /** An event without a body is accepted exactly when its type has no fields at all: a missing
      body goes through the null deserializer, which fails for any field, optional ones included. */
  lemma BodilessEventIff(p: Protocol, eh: set<string>, m: map<string, Json>, n: string)
    requires n in eh && n in p.events && p.events[n].TStruct?
    requires "event" in m && m["event"] == JString(n) && "body" !in m
    ensures ClassifyEvent(p, eh, JObject(m)).EventIn? <==> p.events[n] == TStruct([], [])
  {
    StringFieldIs("event", m, n);
    MissingStruct(p.events[n].base, p.events[n].own);
  }

  // ------------------------------------------------------ every message, well-formed or not

  lemma StringFieldOf(name: string, m: map<string, Json>)
    ensures StringField(name, JObject(m)) == if name in m && m[name].JString? then Some(m[name].s) else None
  {
    if name in m {
      assert DecodeField(Field(name, TStr), JObject(m)) == Decode(TStr, m[name]);
    }
  }

  lemma IntFieldOf(name: string, m: map<string, Json>)
    ensures IntField(name, JObject(m)) == if name in m && m[name].JInt? then Some(ToInt64(m[name].i)) else None
  {
    if name in m {
      assert DecodeField(Field(name, TInt), JObject(m)) == Decode(TInt, m[name]);
    }
  }

  predicate HasString(m: map<string, Json>, name: string, s: string) { name in m && m[name] == JString(s) }

  predicate HasInt(m: map<string, Json>, name: string, i: int) { name in m && m[name].JInt? && ToInt64(m[name].i) == i }

  /** Which messages are taken, and for what: all of them must have a string type and an integer
      number; a request or an event must also have a handler and decode; a response must say what
      it responds to. Every other message is rejected. */
  lemma TakenIff(p: Protocol, h: set<string>, eh: set<string>, m: map<string, Json>, k: Incoming)
    ensures Classify(p, h, eh, JObject(m)) == k && !k.Rejected?
       <==> "seq" in m && m["seq"].JInt? &&
            match k
            case RequestIn(q, c, args) =>
              && HasString(m, "type", "request") && HasInt(m, "seq", q) && HasString(m, "command", c)
              && c in h && c in p.requests && DecodeField(Field("arguments", p.requests[c].args), JObject(m)) == Some(args)
            case EventIn(n, body) =>
              && HasString(m, "type", "event") && HasString(m, "event", n)
              && n in eh && n in p.events && DecodeField(Field("body", p.events[n]), JObject(m)) == Some(body)
            case ResponseIn(q) => HasString(m, "type", "response") && HasInt(m, "request_seq", q)
            case Rejected => false
  {
    hide StringField, IntField, DecodeField, ToInt64;
    StringFieldOf("type", m);
    IntFieldOf("seq", m);
    StringFieldOf("command", m);
    StringFieldOf("event", m);
    IntFieldOf("request_seq", m);
  }

  /** Only objects are messages. */
  lemma NotAMessage(p: Protocol, h: set<string>, eh: set<string>, j: Json)
    requires !j.JObject?
    ensures Classify(p, h, eh, j) == Rejected
  {
    assert DecodeField(Field("type", TStr), j) == None;
  }

  /** Neither success nor failure with a message. */
  predicate SaysNothing(m: map<string, Json>) {
    "success" in m && m["success"].JBool? ==> !m["success"].b && !("message" in m && m["message"].JString?)
  }

  /** What a response does to the handler: a success calls it whether or not there is a body that
      decodes; a failure calls it with its message; anything else does not call it. */
  lemma HandlerCalledIff(ty: Type, m: map<string, Json>)
    ensures var effect := EffectOf(ty, JObject(m));
            && (effect.NoCall? <==> SaysNothing(m))
            && ("success" in m && m["success"] == JBool(true) ==>
                  effect == match DecodeField(Field("body", ty), JObject(m)) case Some(v) => GotResponse(v) case None => GotUndecoded)
            && ("success" in m && m["success"] == JBool(false) && "message" in m && m["message"].JString? ==>
                  effect == GotError(ErrorText(m["message"].s)))
  {
    StringFieldOf("message", m);
    SuccessOf(m);
    hide DecodeField, StringField, ErrorText;
  }

  lemma SuccessOf(m: map<string, Json>)
    ensures DecodeField(Field("success", TBool), JObject(m))
         == if "success" in m && m["success"].JBool? then Some(VBool(m["success"].b)) else None
  {
    if "success" in m {
      assert DecodeField(Field("success", TBool), JObject(m)) == Decode(TBool, m["success"]);
    }
  }

  // ------------------------------------------------------------------- error texts

  lemma {:induction false} UpToNulIs(m: string)
    ensures var r := UpToNul(m); r <= m && '\0' !in r && (|r| < |m| ==> m[|r|] == '\0')
  {
    if m != [] && m[0] != '\0' {
      UpToNulIs(m[1..]);
      assert m == [m[0]] + m[1..];
    }
  }

  /** The text of an error is the longest beginning of the message that holds no NUL and fits the
      buffer with its terminator. */
  lemma ErrorTextIs(m: string)
    ensures var r := ErrorText(m);
            && r <= m && '\0' !in r && |r| < 2048
            && forall q: string | q <= m && '\0' !in q && |q| < 2048 :: q <= r
  {
    UpToNulIs(m);
    var u, r := UpToNul(m), ErrorText(m);
    forall q: string | q <= m && '\0' !in q && |q| < 2048
      ensures q <= r
    {
      LongestOf(m, u, q);
    }
  }

  lemma LongestOf(m: string, u: string, q: string)
    requires u <= m && (|u| < |m| ==> m[|u|] == '\0') && q <= m
    ensures q <= u || '\0' in q
  {
    if |q| > |u| {
      assert q[|u|] == m[|u|];
    }
    assert q == m[..|q|] && u == m[..|u|];
  }

  /** So an ordinary message arrives unchanged. */
  lemma ErrorTextKept(m: string)
    requires '\0' !in m && |m| < 2048
    ensures ErrorText(m) == m
  {
    ErrorTextIs(m);
    assert m <= m;
  }

  /** The wire format of the three kinds of message: each names its own number, and a reply names the
      request it answers by number and command, and says whether it succeeded. */
  lemma MessageMembers(x: int, q: int, c: string, n: string, ty: Type, out: Outcome, j: Json)
    requires out.Success? ==> HasType(out.v, ty)
    ensures var m := RequestMsg(x, c, j).m;
            m.Keys == {"seq", "type", "command", "arguments"} && m["seq"] == JInt(x) && m["command"] == JString(c) && m["arguments"] == j
    ensures var m := EventMsg(x, n, j).m;
            m.Keys == {"seq", "type", "event", "body"} && m["seq"] == JInt(x) && m["event"] == JString(n) && m["body"] == j
    ensures var m := ReplyMsg(x, q, c, ty, out).m;
            && m.Keys == {"seq", "type", "request_seq", "success", "command", if out.Success? then "body" else "message"}
            && m["seq"] == JInt(x) && m["request_seq"] == JInt(q) && m["command"] == JString(c)
            && m["success"] == JBool(out.Success?)
  {
    hide Encode;
  }
}
