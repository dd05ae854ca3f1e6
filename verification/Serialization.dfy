/** Typed serialization: run-time type descriptors drive the encoding of a value to a JSON tree and
    the decoding of a JSON tree to a value (`include/dap/serialization.h`, `include/dap/typeof.h`,
    `src/nlohmann_json_serializer.cpp`). The text of the JSON tree is not part of this model. */
module Serialization {
  import opened Options

  datatype Json =
    | JNull
    | JBool(b: bool)
    | JInt(i: int)
    | JFloat(r: real)
    | JString(s: string)
    | JArray(es: seq<Json>)
    | JObject(m: map<string, Json>)

  /** A struct has the fields of its base (none when it has no base) and its own. A `variant`
      delegates to the `any` it holds, so it is a TAny here. */
  datatype Type =
    | TBool | TInt | TNum | TStr
    | TObject                                     // map of string to any
    | TAny
    | TArray(elem: Type)
    | TOptional(elem: Type)
    | TStruct(base: seq<Field>, own: seq<Field>)

  datatype Field = Field(name: string, ty: Type)

  datatype Value =
    | VBool(b: bool) | VInt(i: int) | VNum(r: real) | VStr(s: string)
    | VObject(m: map<string, Any>)
    | VAny(a: Any)
    | VArray(vs: seq<Value>)
    | VNone | VSome(v: Value)
    | VStruct(base: seq<Value>, own: seq<Value>)

  datatype Any = ANull | AOf(ty: Type, v: Value)

  const INT64_MAX: int := 0x7FFF_FFFF_FFFF_FFFF

  predicate IsInt64(i: int) { -INT64_MAX - 1 <= i <= INT64_MAX }

  /** `get<int64_t>` of any JSON integer. */
  function ToInt64(i: int): (r: int)
    ensures IsInt64(r)
    ensures IsInt64(i) ==> r == i
  {
    (i + INT64_MAX + 1) % (2 * INT64_MAX + 2) - INT64_MAX - 1
  }

  // ------------------------------------------------------------------ typing

  ghost predicate HasType(v: Value, t: Type)
    decreases v
  {
    match t
    case TBool => v.VBool?
    case TInt => v.VInt? && IsInt64(v.i)
    case TNum => v.VNum?
    case TStr => v.VStr?
    case TObject => v.VObject? && forall k | k in v.m :: WellTyped(v.m[k])
    case TAny => v.VAny? && WellTyped(v.a)
    case TArray(e) => v.VArray? && forall i | 0 <= i < |v.vs| :: HasType(v.vs[i], e)
    case TOptional(e) => v.VNone? || (v.VSome? && HasType(v.v, e))
    case TStruct(b, o) => v.VStruct? && HaveTypes(v.base, b) && HaveTypes(v.own, o)
  }

  ghost predicate HaveTypes(vs: seq<Value>, fs: seq<Field>)
    decreases vs
  {
    |vs| == |fs| && forall i | 0 <= i < |vs| :: HasType(vs[i], fs[i].ty)
  }

  /** An `any` never holds another `any` directly: its copy constructor takes the contents over. */
  ghost predicate WellTyped(a: Any)
    decreases a
  {
    a.ANull? || (a.ty != TAny && HasType(a.v, a.ty))
  }

  // ---------------------------------------------------------------- encoding

  /** What serializing into a JSON slot leaves there, and whether `remove` was called. */
  datatype Encoded = Encoded(json: Json, removed: bool)

  function Slot(obj: map<string, Json>, name: string): Json {
    if name in obj then obj[name] else JNull
  }

  /** Serializes v, of type t, into a slot that holds `slot`. It cannot fail on a well-typed
      value. */
  function Encode(t: Type, v: Value, slot: Json): Encoded
    requires HasType(v, t)
    decreases v, 1
  {
    match t
    case TBool => Encoded(JBool(v.b), false)
    case TInt => Encoded(JInt(v.i), false)
    case TNum => Encoded(JFloat(v.r), false)
    case TStr => Encoded(JString(v.s), false)
    case TObject =>
      // An object already in the slot is added to.
      var obj := if slot.JObject? then slot.m else map[];
      Encoded(JObject(obj + map k | k in v.m :: EncodeAny(v.m[k], Slot(obj, k)).json), false)
    case TAny => EncodeAny(v.a, slot)
    case TArray(e) => Encoded(JArray(EncodeAll(e, v.vs)), false)
    case TOptional(e) => if v.VNone? then Encoded(slot, true) else Encode(e, v.v, slot)
    case TStruct(b, o) => Encoded(JObject(EncodeFields(o, v.own, EncodeFields(b, v.base, map[]))), false)
  }

  /** A null leaves the slot as it was. */
  function EncodeAny(a: Any, slot: Json): Encoded
    requires WellTyped(a)
    decreases a, 0
  {
    if a.ANull? then Encoded(slot, false) else Encode(a.ty, a.v, slot)
  }

  function EncodeAll(e: Type, vs: seq<Value>): (es: seq<Json>)
    requires forall i | 0 <= i < |vs| :: HasType(vs[i], e)
    ensures |es| == |vs|
    decreases vs, 0
  {
    if vs == [] then [] else [Encode(e, vs[0], JNull).json] + EncodeAll(e, vs[1..])
  }

  /** `serializeFields`: each field is written to its member, which is erased again if the field
      asked to be removed. */
  function EncodeFields(fs: seq<Field>, vs: seq<Value>, obj: map<string, Json>): map<string, Json>
    requires HaveTypes(vs, fs)
    decreases vs, 0
  {
    if fs == [] then obj
    else EncodeFields(fs[1..], vs[1..], EncodeField(fs[0], vs[0], obj))
  }

  function EncodeField(f: Field, v: Value, obj: map<string, Json>): map<string, Json>
    requires HasType(v, f.ty)
    decreases v, 2
  {
    var e := Encode(f.ty, v, Slot(obj, f.name));
    if e.removed then obj - {f.name} else obj[f.name := e.json]
  }

  // ---------------------------------------------------------------- decoding

  function DecodeAny(j: Json): Any {
    match j
    case JNull => ANull
    case JBool(b) => AOf(TBool, VBool(b))
    case JInt(i) => AOf(TInt, VInt(ToInt64(i)))
    case JFloat(r) => AOf(TNum, VNum(r))
    case JString(s) => AOf(TStr, VStr(s))
    case JArray(es) => AOf(TArray(TAny), VArray(DecodeAnys(es)))
    case JObject(m) => AOf(TObject, VObject(map k | k in m :: DecodeAny(m[k])))
  }

  function DecodeAnys(es: seq<Json>): (vs: seq<Value>)
    ensures |vs| == |es|
  {
    if es == [] then [] else [VAny(DecodeAny(es[0]))] + DecodeAnys(es[1..])
  }

  function IndexName(i: nat): string {
    if i < 10 then ["0123456789"[i]] else IndexName(i / 10) + ["0123456789"[i % 10]]
  }

  function ArrayItems(es: seq<Json>): map<string, Json> {
    if es == [] then map[] else ArrayItems(es[..|es| - 1])[IndexName(|es| - 1) := es[|es| - 1]]
  }

  /** What `json->items()` iterates over: nothing for null, and a scalar is its own only item. */
  function Items(j: Json): map<string, Json> {
    match j
    case JNull => map[]
    case JObject(m) => m
    case JArray(es) => ArrayItems(es)
    case _ => map["" := j]
  }

  /** Deserializes into a default-constructed value of type t. */
  function Decode(t: Type, j: Json): Option<Value>
    decreases t, 1
  {
    match t
    case TBool => if j.JBool? then Some(VBool(j.b)) else None
    case TInt => if j.JInt? then Some(VInt(ToInt64(j.i))) else None
    case TNum => if j.JInt? then Some(VNum(j.i as real)) else if j.JFloat? then Some(VNum(j.r)) else None
    case TStr => if j.JString? then Some(VStr(j.s)) else None
    case TObject => Some(VObject(map k | k in Items(j) :: DecodeAny(Items(j)[k])))
    case TAny => Some(VAny(DecodeAny(j)))
    case TArray(e) =>
      if !j.JArray? then None
      else (match DecodeAll(e, j.es) case None => None case Some(vs) => Some(VArray(vs)))
    case TOptional(e) => Some(ToOptional(Decode(e, j)))
    case TStruct(b, o) =>
      match DecodeFields(b, j)
      case None => None
      case Some(bs) => (match DecodeFields(o, j) case None => None case Some(os) => Some(VStruct(bs, os)))
  }

  /** A failed decode leaves the optional empty and is not an error. */
  function ToOptional(r: Option<Value>): Value {
    if r.None? then VNone else VSome(r.value)
  }

  function DecodeAll(e: Type, es: seq<Json>): (r: Option<seq<Value>>)
    ensures r.Some? ==> |r.value| == |es|
    decreases e, 2, es
  {
    if es == [] then Some([])
    else
      match Decode(e, es[0])
      case None => None
      case Some(v) => (match DecodeAll(e, es[1..]) case None => None case Some(vs) => Some([v] + vs))
  }

  /** The loop of `deserializeFields`, given what the call of `field` yields for each field. */
  function Collect(rs: seq<Option<Value>>): Option<seq<Value>> {
    if rs == [] then Some([])
    else
      match rs[0]
      case None => None
      case Some(v) => (match Collect(rs[1..]) case None => None case Some(vs) => Some([v] + vs))
  }

  /** `NullDeserializer::field` fails without looking at the field. */
  function NullField(f: Field): Option<Value> { None }

  /** `NullDeserializer`: what a field whose member is missing decodes to. */
  function DecodeMissing(t: Type): Option<Value> {
    match t
    case TOptional(e) => Some(ToOptional(DecodeMissing(e)))
    case TStruct(b, o) =>
      (match Collect(seq(|b|, i requires 0 <= i < |b| => NullField(b[i])))
       case None => None
       case Some(bs) =>
         match Collect(seq(|o|, i requires 0 <= i < |o| => NullField(o[i])))
         case None => None
         case Some(os) => Some(VStruct(bs, os)))
    case _ => None
  }

  /** One field. An array is "structured" too, but has no members. */
  function DecodeField(f: Field, j: Json): Option<Value>
    decreases f, 3
  {
    if !j.JObject? && !j.JArray? then None
    else if j.JObject? && f.name in j.m then Decode(f.ty, j.m[f.name])
    else DecodeMissing(f.ty)
  }

  function DecodeFields(fs: seq<Field>, j: Json): (r: Option<seq<Value>>)
    ensures r.Some? ==> |r.value| == |fs|
    decreases fs, 0
  {
    if fs == [] then Some([])
    else
      match DecodeField(fs[0], j)
      case None => None
      case Some(v) => (match DecodeFields(fs[1..], j) case None => None case Some(vs) => Some([v] + vs))
  }
}
