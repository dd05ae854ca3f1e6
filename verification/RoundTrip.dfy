/** What encoding and decoding preserve: the canonical form of dynamically typed values, and the
    exact set of types that round-trip. */
module RoundTrip {
  import opened Options
  import opened Serialization

  // ------------------------------------------------------------ well-named structs

  predicate DistinctNames(fs: seq<Field>) {
    forall i, j | 0 <= i < j < |fs| :: fs[i].name != fs[j].name
  }

  /** Every struct met in v has distinct field names. */
  ghost predicate Proper(v: Value, t: Type)
    requires HasType(v, t)
    decreases v
  {
    match t
    case TObject => forall k | k in v.m :: ProperAny(v.m[k])
    case TAny => ProperAny(v.a)
    case TArray(e) => forall i | 0 <= i < |v.vs| :: Proper(v.vs[i], e)
    case TOptional(e) => v.VSome? ==> Proper(v.v, e)
    case TStruct(b, o) => DistinctNames(b + o) && AllProper(v.base, b) && AllProper(v.own, o)
    case _ => true
  }

  ghost predicate AllProper(vs: seq<Value>, fs: seq<Field>)
    requires HaveTypes(vs, fs)
    decreases vs
  {
    forall i | 0 <= i < |vs| :: Proper(vs[i], fs[i].ty)
  }

  ghost predicate ProperAny(a: Any)
    requires WellTyped(a)
    decreases a
  {
    a.AOf? ==> Proper(a.v, a.ty)
  }

  // ----------------------------------------------------------------- removal

  /** Whether serializing v asks for its member to be removed. */
  function Removed(t: Type, v: Value): bool
    requires HasType(v, t)
    decreases v
  {
    match t
    case TOptional(e) => v.VNone? || Removed(e, v.v)
    case TAny => assert WellTyped(v.a); v.a.AOf? && Removed(v.a.ty, v.a.v)
    case _ => false
  }

  lemma {:induction false} RemovedIs(t: Type, v: Value, slot: Json)
    requires HasType(v, t)
    ensures Encode(t, v, slot).removed == Removed(t, v)
    decreases v
  {
    match t
    case TOptional(e) => if v.VSome? { RemovedIs(e, v.v, slot); }
    case TAny => if v.a.AOf? { RemovedIs(v.a.ty, v.a.v, slot); }
    case _ =>
  }

  // ------------------------------------------------- objects written field by field

  /** The members a struct's fields leave behind, each encoded on its own. */
  function Members(fs: seq<Field>, vs: seq<Value>): map<string, Json>
    requires HaveTypes(vs, fs)
    decreases vs
  {
    if fs == [] then map[]
    else
      var rest := Members(fs[1..], vs[1..]);
      if Removed(fs[0].ty, vs[0]) then rest else rest[fs[0].name := Encode(fs[0].ty, vs[0], JNull).json]
  }

  ghost predicate Fresh(fs: seq<Field>, m: map<string, Json>) {
    forall i | 0 <= i < |fs| :: fs[i].name !in m
  }

  lemma {:induction false} EncodeFieldsIs(fs: seq<Field>, vs: seq<Value>, obj: map<string, Json>)
    requires HaveTypes(vs, fs) && DistinctNames(fs) && Fresh(fs, obj)
    ensures EncodeFields(fs, vs, obj) == obj + Members(fs, vs)
    decreases fs
  {
    if fs != [] {
      RemovedIs(fs[0].ty, vs[0], JNull);
      var obj' := EncodeField(fs[0], vs[0], obj);
      MembersOnly(fs[1..], vs[1..], fs[0].name);
      EncodeFieldsIs(fs[1..], vs[1..], obj');
    }
  }

  lemma {:induction false} MembersOnly(fs: seq<Field>, vs: seq<Value>, name: string)
    requires HaveTypes(vs, fs) && forall i | 0 <= i < |fs| :: fs[i].name != name
    ensures name !in Members(fs, vs)
    decreases fs
  {
    if fs != [] {
      MembersOnly(fs[1..], vs[1..], name);
    }
  }

  lemma {:induction false} MemberAt(fs: seq<Field>, vs: seq<Value>, i: nat)
    requires HaveTypes(vs, fs) && DistinctNames(fs) && i < |fs|
    ensures var m := Members(fs, vs);
            if Removed(fs[i].ty, vs[i]) then fs[i].name !in m
            else fs[i].name in m && m[fs[i].name] == Encode(fs[i].ty, vs[i], JNull).json
    decreases fs
  {
    if i == 0 {
      MembersOnly(fs[1..], vs[1..], fs[0].name);
    } else {
      MemberAt(fs[1..], vs[1..], i - 1);
    }
  }

  /** A well-named struct is encoded as the members of its base and its own fields together. */
  lemma EncodeStructIs(b: seq<Field>, o: seq<Field>, v: Value, slot: Json)
    requires HasType(v, TStruct(b, o)) && DistinctNames(b + o)
    ensures DistinctNames(b) && DistinctNames(o)
    ensures Encode(TStruct(b, o), v, slot).json == JObject(Members(b, v.base) + Members(o, v.own))
    ensures forall i | 0 <= i < |b| :: b[i].name !in Members(o, v.own)
    ensures forall i | 0 <= i < |o| :: o[i].name !in Members(b, v.base)
  {
    assert forall i | 0 <= i < |b| :: (b + o)[i] == b[i];
    assert forall i | 0 <= i < |o| :: (b + o)[|b| + i] == o[i];
    EncodeFieldsIs(b, v.base, map[]);
    forall i | 0 <= i < |o|
      ensures o[i].name !in Members(b, v.base)
    {
      MembersOnly(b, v.base, o[i].name);
    }
    forall i | 0 <= i < |b|
      ensures b[i].name !in Members(o, v.own)
    {
      MembersOnly(o, v.own, b[i].name);
    }
    assert map[] + Members(b, v.base) == Members(b, v.base);
    EncodeFieldsIs(o, v.own, Members(b, v.base));
  }

  // ---------------------------------------------------------- canonical form

  /** The dynamically typed value that carries the same information as v: typed arrays become
      arrays of any, structs become objects without their removed fields. */
  function Canon(t: Type, v: Value): Any
    requires HasType(v, t)
    decreases v, 1
  {
    match t
    case TBool | TInt | TNum | TStr => AOf(t, v)
    case TObject => AOf(TObject, VObject(map k | k in v.m :: CanonAny(v.m[k])))
    case TAny => CanonAny(v.a)
    case TArray(e) => AOf(TArray(TAny), VArray(CanonAll(e, v.vs)))
    case TOptional(e) => if v.VNone? then ANull else Canon(e, v.v)
    case TStruct(b, o) => AOf(TObject, VObject(CanonFields(b, v.base) + CanonFields(o, v.own)))
  }

  function CanonAny(a: Any): Any
    requires WellTyped(a)
    decreases a, 0
  {
    if a.ANull? then ANull else Canon(a.ty, a.v)
  }

  function CanonAll(e: Type, vs: seq<Value>): (cs: seq<Value>)
    requires forall i | 0 <= i < |vs| :: HasType(vs[i], e)
    ensures |cs| == |vs|
    decreases vs, 0
  {
    if vs == [] then [] else [VAny(Canon(e, vs[0]))] + CanonAll(e, vs[1..])
  }

  function CanonFields(fs: seq<Field>, vs: seq<Value>): map<string, Any>
    requires HaveTypes(vs, fs)
    decreases vs, 0
  {
    if fs == [] then map[]
    else
      var rest := CanonFields(fs[1..], vs[1..]);
      if Removed(fs[0].ty, vs[0]) then rest else rest[fs[0].name := Canon(fs[0].ty, vs[0])]
  }

  /** Decoding an encoded value as `any` gives its canonical form. */
  lemma {:induction false} DecodeAnyOfEncode(t: Type, v: Value)
    requires HasType(v, t) && Proper(v, t)
    ensures DecodeAny(Encode(t, v, JNull).json) == Canon(t, v)
    decreases v, 1
  {
    match t
    case TObject => DecodeAnyOfObject(v);
    case TAny => DecodeAnyOfEncodeAny(v.a);
    case TArray(e) => DecodeAnysOfEncodeAll(e, v.vs);
    case TOptional(e) => if v.VSome? { DecodeAnyOfEncode(e, v.v); }
    case TStruct(b, o) => DecodeAnyOfStruct(b, o, v);
    case _ =>
  }

  lemma DecodeAnyOfObject(v: Value)
    requires HasType(v, TObject) && Proper(v, TObject)
    ensures DecodeAny(Encode(TObject, v, JNull).json) == Canon(TObject, v)
    decreases v, 0
  {
    forall k | k in v.m
      ensures DecodeAny(EncodeAny(v.m[k], JNull).json) == CanonAny(v.m[k])
    {
      DecodeAnyOfEncodeAny(v.m[k]);
    }
    var m := map k | k in v.m :: EncodeAny(v.m[k], Slot(map[], k)).json;
    assert map[] + m == m;
    assert (map k | k in m :: DecodeAny(m[k])) == map k | k in v.m :: CanonAny(v.m[k]);
  }

  lemma DecodeAnyOfStruct(b: seq<Field>, o: seq<Field>, v: Value)
    requires HasType(v, TStruct(b, o)) && Proper(v, TStruct(b, o))
    ensures DecodeAny(Encode(TStruct(b, o), v, JNull).json) == Canon(TStruct(b, o), v)
    decreases v, 0
  {
    EncodeStructIs(b, o, v, JNull);
    DecodeAnyOfMembers(b, v.base);
    DecodeAnyOfMembers(o, v.own);
    var m := Members(b, v.base) + Members(o, v.own);
    assert (map k | k in m :: DecodeAny(m[k])) == CanonFields(b, v.base) + CanonFields(o, v.own);
  }

  lemma DecodeAnyOfEncodeAny(a: Any)
    requires WellTyped(a) && ProperAny(a)
    ensures DecodeAny(EncodeAny(a, JNull).json) == CanonAny(a)
    decreases a, 0
  {
    if a.AOf? {
      DecodeAnyOfEncode(a.ty, a.v);
    }
  }

  lemma {:induction false} DecodeAnysOfEncodeAll(e: Type, vs: seq<Value>)
    requires forall i | 0 <= i < |vs| :: HasType(vs[i], e) && Proper(vs[i], e)
    ensures DecodeAnys(EncodeAll(e, vs)) == CanonAll(e, vs)
    decreases vs, 0
  {
    if vs != [] {
      DecodeAnyOfEncode(e, vs[0]);
      DecodeAnysOfEncodeAll(e, vs[1..]);
    }
  }

  lemma {:induction false} DecodeAnyOfMembers(fs: seq<Field>, vs: seq<Value>)
    requires HaveTypes(vs, fs) && AllProper(vs, fs)
    ensures (map k | k in Members(fs, vs) :: DecodeAny(Members(fs, vs)[k])) == CanonFields(fs, vs)
    decreases vs, 0
  {
    if fs != [] {
      DecodeAnyOfEncode(fs[0].ty, vs[0]);
      DecodeAnyOfMembers(fs[1..], vs[1..]);
    }
  }

  // Canonical forms are well typed, hold no structs, and are their own canonical form.

  lemma {:induction false} CanonIsCanonical(t: Type, v: Value)
    requires HasType(v, t)
    ensures Canonical(Canon(t, v))
    decreases v, 1
  {
    match t
    case TObject =>
      forall k | k in v.m
        ensures Canonical(CanonAny(v.m[k]))
      {
        CanonAnyIsCanonical(v.m[k]);
      }
      CanonicalObject(map k | k in v.m :: CanonAny(v.m[k]));
    case TAny => CanonAnyIsCanonical(v.a);
    case TArray(e) => CanonAllIsCanonical(e, v.vs);
    case TOptional(e) => if v.VSome? { CanonIsCanonical(e, v.v); }
    case TStruct(b, o) =>
      CanonFieldsAreCanonical(b, v.base);
      CanonFieldsAreCanonical(o, v.own);
      var mb, mo := CanonFields(b, v.base), CanonFields(o, v.own);
      assert AllCanonical(mb) && AllCanonical(mo);
      CanonicalObject(mb + mo);
    case _ =>
  }

  ghost predicate Canonical(a: Any) {
    WellTyped(a) && ProperAny(a) && CanonAny(a) == a
  }

  ghost predicate AllCanonical(m: map<string, Any>) {
    forall k | k in m :: Canonical(m[k])
  }

  lemma CanonicalObject(m: map<string, Any>)
    requires AllCanonical(m)
    ensures Canonical(AOf(TObject, VObject(m)))
  {
    assert HasType(VObject(m), TObject);
    assert (map k | k in m :: CanonAny(m[k])) == m;
  }

  lemma CanonAnyIsCanonical(a: Any)
    requires WellTyped(a)
    ensures Canonical(CanonAny(a))
    decreases a, 0
  {
    if a.AOf? {
      CanonIsCanonical(a.ty, a.v);
    }
  }

  lemma {:induction false} CanonAllIsCanonical(e: Type, vs: seq<Value>)
    requires forall i | 0 <= i < |vs| :: HasType(vs[i], e)
    ensures var cs := CanonAll(e, vs);
            && (forall i | 0 <= i < |cs| :: HasType(cs[i], TAny) && Proper(cs[i], TAny))
            && CanonAll(TAny, cs) == cs
    decreases vs, 0
  {
    if vs != [] {
      CanonIsCanonical(e, vs[0]);
      CanonAllIsCanonical(e, vs[1..]);
    }
  }

  lemma {:induction false} CanonFieldsAreCanonical(fs: seq<Field>, vs: seq<Value>)
    requires HaveTypes(vs, fs)
    ensures AllCanonical(CanonFields(fs, vs))
    decreases vs, 0
  {
    if fs != [] {
      CanonIsCanonical(fs[0].ty, vs[0]);
      CanonFieldsAreCanonical(fs[1..], vs[1..]);
      assert AllCanonical(CanonFields(fs[1..], vs[1..]));
    }
  }

  /** For every dynamically typed value, one round trip gives the canonical form and a second one
      changes nothing. */
  lemma AnyRoundTrip(a: Any)
    requires WellTyped(a) && ProperAny(a)
    ensures DecodeAny(EncodeAny(a, JNull).json) == CanonAny(a)
    ensures WellTyped(CanonAny(a)) && DecodeAny(EncodeAny(CanonAny(a), JNull).json) == CanonAny(a)
  {
    DecodeAnyOfEncodeAny(a);
    CanonAnyIsCanonical(a);
    DecodeAnyOfEncodeAny(CanonAny(a));
  }

  // -------------------------------------------------------- typed round trip

  /** Every dynamically typed part of v is canonical. */
  ghost predicate CanonicalIn(v: Value, t: Type)
    requires HasType(v, t)
    decreases v
  {
    match t
    case TObject => AllCanonical(v.m)
    case TAny => Canonical(v.a)
    case TArray(e) => forall i | 0 <= i < |v.vs| :: CanonicalIn(v.vs[i], e)
    case TOptional(e) => v.VSome? ==> CanonicalIn(v.v, e)
    case TStruct(b, o) => AllCanonicalIn(v.base, b) && AllCanonicalIn(v.own, o)
    case _ => true
  }

  ghost predicate AllCanonicalIn(vs: seq<Value>, fs: seq<Field>)
    requires HaveTypes(vs, fs)
    decreases vs
  {
    forall i | 0 <= i < |vs| :: CanonicalIn(vs[i], fs[i].ty)
  }

  predicate WellNamed(t: Type)
    decreases t
  {
    match t
    case TArray(e) => WellNamed(e)
    case TOptional(e) => WellNamed(e)
    case TStruct(b, o) =>
      && DistinctNames(b + o)
      && (forall i | 0 <= i < |b| :: WellNamed(b[i].ty))
      && (forall i | 0 <= i < |o| :: WellNamed(o[i].ty))
    case _ => true
  }

  /** Types that decode from a JSON null. */
  predicate AcceptsNull(t: Type) {
    t.TObject? || t.TAny? || t.TOptional? || t == TStruct([], [])
  }

  /** Types that decode from a missing member. */
  predicate AcceptsMissing(t: Type) {
    t.TOptional? || t == TStruct([], [])
  }

  /** An absent optional leaves a null in its slot, or no member if it is a struct field. It comes
      back absent only if its element type does not decode from that. */
  predicate Faithful(t: Type)
    decreases t
  {
    match t
    case TArray(e) => Faithful(e)
    case TOptional(e) => Faithful(e) && !AcceptsNull(e)
    case TStruct(b, o) =>
      && (forall i | 0 <= i < |b| :: FaithfulField(b[i]))
      && (forall i | 0 <= i < |o| :: FaithfulField(o[i]))
    case _ => true
  }

  predicate FaithfulField(f: Field)
    decreases f
  {
    if f.ty.TOptional? then Faithful(f.ty.elem) && !AcceptsMissing(f.ty.elem) else Faithful(f.ty)
  }

  /** Without a member, a struct decodes exactly when it has no fields at all. */
  lemma MissingStruct(b: seq<Field>, o: seq<Field>)
    ensures DecodeMissing(TStruct(b, o)) == if b == [] && o == [] then Some(VStruct([], [])) else None
  {
    var bs := seq(|b|, i requires 0 <= i < |b| => NullField(b[i]));
    var os := seq(|o|, i requires 0 <= i < |o| => NullField(o[i]));
    assert b != [] ==> bs[0] == None;
    assert o != [] ==> os[0] == None;
  }

  lemma AbsentDecodes(t: Type)
    ensures Decode(t, JNull).Some? <==> AcceptsNull(t)
    ensures DecodeMissing(t).Some? <==> AcceptsMissing(t)
  {
    match t
    case TStruct(b, o) =>
      MissingStruct(b, o);
      if b != [] {
        assert DecodeField(b[0], JNull).None?;
      } else if o != [] {
        assert DecodeField(o[0], JNull).None?;
      }
    case _ =>
  }

  lemma {:induction false} CanonHoldsNoOptional(t: Type, v: Value)
    requires HasType(v, t)
    ensures Canon(t, v).AOf? ==> !Canon(t, v).ty.TOptional?
    decreases v
  {
    match t
    case TAny => if v.a.AOf? { CanonHoldsNoOptional(v.a.ty, v.a.v); }
    case TOptional(e) => if v.VSome? { CanonHoldsNoOptional(e, v.v); }
    case _ =>
  }

  lemma NotRemoved(t: Type, v: Value)
    requires HasType(v, t) && CanonicalIn(v, t) && !t.TOptional?
    ensures !Removed(t, v)
  {
    if t.TAny? && v.a.AOf? {
      CanonHoldsNoOptional(v.a.ty, v.a.v);
    }
  }

  /** What an object holds for one field of a struct: its encoding, or nothing if removed. */
  ghost predicate Holds(m: map<string, Json>, f: Field, v: Value)
    requires HasType(v, f.ty)
  {
    if Removed(f.ty, v) then f.name !in m
    else f.name in m && m[f.name] == Encode(f.ty, v, JNull).json
  }

  lemma StructHolds(b: seq<Field>, o: seq<Field>, v: Value) returns (m: map<string, Json>)
    requires v.VStruct? && HaveTypes(v.base, b) && HaveTypes(v.own, o) && DistinctNames(b + o)
    ensures Encode(TStruct(b, o), v, JNull).json == JObject(m)
    ensures forall i | 0 <= i < |b| :: Holds(m, b[i], v.base[i])
    ensures forall i | 0 <= i < |o| :: Holds(m, o[i], v.own[i])
  {
    EncodeStructIs(b, o, v, JNull);
    m := Members(b, v.base) + Members(o, v.own);
    forall i | 0 <= i < |b| { MemberAt(b, v.base, i); }
    forall i | 0 <= i < |o| { MemberAt(o, v.own, i); }
  }

  /** Fields decode one by one. */
  lemma {:induction false} DecodeFieldsIff(fs: seq<Field>, j: Json, vs: seq<Value>)
    requires |vs| == |fs|
    ensures DecodeFields(fs, j) == Some(vs) <==> forall i | 0 <= i < |fs| :: DecodeField(fs[i], j) == Some(vs[i])
    decreases fs
  {
    if fs != [] {
      DecodeFieldsIff(fs[1..], j, vs[1..]);
      assert vs == [vs[0]] + vs[1..];
      assert forall i | 0 < i < |fs| :: fs[i] == fs[1..][i - 1] && vs[i] == vs[1..][i - 1];
      assert forall i | 0 <= i < |fs| - 1 :: fs[1..][i] == fs[i + 1] && vs[1..][i] == vs[i + 1];
    }
  }

  /** Encoding then decoding is the identity: sufficiency. */
  lemma {:induction false} RoundTrips(t: Type, v: Value)
    requires HasType(v, t) && CanonicalIn(v, t) && WellNamed(t) && Faithful(t)
    ensures Decode(t, Encode(t, v, JNull).json) == Some(v)
    decreases v, 1
  {
    match t
    case TObject => ObjectRoundTrips(v);
    case TAny => DecodeAnyOfEncodeAny(v.a);
    case TArray(e) => AllRoundTrip(e, v.vs);
    case TOptional(e) => if v.VNone? { AbsentDecodes(e); } else { RoundTrips(e, v.v); }
    case TStruct(b, o) => StructRoundTrips(b, o, v);
    case _ =>
  }

  lemma ObjectRoundTrips(v: Value)
    requires HasType(v, TObject) && CanonicalIn(v, TObject)
    ensures Decode(TObject, Encode(TObject, v, JNull).json) == Some(v)
  {
    forall k | k in v.m
      ensures DecodeAny(EncodeAny(v.m[k], JNull).json) == v.m[k]
    {
      assert Canonical(v.m[k]);
      DecodeAnyOfEncodeAny(v.m[k]);
    }
    var m := map k | k in v.m :: EncodeAny(v.m[k], Slot(map[], k)).json;
    assert map[] + m == m;
    assert (map k | k in m :: DecodeAny(m[k])) == v.m;
  }

  lemma {:induction false} AllRoundTrip(e: Type, vs: seq<Value>)
    requires forall i | 0 <= i < |vs| :: HasType(vs[i], e) && CanonicalIn(vs[i], e)
    requires WellNamed(e) && Faithful(e)
    ensures DecodeAll(e, EncodeAll(e, vs)) == Some(vs)
    decreases vs, 0
  {
    if vs != [] {
      RoundTrips(e, vs[0]);
      AllRoundTrip(e, vs[1..]);
      var es := EncodeAll(e, vs);
      assert es[0] == Encode(e, vs[0], JNull).json && es[1..] == EncodeAll(e, vs[1..]);
      assert vs == [vs[0]] + vs[1..];
    }
  }

  lemma StructRoundTrips(b: seq<Field>, o: seq<Field>, v: Value)
    requires HasType(v, TStruct(b, o)) && CanonicalIn(v, TStruct(b, o))
    requires WellNamed(TStruct(b, o)) && Faithful(TStruct(b, o))
    ensures Decode(TStruct(b, o), Encode(TStruct(b, o), v, JNull).json) == Some(v)
    decreases v, 0
  {
    var m := StructHolds(b, o, v);
    forall i | 0 <= i < |b|
      ensures DecodeField(b[i], JObject(m)) == Some(v.base[i])
    {
      FieldRoundTrips(b[i], v.base[i], m);
    }
    forall i | 0 <= i < |o|
      ensures DecodeField(o[i], JObject(m)) == Some(v.own[i])
    {
      FieldRoundTrips(o[i], v.own[i], m);
    }
    DecodeFieldsIff(b, JObject(m), v.base);
    DecodeFieldsIff(o, JObject(m), v.own);
  }

  lemma FieldRoundTrips(f: Field, v: Value, m: map<string, Json>)
    requires HasType(v, f.ty) && CanonicalIn(v, f.ty) && WellNamed(f.ty) && FaithfulField(f)
    requires Holds(m, f, v)
    ensures DecodeField(f, JObject(m)) == Some(v)
    decreases v, 2
  {
    if f.ty.TOptional? && v.VNone? {
      AbsentDecodes(f.ty.elem);
    } else if f.ty.TOptional? {
      NotRemoved(f.ty.elem, v.v);
      RoundTrips(f.ty.elem, v.v);
    } else {
      NotRemoved(f.ty, v);
      RoundTrips(f.ty, v);
    }
  }

  // --------------------------------------------------------------- necessity

  function Default(t: Type): Value
    decreases t
  {
    match t
    case TBool => VBool(false)
    case TInt => VInt(0)
    case TNum => VNum(0.0)
    case TStr => VStr("")
    case TObject => VObject(map[])
    case TAny => VAny(ANull)
    case TArray(_) => VArray([])
    case TOptional(_) => VNone
    case TStruct(b, o) => VStruct(Defaults(b), Defaults(o))
  }

  function Defaults(fs: seq<Field>): (vs: seq<Value>)
    ensures |vs| == |fs|
    ensures forall i | 0 <= i < |fs| :: vs[i] == Default(fs[i].ty)
    decreases fs
  {
    if fs == [] then [] else [Default(fs[0].ty)] + Defaults(fs[1..])
  }

  lemma {:induction false} DefaultOk(t: Type)
    ensures HasType(Default(t), t) && CanonicalIn(Default(t), t)
    decreases t
  {
    match t
    case TStruct(b, o) =>
      forall i | 0 <= i < |b| { DefaultOk(b[i].ty); }
      forall i | 0 <= i < |o| { DefaultOk(o[i].ty); }
    case _ =>
  }

  ghost predicate Fails(t: Type, v: Value) {
    && HasType(v, t) && CanonicalIn(v, t)
    && Decode(t, Encode(t, v, JNull).json) != Some(v)
  }

  /** A value that does not survive, for every type that is not faithful. */
  lemma {:induction false} Counterexample(t: Type) returns (v: Value)
    requires WellNamed(t) && !Faithful(t)
    ensures Fails(t, v)
    decreases t, 1
  {
    match t
    case TArray(e) =>
      var w := Counterexample(e);
      v := VArray([w]);
      assert EncodeAll(e, [w]) == [Encode(e, w, JNull).json];
    case TOptional(e) =>
      if Faithful(e) {
        v := VNone;
        AbsentDecodes(e);
      } else {
        var w := Counterexample(e);
        v := VSome(w);
      }
    case TStruct(b, o) => v := StructCounterexample(b, o);
  }

  lemma StructCounterexample(b: seq<Field>, o: seq<Field>) returns (v: Value)
    requires WellNamed(TStruct(b, o)) && !Faithful(TStruct(b, o))
    ensures Fails(TStruct(b, o), v)
    decreases TStruct(b, o), 0
  {
    if i :| 0 <= i < |b| && !FaithfulField(b[i]) {
      var w := FieldCounterexample(b[i]);
      v := StructFailsAt(b, o, true, i, w);
    } else {
      var k :| 0 <= k < |o| && !FaithfulField(o[k]);
      var w := FieldCounterexample(o[k]);
      v := StructFailsAt(b, o, false, k, w);
    }
  }

  /** Defaults everywhere but in one field. */
  lemma DefaultExcept(b: seq<Field>, o: seq<Field>, inBase: bool, i: nat, w: Value) returns (v: Value)
    requires WellNamed(TStruct(b, o))
    requires i < |if inBase then b else o| && FieldLost((if inBase then b else o)[i], w)
    ensures v.VStruct? && HasType(v, TStruct(b, o)) && CanonicalIn(v, TStruct(b, o))
    ensures i < |if inBase then v.base else v.own| && (if inBase then v.base else v.own)[i] == w
  {
    DefaultOk(TStruct(b, o));
    var bs, os := Defaults(b), Defaults(o);
    v := if inBase then VStruct(bs[i := w], os) else VStruct(bs, os[i := w]);
    assert HaveTypes(v.base, b) && HaveTypes(v.own, o);
    assert AllCanonicalIn(v.base, b) && AllCanonicalIn(v.own, o);
  }

  /** One lost field spoils the struct, whatever the others hold. */
  lemma StructFailsAt(b: seq<Field>, o: seq<Field>, inBase: bool, i: nat, w: Value) returns (v: Value)
    requires WellNamed(TStruct(b, o))
    requires i < |if inBase then b else o| && FieldLost((if inBase then b else o)[i], w)
    ensures Fails(TStruct(b, o), v)
  {
    v := DefaultExcept(b, o, inBase, i, w);
    hide HasType, CanonicalIn, Encode, Decode, FieldLost;
    var m := StructHolds(b, o, v);
    FieldFails((if inBase then b else o)[i], w, m);
    DecodeFieldsIff(b, JObject(m), v.base);
    DecodeFieldsIff(o, JObject(m), v.own);
    assert DecodeFields(b, JObject(m)) != Some(v.base) || DecodeFields(o, JObject(m)) != Some(v.own);
  }

  /** The ways a field value can fail to come back. */
  ghost predicate FieldLost(f: Field, w: Value) {
    && HasType(w, f.ty) && CanonicalIn(w, f.ty)
    && (if w.VNone? then f.ty.TOptional? && AcceptsMissing(f.ty.elem)
        else if f.ty.TOptional? then !f.ty.elem.TOptional? && Fails(f.ty.elem, w.v)
        else Fails(f.ty, w))
  }

  lemma FieldCounterexample(f: Field) returns (w: Value)
    requires WellNamed(f.ty) && !FaithfulField(f)
    ensures FieldLost(f, w)
    decreases f, 2
  {
    if f.ty.TOptional? && AcceptsMissing(f.ty.elem) {
      w := VNone;
    } else if f.ty.TOptional? {
      var x := Counterexample(f.ty.elem);
      w := VSome(x);
    } else {
      w := Counterexample(f.ty);
    }
  }

  lemma FieldFails(f: Field, w: Value, m: map<string, Json>)
    requires FieldLost(f, w) && Holds(m, f, w)
    ensures DecodeField(f, JObject(m)) != Some(w)
  {
    if w.VNone? {
      AbsentDecodes(f.ty.elem);
    } else if f.ty.TOptional? {
      NotRemoved(f.ty.elem, w.v);
    } else {
      NotRemoved(f.ty, w);
    }
  }

  /** The types that round-trip, exactly: over all values whose dynamically typed parts are
      canonical, decoding undoes encoding if and only if the type is faithful. */
  lemma RoundTripIff(t: Type)
    requires WellNamed(t)
    ensures (forall v | HasType(v, t) && CanonicalIn(v, t) :: Decode(t, Encode(t, v, JNull).json) == Some(v))
       <==> Faithful(t)
  {
    if Faithful(t) {
      forall v | HasType(v, t) && CanonicalIn(v, t)
        ensures Decode(t, Encode(t, v, JNull).json) == Some(v)
      {
        RoundTrips(t, v);
      }
    } else {
      var v := Counterexample(t);
      assert HasType(v, t) && CanonicalIn(v, t);
    }
  }

  // ------------------------------------------------- what decoding can produce

  lemma {:induction false} DecodeAnyIsCanonical(j: Json)
    ensures Canonical(DecodeAny(j))
    decreases j, 1
  {
    match j
    case JArray(es) => DecodeAnysAreCanonical(es);
    case JObject(m) =>
      forall k | k in m
        ensures Canonical(DecodeAny(m[k]))
      {
        DecodeAnyIsCanonical(m[k]);
      }
      CanonicalObject(map k | k in m :: DecodeAny(m[k]));
    case _ =>
  }

  lemma {:induction false} DecodeAnysAreCanonical(es: seq<Json>)
    ensures var vs := DecodeAnys(es);
            && (forall i | 0 <= i < |vs| :: HasType(vs[i], TAny) && Proper(vs[i], TAny))
            && CanonAll(TAny, vs) == vs
    decreases es, 0
  {
    if es != [] {
      DecodeAnyIsCanonical(es[0]);
      DecodeAnysAreCanonical(es[1..]);
    }
  }

  /** Well typed, with every dynamically typed part canonical. */
  ghost predicate GoodValue(v: Value, t: Type) { HasType(v, t) && CanonicalIn(v, t) }

  ghost predicate AllGoodValues(vs: seq<Value>, fs: seq<Field>) {
    |vs| == |fs| && forall i | 0 <= i < |vs| :: GoodValue(vs[i], fs[i].ty)
  }

  lemma DecodedObject(j: Json)
    ensures GoodValue(Decode(TObject, j).value, TObject)
  {
    var items := Items(j);
    var m := map k | k in items :: DecodeAny(items[k]);
    forall k | k in m
      ensures Canonical(m[k])
    {
      DecodeAnyIsCanonical(items[k]);
    }
    assert Decode(TObject, j) == Some(VObject(m));
  }

  lemma StructIsGood(b: seq<Field>, o: seq<Field>, v: Value)
    requires v.VStruct? && AllGoodValues(v.base, b) && AllGoodValues(v.own, o)
    ensures GoodValue(v, TStruct(b, o))
  {
    assert HaveTypes(v.base, b) && HaveTypes(v.own, o);
  }

  /** Whatever is decoded is well typed and canonical. */
  lemma {:induction false} DecodedIsGood(t: Type, j: Json)
    ensures Decode(t, j).Some? ==> GoodValue(Decode(t, j).value, t)
    decreases t, 1
  {
    match t
    case TObject => DecodedObject(j);
    case TAny => DecodeAnyIsCanonical(j);
    case TArray(e) => if j.JArray? { DecodedAllAreGood(e, j.es); }
    case TOptional(e) => DecodedIsGood(e, j);
    case TStruct(b, o) =>
      DecodedFieldsAreGood(b, j);
      DecodedFieldsAreGood(o, j);
      if Decode(t, j).Some? {
        StructIsGood(b, o, Decode(t, j).value);
      }
    case _ =>
  }

  ghost predicate EachGood(vs: seq<Value>, e: Type) {
    forall i | 0 <= i < |vs| :: GoodValue(vs[i], e)
  }

  lemma OneMoreGood(v: Value, vs: seq<Value>, e: Type)
    requires GoodValue(v, e) && EachGood(vs, e)
    ensures EachGood([v] + vs, e)
  {
    hide GoodValue;
  }

  lemma {:induction false} DecodedAllAreGood(e: Type, es: seq<Json>)
    ensures var r := DecodeAll(e, es); r.Some? ==> EachGood(r.value, e)
    decreases e, 2, es
  {
    hide GoodValue, EachGood;
    if es == [] {
      assert EachGood([], e) by { NoneIsGood(e); }
    } else {
      DecodedIsGood(e, es[0]);
      DecodedAllAreGood(e, es[1..]);
      var d, rest := Decode(e, es[0]), DecodeAll(e, es[1..]);
      if d.Some? && rest.Some? {
        OneMoreGood(d.value, rest.value, e);
      }
    }
  }

  lemma NoneIsGood(e: Type)
    ensures EachGood([], e)
  {}

  lemma {:induction false} MissingIsGood(t: Type)
    ensures DecodeMissing(t).Some? ==> GoodValue(DecodeMissing(t).value, t)
  {
    match t
    case TOptional(e) => MissingIsGood(e);
    case TStruct(b, o) => MissingStruct(b, o);
    case _ =>
  }

  lemma {:induction false} DecodedFieldsAreGood(fs: seq<Field>, j: Json)
    ensures DecodeFields(fs, j).Some? ==> AllGoodValues(DecodeFields(fs, j).value, fs)
    decreases fs, 0
  {
    hide GoodValue;
    if fs != [] {
      assert fs[0] in fs;
      DecodedFieldIsGood(fs[0], j);
      DecodedFieldsAreGood(fs[1..], j);
      var rest := DecodeFields(fs[1..], j);
      if DecodeFields(fs, j).Some? {
        var vs := DecodeFields(fs, j).value;
        assert vs == [vs[0]] + rest.value;
        forall i | 0 <= i < |vs|
          ensures GoodValue(vs[i], fs[i].ty)
        {
          if i > 0 {
            assert vs[i] == rest.value[i - 1] && fs[i] == fs[1..][i - 1];
          }
        }
      }
    }
  }

  lemma DecodedFieldIsGood(f: Field, j: Json)
    ensures DecodeField(f, j).Some? ==> GoodValue(DecodeField(f, j).value, f.ty)
    decreases f, 3
  {
    MissingIsGood(f.ty);
    if j.JObject? && f.name in j.m {
      DecodedIsGood(f.ty, j.m[f.name]);
    }
  }

  /** For a faithful type, exactly the values whose dynamically typed parts are canonical come
      back. */
  lemma ValueRoundTripIff(t: Type, v: Value)
    requires WellNamed(t) && Faithful(t) && HasType(v, t)
    ensures Decode(t, Encode(t, v, JNull).json) == Some(v) <==> CanonicalIn(v, t)
  {
    hide Decode, Encode;
    DecodedIsGood(t, Encode(t, v, JNull).json);
    if CanonicalIn(v, t) {
      RoundTrips(t, v);
    }
  }

  /** Why names must be distinct: two fields of one name and type read the same member, so whatever
      is decoded, from any JSON, they are equal. Every value in which they differ is lost. */
  lemma SharedNameSharesValue(b: seq<Field>, o: seq<Field>, j: Json, v: Value, i: nat, k: nat)
    requires Decode(TStruct(b, o), j) == Some(v) && v.VStruct?
    requires i < |b + o| && k < |b + o| && (b + o)[i] == (b + o)[k]
    ensures |v.base + v.own| == |b + o| && (v.base + v.own)[i] == (v.base + v.own)[k]
  {
    hide DecodeField;
    assert DecodeFields(b, j) == Some(v.base) && DecodeFields(o, j) == Some(v.own);
    DecodeFieldsIff(b, j, v.base);
    DecodeFieldsIff(o, j, v.own);
    FieldAt(b, o, j, v, i);
    FieldAt(b, o, j, v, k);
  }

  lemma FieldAt(b: seq<Field>, o: seq<Field>, j: Json, v: Value, i: nat)
    requires v.VStruct? && |v.base| == |b| && |v.own| == |o| && i < |b + o|
    requires forall n | 0 <= n < |b| :: DecodeField(b[n], j) == Some(v.base[n])
    requires forall n | 0 <= n < |o| :: DecodeField(o[n], j) == Some(v.own[n])
    ensures DecodeField((b + o)[i], j) == Some((v.base + v.own)[i])
  {
    hide DecodeField;
    assert i < |b| ==> (b + o)[i] == b[i] && (v.base + v.own)[i] == v.base[i];
    assert i >= |b| ==> (b + o)[i] == o[i - |b|] && (v.base + v.own)[i] == v.own[i - |b|];
  }

  /** So a struct with two such fields does not round-trip as soon as their type has two values. */
  lemma SharedNameLosesValues(b: seq<Field>, o: seq<Field>, v: Value, i: nat, k: nat)
    requires HasType(v, TStruct(b, o)) && i < |b + o| && k < |b + o| && (b + o)[i] == (b + o)[k]
    requires |v.base + v.own| == |b + o| && (v.base + v.own)[i] != (v.base + v.own)[k]
    ensures Decode(TStruct(b, o), Encode(TStruct(b, o), v, JNull).json) != Some(v)
  {
    hide Decode, Encode;
    var j := Encode(TStruct(b, o), v, JNull).json;
    if Decode(TStruct(b, o), j) == Some(v) {
      SharedNameSharesValue(b, o, j, v, i, k);
    }
  }

  /** Distinct names are needed: two fields of one name share a member, and the later one wins. */
  lemma SharedNameLosesAField()
    ensures var t := TStruct([Field("x", TInt)], [Field("x", TInt)]); var v := VStruct([VInt(1)], [VInt(2)]);
            HasType(v, t) && Decode(t, Encode(t, v, JNull).json) == Some(VStruct([VInt(2)], [VInt(2)]))
  {
    var f := Field("x", TInt);
    var obj := EncodeFields([f], [VInt(1)], map[]);
    assert obj == map["x" := JInt(1)];
    assert EncodeFields([f], [VInt(2)], obj) == map["x" := JInt(2)];
    var j := JObject(map["x" := JInt(2)]);
    assert DecodeField(f, j) == Some(VInt(2));
    DecodeFieldsIff([f], j, [VInt(2)]);
  }
}
