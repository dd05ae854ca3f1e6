/** The serializer and deserializer as the code runs them: a serializer object that writes to its
    JSON slot and a `removed` flag, and the loops over elements, members and fields. */
module Serializers {
  import opened Options
  import opened Serialization
  import opened RoundTrip

  /** The object after the members named in `done` have been serialized into it. */
  function Merged(obj: map<string, Json>, m: map<string, Any>, done: set<string>): map<string, Json>
    requires done <= m.Keys && forall k | k in m :: WellTyped(m[k])
  {
    obj + map k | k in done :: EncodeAny(m[k], Slot(obj, k)).json
  }

  lemma MergedNext(obj: map<string, Json>, m: map<string, Any>, done: set<string>, k: string)
    requires done <= m.Keys && forall k | k in m :: WellTyped(m[k])
    requires k in m && k !in done
    ensures Slot(Merged(obj, m, done), k) == Slot(obj, k)
    ensures Merged(obj, m, done + {k}) == Merged(obj, m, done)[k := EncodeAny(m[k], Slot(obj, k)).json]
  {}

  lemma MergedEnds(obj: map<string, Json>, m: map<string, Any>, slot: Json)
    requires forall k | k in m :: WellTyped(m[k])
    requires obj == if slot.JObject? then slot.m else map[]
    ensures Merged(obj, m, {}) == obj
    ensures HasType(VObject(m), TObject)
    ensures Encode(TObject, VObject(m), slot).json == JObject(Merged(obj, m, m.Keys))
  {
    assert (map k | k in m :: EncodeAny(m[k], Slot(obj, k)).json) == map k | k in m.Keys :: EncodeAny(m[k], Slot(obj, k)).json;
  }

  lemma EncodeAllNext(e: Type, vs: seq<Value>, i: nat)
    requires i < |vs| && forall k | 0 <= k < |vs| :: HasType(vs[k], e)
    ensures EncodeAll(e, vs[i..]) == [Encode(e, vs[i], JNull).json] + EncodeAll(e, vs[i + 1..])
  {
    assert vs[i..][1..] == vs[i + 1..];
  }

  lemma NothingToEncode(e: Type)
    ensures EncodeAll(e, []) == []
  {}

  class Serializer {
    var json: Json
    var removed: bool

    constructor (slot: Json)
      ensures json == slot && !removed
    {
      json, removed := slot, false;
    }

    /** `type->serialize(this, value)`. */
    method Serialize(t: Type, v: Value)
      requires HasType(v, t)
      modifies this
      ensures json == Encode(t, v, old(json)).json
      ensures removed == (old(removed) || Encode(t, v, old(json)).removed)
      decreases v, 1
    {
      match t
      case TBool => json := JBool(v.b);
      case TInt => json := JInt(v.i);
      case TNum => json := JFloat(v.r);
      case TStr => json := JString(v.s);
      case TObject => SerializeObject(v);
      case TAny => if v.a.AOf? { Serialize(v.a.ty, v.a.v); }
      case TArray(e) => SerializeArray(e, v.vs);
      case TOptional(e) => if v.VNone? { removed := true; } else { Serialize(e, v.v); }
      case TStruct(b, o) =>
        json := JObject(map[]);
        SerializeFields(b, v.base);
        SerializeFields(o, v.own);
    }

    method SerializeObject(v: Value)
      requires HasType(v, TObject)
      modifies this
      ensures json == Encode(TObject, v, old(json)).json && removed == old(removed)
      decreases v, 0
    {
      hide Merged, Encode, EncodeAny, WellTyped, Slot;
      var m := v.m;
      if !json.JObject? {
        json := JObject(map[]);
      }
      ghost var obj := json.m;
      MergedEnds(obj, m, old(json));
      var todo := m.Keys;
      assert m.Keys - todo == {};
      while todo != {}
        invariant todo <= m.Keys && removed == old(removed)
        invariant json == JObject(Merged(obj, m, m.Keys - todo))
        decreases todo
      {
        var k :| k in todo;
        MergedNext(obj, m, m.Keys - todo, k);
        var e := SerializeMember(m[k], Slot(json.m, k));
        json := JObject(json.m[k := e]);
        assert m.Keys - (todo - {k}) == m.Keys - todo + {k};
        todo := todo - {k};
      }
      assert m.Keys - todo == m.Keys;
    }

    /** A member gets a serializer of its own. */
    static method SerializeMember(a: Any, slot: Json) returns (j: Json)
      requires WellTyped(a)
      ensures j == EncodeAny(a, slot).json
      decreases a, 2
    {
      var s := new Serializer(slot);
      if a.AOf? {
        s.Serialize(a.ty, a.v);
      }
      j := s.json;
    }

    method SerializeArray(e: Type, vs: seq<Value>)
      requires forall i | 0 <= i < |vs| :: HasType(vs[i], e)
      modifies this
      ensures json == JArray(EncodeAll(e, vs)) && removed == old(removed)
      decreases vs, 0
    {
      hide Encode, EncodeAll;
      json := JArray([]);
      assert vs[0..] == vs;
      for i := 0 to |vs|
        invariant json.JArray? && json.es + EncodeAll(e, vs[i..]) == EncodeAll(e, vs)
        invariant removed == old(removed)
      {
        EncodeAllNext(e, vs, i);
        var s := new Serializer(JNull);
        s.Serialize(e, vs[i]);
        json := JArray(json.es + [s.json]);
      }
      NothingToEncode(e);
    }

    /** `serializeFields`, with `FieldSerializer::field` inlined. */
    method SerializeFields(fs: seq<Field>, vs: seq<Value>)
      requires HaveTypes(vs, fs) && json.JObject?
      modifies this
      ensures json == JObject(EncodeFields(fs, vs, old(json.m))) && removed == old(removed)
      decreases vs, 0
    {
      for i := 0 to |fs|
        invariant json.JObject? && removed == old(removed)
        invariant EncodeFields(fs[i..], vs[i..], json.m) == EncodeFields(fs, vs, old(json.m))
      {
        var s := new Serializer(Slot(json.m, fs[i].name));
        s.Serialize(fs[i].ty, vs[i]);
        assert fs[i..][1..] == fs[i + 1..] && vs[i..][1..] == vs[i + 1..];
        if s.removed {
          json := JObject(json.m - {fs[i].name});
        } else {
          json := JObject(json.m[fs[i].name := s.json]);
        }
      }
    }
  }

  function Prepend(vs: seq<Value>, r: Option<seq<Value>>): (out: Option<seq<Value>>)
    ensures vs == [] ==> out == r
    ensures r == Some([]) ==> out == Some(vs)
  {
    if r.None? then None else assert [] + r.value == r.value && vs + [] == vs; Some(vs + r.value)
  }

  lemma PrependNext(vs: seq<Value>, v: Value, r: Option<seq<Value>>)
    ensures Prepend(vs, Prepend([v], r)) == Prepend(vs + [v], r)
  {
    if r.Some? {
      assert vs + ([v] + r.value) == vs + [v] + r.value;
    }
  }

  /** Array elements are decoded in order until one fails. */
  method DeserializeArray(e: Type, j: Json) returns (r: Option<Value>)
    ensures r == Decode(TArray(e), j)
  {
    if !j.JArray? {
      return None;
    }
    var vs := [];
    assert j.es[0..] == j.es;
    for i := 0 to |j.es|
      invariant DecodeAll(e, j.es) == Prepend(vs, DecodeAll(e, j.es[i..]))
    {
      assert j.es[i..][1..] == j.es[i + 1..];
      var d := Decode(e, j.es[i]);
      if d.None? {
        return None;
      }
      PrependNext(vs, d.value, DecodeAll(e, j.es[i + 1..]));
      vs := vs + [d.value];
    }
    return Some(VArray(vs));
  }

  /** `deserializeFields`: fields are decoded in order until one fails. */
  method DeserializeFields(fs: seq<Field>, j: Json) returns (r: Option<seq<Value>>)
    ensures r == DecodeFields(fs, j)
  {
    var vs := [];
    assert fs[0..] == fs;
    for i := 0 to |fs|
      invariant DecodeFields(fs, j) == Prepend(vs, DecodeFields(fs[i..], j))
    {
      assert fs[i..][1..] == fs[i + 1..];
      var d := DecodeField(fs[i], j);
      if d.None? {
        return None;
      }
      PrependNext(vs, d.value, DecodeFields(fs[i + 1..], j));
      vs := vs + [d.value];
    }
    return Some(vs);
  }

  /** Every item of the JSON value becomes a member. */
  method DeserializeObject(j: Json) returns (r: Option<Value>)
    ensures r == Decode(TObject, j)
  {
    var items := Items(j);
    var todo, out := items.Keys, map[];
    ghost var done := {};
    while todo != {}
      invariant done + todo == items.Keys && done !! todo
      invariant out == map k | k in done :: DecodeAny(items[k])
      decreases todo
    {
      var k :| k in todo;
      out := out[k := DecodeAny(items[k])];
      todo, done := todo - {k}, done + {k};
    }
    assert done == items.Keys;
    assert out == map k | k in Items(j) :: DecodeAny(Items(j)[k]);
    return Some(VObject(out));
  }

  // --------------------------------------------------- serializing twice into one slot

  /** Values whose encoding does not depend on what the slot held. */
  predicate Overwrites(t: Type, v: Value)
    requires HasType(v, t)
    decreases v
  {
    match t
    case TObject => false
    case TAny => assert WellTyped(v.a); v.a.AOf? && Overwrites(v.a.ty, v.a.v)
    case TOptional(e) => v.VSome? && Overwrites(e, v.v)
    case _ => true
  }

  lemma FreshKey(m: map<string, Any>) returns (name: string)
    ensures name !in m
  {
    var n := |m|;
    if i :| 0 <= i <= n && Xs(i) !in m {
      name := Xs(i);
    } else {
      XsAreMany(n);
      assert XsUpTo(n) <= m.Keys;
      SubsetSize(XsUpTo(n), m.Keys);
      assert false;
    }
  }

  function Xs(n: nat): (s: string)
    ensures |s| == n
  {
    if n == 0 then "" else "x" + Xs(n - 1)
  }

  function XsUpTo(n: nat): (ks: set<string>)
    ensures forall k | k in ks :: |k| <= n && k == Xs(|k|)
  {
    if n == 0 then {""} else XsUpTo(n - 1) + {Xs(n)}
  }

  lemma XsAreMany(n: nat)
    ensures |XsUpTo(n)| == n + 1
  {}

  lemma SubsetSize(a: set<string>, b: set<string>)
    requires a <= b
    ensures |a| <= |b|
  {
    assert a + (b - a) == b;
  }

  /** A slot whose contents show through. */
  lemma {:induction false} SlotShowsThrough(t: Type, v: Value) returns (slot: Json)
    requires HasType(v, t) && !Overwrites(t, v)
    ensures Encode(t, v, slot).json != Encode(t, v, JNull).json
    decreases v
  {
    match t
    case TObject =>
      var name := FreshKey(v.m);
      slot := JObject(map[name := JNull]);
      assert name in Encode(t, v, slot).json.m && name !in Encode(t, v, JNull).json.m;
    case TAny => if v.a.ANull? { slot := JBool(true); } else { slot := SlotShowsThrough(v.a.ty, v.a.v); }
    case TOptional(e) => if v.VNone? { slot := JBool(true); } else { slot := SlotShowsThrough(e, v.v); }
  }

  lemma {:induction false} SlotIgnored(t: Type, v: Value, slot: Json)
    requires HasType(v, t) && Overwrites(t, v)
    ensures Encode(t, v, slot).json == Encode(t, v, JNull).json
    decreases v
  {
    match t
    case TAny => SlotIgnored(v.a.ty, v.a.v, slot);
    case TOptional(e) => SlotIgnored(e, v.v, slot);
    case _ =>
  }

  /** "The last type and value is stored" when a serializer is used twice, where nobody reads the
      removal flag (at top level, in an array, as a member of a map): exactly for values that are
      not an object, a null or an absent optional at the top. */
  lemma LastOneWinsIff(t: Type, v: Value)
    requires HasType(v, t)
    ensures (forall slot :: Encode(t, v, slot).json == Encode(t, v, JNull).json) <==> Overwrites(t, v)
  {
    if Overwrites(t, v) {
      forall slot { SlotIgnored(t, v, slot); }
    } else {
      var slot := SlotShowsThrough(t, v);
    }
  }

  // ------------------------------------------- serializing twice as a struct field

  /** The object after the callback of one `field` call has serialized twice. The removal flag is
      never lowered again. */
  function AfterTwo(obj: map<string, Json>, name: string, t1: Type, v1: Value, t2: Type, v2: Value): map<string, Json>
    requires HasType(v1, t1) && HasType(v2, t2)
  {
    var first := Encode(t1, v1, Slot(obj, name));
    var second := Encode(t2, v2, first.json);
    if first.removed || second.removed then obj - {name} else obj[name := second.json]
  }

  method SerializeFieldTwice(obj: map<string, Json>, name: string, t1: Type, v1: Value, t2: Type, v2: Value)
    returns (r: map<string, Json>)
    requires HasType(v1, t1) && HasType(v2, t2)
    ensures r == AfterTwo(obj, name, t1, v1, t2, v2)
  {
    hide Encode;
    var s := new Serializer(Slot(obj, name));
    s.Serialize(t1, v1);
    s.Serialize(t2, v2);
    r := if s.removed then obj - {name} else obj[name := s.json];
  }

  /** The second call alone would have left the same object. */
  ghost predicate LastWins(obj: map<string, Json>, name: string, t1: Type, v1: Value, t2: Type, v2: Value)
    requires HasType(v1, t1) && HasType(v2, t2)
  {
    AfterTwo(obj, name, t1, v1, t2, v2) == EncodeField(Field(name, t2), v2, obj)
  }

  lemma FreshName(m: map<string, Any>, obj: map<string, Json>) returns (name: string)
    ensures name !in m && name !in obj
  {
    var both := m + map k | k in obj :: ANull;
    name := FreshKey(both);
  }

  /** A first value that shows through the second. */
  lemma {:induction false} FirstShowsThrough(t2: Type, v2: Value, slot: Json) returns (t1: Type, v1: Value)
    requires HasType(v2, t2) && !Overwrites(t2, v2) && !Removed(t2, v2)
    ensures HasType(v1, t1) && !Removed(t1, v1)
    ensures Encode(t2, v2, Encode(t1, v1, slot).json).json != Encode(t2, v2, slot).json
    decreases v2
  {
    match t2
    case TObject =>
      var obj := if slot.JObject? then slot.m else map[];
      var name := FreshName(v2.m, obj);
      t1, v1 := TObject, VObject(map[name := ANull]);
      assert name in Encode(t1, v1, slot).json.m;
      assert name in Encode(t2, v2, Encode(t1, v1, slot).json).json.m && name !in Encode(t2, v2, slot).json.m;
    case TAny =>
      if v2.a.ANull? {
        t1, v1 := TBool, VBool(slot != JBool(true));
      } else {
        t1, v1 := FirstShowsThrough(v2.a.ty, v2.a.v, slot);
      }
    case TOptional(e) => t1, v1 := FirstShowsThrough(e, v2.v, slot);
  }

  /** After a first value that is there, the last one wins whatever that was, exactly if it replaces
      the slot or is absent itself. */
  lemma LastFieldWinsIff(obj: map<string, Json>, name: string, t2: Type, v2: Value)
    requires HasType(v2, t2)
    ensures (forall t1, v1 | HasType(v1, t1) && !Removed(t1, v1) :: LastWins(obj, name, t1, v1, t2, v2))
       <==> Overwrites(t2, v2) || Removed(t2, v2)
  {
    hide Encode, Overwrites;
    var slot := Slot(obj, name);
    if Overwrites(t2, v2) || Removed(t2, v2) {
      forall t1, v1 | HasType(v1, t1) && !Removed(t1, v1)
        ensures LastWins(obj, name, t1, v1, t2, v2)
      {
        RemovedIs(t1, v1, slot);
        RemovedIs(t2, v2, slot);
        RemovedIs(t2, v2, Encode(t1, v1, slot).json);
        if Overwrites(t2, v2) {
          SlotIgnored(t2, v2, slot);
          SlotIgnored(t2, v2, Encode(t1, v1, slot).json);
        }
      }
    } else {
      var t1, v1 := FirstShowsThrough(t2, v2, slot);
      RemovedIs(t1, v1, slot);
      RemovedIs(t2, v2, slot);
      RemovedIs(t2, v2, Encode(t1, v1, slot).json);
      assert AfterTwo(obj, name, t1, v1, t2, v2)[name] != EncodeField(Field(name, t2), v2, obj)[name];
      assert !LastWins(obj, name, t1, v1, t2, v2);
    }
  }

  /** After an absent optional, the member is erased whatever comes next, so the last one wins only
      if it is absent too. */
  lemma AfterAbsentIff(obj: map<string, Json>, name: string, t1: Type, v1: Value, t2: Type, v2: Value)
    requires HasType(v1, t1) && HasType(v2, t2) && Removed(t1, v1)
    ensures AfterTwo(obj, name, t1, v1, t2, v2) == obj - {name}
    ensures LastWins(obj, name, t1, v1, t2, v2) <==> Removed(t2, v2)
  {
    hide Encode;
    var slot := Slot(obj, name);
    RemovedIs(t1, v1, slot);
    RemovedIs(t2, v2, slot);
    assert !Removed(t2, v2) ==> name in EncodeField(Field(name, t2), v2, obj);
  }
}
