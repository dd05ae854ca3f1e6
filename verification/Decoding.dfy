/** What JSON each type accepts and what it reads there, as a relation between JSON and value that
    does not mention the decoder, and the wire format the encoder writes. */
module Decoding {
  import opened Options
  import opened Serialization
  import opened RoundTrip

  // -------------------------------------------------------------- dynamically typed

  /** a is what the JSON value says. */
  ghost predicate ReadsAny(j: Json, a: Any)
    decreases j
  {
    match j
    case JNull => a == ANull
    case JBool(b) => a == AOf(TBool, VBool(b))
    case JInt(i) => a.AOf? && a.ty == TInt && a.v.VInt? && SameInt64(i, a.v.i)
    case JFloat(r) => a == AOf(TNum, VNum(r))
    case JString(s) => a == AOf(TStr, VStr(s))
    case JArray(es) =>
      && a.AOf? && a.ty == TArray(TAny) && a.v.VArray? && |a.v.vs| == |es|
      && forall i | 0 <= i < |es| :: a.v.vs[i].VAny? && ReadsAny(es[i], a.v.vs[i].a)
    case JObject(m) =>
      && a.AOf? && a.ty == TObject && a.v.VObject? && a.v.m.Keys == m.Keys
      && forall k | k in m :: ReadsAny(m[k], a.v.m[k])
  }

  /** r is the 64-bit integer congruent to i. */
  predicate SameInt64(i: int, r: int) {
    IsInt64(r) && i % 0x1_0000_0000_0000_0000 == r % 0x1_0000_0000_0000_0000
  }

  lemma ToInt64Is(i: int, r: int)
    ensures ToInt64(i) == r <==> SameInt64(i, r)
  {}

  lemma {:induction false} DecodeAnyIff(j: Json, a: Any)
    ensures DecodeAny(j) == a <==> ReadsAny(j, a)
    decreases j, 1
  {
    match j
    case JInt(i) =>
      if a.AOf? && a.v.VInt? {
        ToInt64Is(i, a.v.i);
      }
      ToInt64Is(i, ToInt64(i));
    case JArray(es) =>
      if a.AOf? && a.v.VArray? {
        DecodeAnysIff(es, a.v.vs);
      }
    case JObject(m) =>
      var d := map k | k in m :: DecodeAny(m[k]);
      forall k | k in m
        ensures ReadsAny(m[k], d[k])
      {
        DecodeAnyIff(m[k], d[k]);
      }
      if ReadsAny(j, a) {
        forall k | k in m
          ensures a.v.m[k] == d[k]
        {
          DecodeAnyIff(m[k], a.v.m[k]);
        }
        assert a.v.m == d;
      }
    case _ =>
  }

  lemma {:induction false} DecodeAnysIff(es: seq<Json>, vs: seq<Value>)
    ensures DecodeAnys(es) == vs
       <==> |vs| == |es| && forall i | 0 <= i < |es| :: vs[i].VAny? && ReadsAny(es[i], vs[i].a)
    decreases es, 0
  {
    if es != [] && vs != [] {
      DecodeAnysIff(es[1..], vs[1..]);
      if vs[0].VAny? {
        DecodeAnyIff(es[0], vs[0].a);
      }
      assert vs == [vs[0]] + vs[1..];
      assert forall i | 0 < i < |es| :: es[i] == es[1..][i - 1];
      assert forall i | 0 < i < |vs| :: vs[i] == vs[1..][i - 1];
      assert forall i | 0 <= i < |es| - 1 :: es[1..][i] == es[i + 1];
      assert forall i | 0 <= i < |vs| - 1 :: vs[1..][i] == vs[i + 1];
    }
  }

  // --------------------------------------------------------------- items of a JSON value

  /** The items of a JSON value: the members of an object, the elements of an array under their
      decimal indices, a scalar itself under the empty name, nothing for null. */
  ghost predicate HasItem(j: Json, name: string, x: Json) {
    match j
    case JNull => false
    case JObject(m) => name in m && m[name] == x
    case JArray(es) => exists i: nat :: IsIndex(es, i, name) && es[i] == x
    case _ => name == "" && x == j
  }

  predicate IsIndex(es: seq<Json>, i: nat, name: string) { i < |es| && name == IndexName(i) }

  lemma {:induction false} IndexNameInjective(i: nat, k: nat)
    ensures IndexName(i) == IndexName(k) ==> i == k
    ensures |IndexName(i)| >= 1 && (|IndexName(i)| == 1 <==> i < 10)
    decreases i
  {
    var s, t := IndexName(i), IndexName(k);
    IndexNameLength(i);
    IndexNameLength(k);
    if s == t {
      assert s[|s| - 1] == "0123456789"[i % 10] && t[|t| - 1] == "0123456789"[k % 10];
      if i >= 10 {
        assert s[..|s| - 1] == IndexName(i / 10) && t[..|t| - 1] == IndexName(k / 10);
        IndexNameInjective(i / 10, k / 10);
      }
    }
  }

  lemma {:induction false} IndexNameLength(i: nat)
    ensures |IndexName(i)| >= 1 && (|IndexName(i)| == 1 <==> i < 10)
    ensures IndexName(i)[|IndexName(i)| - 1] == "0123456789"[i % 10]
  {
    if i >= 10 {
      IndexNameLength(i / 10);
    }
  }

  /** The number a decimal name stands for. */
  function ReadName(s: string): int {
    if s == [] then 0 else ReadName(s[..|s| - 1]) * 10 + (s[|s| - 1] as int - '0' as int)
  }

  /** Index names are decimal, without leading zeros. */
  lemma {:induction false} IndexNameIs(i: nat)
    ensures ReadName(IndexName(i)) == i && |IndexName(i)| > 0 && (i > 0 ==> IndexName(i)[0] != '0')
  {
    if i >= 10 {
      IndexNameIs(i / 10);
      assert IndexName(i)[..|IndexName(i)| - 1] == IndexName(i / 10);
    } else {
      assert IndexName(i)[..0] == [];
    }
  }

  lemma {:induction false} ItemAt(es: seq<Json>, i: nat)
    requires i < |es|
    ensures IndexName(i) in ArrayItems(es) && ArrayItems(es)[IndexName(i)] == es[i]
    decreases |es|
  {
    hide IndexName;
    var n: nat := |es| - 1;
    if i < n {
      IndexNameInjective(i, n);
      ItemAt(es[..n], i);
    }
  }

  lemma {:induction false} NameIsIndex(es: seq<Json>, name: string) returns (i: nat)
    requires name in ArrayItems(es)
    ensures IsIndex(es, i, name)
    decreases |es|
  {
    hide IndexName;
    var n: nat := |es| - 1;
    if name == IndexName(n) {
      i := n;
    } else {
      i := NameIsIndex(es[..n], name);
    }
  }

  lemma ItemsAre(j: Json, name: string, x: Json)
    ensures name in Items(j) && Items(j)[name] == x <==> HasItem(j, name, x)
  {
    if j.JArray? {
      hide IndexName, ArrayItems;
      if name in ArrayItems(j.es) {
        var i := NameIsIndex(j.es, name);
        ItemAt(j.es, i);
      }
      if HasItem(j, name, x) {
        var i: nat :| IsIndex(j.es, i, name) && j.es[i] == x;
        ItemAt(j.es, i);
      }
    }
  }

  // -------------------------------------------------------------------- typed

  /** Which JSON a type accepts. */
  predicate Accepts(t: Type, j: Json)
    decreases t, 1
  {
    match t
    case TBool => j.JBool?
    case TInt => j.JInt?
    case TNum => j.JInt? || j.JFloat?
    case TStr => j.JString?
    case TObject | TAny | TOptional(_) => true
    case TArray(e) => j.JArray? && forall i | 0 <= i < |j.es| :: Accepts(e, j.es[i])
    case TStruct(b, o) => AcceptsFields(b, j) && AcceptsFields(o, j)
  }

  predicate AcceptsFields(fs: seq<Field>, j: Json)
    decreases fs, 2
  {
    forall i | 0 <= i < |fs| :: AcceptsField(fs[i], j)
  }

  /** A field is looked for in objects; an array has no members, and nothing else has fields. */
  predicate AcceptsField(f: Field, j: Json)
    decreases f, 0
  {
    if j.JObject? && f.name in j.m then Accepts(f.ty, j.m[f.name])
    else (j.JObject? || j.JArray?) && AcceptsMissing(f.ty)
  }

  /** v is what a value of type t reads in j. */
  ghost predicate Reads(t: Type, j: Json, v: Value)
    decreases t, 1
  {
    match t
    case TBool => j.JBool? && v == VBool(j.b)
    case TInt => j.JInt? && v.VInt? && SameInt64(j.i, v.i)
    case TNum => (j.JInt? && v == VNum(j.i as real)) || (j.JFloat? && v == VNum(j.r))
    case TStr => j.JString? && v == VStr(j.s)
    case TObject => v.VObject? && ReadsItems(j, v.m)
    case TAny => v.VAny? && ReadsAny(j, v.a)
    case TArray(e) =>
      && j.JArray? && v.VArray? && |v.vs| == |j.es|
      && forall i | 0 <= i < |j.es| :: Reads(e, j.es[i], v.vs[i])
    case TOptional(e) => if Accepts(e, j) then v.VSome? && Reads(e, j, v.v) else v == VNone
    case TStruct(b, o) =>
      v.VStruct? && ReadsFields(b, j, v.base) && ReadsFields(o, j, v.own)
  }

  ghost predicate ReadsFields(fs: seq<Field>, j: Json, vs: seq<Value>)
    decreases fs, 2
  {
    |vs| == |fs| && forall i | 0 <= i < |fs| :: ReadsField(fs[i], j, vs[i])
  }

  ghost predicate ReadsItems(j: Json, m: map<string, Any>) {
    && (forall k, x | HasItem(j, k, x) :: k in m && ReadsAny(x, m[k]))
    && (forall k | k in m :: exists x :: HasItem(j, k, x))
  }

  ghost predicate ReadsField(f: Field, j: Json, v: Value)
    decreases f, 0
  {
    if j.JObject? && f.name in j.m then Reads(f.ty, j.m[f.name], v)
    else (j.JObject? || j.JArray?) && ReadsNothing(f.ty, v)
  }

  /** What a field without a member is: an optional is absent, unless its element can itself be
      had from nothing; a struct without fields is there. */
  ghost predicate ReadsNothing(t: Type, v: Value) {
    match t
    case TOptional(e) => if AcceptsMissing(e) then v.VSome? && ReadsNothing(e, v.v) else v == VNone
    case TStruct(b, o) => b == [] && o == [] && v == VStruct([], [])
    case _ => false
  }

  lemma {:induction false} MissingIff(t: Type, v: Value)
    ensures DecodeMissing(t) == Some(v) <==> ReadsNothing(t, v)
    ensures DecodeMissing(t).Some? <==> AcceptsMissing(t)
  {
    AbsentDecodes(t);
    match t
    case TOptional(e) =>
      AbsentDecodes(e);
      if v.VSome? {
        MissingIff(e, v.v);
      }
    case TStruct(b, o) => MissingStruct(b, o);
    case _ =>
  }

  lemma ObjectIff(j: Json, v: Value)
    ensures Decode(TObject, j) == Some(v) <==> Reads(TObject, j, v)
  {
    var items := Items(j);
    var d := map k | k in items :: DecodeAny(items[k]);
    assert Decode(TObject, j) == Some(VObject(d));
    forall k, x
      ensures k in items && items[k] == x <==> HasItem(j, k, x)
    {
      ItemsAre(j, k, x);
    }
    forall x, a
      ensures DecodeAny(x) == a <==> ReadsAny(x, a)
    {
      DecodeAnyIff(x, a);
    }
    if v.VObject? && ReadsItems(j, v.m) {
      forall k
        ensures k in v.m <==> k in d
        ensures k in d ==> v.m[k] == d[k]
      {
        if k in items {
          assert HasItem(j, k, items[k]);
        }
      }
      assert v.m == d;
    }
    forall k | k in d
      ensures exists x :: HasItem(j, k, x)
    {
      assert HasItem(j, k, items[k]);
    }
  }

  /** Decoding, completely: a type accepts exactly this JSON, and reads exactly this value in it. */
  lemma {:induction false} DecodeIff(t: Type, j: Json, v: Value)
    ensures Decode(t, j) == Some(v) <==> Reads(t, j, v)
    ensures Decode(t, j).Some? <==> Accepts(t, j)
    decreases t, 1
  {
    hide ReadsFields, AcceptsFields, DecodeFields, DecodeAll, ReadsAny, DecodeAny, ReadsItems, Items, SameInt64;
    match t
    case TInt => if j.JInt? && v.VInt? { ToInt64Is(j.i, v.i); }
    case TObject => ObjectIff(j, v);
    case TAny => if v.VAny? { DecodeAnyIff(j, v.a); }
    case TArray(e) => ArrayIff(e, j, v);
    case TOptional(e) => DecodeIff(e, j, if v.VSome? then v.v else v);
    case TStruct(b, o) => StructIff(b, o, j, v);
    case _ =>
  }

  lemma ArrayIff(e: Type, j: Json, v: Value)
    ensures Decode(TArray(e), j) == Some(v) <==> Reads(TArray(e), j, v)
    ensures Decode(TArray(e), j).Some? <==> Accepts(TArray(e), j)
    decreases e, 3
  {
    hide DecodeAll;
    if j.JArray? {
      DecodeAllIff(e, j.es, if v.VArray? then v.vs else []);
    }
  }

  lemma StructIff(b: seq<Field>, o: seq<Field>, j: Json, v: Value)
    ensures Decode(TStruct(b, o), j) == Some(v) <==> Reads(TStruct(b, o), j, v)
    ensures Decode(TStruct(b, o), j).Some? <==> Accepts(TStruct(b, o), j)
    decreases TStruct(b, o), 0
  {
    hide ReadsFields, AcceptsFields, DecodeFields;
    FieldsIff(b, j, if v.VStruct? then v.base else []);
    FieldsIff(o, j, if v.VStruct? then v.own else []);
  }

  lemma {:induction false} DecodeAllIff(e: Type, es: seq<Json>, vs: seq<Value>)
    ensures DecodeAll(e, es) == Some(vs) <==> |vs| == |es| && forall i | 0 <= i < |es| :: Reads(e, es[i], vs[i])
    ensures DecodeAll(e, es).Some? <==> forall i | 0 <= i < |es| :: Accepts(e, es[i])
    decreases e, 2, es
  {
    hide Reads, Accepts, Decode;
    if es != [] {
      DecodeIff(e, es[0], if vs != [] then vs[0] else VNone);
      DecodeAllIff(e, es[1..], if vs != [] then vs[1..] else []);
      assert forall i | 0 < i < |es| :: es[i] == es[1..][i - 1];
      assert forall i | 0 <= i < |es| - 1 :: es[1..][i] == es[i + 1];
      if vs != [] {
        assert vs == [vs[0]] + vs[1..];
        assert forall i | 0 < i < |vs| :: vs[i] == vs[1..][i - 1];
        assert forall i | 0 <= i < |vs| - 1 :: vs[1..][i] == vs[i + 1];
      }
    }
  }

  lemma FieldIff(f: Field, j: Json, v: Value)
    ensures DecodeField(f, j) == Some(v) <==> ReadsField(f, j, v)
    ensures DecodeField(f, j).Some? <==> AcceptsField(f, j)
    decreases f, 3
  {
    MissingIff(f.ty, v);
    if j.JObject? && f.name in j.m {
      DecodeIff(f.ty, j.m[f.name], v);
    }
  }

  lemma FirstField(fs: seq<Field>, j: Json, vs: seq<Value>)
    requires fs != [] && vs != []
    ensures ReadsFields(fs, j, vs) <==> ReadsField(fs[0], j, vs[0]) && ReadsFields(fs[1..], j, vs[1..])
  {
    hide ReadsField;
    assert forall i | 0 < i < |fs| :: fs[i] == fs[1..][i - 1];
    assert forall i | 0 < i < |vs| :: vs[i] == vs[1..][i - 1];
    assert forall i | 0 <= i < |fs| - 1 :: fs[1..][i] == fs[i + 1];
    assert forall i | 0 <= i < |vs| - 1 :: vs[1..][i] == vs[i + 1];
  }

  lemma FirstAccepted(fs: seq<Field>, j: Json)
    requires fs != []
    ensures AcceptsFields(fs, j) <==> AcceptsField(fs[0], j) && AcceptsFields(fs[1..], j)
  {
    hide AcceptsField;
    assert forall i | 0 < i < |fs| :: fs[i] == fs[1..][i - 1];
    assert forall i | 0 <= i < |fs| - 1 :: fs[1..][i] == fs[i + 1];
  }

  lemma ReadsAsMany(fs: seq<Field>, j: Json, vs: seq<Value>)
    ensures ReadsFields(fs, j, vs) ==> |vs| == |fs|
    ensures fs == [] ==> AcceptsFields(fs, j) && (ReadsFields(fs, j, vs) <==> vs == [])
  {}

  lemma {:induction false} FieldsIff(fs: seq<Field>, j: Json, vs: seq<Value>)
    ensures DecodeFields(fs, j) == Some(vs) <==> ReadsFields(fs, j, vs)
    ensures DecodeFields(fs, j).Some? <==> AcceptsFields(fs, j)
    decreases fs, 0
  {
    hide ReadsField, AcceptsField, DecodeField, ReadsFields, AcceptsFields;
    ReadsAsMany(fs, j, vs);
    if fs != [] {
      FieldIff(fs[0], j, if vs != [] then vs[0] else VNone);
      FieldsIff(fs[1..], j, if vs != [] then vs[1..] else []);
      FirstAccepted(fs, j);
      if vs != [] {
        FirstField(fs, j, vs);
        assert vs == [vs[0]] + vs[1..];
      }
    }
  }

  /** An integer that was written is read as a number of the same size. */
  lemma IntegerIsANumber(i: int)
    requires IsInt64(i)
    ensures Decode(TNum, Encode(TInt, VInt(i), JNull).json) == Some(VNum(i as real))
  {}

  // ------------------------------------------------------------------ wire format

  /** What is written: scalars as they are, elements in order, a map member by member. (Structs are
      in `EncodeStructIs`.) */
  lemma WireFormat(t: Type, v: Value, slot: Json)
    requires HasType(v, t)
    ensures var j := Encode(t, v, slot).json;
            match t
            case TBool => j == JBool(v.b)
            case TInt => j == JInt(v.i)
            case TNum => j == JFloat(v.r)
            case TStr => j == JString(v.s)
            case TArray(e) =>
              j.JArray? && |j.es| == |v.vs| && forall i | 0 <= i < |v.vs| :: j.es[i] == Encode(e, v.vs[i], JNull).json
            case TObject =>
              slot == JNull ==> j.JObject? && j.m.Keys == v.m.Keys && forall k | k in v.m :: j.m[k] == EncodeAny(v.m[k], JNull).json
            case TOptional(e) => v.VSome? ==> j == Encode(e, v.v, slot).json
            case TAny =>
              && (v.a.ANull? ==> j == slot)
              && (v.a.AOf? && HasType(v.a.v, v.a.ty) ==> j == Encode(v.a.ty, v.a.v, slot).json)
            case TStruct(_, _) => j.JObject?
  {
    match t
    case TArray(e) =>
      forall i | 0 <= i < |v.vs|
        ensures EncodeAll(e, v.vs)[i] == Encode(e, v.vs[i], JNull).json
      {
        EncodedElement(e, v.vs, i);
      }
    case _ =>
  }

  lemma {:induction false} EncodedElement(e: Type, vs: seq<Value>, i: nat)
    requires i < |vs| && forall k | 0 <= k < |vs| :: HasType(vs[k], e)
    ensures EncodeAll(e, vs)[i] == Encode(e, vs[i], JNull).json
    decreases vs
  {
    if i > 0 {
      EncodedElement(e, vs[1..], i - 1);
    }
  }
}
