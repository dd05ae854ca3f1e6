/** The storage of `any` (`include/dap/any.h`): a 32-byte buffer inside the object, or a heap block
    when the value does not fit. Addresses are natural numbers, 0 is the null pointer. */
module AnyStorage {
  import opened Options

  const BUFFER_SIZE := 32

  datatype RawTypeInfo = TypeInfo(name: string, size: nat, alignment: nat)

  type TypeInfo = t: RawTypeInfo | t.size > 0 && t.alignment > 0 witness RawTypeInfo.TypeInfo("", 1, 1)

  function AlignUp(p: nat, alignment: nat): nat
    requires alignment > 0
  {
    alignment * ((p + alignment - 1) / alignment)
  }

  /** The next multiple of the alignment, less than one alignment away. */
  lemma AlignUpIs(p: nat, alignment: nat)
    requires alignment > 0
    ensures AlignUp(p, alignment) % alignment == 0
    ensures p <= AlignUp(p, alignment) < p + alignment
  {
    var n := p + alignment - 1;
    var q := n / alignment;
    assert n == alignment * q + n % alignment;
    MultipleMod(q, alignment);
  }

  lemma MultipleMod(q: nat, a: nat)
    requires a > 0
    ensures a * q % a == 0
  {
    var d, r := a * q / a, a * q % a;
    assert a * q == a * d + r;
    assert a * (q - d) == r && a * (d - q) == -r;
    if q > d {
      MulAtLeast(a, q - d);
    } else if q < d {
      MulAtLeast(a, d - q);
    }
  }

  lemma MulAtLeast(a: nat, k: nat)
    requires k >= 1
    ensures a * k >= a
  {
    assert a * k == a * (k - 1) + a;
  }

  type Id = nat

  /** One `any` object, with the address of its buffer. */
  datatype Obj = Obj(buffer: nat, value: nat, ty: Option<TypeInfo>, heap: nat)

  datatype Instance = Instance(ty: TypeInfo, content: int)

  datatype Event = Constructed(at: nat) | Destructed(at: nat) | Allocated(block: nat) | Freed(block: nat)

  /** All `any` objects, the values constructed and not yet destructed, the live heap blocks with
      their sizes, and the history of all constructions, destructions, allocations and frees. */
  datatype World = World(objs: map<Id, Obj>, values: map<nat, Instance>, blocks: map<nat, nat>, history: seq<Event>)

  // -------------------------------------------------------------- operations

  /** What an object holds, if anything. */
  function Holding(w: World, id: Id): Option<Instance>
    requires id in w.objs
  {
    if w.objs[id].value != 0 && w.objs[id].value in w.values then Some(w.values[w.objs[id].value]) else None
  }

  predicate IsInBuffer(o: Obj, p: int) { o.buffer <= p < o.buffer + BUFFER_SIZE }

  /** `alloc`, with the address `new` would return if it is called. */
  function Alloc(w: World, id: Id, t: TypeInfo, block: nat): (r: World)
    requires id in w.objs
    ensures r.objs.Keys == w.objs.Keys
  {
    var o := w.objs[id];
    var value := AlignUp(o.buffer, t.alignment);
    if IsInBuffer(o, value + t.size - 1) then w.(objs := w.objs[id := o.(value := value)])
    else w.(objs := w.objs[id := o.(heap := block, value := AlignUp(block, t.alignment))],
            blocks := w.blocks[block := t.size + t.alignment],
            history := w.history + [Allocated(block)])
  }

  /** `free`. */
  function Free(w: World, id: Id): (r: World)
    requires id in w.objs
    ensures r.objs.Keys == w.objs.Keys
  {
    var o := w.objs[id];
    if o.heap == 0 then w.(objs := w.objs[id := o.(value := 0)])
    else w.(objs := w.objs[id := o.(value := 0, heap := 0)], blocks := w.blocks - {o.heap},
            history := w.history + [Freed(o.heap)])
  }

  function CopyConstructAt(w: World, at: nat, v: Instance): World {
    w.(values := w.values[at := v], history := w.history + [Constructed(at)])
  }

  function DestructAt(w: World, at: nat): World {
    w.(values := w.values - {at}, history := w.history + [Destructed(at)])
  }

  function SetType(w: World, id: Id, t: Option<TypeInfo>): (r: World)
    requires id in w.objs
    ensures r.objs.Keys == w.objs.Keys
  {
    w.(objs := w.objs[id := w.objs[id].(ty := t)])
  }

  function Reset(w: World, id: Id): (r: World)
    requires id in w.objs
    ensures r.objs.Keys == w.objs.Keys
  {
    var w1 := if w.objs[id].value == 0 then w else Free(DestructAt(w, w.objs[id].value), id);
    w1.(objs := w1.objs[id := w1.objs[id].(value := 0, ty := None)])
  }

  /** Type, storage and construction of a copy of v, in an object that holds nothing. */
  function Fill(w: World, id: Id, v: Instance, block: nat): (r: World)
    requires id in w.objs
    ensures r.objs.Keys == w.objs.Keys
  {
    var w1 := Alloc(SetType(w, id, Some(v.ty)), id, v.ty, block);
    CopyConstructAt(w1, w1.objs[id].value, v)
  }

  /** `any()`, for an object placed at `buffer`. */
  function Create(w: World, id: Id, buffer: nat): World {
    w.(objs := w.objs[id := Obj(buffer, 0, None, 0)])
  }

  /** `~any()`. */
  function Destroy(w: World, id: Id): World
    requires id in w.objs
  {
    var w1 := Reset(w, id);
    w1.(objs := w1.objs - {id})
  }

  /** `operator=(const any& rhs)`: resets first, then copies what rhs holds now. */
  function AssignCopy(w: World, dst: Id, src: Id, block: nat): (r: World)
    requires dst in w.objs && src in w.objs
    ensures r.objs.Keys == w.objs.Keys
  {
    var w1 := Reset(w, dst);
    match Holding(w1, src)
    case None => SetType(w1, dst, w1.objs[src].ty)
    case Some(v) => Fill(w1, dst, v, block)
  }

  /** `operator=(const T& val)`: overwrites in place when the type is the same. */
  function AssignValue(w: World, dst: Id, v: Instance, block: nat): (r: World)
    requires dst in w.objs
    ensures r.objs.Keys == w.objs.Keys
  {
    if w.objs[dst].ty == Some(v.ty) then w.(values := w.values[w.objs[dst].value := v])
    else Fill(Reset(w, dst), dst, v, block)
  }

  /** `operator=(any&& rhs)`: takes over a heap value, but copies one in the buffer. */
  function AssignMove(w: World, dst: Id, src: Id, block: nat): (r: World)
    requires dst in w.objs && src in w.objs && dst != src
    ensures r.objs.Keys == w.objs.Keys
  {
    var w1 := Reset(w, dst);
    var rhs := w1.objs[src];
    var held := Holding(w1, src);
    var w2 :=
      if IsInBuffer(rhs, rhs.value) && held.Some? then Fill(w1, dst, held.value, block)
      else w1.(objs := w1.objs[dst := w1.objs[dst].(ty := rhs.ty, value := rhs.value)]);
    w2.(objs := w2.objs[src := w2.objs[src].(value := 0, ty := None)])
  }

  // --------------------------------------------------------------- invariant

  predicate Apart(a: nat, n: nat, b: nat, m: nat) { a + n <= b || b + m <= a }

  /** Where a value may lie: aligned, and wholly inside the buffer or the owned heap block. */
  predicate Placed(o: Obj, blocks: map<nat, nat>) {
    && o.ty.Some?
    && var t := o.ty.value;
    && o.value % t.alignment == 0
    && if o.heap == 0 then o.buffer <= o.value && o.value + t.size <= o.buffer + BUFFER_SIZE
       else o.heap in blocks && blocks[o.heap] == t.size + t.alignment
            && o.heap <= o.value && o.value + t.size <= o.heap + blocks[o.heap]
  }

  predicate Shaped(o: Obj, blocks: map<nat, nat>) {
    && o.buffer > 0
    && if o.value == 0 then o.ty.None? && o.heap == 0 else Placed(o, blocks)
  }

  predicate Holds(w: World, id: Id, at: nat) { id in w.objs && w.objs[id].value == at }

  predicate Owns(w: World, id: Id, block: nat) { id in w.objs && w.objs[id].heap == block }

  /** Memory handed out to different owners does not overlap. */
  ghost predicate Separate(w: World) {
    && (forall i, j | i in w.objs && j in w.objs && i != j :: Apart(w.objs[i].buffer, BUFFER_SIZE, w.objs[j].buffer, BUFFER_SIZE))
    && (forall i, h | i in w.objs && h in w.blocks :: Apart(w.objs[i].buffer, BUFFER_SIZE, h, w.blocks[h]))
    && (forall g, h | g in w.blocks && h in w.blocks && g != h :: Apart(g, w.blocks[g], h, w.blocks[h]))
    && (forall h | h in w.blocks :: h > 0 && w.blocks[h] > 0)
  }

  /** Every live block has exactly one owner. */
  ghost predicate BlocksOwned(w: World) {
    && (forall h | h in w.blocks :: exists i :: Owns(w, i, h))
    && (forall i, j | i in w.objs && j in w.objs && i != j && w.objs[i].heap != 0 :: w.objs[i].heap != w.objs[j].heap)
  }

  /** Every live value has a holder, and what an object holds is live and of its type. */
  ghost predicate ValuesHeld(w: World) {
    && (forall a | a in w.values :: a != 0 && exists i :: Holds(w, i, a))
    && (forall i | i in w.objs && w.objs[i].value != 0 ::
          w.objs[i].value in w.values && Some(w.values[w.objs[i].value].ty) == w.objs[i].ty)
  }

  /** What is live after a history in which nothing is constructed or allocated over something
      live, and nothing that is not live is destructed or freed. */
  datatype Live = Live(values: set<nat>, blocks: set<nat>)

  function Replay(history: seq<Event>): Option<Live> {
    if history == [] then Some(Live({}, {}))
    else
      match Replay(history[..|history| - 1])
      case None => None
      case Some(l) =>
        match history[|history| - 1]
        case Constructed(a) => if a in l.values then None else Some(l.(values := l.values + {a}))
        case Destructed(a) => if a in l.values then Some(l.(values := l.values - {a})) else None
        case Allocated(b) => if b in l.blocks then None else Some(l.(blocks := l.blocks + {b}))
        case Freed(b) => if b in l.blocks then Some(l.(blocks := l.blocks - {b})) else None
  }

  ghost predicate Inv(w: World) {
    && (forall i | i in w.objs :: Shaped(w.objs[i], w.blocks))
    && Separate(w) && BlocksOwned(w) && ValuesHeld(w)
    && Replay(w.history) == Some(Live(w.values.Keys, w.blocks.Keys))
  }

  /** Two objects never hold values at the same address. */
  lemma ValuesApart(w: World, i: Id, j: Id)
    requires Separate(w) && i in w.objs && j in w.objs && i != j
    requires Placed(w.objs[i], w.blocks) && Shaped(w.objs[j], w.blocks)
    requires w.objs[i].heap != 0 ==> w.objs[i].heap != w.objs[j].heap
    requires w.objs[i].value != 0
    ensures w.objs[i].value != w.objs[j].value
  {}

  /** What is left of w when the object is emptied, its value destructed and its block freed. */
  ghost predicate Emptied(w: World, id: Id, r: World) {
    && id in w.objs && w.objs[id].value != 0
    && r.objs == w.objs[id := Obj(w.objs[id].buffer, 0, None, 0)]
    && r.values == w.values - {w.objs[id].value}
    && r.blocks == (if w.objs[id].heap == 0 then w.blocks else w.blocks - {w.objs[id].heap})
  }

  lemma EmptiedBlocks(w: World, id: Id, r: World)
    requires BlocksOwned(w) && Emptied(w, id, r)
    requires forall h | h in w.blocks :: h > 0
    ensures BlocksOwned(r)
  {
    forall h | h in r.blocks
      ensures exists i :: Owns(r, i, h)
    {
      var i :| Owns(w, i, h);
      assert Owns(r, i, h);
    }
  }

  lemma EmptiedValues(w: World, id: Id, r: World)
    requires ValuesHeld(w) && Emptied(w, id, r)
    requires forall j | j in w.objs && j != id :: w.objs[j].value != w.objs[id].value
    ensures ValuesHeld(r)
  {
    forall a | a in r.values
      ensures exists i :: Holds(r, i, a)
    {
      var i :| Holds(w, i, a);
      assert Holds(r, i, a);
    }
  }

  lemma EmptiedShaped(w: World, id: Id, r: World)
    requires Separate(w) && Emptied(w, id, r)
    requires forall i | i in w.objs :: Shaped(w.objs[i], w.blocks)
    requires forall j | j in w.objs && j != id && w.objs[id].heap != 0 :: w.objs[j].heap != w.objs[id].heap
    ensures Separate(r) && forall i | i in r.objs :: Shaped(r.objs[i], r.blocks)
  {
    hide Apart;
    forall i | i in r.objs
      ensures Shaped(r.objs[i], r.blocks)
    {
      assert Shaped(w.objs[i], w.blocks);
    }
  }

  lemma ResetReplays(w: World, id: Id)
    requires id in w.objs && w.objs[id].value != 0
    requires w.objs[id].value in w.values && (w.objs[id].heap != 0 ==> w.objs[id].heap in w.blocks)
    requires Replay(w.history) == Some(Live(w.values.Keys, w.blocks.Keys))
    ensures var r := Reset(w, id);
            Emptied(w, id, r) && Replay(r.history) == Some(Live(r.values.Keys, r.blocks.Keys))
  {
    var o, r := w.objs[id], Reset(w, id);
    var h1 := w.history + [Destructed(o.value)];
    assert h1[..|w.history|] == w.history;
    assert w.values.Keys - {o.value} == (w.values - {o.value}).Keys;
    assert Replay(h1) == Some(Live(w.values.Keys - {o.value}, w.blocks.Keys));
    if o.heap != 0 {
      assert (h1 + [Freed(o.heap)])[..|h1|] == h1;
      assert w.blocks.Keys - {o.heap} == (w.blocks - {o.heap}).Keys;
    }
  }

  lemma ResetKeeps(w: World, id: Id)
    requires Inv(w) && id in w.objs
    ensures var r := Reset(w, id);
            && Inv(r) && r.objs == w.objs[id := Obj(w.objs[id].buffer, 0, None, 0)]
            && (forall a | a in r.values :: a in w.values && r.values[a] == w.values[a])
  {
    var o, r := w.objs[id], Reset(w, id);
    assert Shaped(o, w.blocks);
    if o.value != 0 {
      forall j | j in w.objs && j != id
        ensures w.objs[j].value != o.value
      {
        ValuesApart(w, id, j);
      }
      ResetReplays(w, id);
      EmptiedBlocks(w, id, r);
      EmptiedValues(w, id, r);
      EmptiedShaped(w, id, r);
    } else {
      assert w.objs[id := o.(value := 0, ty := None)] == w.objs;
    }
  }

  /** Memory that `new` may return. */
  ghost predicate FreshBlock(w: World, block: nat, n: nat) {
    && block > 0
    && (forall i | i in w.objs :: Apart(w.objs[i].buffer, BUFFER_SIZE, block, n))
    && (forall h | h in w.blocks :: Apart(h, w.blocks[h], block, n))
  }

  /** The storage chosen by `alloc` is aligned and wholly inside the buffer or the new block. */
  lemma AllocPlaces(w: World, id: Id, t: TypeInfo, block: nat)
    requires id in w.objs && w.objs[id].ty == Some(t) && w.objs[id].heap == 0 && w.objs[id].buffer > 0
    requires block > 0
    ensures var r := Alloc(w, id, t, block); var o := r.objs[id];
            && Placed(o, r.blocks) && o.value > 0 && o.buffer == w.objs[id].buffer && o.ty == Some(t)
            && r.objs == w.objs[id := o] && r.values == w.values
            && (o.heap == 0 ==> r.blocks == w.blocks && r.history == w.history)
            && (o.heap != 0 ==> o.heap == block && r.blocks == w.blocks[block := t.size + t.alignment]
                                && r.history == w.history + [Allocated(block)])
  {
    AlignUpIs(w.objs[id].buffer, t.alignment);
    AlignUpIs(block, t.alignment);
  }

  /** An empty object has been given o, which holds v. */
  ghost predicate Filled(w: World, id: Id, v: Instance, r: World) {
    && id in w.objs && id in r.objs && w.objs[id].value == 0 && w.objs[id].heap == 0
    && var o := r.objs[id];
    && Placed(o, r.blocks) && o.value > 0 && o.buffer == w.objs[id].buffer && o.ty == Some(v.ty)
    && r.objs == w.objs[id := o] && r.values == w.values[o.value := v]
    && (o.heap == 0 ==> r.blocks == w.blocks)
    && (o.heap != 0 ==> o.heap !in w.blocks && r.blocks == w.blocks[o.heap := v.ty.size + v.ty.alignment])
  }

  lemma FilledSeparate(w: World, id: Id, v: Instance, r: World)
    requires Separate(w) && Filled(w, id, v, r)
    requires r.objs[id].heap != 0 ==> FreshBlock(w, r.objs[id].heap, v.ty.size + v.ty.alignment)
    ensures Separate(r)
  {
    hide Apart, Placed;
    forall a, n: nat, b, m: nat | Apart(a, n, b, m)
      ensures Apart(b, m, a, n)
    {
      ApartSwaps(a, n, b, m);
    }
  }

  lemma FilledShaped(w: World, id: Id, v: Instance, r: World)
    requires Filled(w, id, v, r)
    requires forall i | i in w.objs :: Shaped(w.objs[i], w.blocks)
    ensures forall i | i in r.objs :: Shaped(r.objs[i], r.blocks)
  {
    forall i | i in r.objs
      ensures Shaped(r.objs[i], r.blocks)
    {
      assert Shaped(w.objs[i], w.blocks);
    }
  }

  lemma FilledBlocks(w: World, id: Id, v: Instance, r: World)
    requires BlocksOwned(w) && Filled(w, id, v, r)
    requires Separate(w) && forall i | i in w.objs && w.objs[i].heap != 0 :: w.objs[i].heap in w.blocks
    ensures BlocksOwned(r)
  {
    hide Apart, Placed;
    assert Owns(r, id, r.objs[id].heap);
    forall h | h in r.blocks && h != r.objs[id].heap
      ensures exists i :: Owns(r, i, h)
    {
      var i :| Owns(w, i, h);
      assert Owns(r, i, h);
    }
  }

  lemma FilledValues(w: World, id: Id, v: Instance, r: World)
    requires ValuesHeld(w) && Filled(w, id, v, r)
    requires forall j | j in w.objs && j != id :: w.objs[j].value != r.objs[id].value
    ensures ValuesHeld(r) && r.objs[id].value !in w.values
  {
    assert Holds(r, id, r.objs[id].value);
    forall a | a in w.values
      ensures a != r.objs[id].value && exists i :: Holds(r, i, a)
    {
      var i :| Holds(w, i, a);
      assert Holds(r, i, a);
    }
  }

  lemma FillIs(w: World, id: Id, v: Instance, block: nat)
    requires id in w.objs && block > 0 && block !in w.blocks
    requires w.objs[id].value == 0 && w.objs[id].heap == 0 && w.objs[id].buffer > 0
    ensures var r := Fill(w, id, v, block); var o := r.objs[id];
            && Filled(w, id, v, r)
            && (o.heap == 0 ==> r.history == w.history + [Constructed(o.value)])
            && (o.heap != 0 ==> o.heap == block && r.history == w.history + [Allocated(block)] + [Constructed(o.value)])
  {
    AllocPlaces(SetType(w, id, Some(v.ty)), id, v.ty, block);
  }

  lemma FillReplays(w: World, h: seq<Event>, at: nat, block: nat, onHeap: bool)
    requires Replay(w.history) == Some(Live(w.values.Keys, w.blocks.Keys))
    requires at !in w.values && block !in w.blocks
    requires h == (if onHeap then w.history + [Allocated(block)] else w.history) + [Constructed(at)]
    ensures Replay(h) == Some(Live(w.values.Keys + {at}, if onHeap then w.blocks.Keys + {block} else w.blocks.Keys))
  {
    var h1 := if onHeap then w.history + [Allocated(block)] else w.history;
    assert onHeap ==> h1[..|w.history|] == w.history;
    assert h[..|h1|] == h1;
  }

  lemma FreshNotLive(w: World, block: nat, n: nat)
    requires Separate(w) && FreshBlock(w, block, n) && n > 0
    ensures block > 0 && block !in w.blocks
  {}

  lemma FillKeeps(w: World, id: Id, v: Instance, block: nat)
    requires Inv(w) && id in w.objs && w.objs[id].value == 0
    requires FreshBlock(w, block, v.ty.size + v.ty.alignment)
    ensures var r := Fill(w, id, v, block);
            && Inv(r) && r.objs == w.objs[id := r.objs[id]] && Holding(r, id) == Some(v)
            && r.objs[id].value !in w.values && r.values == w.values[r.objs[id].value := v]
  {
    hide Separate, BlocksOwned, ValuesHeld, Replay, FreshBlock, Fill;
    assert Shaped(w.objs[id], w.blocks);
    FreshNotLive(w, block, v.ty.size + v.ty.alignment);
    FillIs(w, id, v, block);
    var r := Fill(w, id, v, block);
    var o := r.objs[id];
    FilledSeparate(w, id, v, r);
    FilledShaped(w, id, v, r);
    forall j | j in w.objs && j != id
      ensures w.objs[j].value != o.value
      ensures w.objs[j].heap != 0 ==> w.objs[j].heap in w.blocks
    {
      assert Shaped(w.objs[j], w.blocks) && Shaped(r.objs[j], r.blocks);
      ValuesApart(r, id, j);
    }
    FilledBlocks(w, id, v, r);
    FilledValues(w, id, v, r);
    FillReplays(w, r.history, o.value, block, o.heap != 0);
    assert r.values.Keys == w.values.Keys + {o.value};
    assert r.blocks.Keys == if o.heap != 0 then w.blocks.Keys + {block} else w.blocks.Keys;
  }

  // ------------------------------------------------------------------- runs

  datatype Op =
    | CreateOp(id: Id, buffer: nat)
    | DestroyOp(id: Id)
    | ResetOp(id: Id)
    | CopyOp(dst: Id, src: Id, block: nat)
    | ValueOp(dst: Id, v: Instance, block: nat)

  /** Objects exist and are distinct, and the memory handed out is free at that moment. A copy
      constructor is a creation followed by a copy. */
  ghost predicate Possible(w: World, op: Op) {
    match op
    case CreateOp(id, buffer) => id !in w.objs && FreshBlock(w, buffer, BUFFER_SIZE)
    case DestroyOp(id) => id in w.objs
    case ResetOp(id) => id in w.objs
    case CopyOp(dst, src, block) =>
      && dst in w.objs && src in w.objs && dst != src
      && (w.objs[src].ty.Some? ==>
            FreshBlock(Reset(w, dst), block, w.objs[src].ty.value.size + w.objs[src].ty.value.alignment))
    case ValueOp(dst, v, block) =>
      dst in w.objs && FreshBlock(Reset(w, dst), block, v.ty.size + v.ty.alignment)
  }

  function Apply(w: World, op: Op): World
    requires op.CreateOp? || (op.DestroyOp? && op.id in w.objs) || (op.ResetOp? && op.id in w.objs)
          || (op.CopyOp? && op.dst in w.objs && op.src in w.objs) || (op.ValueOp? && op.dst in w.objs)
  {
    match op
    case CreateOp(id, buffer) => Create(w, id, buffer)
    case DestroyOp(id) => Destroy(w, id)
    case ResetOp(id) => Reset(w, id)
    case CopyOp(dst, src, block) => AssignCopy(w, dst, src, block)
    case ValueOp(dst, v, block) => AssignValue(w, dst, v, block)
  }

  lemma CreatedSeparate(w: World, id: Id, buffer: nat)
    requires Separate(w) && id !in w.objs && FreshBlock(w, buffer, BUFFER_SIZE)
    ensures Separate(Create(w, id, buffer))
  {
    hide Apart;
    forall a, n: nat, b, m: nat | Apart(a, n, b, m)
      ensures Apart(b, m, a, n)
    {
      ApartSwaps(a, n, b, m);
    }
  }

  lemma ApartSwaps(a: nat, n: nat, b: nat, m: nat)
    ensures Apart(a, n, b, m) <==> Apart(b, m, a, n)
  {}

  lemma CreatedOwned(w: World, id: Id, buffer: nat)
    requires id !in w.objs
    ensures BlocksOwned(w) ==> BlocksOwned(Create(w, id, buffer))
    ensures ValuesHeld(w) ==> ValuesHeld(Create(w, id, buffer))
  {
    var r := Create(w, id, buffer);
    assert forall i, h :: Owns(w, i, h) ==> Owns(r, i, h);
    assert forall i, a :: Holds(w, i, a) ==> Holds(r, i, a);
  }

  lemma CreateKeeps(w: World, id: Id, buffer: nat)
    requires Inv(w) && id !in w.objs && FreshBlock(w, buffer, BUFFER_SIZE)
    ensures Inv(Create(w, id, buffer))
  {
    hide Separate, BlocksOwned, ValuesHeld, Replay, Placed;
    CreatedSeparate(w, id, buffer);
    CreatedOwned(w, id, buffer);
    var r := Create(w, id, buffer);
    forall i | i in r.objs
      ensures Shaped(r.objs[i], r.blocks)
    {
      assert i in w.objs ==> Shaped(w.objs[i], w.blocks);
    }
  }

  lemma DestroyKeeps(w: World, id: Id)
    requires Inv(w) && id in w.objs
    ensures Inv(Destroy(w, id))
  {
    hide Inv, Reset;
    ResetKeeps(w, id);
    RemoveEmpty(Reset(w, id), id);
  }

  lemma RemoveEmpty(w: World, id: Id)
    requires Inv(w) && id in w.objs && w.objs[id].value == 0 && w.objs[id].heap == 0
    ensures Inv(w.(objs := w.objs - {id}))
  {
    hide Apart, Shaped;
    var r := w.(objs := w.objs - {id});
    forall h | h in r.blocks
      ensures exists i :: Owns(r, i, h)
    {
      var i :| Owns(w, i, h);
      assert Owns(r, i, h);
    }
    forall a | a in r.values
      ensures exists i :: Holds(r, i, a)
    {
      var i :| Holds(w, i, a);
      assert Holds(r, i, a);
    }
  }

  /** What the invariant says about one object. */
  lemma HoldingIs(w: World, id: Id)
    requires Inv(w) && id in w.objs
    ensures var o := w.objs[id];
            if o.value == 0 then o.ty == None && o.heap == 0 && Holding(w, id) == None
            else o.value in w.values && o.ty == Some(w.values[o.value].ty) && Holding(w, id) == Some(w.values[o.value])
  {
    hide Separate, BlocksOwned, Replay;
    assert Shaped(w.objs[id], w.blocks);
  }

  /** Every other object holds what it held. */
  ghost predicate OthersKeep(w: World, dst: Id, r: World) {
    forall j | j in w.objs && j != dst :: j in r.objs && Holding(r, j) == Holding(w, j)
  }

  /** Objects whose fields are the same hold the same, if the values live before and after agree. */
  lemma SameFieldsHoldSame(w: World, dst: Id, r: World)
    requires Inv(w) && Inv(r) && forall j | j in w.objs && j != dst :: j in r.objs && r.objs[j] == w.objs[j]
    requires forall a | a in w.values && a in r.values :: r.values[a] == w.values[a]
    ensures OthersKeep(w, dst, r)
  {
    hide Inv, Holding;
    forall j | j in w.objs && j != dst
      ensures Holding(r, j) == Holding(w, j)
    {
      HoldingIs(w, j);
      HoldingIs(r, j);
    }
  }

  /** Copy assignment between distinct objects: ownership is kept, the target holds what the
      source holds, and no other object is touched. */
  lemma AssignCopyKeeps(w: World, dst: Id, src: Id, block: nat)
    requires Inv(w) && Possible(w, CopyOp(dst, src, block))
    ensures var r := AssignCopy(w, dst, src, block);
            && Inv(r) && Holding(r, dst) == Holding(w, src) && r.objs == w.objs[dst := r.objs[dst]]
            && OthersKeep(w, dst, r)
  {
    hide Inv, FreshBlock, Reset, Fill;
    ResetKeeps(w, dst);
    var w1 := Reset(w, dst);
    HoldingIs(w, src);
    HoldingIs(w1, src);
    if w1.objs[src].value != 0 {
      FillKeeps(w1, dst, w1.values[w1.objs[src].value], block);
      HoldingIs(Fill(w1, dst, w1.values[w1.objs[src].value], block), src);
    } else {
      assert SetType(w1, dst, None).objs == w1.objs;
    }
    SameFieldsHoldSame(w, dst, w1);
    SameFieldsHoldSame(w1, dst, AssignCopy(w, dst, src, block));
  }

  lemma OverwriteKeeps(w: World, id: Id, v: Instance)
    requires Inv(w) && id in w.objs && w.objs[id].ty == Some(v.ty)
    ensures var at := w.objs[id].value; var r := w.(values := w.values[at := v]);
            at != 0 && Inv(r) && OthersKeep(w, id, r)
  {
    hide Separate, BlocksOwned, Replay, Placed;
    assert Shaped(w.objs[id], w.blocks);
    OthersUntouched(w, id);
    var r := w.(values := w.values[w.objs[id].value := v]);
    assert r.values.Keys == w.values.Keys;
    assert BlocksOwned(r) by { SameObjectsOwn(w, r); }
    assert Separate(r) by { SameObjectsOwn(w, r); }
    forall a | a in r.values
      ensures a != 0 && exists i :: Holds(r, i, a)
    {
      var i :| Holds(w, i, a);
      assert Holds(r, i, a);
    }
  }

  lemma SameObjectsOwn(w: World, r: World)
    requires r.objs == w.objs && r.blocks == w.blocks
    ensures BlocksOwned(w) ==> BlocksOwned(r)
    ensures Separate(w) ==> Separate(r)
  {
    assert forall i, h :: Owns(w, i, h) ==> Owns(r, i, h);
  }

  /** Typed assignment: ownership is kept and the target holds the value. */
  lemma AssignValueKeeps(w: World, dst: Id, v: Instance, block: nat)
    requires Inv(w) && Possible(w, ValueOp(dst, v, block))
    ensures var r := AssignValue(w, dst, v, block); Inv(r) && Holding(r, dst) == Some(v) && OthersKeep(w, dst, r)
  {
    hide Inv, FreshBlock, Fill, Reset;
    if w.objs[dst].ty == Some(v.ty) {
      OverwriteKeeps(w, dst, v);
    } else {
      ResetKeeps(w, dst);
      FillKeeps(Reset(w, dst), dst, v, block);
      SameFieldsHoldSame(w, dst, Reset(w, dst));
      SameFieldsHoldSame(Reset(w, dst), dst, AssignValue(w, dst, v, block));
    }
  }

  lemma OthersUntouched(w: World, id: Id)
    requires Inv(w) && id in w.objs && w.objs[id].value != 0
    ensures forall j | j in w.objs && j != id :: w.objs[j].value != w.objs[id].value
  {
    forall j | j in w.objs && j != id
      ensures w.objs[j].value != w.objs[id].value
    {
      assert Shaped(w.objs[id], w.blocks) && Shaped(w.objs[j], w.blocks);
      ValuesApart(w, id, j);
    }
  }

  lemma ApplyKeeps(w: World, op: Op)
    requires Inv(w) && Possible(w, op)
    ensures Inv(Apply(w, op))
  {
    hide Inv, FreshBlock;
    match op {
      case CreateOp(id, buffer) => CreateKeeps(w, id, buffer);
      case DestroyOp(id) => DestroyKeeps(w, id);
      case ResetOp(id) => ResetKeeps(w, id);
      case CopyOp(dst, src, block) => AssignCopyKeeps(w, dst, src, block);
      case ValueOp(dst, v, block) => AssignValueKeeps(w, dst, v, block);
    }
  }

  ghost predicate Runs(w: World, ops: seq<Op>, r: World)
    decreases ops
  {
    if ops == [] then r == w else Possible(w, ops[0]) && Runs(Apply(w, ops[0]), ops[1..], r)
  }

  const EMPTY := World(map[], map[], map[], [])

  lemma {:induction false} RunsKeepInv(w: World, ops: seq<Op>, r: World)
    requires Inv(w) && Runs(w, ops, r)
    ensures Inv(r)
    decreases ops
  {
    hide Inv, FreshBlock, Create, Destroy, Reset, AssignCopy, AssignValue;
    if ops != [] {
      ApplyKeeps(w, ops[0]);
      RunsKeepInv(Apply(w, ops[0]), ops[1..], r);
    }
  }

  /** Over all runs: nothing is destructed or freed that is not live, every value is aligned and
      wholly inside its buffer or its own block, and once every object is destroyed nothing is left
      constructed or allocated. */
  lemma EverythingIsReleasedOnce(ops: seq<Op>, r: World)
    requires Runs(EMPTY, ops, r)
    ensures Inv(r) && Replay(r.history) == Some(Live(r.values.Keys, r.blocks.Keys))
    ensures r.objs == map[] ==> Replay(r.history) == Some(Live({}, {}))
  {
    EmptyInv();
    RunsKeepInv(EMPTY, ops, r);
    if r.objs == map[] {
      NothingOwned(r);
    }
  }

  lemma EmptyInv()
    ensures Inv(EMPTY)
  {
    var none: map<nat, Instance>, blocks: map<nat, nat> := map[], map[];
    assert none.Keys == {} && blocks.Keys == {};
  }

  lemma NothingOwned(w: World)
    requires BlocksOwned(w) && ValuesHeld(w) && w.objs == map[]
    ensures w.values.Keys == {} && w.blocks.Keys == {}
  {
    assert forall i, a :: !Holds(w, i, a) && !Owns(w, i, a);
  }

  /** A value left in the buffer of an object that no longer points to it has no holder. */
  lemma MoveFromBuffer(w: World, dst: Id, src: Id, block: nat)
    requires Inv(w) && dst in w.objs && src in w.objs && dst != src && w.objs[src].value != 0
    ensures !Inv(w.(objs := w.objs[src := w.objs[src].(value := 0, ty := None)]))
  {
    hide Separate, BlocksOwned, Replay;
    OthersUntouched(w, src);
    var at, r := w.objs[src].value, w.(objs := w.objs[src := w.objs[src].(value := 0, ty := None)]);
    assert Shaped(w.objs[src], w.blocks) && at in r.values;
    assert forall i :: !Holds(r, i, at);
  }

  /** A heap value that arrives without its block lies in no storage of its new object. */
  lemma MoveFromHeap(w: World, dst: Id, src: Id, r: World)
    requires Inv(w) && dst in w.objs && src in w.objs && dst != src && w.objs[dst].heap == 0
    requires w.objs[src].value != 0 && !IsInBuffer(w.objs[src], w.objs[src].value)
    requires r.blocks == w.blocks && dst in r.objs
    requires r.objs[dst] == w.objs[dst].(ty := w.objs[src].ty, value := w.objs[src].value)
    ensures !Inv(r)
  {
    var o := w.objs[src];
    assert Shaped(o, w.blocks);
    assert Apart(w.objs[dst].buffer, BUFFER_SIZE, o.heap, w.blocks[o.heap]);
    assert !Shaped(r.objs[dst], r.blocks);
  }

  /** Move assignment keeps this ownership exactly when the source holds nothing: a buffer value is
      left behind undestructed, and a heap value arrives without its block. */
  lemma MoveKeepsOwnershipIff(w: World, dst: Id, src: Id, block: nat)
    requires Inv(w) && Possible(w, CopyOp(dst, src, block))
    ensures Inv(AssignMove(w, dst, src, block)) <==> w.objs[src].value == 0
  {
    hide Inv, FreshBlock, Fill, Reset;
    ResetKeeps(w, dst);
    HoldingIs(w, src);
    HoldingIs(Reset(w, dst), src);
    HoldingIs(Reset(w, dst), dst);
    var w1, r := Reset(w, dst), AssignMove(w, dst, src, block);
    var o := w1.objs[src];
    if o.value == 0 {
      assert r.objs == w1.objs;
    } else if IsInBuffer(o, o.value) {
      FillKeeps(w1, dst, w1.values[o.value], block);
      MoveFromBuffer(Fill(w1, dst, w1.values[o.value], block), dst, src, block);
    } else {
      MoveFromHeap(w1, dst, src, r);
    }
  }

  /** Enough for destruction to go through: what objects hold is live, and no two share it. */
  ghost predicate Orderly(w: World) {
    && (forall i | i in w.objs && w.objs[i].value != 0 :: w.objs[i].value in w.values)
    && (forall i | i in w.objs && w.objs[i].value != 0 && w.objs[i].heap != 0 :: w.objs[i].heap in w.blocks)
    && (forall i, j | i in w.objs && j in w.objs && i != j && w.objs[i].value != 0 :: w.objs[i].value != w.objs[j].value)
    && (forall i, j | i in w.objs && j in w.objs && i != j && w.objs[i].heap != 0 :: w.objs[i].heap != w.objs[j].heap)
    && Replay(w.history) == Some(Live(w.values.Keys, w.blocks.Keys))
  }

  lemma InvIsOrderly(w: World)
    requires Inv(w)
    ensures Orderly(w)
  {
    hide Separate, Replay, Placed;
    forall i | i in w.objs && w.objs[i].value != 0
      ensures w.objs[i].heap != 0 ==> w.objs[i].heap in w.blocks
      ensures forall j | j in w.objs && j != i :: w.objs[i].value != w.objs[j].value
    {
      OthersUntouched(w, i);
      HeapIsLive(w, i);
    }
  }

  lemma HeapIsLive(w: World, i: Id)
    requires Inv(w) && i in w.objs && w.objs[i].value != 0
    ensures w.objs[i].heap != 0 ==> w.objs[i].heap in w.blocks
    ensures w.objs[i].heap == 0 <==> IsInBuffer(w.objs[i], w.objs[i].value)
  {
    hide BlocksOwned, ValuesHeld, Replay;
    assert Shaped(w.objs[i], w.blocks);
    if w.objs[i].heap != 0 {
      assert Apart(w.objs[i].buffer, BUFFER_SIZE, w.objs[i].heap, w.blocks[w.objs[i].heap]);
    }
  }

  /** A value, or a block, that no object will ever release. */
  ghost predicate StrandedValue(w: World, a: nat) {
    a in w.values && forall i | i in w.objs :: w.objs[i].value != a
  }

  ghost predicate StrandedBlock(w: World, h: nat) {
    h in w.blocks && forall i | i in w.objs && w.objs[i].value != 0 :: w.objs[i].heap != h
  }

  lemma DestroyKeepsStranded(w: World, id: Id, a: nat, h: nat)
    requires Orderly(w) && id in w.objs
    ensures var r := Destroy(w, id);
            && Orderly(r)
            && (StrandedValue(w, a) ==> StrandedValue(r, a)) && (StrandedBlock(w, h) ==> StrandedBlock(r, h))
  {
    hide Replay;
    if w.objs[id].value != 0 {
      ResetReplays(w, id);
    }
  }

  /** `~any()` for these objects, in this order. */
  function DestroyAll(w: World, ids: seq<Id>): World
    decreases |ids|
  {
    if ids == [] then w
    else DestroyAll(if ids[0] in w.objs then Destroy(w, ids[0]) else w, ids[1..])
  }

  lemma {:induction false} StrandedForGood(w: World, ids: seq<Id>, a: nat, h: nat)
    requires Orderly(w)
    ensures var r := DestroyAll(w, ids);
            && Orderly(r)
            && (StrandedValue(w, a) ==> StrandedValue(r, a)) && (StrandedBlock(w, h) ==> StrandedBlock(r, h))
    decreases |ids|
  {
    hide Orderly, StrandedValue, StrandedBlock, Destroy;
    if ids != [] {
      if ids[0] in w.objs {
        DestroyKeepsStranded(w, ids[0], a, h);
      }
      StrandedForGood(if ids[0] in w.objs then Destroy(w, ids[0]) else w, ids[1..], a, h);
    }
  }

  function Forget(w: World, src: Id): World
    requires src in w.objs
  {
    w.(objs := w.objs[src := w.objs[src].(value := 0, ty := None)])
  }

  lemma ForgetStrandsValue(w: World, src: Id)
    requires Orderly(w) && src in w.objs && w.objs[src].value != 0
    ensures Orderly(Forget(w, src)) && StrandedValue(Forget(w, src), w.objs[src].value)
  {
    hide Replay;
  }

  lemma TakeOverStrandsBlock(w: World, dst: Id, src: Id, r: World)
    requires Orderly(w) && dst in w.objs && src in w.objs && dst != src
    requires w.objs[dst].heap == 0 && w.objs[src].value != 0 && w.objs[src].heap != 0
    requires var o := w.objs[src];
             r == Forget(w.(objs := w.objs[dst := w.objs[dst].(ty := o.ty, value := o.value)]), src)
    ensures Orderly(r) && StrandedBlock(r, w.objs[src].heap)
  {
    hide Replay;
  }

  lemma MoveStrands(w: World, dst: Id, src: Id, block: nat)
    requires Inv(w) && Possible(w, CopyOp(dst, src, block)) && w.objs[src].value != 0
    ensures var o, r := w.objs[src], AssignMove(w, dst, src, block);
            Orderly(r) && if IsInBuffer(o, o.value) then StrandedValue(r, o.value) else StrandedBlock(r, o.heap)
  {
    hide Inv, FreshBlock, Fill, Reset, Orderly, StrandedValue, StrandedBlock;
    ResetKeeps(w, dst);
    var w1, o := Reset(w, dst), w.objs[src];
    HoldingIs(w1, src);
    HoldingIs(w1, dst);
    HeapIsLive(w1, src);
    if IsInBuffer(o, o.value) {
      var f := Fill(w1, dst, w1.values[o.value], block);
      FillKeeps(w1, dst, w1.values[o.value], block);
      InvIsOrderly(f);
      ForgetStrandsValue(f, src);
    } else {
      InvIsOrderly(w1);
      TakeOverStrandsBlock(w1, dst, src, AssignMove(w, dst, src, block));
    }
  }

  /** What becomes of a move from an object that holds something: whichever objects are destroyed
      afterwards, in whatever order, a value in the buffer is never destructed, and the block of a
      value on the heap is never freed. Nothing is released twice. */
  lemma MoveLeaks(w: World, dst: Id, src: Id, block: nat, ids: seq<Id>)
    requires Inv(w) && Possible(w, CopyOp(dst, src, block)) && w.objs[src].value != 0
    ensures var o, r := w.objs[src], DestroyAll(AssignMove(w, dst, src, block), ids);
            && Replay(r.history) == Some(Live(r.values.Keys, r.blocks.Keys))
            && if IsInBuffer(o, o.value) then o.value in r.values else o.heap in r.blocks
  {
    hide Inv, FreshBlock, AssignMove, Replay;
    MoveStrands(w, dst, src, block);
    StrandedForGood(AssignMove(w, dst, src, block), ids, w.objs[src].value, w.objs[src].heap);
  }

  /** For the caller a move works: the target holds what the source held, the source nothing, and every
      other object what it held. */
  lemma MoveMoves(w: World, dst: Id, src: Id, block: nat)
    requires Inv(w) && Possible(w, CopyOp(dst, src, block))
    ensures var r := AssignMove(w, dst, src, block);
            && Holding(r, dst) == Holding(w, src) && Holding(r, src) == None
            && forall j | j in w.objs && j != dst && j != src :: Holding(r, j) == Holding(w, j)
  {
    hide Inv, FreshBlock, Fill, Reset;
    ResetKeeps(w, dst);
    var w1 := Reset(w, dst);
    HoldingIs(w, src);
    HoldingIs(w1, src);
    SameFieldsHoldSame(w, dst, w1);
    if w1.objs[src].value != 0 && IsInBuffer(w1.objs[src], w1.objs[src].value) {
      var f := Fill(w1, dst, w1.values[w1.objs[src].value], block);
      FillKeeps(w1, dst, w1.values[w1.objs[src].value], block);
      SameFieldsHoldSame(w1, dst, f);
    }
  }

  /** The buffer is used exactly for values that fit into it. */
  lemma InBufferIff(w: World, id: Id, t: TypeInfo, block: nat)
    requires id in w.objs && w.objs[id].heap == 0 && block > 0
    ensures Alloc(w, id, t, block).objs[id].heap == 0
       <==> AlignUp(w.objs[id].buffer, t.alignment) + t.size <= w.objs[id].buffer + 32
  {
    AlignUpIs(w.objs[id].buffer, t.alignment);
  }

  /** Assigning an object to itself keeps ownership but loses the value. */
  lemma SelfAssignmentEmpties(w: World, id: Id, block: nat)
    requires Inv(w) && id in w.objs
    ensures var r := AssignCopy(w, id, id, block); Inv(r) && Holding(r, id) == None
  {
    ResetKeeps(w, id);
    assert SetType(Reset(w, id), id, None).objs == Reset(w, id).objs;
  }
}

/** The member functions of `any` as the code runs them, on the memory they share. `block` is the
    address that `new` returns if it is called. */
module AnyCode {
  import opened Options
  import opened A = AnyStorage

  class Memory {
    var objs: map<Id, Obj>
    var values: map<nat, Instance>
    var blocks: map<nat, nat>
    ghost var history: seq<Event>

    ghost function View(): World reads this { World(objs, values, blocks, history) }

    constructor ()
      ensures View() == EMPTY && Inv(View())
    {
      objs, values, blocks, history := map[], map[], map[], [];
      new;
      EmptyInv();
    }

    method Alloc(id: Id, t: TypeInfo, block: nat)
      requires id in objs
      modifies this
      ensures View() == A.Alloc(old(View()), id, t, block)
    {
      var value := AlignUp(objs[id].buffer, t.alignment);
      if IsInBuffer(objs[id], value + t.size - 1) {
        objs := objs[id := objs[id].(value := value)];
        return;
      }
      blocks, history := blocks[block := t.size + t.alignment], history + [Allocated(block)];
      objs := objs[id := objs[id].(heap := block, value := AlignUp(block, t.alignment))];
    }

    method Free(id: Id)
      requires id in objs
      modifies this
      ensures View() == A.Free(old(View()), id)
    {
      var o := objs[id];
      if o.heap != 0 {
        blocks, history := blocks - {o.heap}, history + [Freed(o.heap)];
        objs := objs[id := o.(heap := 0)];
      }
      objs := objs[id := objs[id].(value := 0)];
    }

    method Reset(id: Id)
      requires id in objs
      modifies this
      ensures View() == A.Reset(old(View()), id)
      ensures old(Inv(View())) ==> Inv(View())
    {
      hide Inv;
      if Inv(View()) {
        ResetKeeps(View(), id);
      }
      var at := objs[id].value;
      if at != 0 {
        values, history := values - {at}, history + [Destructed(at)];
        Free(id);
      }
      objs := objs[id := objs[id].(value := 0, ty := None)];
    }

    method Fill(id: Id, v: Instance, block: nat)
      requires id in objs
      modifies this
      ensures View() == A.Fill(old(View()), id, v, block)
    {
      objs := objs[id := objs[id].(ty := Some(v.ty))];
      Alloc(id, v.ty, block);
      values, history := values[objs[id].value := v], history + [Constructed(objs[id].value)];
    }

    method AssignCopy(dst: Id, src: Id, block: nat)
      requires dst in objs && src in objs
      requires Inv(View()) && (dst != src ==> Possible(View(), CopyOp(dst, src, block)))
      modifies this
      ensures View() == A.AssignCopy(old(View()), dst, src, block) && Inv(View())
      ensures Holding(View(), dst) == if dst == src then None else old(Holding(View(), src))
      ensures dst != src ==> OthersKeep(old(View()), dst, View())
    {
      hide Inv, Possible, A.Reset, A.Fill, OthersKeep;
      if dst == src {
        SelfAssignmentEmpties(View(), dst, block);
      } else {
        AssignCopyKeeps(View(), dst, src, block);
      }
      Reset(dst);
      var rhs := objs[src];
      if rhs.value != 0 && rhs.value in values {
        Fill(dst, values[rhs.value], block);
      } else {
        objs := objs[dst := objs[dst].(ty := rhs.ty)];
      }
    }

    method AssignValue(dst: Id, v: Instance, block: nat)
      requires dst in objs && Inv(View()) && Possible(View(), ValueOp(dst, v, block))
      modifies this
      ensures View() == A.AssignValue(old(View()), dst, v, block) && Inv(View())
      ensures Holding(View(), dst) == Some(v) && OthersKeep(old(View()), dst, View())
    {
      hide OthersKeep;
      AssignValueKeeps(View(), dst, v, block);
      if objs[dst].ty != Some(v.ty) {
        Reset(dst);
        Fill(dst, v, block);
      } else {
        values := values[objs[dst].value := v];
      }
    }
  }
}
