/** The depth-first type emitter of `tools/protocol_gen/protocol_gen.go`, over a dependency graph
    that may have cycles. A node is one `cppType` object; `seen` is keyed by its name. */
module Emitter {
  type Node = nat

  datatype Graph = Graph(name: map<Node, string>, deps: map<Node, seq<Node>>)

  predicate Valid(g: Graph) {
    && g.name.Keys == g.deps.Keys
    && forall n, i | n in g.deps && 0 <= i < |g.deps[n]| :: g.deps[n][i] in g.deps
  }

  /** Names seen so far and nodes written so far, in order. */
  datatype State = State(seen: set<string>, out: seq<Node>)

  function Unseen(g: Graph, s: State): nat { |g.name.Values - s.seen| }

  /** `emit(n)`. */
  function Visit(g: Graph, n: Node, s: State): (r: State)
    requires Valid(g) && n in g.deps
    ensures s.seen <= r.seen
    decreases Unseen(g, s), 0
  {
    if g.name[n] in s.seen then s
    else
      var s' := State(s.seen + {g.name[n]}, s.out);
      UnseenShrinks(g, s, n);
      var r := VisitAll(g, g.deps[n], s');
      State(r.seen, r.out + [n])
  }

  /** `emit` on each of ns in turn. */
  function VisitAll(g: Graph, ns: seq<Node>, s: State): (r: State)
    requires Valid(g) && forall i | 0 <= i < |ns| :: ns[i] in g.deps
    ensures s.seen <= r.seen
    decreases Unseen(g, s), |ns|
  {
    if ns == [] then s
    else
      var r := Visit(g, ns[0], s);
      UnseenMonotone(g, s, r);
      VisitAll(g, ns[1..], r)
  }

  lemma UnseenMonotone(g: Graph, s: State, r: State)
    requires s.seen <= r.seen
    ensures Unseen(g, r) <= Unseen(g, s)
  {
    var a, b := g.name.Values - r.seen, g.name.Values - s.seen;
    assert b == a + (b - a);
  }

  lemma UnseenShrinks(g: Graph, s: State, n: Node)
    requires n in g.name && g.name[n] !in s.seen
    ensures Unseen(g, State(s.seen + {g.name[n]}, s.out)) < Unseen(g, s)
  {
    var b := g.name.Values - s.seen;
    assert g.name[n] in b;
    assert g.name.Values - (s.seen + {g.name[n]}) == b - {g.name[n]};
  }

  // ------------------------------------------------------------ reachability

  ghost predicate Edge(g: Graph, a: Node, b: Node) { a in g.deps && b in g.deps[a] }

  ghost predicate Path(g: Graph, p: seq<Node>) {
    p != [] && p[0] in g.deps && forall i | 0 <= i < |p| - 1 :: Edge(g, p[i], p[i + 1])
  }

  ghost predicate Connects(g: Graph, p: seq<Node>, a: Node, b: Node) {
    Path(g, p) && p[0] == a && p[|p| - 1] == b
  }

  ghost predicate Reaches(g: Graph, a: Node, b: Node) { exists p :: Connects(g, p, a, b) }

  lemma ReachesSelf(g: Graph, a: Node)
    requires a in g.deps
    ensures Reaches(g, a, a)
  {
    assert Connects(g, [a], a, a);
  }

  lemma ReachesNext(g: Graph, a: Node, b: Node, c: Node)
    requires Reaches(g, a, b) && Edge(g, b, c)
    ensures Reaches(g, a, c)
  {
    var p :| Connects(g, p, a, b);
    assert Connects(g, p + [c], a, c);
  }

  lemma ReachesVia(g: Graph, a: Node, b: Node, c: Node)
    requires Edge(g, a, b) && Reaches(g, b, c)
    ensures Reaches(g, a, c)
  {
    var p :| Connects(g, p, b, c);
    var q := [a] + p;
    assert forall i | 0 < i < |q| :: q[i] == p[i - 1];
    assert Connects(g, q, a, c);
  }

  // --------------------------------------------------------------- invariant

  ghost predicate Written(g: Graph, out: seq<Node>, k: nat, name: string) {
    exists j | 0 <= j < k && j < |out| && out[j] in g.name :: g.name[out[j]] == name
  }

  ghost predicate NamedReaches(g: Graph, name: string, w: Node) {
    exists x | x in g.name && g.name[x] == name :: Reaches(g, x, w)
  }

  /** Each dependency of a written node was written before it, or lies on a cycle through it. */
  ghost predicate DependenciesFirst(g: Graph, out: seq<Node>) {
    forall i, d | 0 <= i < |out| && Edge(g, out[i], d) && d in g.name ::
      Written(g, out, i, g.name[d]) || NamedReaches(g, g.name[d], out[i])
  }

  ghost predicate WrittenOnce(g: Graph, out: seq<Node>) {
    && (forall i | 0 <= i < |out| :: out[i] in g.name)
    && (forall i, j | 0 <= i < j < |out| :: g.name[out[i]] != g.name[out[j]])
  }

  ghost predicate OnStack(g: Graph, stack: seq<Node>, name: string) {
    exists j | 0 <= j < |stack| && stack[j] in g.name :: g.name[stack[j]] == name
  }

  /** Nodes being emitted and nodes written have names that are seen and pairwise different. */
  ghost predicate NamesApart(g: Graph, stack: seq<Node>, s: State) {
    && (forall i | 0 <= i < |stack| :: stack[i] in g.name && g.name[stack[i]] in s.seen)
    && (forall i | 0 <= i < |s.out| :: s.out[i] in g.name && g.name[s.out[i]] in s.seen)
    && (forall i, j | 0 <= i < j < |stack| :: g.name[stack[i]] != g.name[stack[j]])
    && (forall i, j | 0 <= i < |s.out| && 0 <= j < |stack| :: g.name[s.out[i]] != g.name[stack[j]])
  }

  ghost predicate SeenAccounted(g: Graph, stack: seq<Node>, s: State) {
    forall m | m in s.seen :: Written(g, s.out, |s.out|, m) || OnStack(g, stack, m)
  }

  ghost predicate DepsIn(g: Graph, out: seq<Node>, names: set<string>) {
    forall i, d | 0 <= i < |out| && Edge(g, out[i], d) && d in g.name :: g.name[d] in names
  }

  /** `stack` holds the nodes whose `emit` call has not returned yet. */
  ghost predicate Inv(g: Graph, stack: seq<Node>, s: State) {
    && WrittenOnce(g, s.out) && DependenciesFirst(g, s.out)
    && NamesApart(g, stack, s) && SeenAccounted(g, stack, s) && DepsIn(g, s.out, s.seen)
  }

  ghost predicate AllReach(g: Graph, stack: seq<Node>, n: Node) {
    forall i | 0 <= i < |stack| :: Reaches(g, stack[i], n)
  }

  ghost predicate NewReachable(g: Graph, n: Node, s: State, r: State) {
    s.out <= r.out && forall i | |s.out| <= i < |r.out| :: Reaches(g, n, r.out[i])
  }

  lemma {:induction false} VisitKeeps(g: Graph, stack: seq<Node>, n: Node, s: State)
    requires Valid(g) && n in g.deps && Inv(g, stack, s) && AllReach(g, stack, n)
    ensures var r := Visit(g, n, s);
            Inv(g, stack, r) && g.name[n] in r.seen && NewReachable(g, n, s, r)
    decreases Unseen(g, s), 0
  {
    hide Inv;
    if g.name[n] !in s.seen {
      var s' := State(s.seen + {g.name[n]}, s.out);
      UnseenShrinks(g, s, n);
      ReachesSelf(g, n);
      InvPush(g, stack, n, s);
      VisitAllKeeps(g, stack + [n], g.deps[n], s', n);
      InvPop(g, stack, n, VisitAll(g, g.deps[n], s'));
    }
  }

  lemma InvPush(g: Graph, stack: seq<Node>, n: Node, s: State)
    requires Inv(g, stack, s) && n in g.name && g.name[n] !in s.seen
    ensures Inv(g, stack + [n], State(s.seen + {g.name[n]}, s.out))
  {
    var stack', s' := stack + [n], State(s.seen + {g.name[n]}, s.out);
    assert stack'[|stack|] == n;
    assert NamesApart(g, stack', s');
    forall m | m in s'.seen
      ensures Written(g, s'.out, |s'.out|, m) || OnStack(g, stack', m)
    {
      if m != g.name[n] && !Written(g, s.out, |s.out|, m) {
        var j :| 0 <= j < |stack| && stack[j] in g.name && g.name[stack[j]] == m;
        assert stack'[j] == stack[j];
      }
    }
  }

  lemma WrittenExtends(g: Graph, out: seq<Node>, n: Node, k: nat, name: string)
    requires k <= |out| && n in g.name
    ensures Written(g, out, k, name) <==> Written(g, out + [n], k, name)
    ensures Written(g, out + [n], |out| + 1, name) <==> Written(g, out, |out|, name) || g.name[n] == name
  {
    var out' := out + [n];
    assert forall j | 0 <= j < |out| :: out'[j] == out[j];
    assert out'[|out|] == n;
  }

  /** Writing n once all its dependencies have been seen. */
  lemma InvPop(g: Graph, stack: seq<Node>, n: Node, s: State)
    requires Valid(g) && n in g.deps && Inv(g, stack + [n], s) && AllReach(g, stack + [n], n)
    requires forall d | d in g.deps[n] && d in g.name :: g.name[d] in s.seen
    ensures Inv(g, stack, State(s.seen, s.out + [n]))
  {
    PopDependenciesFirst(g, stack, n, s);
    PopNames(g, stack, n, s);
    PopSeen(g, stack, n, s);
    hide DependenciesFirst, NamesApart, SeenAccounted, WrittenOnce, Written, Reaches, AllReach;
    var out' := s.out + [n];
    forall i, d | 0 <= i < |out'| && Edge(g, out'[i], d) && d in g.name
      ensures g.name[d] in s.seen
    {
      assert out'[i] == if i < |s.out| then s.out[i] else n;
    }
  }

  lemma PopNames(g: Graph, stack: seq<Node>, n: Node, s: State)
    requires WrittenOnce(g, s.out) && NamesApart(g, stack + [n], s)
    ensures WrittenOnce(g, s.out + [n]) && NamesApart(g, stack, State(s.seen, s.out + [n]))
  {
    var stack', out' := stack + [n], s.out + [n];
    assert stack'[|stack|] == n && out'[|s.out|] == n;
    assert forall j | 0 <= j < |stack| :: stack'[j] == stack[j];
    assert forall j | 0 <= j < |s.out| :: out'[j] == s.out[j];
  }

  lemma PopSeen(g: Graph, stack: seq<Node>, n: Node, s: State)
    requires SeenAccounted(g, stack + [n], s) && n in g.name
    ensures SeenAccounted(g, stack, State(s.seen, s.out + [n]))
  {
    var stack', out' := stack + [n], s.out + [n];
    forall m | m in s.seen
      ensures Written(g, out', |out'|, m) || OnStack(g, stack, m)
    {
      WrittenExtends(g, s.out, n, |s.out|, m);
      if !Written(g, out', |out'|, m) {
        var j :| 0 <= j < |stack'| && stack'[j] in g.name && g.name[stack'[j]] == m;
        assert stack'[j] == stack[j];
      }
    }
  }

  lemma PopDependenciesFirst(g: Graph, stack: seq<Node>, n: Node, s: State)
    requires Valid(g) && n in g.deps && Inv(g, stack + [n], s) && AllReach(g, stack + [n], n)
    requires forall d | d in g.deps[n] && d in g.name :: g.name[d] in s.seen
    ensures DependenciesFirst(g, s.out + [n])
  {
    var stack', out' := stack + [n], s.out + [n];
    forall i, d | 0 <= i < |out'| && Edge(g, out'[i], d) && d in g.name
      ensures Written(g, out', i, g.name[d]) || NamedReaches(g, g.name[d], out'[i])
    {
      WrittenExtends(g, s.out, n, i, g.name[d]);
      if i < |s.out| {
        assert out'[i] == s.out[i];
      } else if !Written(g, s.out, i, g.name[d]) {
        var j :| 0 <= j < |stack'| && stack'[j] in g.name && g.name[stack'[j]] == g.name[d];
        assert Reaches(g, stack'[j], n);
      }
    }
  }

  lemma {:induction false} VisitAllKeeps(g: Graph, stack: seq<Node>, ns: seq<Node>, s: State, parent: Node)
    requires Valid(g) && Inv(g, stack, s) && AllReach(g, stack, parent) && parent in g.deps
    requires forall i | 0 <= i < |ns| :: ns[i] in g.deps && Edge(g, parent, ns[i])
    ensures var r := VisitAll(g, ns, s);
            && Inv(g, stack, r) && NewReachable(g, parent, s, r)
            && forall i | 0 <= i < |ns| :: g.name[ns[i]] in r.seen
    decreases Unseen(g, s), |ns|
  {
    hide Inv, Reaches, Visit;
    if ns != [] {
      forall i | 0 <= i < |stack|
        ensures Reaches(g, stack[i], ns[0])
      {
        ReachesNext(g, stack[i], parent, ns[0]);
      }
      VisitKeeps(g, stack, ns[0], s);
      var r := Visit(g, ns[0], s);
      UnseenMonotone(g, s, r);
      forall i | |s.out| <= i < |r.out|
        ensures Reaches(g, parent, r.out[i])
      {
        ReachesVia(g, parent, ns[0], r.out[i]);
      }
      VisitAllKeeps(g, stack, ns[1..], r, parent);
    }
  }

  // ------------------------------------------------------------ the whole run

  function Emit(g: Graph, roots: seq<Node>): seq<Node>
    requires Valid(g) && forall i | 0 <= i < |roots| :: roots[i] in g.deps
  {
    VisitAll(g, roots, State({}, [])).out
  }

  ghost predicate FromRoot(g: Graph, roots: seq<Node>, n: Node) {
    exists i | 0 <= i < |roots| :: Reaches(g, roots[i], n)
  }

  lemma {:induction false} RootsKeep(g: Graph, roots: seq<Node>, ns: seq<Node>, s: State)
    requires Valid(g) && Inv(g, [], s)
    requires forall i | 0 <= i < |ns| :: ns[i] in g.deps && ns[i] in roots
    requires forall i | 0 <= i < |s.out| :: FromRoot(g, roots, s.out[i])
    ensures var r := VisitAll(g, ns, s);
            && Inv(g, [], r)
            && (forall i | 0 <= i < |r.out| :: FromRoot(g, roots, r.out[i]))
            && (forall i | 0 <= i < |ns| :: g.name[ns[i]] in r.seen)
    decreases |ns|
  {
    if ns != [] {
      VisitKeeps(g, [], ns[0], s);
      RootsKeep(g, roots, ns[1..], Visit(g, ns[0], s));
    }
  }

  ghost predicate RootsWritten(g: Graph, roots: seq<Node>, out: seq<Node>) {
    forall i | 0 <= i < |roots| && roots[i] in g.name :: Written(g, out, |out|, g.name[roots[i]])
  }

  ghost predicate Closed(g: Graph, out: seq<Node>) {
    forall i, d | 0 <= i < |out| && Edge(g, out[i], d) && d in g.name :: Written(g, out, |out|, g.name[d])
  }

  ghost predicate AllFromRoots(g: Graph, roots: seq<Node>, out: seq<Node>) {
    forall i | 0 <= i < |out| :: FromRoot(g, roots, out[i])
  }

  /** On every finite graph, cyclic or not: each name is written at most once, only types reachable
      from a root are written, the roots are, and every dependency of a written type is written, before
      it unless a type of that name reaches it. */
  lemma EmitCorrect(g: Graph, roots: seq<Node>)
    requires Valid(g) && forall i | 0 <= i < |roots| :: roots[i] in g.deps
    ensures var out := Emit(g, roots);
            && WrittenOnce(g, out) && DependenciesFirst(g, out)
            && AllFromRoots(g, roots, out) && RootsWritten(g, roots, out) && Closed(g, out)
  {
    RootsKeep(g, roots, roots, State({}, []));
  }

  ghost predicate HasDepNamed(g: Graph, a: Node, name: string) {
    exists d :: Edge(g, a, d) && d in g.name && g.name[d] == name
  }

  /** Types of one name have dependencies of the same names. */
  ghost predicate NamesFixDeps(g: Graph) {
    forall a, b, m | a in g.name && b in g.name && g.name[a] == g.name[b] && HasDepNamed(g, a, m) :: HasDepNamed(g, b, m)
  }

  lemma DepNamed(g: Graph, a: Node, b: Node)
    requires Edge(g, a, b) && b in g.name
    ensures HasDepNamed(g, a, g.name[b])
  {}

  lemma DepWithName(g: Graph, a: Node, name: string) returns (d: Node)
    requires HasDepNamed(g, a, name)
    ensures Edge(g, a, d) && d in g.name && g.name[d] == name
  {
    d :| Edge(g, a, d) && d in g.name && g.name[d] == name;
  }

  lemma StepIsWritten(g: Graph, roots: seq<Node>, a: Node, b: Node)
    requires Valid(g) && NamesFixDeps(g) && Edge(g, a, b)
    requires forall i | 0 <= i < |roots| :: roots[i] in g.deps
    requires var out := Emit(g, roots); Written(g, out, |out|, g.name[a])
    ensures var out := Emit(g, roots); b in g.name && Written(g, out, |out|, g.name[b])
  {
    hide Emit, DependenciesFirst, WrittenOnce, AllFromRoots, RootsWritten, HasDepNamed, NamesFixDeps;
    EmitCorrect(g, roots);
    var out := Emit(g, roots);
    var j :| 0 <= j < |out| && out[j] in g.name && g.name[out[j]] == g.name[a];
    assert b in g.deps;
    DepNamed(g, a, b);
    SameDeps(g, a, out[j], g.name[b]);
    var e := DepWithName(g, out[j], g.name[b]);
  }

  lemma {:induction false} PathIsWritten(g: Graph, roots: seq<Node>, p: seq<Node>)
    requires Valid(g) && NamesFixDeps(g) && Path(g, p)
    requires forall i | 0 <= i < |roots| :: roots[i] in g.deps
    requires var out := Emit(g, roots); Written(g, out, |out|, g.name[p[0]])
    ensures var out := Emit(g, roots); var last := p[|p| - 1];
            last in g.name && Written(g, out, |out|, g.name[last])
    decreases |p|
  {
    hide Emit, Written, NamesFixDeps, Edge;
    if |p| > 1 {
      assert Edge(g, p[0], p[0 + 1]);
      StepIsWritten(g, roots, p[0], p[1]);
      var q := p[1..];
      forall i | 0 <= i < |q| - 1
        ensures Edge(g, q[i], q[i + 1])
      {
        assert Edge(g, p[i + 1], p[i + 1 + 1]);
      }
      PathIsWritten(g, roots, q);
    }
  }

  lemma ReachableIsWritten(g: Graph, roots: seq<Node>, n: Node)
    requires Valid(g) && NamesFixDeps(g) && forall i | 0 <= i < |roots| :: roots[i] in g.deps
    requires FromRoot(g, roots, n)
    ensures var out := Emit(g, roots); n in g.name && Written(g, out, |out|, g.name[n])
  {
    hide Emit, DependenciesFirst, WrittenOnce, NamesFixDeps, Edge, Written, AllFromRoots, Closed;
    EmitCorrect(g, roots);
    var i :| 0 <= i < |roots| && Reaches(g, roots[i], n);
    var p :| Connects(g, p, roots[i], n);
    PathIsWritten(g, roots, p);
  }

  ghost predicate ReachableName(g: Graph, roots: seq<Node>, name: string) {
    exists n | n in g.name && g.name[n] == name :: FromRoot(g, roots, n)
  }

  /** When a name fixes its dependencies, exactly the reachable names are written, once each. */
  lemma EmitsExactlyReachable(g: Graph, roots: seq<Node>, name: string)
    requires Valid(g) && NamesFixDeps(g) && forall i | 0 <= i < |roots| :: roots[i] in g.deps
    ensures var out := Emit(g, roots);
            WrittenOnce(g, out) && (Written(g, out, |out|, name) <==> ReachableName(g, roots, name))
  {
    hide Emit, DependenciesFirst, NamesFixDeps, Edge, FromRoot, Closed, RootsWritten, WrittenOnce;
    EmitCorrect(g, roots);
    var out := Emit(g, roots);
    if ReachableName(g, roots, name) {
      var n :| n in g.name && g.name[n] == name && FromRoot(g, roots, n);
      ReachableIsWritten(g, roots, n);
    }
    if Written(g, out, |out|, name) {
      var j :| 0 <= j < |out| && out[j] in g.name && g.name[out[j]] == name;
      assert AllFromRoots(g, roots, out);
    }
  }

  /** From d, some type of that name can be reached. */
  ghost predicate ReachesNamed(g: Graph, d: Node, name: string) {
    exists e | e in g.name && g.name[e] == name :: Reaches(g, d, e)
  }

  /** A path can be followed, by name, from any node that has the name of its first. */
  lemma {:induction false} FollowByName(g: Graph, p: seq<Node>, d: Node)
    requires Valid(g) && NamesFixDeps(g) && Path(g, p) && d in g.deps
    requires g.name[p[0]] == g.name[d]
    ensures p[|p| - 1] in g.name && ReachesNamed(g, d, g.name[p[|p| - 1]])
    decreases |p|
  {
    hide NamesFixDeps, Reaches, HasDepNamed;
    if |p| == 1 {
      ReachesSelf(g, d);
    } else {
      assert Edge(g, p[0], p[0 + 1]);
      DepNamed(g, p[0], p[1]);
      SameDeps(g, p[0], d, g.name[p[1]]);
      var next := DepWithName(g, d, g.name[p[1]]);
      var q := p[1..];
      forall i | 0 <= i < |q| - 1
        ensures Edge(g, q[i], q[i + 1])
      {
        assert Edge(g, p[i + 1], p[i + 1 + 1]);
      }
      FollowByName(g, q, next);
      var e :| e in g.name && g.name[e] == g.name[p[|p| - 1]] && Reaches(g, next, e);
      ReachesVia(g, d, next, e);
    }
  }

  lemma SameDeps(g: Graph, a: Node, b: Node, m: string)
    requires NamesFixDeps(g) && a in g.name && b in g.name && g.name[a] == g.name[b] && HasDepNamed(g, a, m)
    ensures HasDepNamed(g, b, m)
  {}

  lemma NotBefore(g: Graph, roots: seq<Node>, i: nat, d: Node) returns (p: seq<Node>)
    requires Valid(g) && forall i | 0 <= i < |roots| :: roots[i] in g.deps
    requires i < |Emit(g, roots)| && Edge(g, Emit(g, roots)[i], d) && d in g.name
    requires !Written(g, Emit(g, roots), i, g.name[d])
    ensures Path(g, p) && p[0] in g.name && g.name[p[0]] == g.name[d] && p[|p| - 1] == Emit(g, roots)[i]
  {
    hide Emit, WrittenOnce, AllFromRoots, RootsWritten, Closed, Edge, Written;
    EmitCorrect(g, roots);
    var out := Emit(g, roots);
    assert NamedReaches(g, g.name[d], out[i]);
    var x :| x in g.name && g.name[x] == g.name[d] && Reaches(g, x, out[i]);
    p :| Connects(g, p, x, out[i]);
  }

  /** When a name fixes the names it depends on, a dependency is written before the type that needs
      it, unless from the dependency a type of that name can be reached again. */
  lemma DependencyComesFirst(g: Graph, roots: seq<Node>, i: nat, d: Node)
    requires Valid(g) && NamesFixDeps(g) && forall i | 0 <= i < |roots| :: roots[i] in g.deps
    requires i < |Emit(g, roots)| && Edge(g, Emit(g, roots)[i], d)
    ensures var out := Emit(g, roots);
            out[i] in g.name && d in g.name && (!ReachesNamed(g, d, g.name[out[i]]) ==> Written(g, out, i, g.name[d]))
  {
    hide Emit, NamesFixDeps, ReachesNamed, Written, Path;
    assert d in g.deps && Emit(g, roots)[i] in g.deps;
    if !Written(g, Emit(g, roots), i, g.name[d]) {
      var p := NotBefore(g, roots, i, d);
      FollowByName(g, p, d);
    }
  }

  /** A name fixes its list of dependencies. */
  ghost predicate NamesFixLists(g: Graph) {
    forall a, b | a in g.deps && b in g.deps && a in g.name && b in g.name && g.name[a] == g.name[b] :: g.deps[a] == g.deps[b]
  }

  /** When a name fixes its dependency list: for every edge from a written type t to a type d of
      another name that does not reach t, d is written before t. */
  lemma AcyclicEdgeInOrder(g: Graph, roots: seq<Node>, i: nat, d: Node)
    requires Valid(g) && NamesFixLists(g) && forall i | 0 <= i < |roots| :: roots[i] in g.deps
    requires i < |Emit(g, roots)| && Edge(g, Emit(g, roots)[i], d)
    ensures var t := Emit(g, roots)[i];
            && t in g.name && d in g.name
            && (g.name[d] != g.name[t] && !Reaches(g, d, t) ==> Written(g, Emit(g, roots), i, g.name[d]))
  {
    hide Emit, Written, Reaches;
    var t := Emit(g, roots)[i];
    assert d in g.deps && t in g.deps;
    if g.name[d] != g.name[t] && !Written(g, Emit(g, roots), i, g.name[d]) {
      var p := NotBefore(g, roots, i, d);
      assert Edge(g, p[0], p[0 + 1]);
      var q := p[1..];
      forall j | 0 <= j < |q| - 1
        ensures Edge(g, q[j], q[j + 1])
      {
        assert Edge(g, p[j + 1], p[j + 1 + 1]);
      }
      assert Connects(g, q, p[1], t);
      assert Reaches(g, p[1], t) by { PathReaches(g, q, p[1], t); }
      ReachesVia(g, d, p[1], t);
    }
  }

  lemma PathReaches(g: Graph, p: seq<Node>, a: Node, b: Node)
    requires Connects(g, p, a, b)
    ensures Reaches(g, a, b)
  {}

  /** Types are taken from left to right: what comes later in a list adds to what comes earlier. */
  lemma {:induction false} LeftToRight(g: Graph, ns: seq<Node>, ms: seq<Node>, s: State)
    requires Valid(g) && (forall i | 0 <= i < |ns| :: ns[i] in g.deps) && forall i | 0 <= i < |ms| :: ms[i] in g.deps
    ensures VisitAll(g, ns + ms, s) == VisitAll(g, ms, VisitAll(g, ns, s))
    decreases |ns|
  {
    hide Visit;
    if ns == [] {
      assert ns + ms == ms;
    } else {
      assert (ns + ms)[0] == ns[0] && (ns + ms)[1..] == ns[1..] + ms;
      LeftToRight(g, ns[1..], ms, Visit(g, ns[0], s));
    }
  }

  /** The assumption matters: two types called "object" share one entry of `seen`, so the
      dependencies of the second are skipped and type "B" is never written. */
  lemma SharedNameSkipsDependencies()
    ensures var g := Graph(map[0 := "A", 1 := "object", 2 := "object", 3 := "B"],
                           map[0 := [1, 2], 1 := [], 2 := [3], 3 := []]);
            Valid(g) && Reaches(g, 0, 3) && Emit(g, [0]) == [1, 0]
  {
    var g := Graph(map[0 := "A", 1 := "object", 2 := "object", 3 := "B"],
                   map[0 := [1, 2], 1 := [], 2 := [3], 3 := []]);
    assert Edge(g, 0, 2) && Edge(g, 2, 3);
    assert Connects(g, [0, 2, 3], 0, 3);
    var s1 := State({"A"}, []);
    var s2 := State({"A", "object"}, [1]);
    assert {"A"} + {"object"} == {"A", "object"};
    assert VisitAll(g, [], State({"A", "object"}, [])) == State({"A", "object"}, []);
    assert Visit(g, 1, s1) == s2;
    assert Visit(g, 2, s2) == s2;
    assert [1, 2][1..] == [2] && [2][1..] == [];
    assert VisitAll(g, [2], s2) == VisitAll(g, [], s2) == s2;
    assert VisitAll(g, [1, 2], s1) == s2;
    assert {} + {"A"} == {"A"};
    assert Visit(g, 0, State({}, [])) == State(s2.seen, [1, 0]);
    assert [0][1..] == [];
  }
}

/** The emitter as the generator runs it: a `seen` map and output updated by recursive calls. */
module EmitterCode {
  import E = Emitter

  class TypeEmitter {
    const g: E.Graph
    var seen: set<string>
    var out: seq<E.Node>

    ghost function View(): E.State reads this { E.State(seen, out) }

    constructor (graph: E.Graph)
      ensures g == graph && View() == E.State({}, [])
    {
      g, seen, out := graph, {}, [];
    }

    method Emit(n: E.Node)
      requires E.Valid(g) && n in g.deps
      modifies this
      ensures View() == E.Visit(g, n, old(View()))
      decreases E.Unseen(g, View()), 0
    {
      if g.name[n] in seen {
        return;
      }
      E.UnseenShrinks(g, View(), n);
      seen := seen + {g.name[n]};
      EmitEach(g.deps[n]);
      out := out + [n];
    }

    /** The loop over dependencies, and over the message types. */
    method EmitEach(ns: seq<E.Node>)
      requires E.Valid(g) && forall i | 0 <= i < |ns| :: ns[i] in g.deps
      modifies this
      ensures View() == E.VisitAll(g, ns, old(View()))
      decreases E.Unseen(g, View()), 1
    {
      for i := 0 to |ns|
        invariant old(seen) <= seen
        invariant E.VisitAll(g, ns[i..], View()) == E.VisitAll(g, ns, old(View()))
      {
        E.UnseenMonotone(g, old(View()), View());
        assert ns[i..][1..] == ns[i + 1..];
        Emit(ns[i]);
      }
    }
  }

  /** Position of the first x in list. */
  function FirstIndex(list: seq<string>, x: string): (k: nat)
    ensures k <= |list| && (k < |list| ==> list[k] == x) && forall i | 0 <= i < k :: list[i] != x
  {
    if list == [] || list[0] == x then 0 else 1 + FirstIndex(list[1..], x)
  }

  /** `removeDuplicateStr`: the same elements, each once, in the order they first occur. */
  method RemoveDuplicates(list: seq<string>) returns (out: seq<string>)
    ensures forall x :: x in out <==> x in list
    ensures forall i, j | 0 <= i < j < |out| :: FirstIndex(list, out[i]) < FirstIndex(list, out[j])
  {
    var keys: set<string> := {};
    out := [];
    for n := 0 to |list|
      invariant forall x :: x in keys <==> x in out
      invariant forall x :: x in out <==> x in list[..n]
      invariant forall i | 0 <= i < |out| :: FirstIndex(list, out[i]) < n
      invariant forall i, j | 0 <= i < j < |out| :: FirstIndex(list, out[i]) < FirstIndex(list, out[j])
    {
      assert list[..n + 1] == list[..n] + [list[n]];
      if list[n] !in keys {
        keys := keys + {list[n]};
        out := out + [list[n]];
        assert list[n] !in list[..n];
      }
    }
  }
}
