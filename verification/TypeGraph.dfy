/**
 The type graph that the attribute-path search walks: the registered types, their
 attributes, the child relation between types, and the recorded aggregations.
 */
module TypeGraph {
  import opened Wrappers

  /** The index of a type in the registry. */
  type TypeId = nat

  /** An attribute, classified by the kind of its checker. */
  datatype Attribute =
    | Pointer(name: string, pointee: TypeId)
    | ObjectVector(name: string, item: TypeId)
    | Plain(name: string)

  datatype TypeInfo = TypeInfo(name: string, attributes: seq<Attribute>)

  /** `childOf` holds a pair (c, p) when c is a strict descendant of p. */
  datatype Registry = Registry(types: seq<TypeInfo>, childOf: set<(TypeId, TypeId)>, objectType: TypeId)

  datatype Graph = Graph(registry: Registry, aggregates: seq<(TypeId, TypeId)>) {

    predicate Registered(t: TypeId) {
      t < |registry.types|
    }

    /** Every type that an attribute or an aggregation mentions is registered. */
    predicate Valid() {
      && (forall t, i :: 0 <= t < |registry.types| && 0 <= i < |registry.types[t].attributes|
            ==> AttributeValid(registry.types[t].attributes[i]))
      && (forall i :: 0 <= i < |aggregates| ==> Registered(aggregates[i].0) && Registered(aggregates[i].1))
    }

    predicate AttributeValid(a: Attribute) {
      match a
      case Pointer(_, pointee) => Registered(pointee)
      case ObjectVector(_, item) => Registered(item)
      case Plain(_) => true
    }
  }

  /** One step of a configuration path: the text it adds, and the type it leads to. */
  datatype Edge = Edge(name: string, target: TypeId)

  /** A pointer to a plain Object is not followed. */
  function AttributeEdge(g: Graph, a: Attribute): seq<Edge> {
    match a
    case Pointer(name, pointee) => if pointee == g.registry.objectType then [] else [Edge(name, pointee)]
    case ObjectVector(name, item) => [Edge(name + "/[i]", item)]
    case Plain(_) => []
  }

  /** The edges of the first `n` attributes of `tid`. */
  function AttributeEdges(g: Graph, tid: TypeId, n: nat): seq<Edge>
    requires g.Registered(tid) && n <= |g.registry.types[tid].attributes|
  {
    if n == 0 then []
    else AttributeEdges(g, tid, n - 1) + AttributeEdge(g, g.registry.types[tid].attributes[n - 1])
  }

  function ChildEdge(g: Graph, tid: TypeId, c: TypeId): seq<Edge>
    requires g.Registered(c)
  {
    if (c, tid) in g.registry.childOf then [Edge("$" + g.registry.types[c].name, c)] else []
  }

  /** The edges to those of the first `n` registered types that are children of `tid`. */
  function ChildEdges(g: Graph, tid: TypeId, n: nat): seq<Edge>
    requires n <= |g.registry.types|
  {
    if n == 0 then []
    else ChildEdges(g, tid, n - 1) + ChildEdge(g, tid, n - 1)
  }

  function AggregateEdge(g: Graph, tid: TypeId, p: (TypeId, TypeId)): seq<Edge>
    requires g.Registered(p.0) && g.Registered(p.1)
  {
    if p.1 == tid then [Edge("$" + g.registry.types[p.0].name, p.0)]
    else if p.0 == tid then [Edge("$" + g.registry.types[p.1].name, p.1)]
    else []
  }

  /** The edges that the first `n` recorded aggregations give `tid`, in either direction. */
  function AggregateEdges(g: Graph, tid: TypeId, n: nat): seq<Edge>
    requires g.Valid() && n <= |g.aggregates|
  {
    if n == 0 then []
    else AggregateEdges(g, tid, n - 1) + AggregateEdge(g, tid, g.aggregates[n - 1])
  }

  /** All edges out of `tid`, in the order in which the search follows them. */
  function Edges(g: Graph, tid: TypeId): (es: seq<Edge>)
    requires g.Valid() && g.Registered(tid)
    ensures forall i :: 0 <= i < |es| ==> g.Registered(es[i].target)
  {
    AttributeEdgesRegistered(g, tid, |g.registry.types[tid].attributes|);
    ChildEdgesRegistered(g, tid, |g.registry.types|);
    AggregateEdgesRegistered(g, tid, |g.aggregates|);
    AttributeEdges(g, tid, |g.registry.types[tid].attributes|) +
    ChildEdges(g, tid, |g.registry.types|) +
    AggregateEdges(g, tid, |g.aggregates|)
  }

  ghost predicate TargetsRegistered(g: Graph, es: seq<Edge>) {
    forall i :: 0 <= i < |es| ==> g.Registered(es[i].target)
  }

  lemma AttributeEdgesRegistered(g: Graph, tid: TypeId, n: nat)
    requires g.Valid() && g.Registered(tid) && n <= |g.registry.types[tid].attributes|
    ensures TargetsRegistered(g, AttributeEdges(g, tid, n))
  {
  }

  lemma ChildEdgesRegistered(g: Graph, tid: TypeId, n: nat)
    requires n <= |g.registry.types|
    ensures TargetsRegistered(g, ChildEdges(g, tid, n))
  {
  }

  lemma AggregateEdgesRegistered(g: Graph, tid: TypeId, n: nat)
    requires g.Valid() && n <= |g.aggregates|
    ensures TargetsRegistered(g, AggregateEdges(g, tid, n))
  {
  }

  // ----- Walks -----

  /** A walk is named by the index of the edge it takes at each type. */
  type Walk = seq<nat>

  predicate IsWalk(g: Graph, from: TypeId, w: Walk)
    requires g.Valid() && g.Registered(from)
    decreases |w|
  {
    w == [] || (w[0] < |Edges(g, from)| && IsWalk(g, Edges(g, from)[w[0]].target, w[1..]))
  }

  /** The types on a walk, the first one included. */
  function Nodes(g: Graph, from: TypeId, w: Walk): (ns: seq<TypeId>)
    requires g.Valid() && g.Registered(from) && IsWalk(g, from, w)
    ensures |ns| == |w| + 1 && ns[0] == from
    decreases |w|
  {
    [from] + if w == [] then [] else Nodes(g, Edges(g, from)[w[0]].target, w[1..])
  }

  function Labels(g: Graph, from: TypeId, w: Walk): seq<string>
    requires g.Valid() && g.Registered(from) && IsWalk(g, from, w)
    decreases |w|
  {
    if w == [] then []
    else [Edges(g, from)[w[0]].name] + Labels(g, Edges(g, from)[w[0]].target, w[1..])
  }

  function End(g: Graph, from: TypeId, w: Walk): TypeId
    requires g.Valid() && g.Registered(from) && IsWalk(g, from, w)
  {
    Nodes(g, from, w)[|w|]
  }

  /** A simple path that also stays clear of the types in `avoid`. */
  ghost predicate IsSimplePath(g: Graph, avoid: seq<TypeId>, from: TypeId, w: Walk)
    requires g.Valid() && g.Registered(from)
  {
    && IsWalk(g, from, w)
    && NoDuplicates(Nodes(g, from, w))
    && (forall t :: t in Nodes(g, from, w) ==> t !in avoid)
  }

  ghost predicate Reachable(g: Graph, from: TypeId, to: TypeId)
    requires g.Valid() && g.Registered(from)
  {
    exists w: Walk :: IsWalk(g, from, w) && End(g, from, w) == to
  }

  /** Depth-first order: a walk comes before its extensions, and lower edges come first. */
  predicate Before(v: Walk, w: Walk) {
    w != [] && (v == [] || v[0] < w[0] || (v[0] == w[0] && Before(v[1..], w[1..])))
  }

  ghost predicate InOrder(ws: seq<Walk>) {
    forall i, j :: 0 <= i < j < |ws| ==> Before(ws[i], ws[j])
  }

  /** The depth-first order is strict, so an ordered list holds no walk twice. */
  lemma {:induction false} BeforeIsStrict(w: Walk)
    ensures !Before(w, w)
  {
    if w != [] {
      BeforeIsStrict(w[1..]);
    }
  }

  // ----- Walks shorten to simple paths -----

  /** Simple paths, one step at a time. */
  lemma SimplePathStep(g: Graph, avoid: seq<TypeId>, from: TypeId, w: Walk)
    requires g.Valid() && g.Registered(from)
    ensures IsSimplePath(g, avoid, from, w) <==>
            && from !in avoid
            && (w == [] ||
                (w[0] < |Edges(g, from)| && IsSimplePath(g, avoid + [from], Edges(g, from)[w[0]].target, w[1..])))
  {
    if w != [] && w[0] < |Edges(g, from)| && IsWalk(g, Edges(g, from)[w[0]].target, w[1..]) {
      var rest := Nodes(g, Edges(g, from)[w[0]].target, w[1..]);
      var all := Nodes(g, from, w);
      assert all == [from] + rest;
      if IsSimplePath(g, avoid, from, w) {
        forall i, j | 0 <= i < j < |rest| ensures rest[i] != rest[j] {
          assert all[i + 1] == rest[i] && all[j + 1] == rest[j];
        }
        forall t | t in rest ensures t !in avoid + [from] {
          var i :| 0 <= i < |rest| && rest[i] == t;
          assert all[i + 1] == t && all[0] == from;
        }
      } else if IsSimplePath(g, avoid + [from], Edges(g, from)[w[0]].target, w[1..]) && from !in avoid {
        forall i, j | 0 <= i < j < |all| ensures all[i] != all[j] {
          assert all[j] == rest[j - 1] && rest[j - 1] in rest;
        }
        forall t | t in all ensures t !in avoid {
          assert t == from || (t in rest && t !in avoid + [from]);
        }
      }
    }
  }

  /** The part of a walk that starts where it visits `n`. */
  lemma WalkFrom(g: Graph, from: TypeId, w: Walk, n: TypeId) returns (v: Walk)
    requires g.Valid() && g.Registered(from) && IsWalk(g, from, w)
    requires n in Nodes(g, from, w)
    ensures g.Registered(n) && IsWalk(g, n, v) && |v| <= |w|
    ensures End(g, n, v) == End(g, from, w)
    ensures forall t :: t in Nodes(g, n, v) ==> t in Nodes(g, from, w)
    decreases |w|
  {
    hide Edges;
    if n == from {
      v := w;
    } else {
      v := WalkFrom(g, Edges(g, from)[w[0]].target, w[1..], n);
    }
  }

  /** Taking edge `i` first. */
  lemma StepFirst(g: Graph, from: TypeId, i: nat, w: Walk)
    requires g.Valid() && g.Registered(from) && i < |Edges(g, from)|
    requires IsWalk(g, Edges(g, from)[i].target, w)
    ensures IsWalk(g, from, [i] + w)
    ensures Nodes(g, from, [i] + w) == [from] + Nodes(g, Edges(g, from)[i].target, w)
    ensures End(g, from, [i] + w) == End(g, Edges(g, from)[i].target, w)
  {
    hide Edges;
    assert ([i] + w)[1..] == w;
  }

  /** Every walk shortens to a simple path between the same types. */
  lemma Shorten(g: Graph, from: TypeId, w: Walk) returns (v: Walk)
    requires g.Valid() && g.Registered(from) && IsWalk(g, from, w)
    ensures IsSimplePath(g, [], from, v) && End(g, from, v) == End(g, from, w)
    ensures forall t :: t in Nodes(g, from, v) ==> t in Nodes(g, from, w)
    decreases |w|
  {
    hide Edges;
    if w == [] {
      v := [];
    } else {
      var next := Edges(g, from)[w[0]].target;
      assert [w[0]] + w[1..] == w;
      StepFirst(g, from, w[0], w[1..]);
      if from in Nodes(g, next, w[1..]) {
        var shorter := WalkFrom(g, next, w[1..], from);
        v := Shorten(g, from, shorter);
      } else {
        var rest := Shorten(g, next, w[1..]);
        v := [w[0]] + rest;
        StepFirst(g, from, w[0], rest);
        StepSimple(g, from, w[0], rest);
      }
    }
  }

  lemma StepSimple(g: Graph, from: TypeId, i: nat, w: Walk)
    requires g.Valid() && g.Registered(from) && i < |Edges(g, from)|
    requires IsSimplePath(g, [], Edges(g, from)[i].target, w) && from !in Nodes(g, Edges(g, from)[i].target, w)
    ensures IsSimplePath(g, [], from, [i] + w)
  {
    hide Edges, Nodes, IsWalk;
    StepFirst(g, from, i, w);
    var rest := Nodes(g, Edges(g, from)[i].target, w);
    forall a, b | 0 <= a < b < |rest| + 1 ensures ([from] + rest)[a] != ([from] + rest)[b] {
      assert ([from] + rest)[b] == rest[b - 1] && rest[b - 1] in rest;
    }
  }
}
