/**
 Which edges the search follows, in terms of the registry and the recorded aggregations only,
 and how often each one occurs; and what the log says of one type.
 */
module GraphEdges {
  import opened TypeGraph
  import opened PathSearch
  import opened PathSearchTheorems

  function Occurrences(es: seq<Edge>, e: Edge): nat {
    if es == [] then 0 else Occurrences(es[..|es| - 1], e) + if es[|es| - 1] == e then 1 else 0
  }

  lemma {:induction false} OccurrencesConcat(a: seq<Edge>, b: seq<Edge>, e: Edge)
    ensures Occurrences(a + b, e) == Occurrences(a, e) + Occurrences(b, e)
    ensures Occurrences(b, e) > 0 <==> e in b
  {
    if b == [] {
      assert a + b == a;
    } else {
      var n := |b| - 1;
      assert (a + b)[..|a| + n] == a + b[..n];
      assert b == b[..n] + [b[n]];
      OccurrencesConcat(a, b[..n], e);
    }
  }

  lemma OccurrencesOne(es: seq<Edge>, e: Edge)
    ensures es == [] ==> Occurrences(es, e) == 0
    ensures |es| == 1 ==> Occurrences(es, e) == if es[0] == e then 1 else 0
  {
  }

  // ----- Where an edge comes from -----

  /** A pointer to another type than plain Object, or a vector of objects. */
  predicate AttributeGives(g: Graph, a: Attribute, e: Edge) {
    || (a.Pointer? && a.pointee != g.registry.objectType && e.name == a.name && e.target == a.pointee)
    || (a.ObjectVector? && e.name == a.name + "/[i]" && e.target == a.item)
  }

  predicate NamesTarget(g: Graph, e: Edge) {
    g.Registered(e.target) && e.name == "$" + g.registry.types[e.target].name
  }

  function AttributesGiving(g: Graph, tid: TypeId, e: Edge, n: nat): set<nat>
    requires g.Registered(tid) && n <= |g.registry.types[tid].attributes|
  {
    set i | 0 <= i < n && AttributeGives(g, g.registry.types[tid].attributes[i], e)
  }

  /** A child of `tid`, which the edge leads to. */
  predicate ChildGives(g: Graph, tid: TypeId, c: TypeId, e: Edge) {
    (c, tid) in g.registry.childOf && c == e.target && NamesTarget(g, e)
  }

  /** The registered children of `tid` among the first `n` types: at most the target itself. */
  function ChildrenGiving(g: Graph, tid: TypeId, e: Edge, n: nat): set<nat> {
    set c | 0 <= c < n && ChildGives(g, tid, c, e)
  }

  /** An aggregation that has `tid` on one side and the target on the other. */
  predicate AggregationGives(g: Graph, tid: TypeId, p: (TypeId, TypeId), e: Edge) {
    NamesTarget(g, e) && (p == (tid, e.target) || p == (e.target, tid))
  }

  function AggregationsGiving(g: Graph, tid: TypeId, e: Edge, n: nat): set<nat>
    requires n <= |g.aggregates|
  {
    set k | 0 <= k < n && AggregationGives(g, tid, g.aggregates[k], e)
  }

  // ----- Each loop -----

  lemma AttributeEdgeCount(g: Graph, a: Attribute, e: Edge)
    ensures Occurrences(AttributeEdge(g, a), e) == if AttributeGives(g, a, e) then 1 else 0
  {
    hide Occurrences;
    OccurrencesOne(AttributeEdge(g, a), e);
  }

  lemma ChildEdgeCount(g: Graph, tid: TypeId, c: TypeId, e: Edge)
    requires g.Registered(c)
    ensures Occurrences(ChildEdge(g, tid, c), e) ==
            if ChildGives(g, tid, c, e) then 1 else 0
  {
    hide Occurrences;
    OccurrencesOne(ChildEdge(g, tid, c), e);
  }

  lemma AggregateEdgeCount(g: Graph, tid: TypeId, p: (TypeId, TypeId), e: Edge)
    requires g.Registered(p.0) && g.Registered(p.1)
    ensures Occurrences(AggregateEdge(g, tid, p), e) ==
            if AggregationGives(g, tid, p, e) then 1 else 0
  {
    hide Occurrences;
    OccurrencesOne(AggregateEdge(g, tid, p), e);
  }

  lemma AttributeUnfold(g: Graph, tid: TypeId, e: Edge, n: nat)
    requires g.Registered(tid) && n <= |g.registry.types[tid].attributes|
    ensures n == 0 ==> AttributeEdges(g, tid, n) == [] && AttributesGiving(g, tid, e, n) == {}
    ensures n > 0 ==> AttributeEdges(g, tid, n) ==
                      AttributeEdges(g, tid, n - 1) + AttributeEdge(g, g.registry.types[tid].attributes[n - 1])
  {
    hide AttributeEdge;
  }

  lemma AttributeStep(g: Graph, tid: TypeId, e: Edge, n: nat)
    requires g.Registered(tid) && n <= |g.registry.types[tid].attributes| && n > 0
    ensures |AttributesGiving(g, tid, e, n)| == |AttributesGiving(g, tid, e, n - 1)| +
            if AttributeGives(g, g.registry.types[tid].attributes[n - 1], e) then 1 else 0
  {
    var s := AttributesGiving(g, tid, e, n - 1);
    assert n - 1 !in s;
    assert AttributesGiving(g, tid, e, n) ==
           s + if AttributeGives(g, g.registry.types[tid].attributes[n - 1], e) then {n - 1} else {};
  }

  lemma {:induction false} AttributeEdgesCount(g: Graph, tid: TypeId, e: Edge, n: nat)
    requires g.Registered(tid) && n <= |g.registry.types[tid].attributes|
    ensures Occurrences(AttributeEdges(g, tid, n), e) == |AttributesGiving(g, tid, e, n)|
    decreases n
  {
    hide AttributeEdges, Occurrences, AttributeEdge, AttributeGives, AttributesGiving;
    AttributeUnfold(g, tid, e, n);
    OccurrencesOne([], e);
    if n > 0 {
      AttributeEdgesCount(g, tid, e, n - 1);
      AttributeStep(g, tid, e, n);
      AttributeEdgeCount(g, g.registry.types[tid].attributes[n - 1], e);
      OccurrencesConcat(AttributeEdges(g, tid, n - 1), AttributeEdge(g, g.registry.types[tid].attributes[n - 1]), e);
    }
  }

  lemma ChildUnfold(g: Graph, tid: TypeId, e: Edge, n: nat)
    requires n <= |g.registry.types|
    ensures n == 0 ==> ChildEdges(g, tid, n) == [] && ChildrenGiving(g, tid, e, n) == {}
    ensures n > 0 ==> ChildEdges(g, tid, n) == ChildEdges(g, tid, n - 1) + ChildEdge(g, tid, n - 1)
  {
    hide ChildEdge;
  }

  lemma ChildStep(g: Graph, tid: TypeId, e: Edge, n: nat)
    requires n <= |g.registry.types| && n > 0
    ensures |ChildrenGiving(g, tid, e, n)| == |ChildrenGiving(g, tid, e, n - 1)| +
            if ChildGives(g, tid, n - 1, e) then 1 else 0
  {
    var s := ChildrenGiving(g, tid, e, n - 1);
    assert n - 1 !in s;
    assert ChildrenGiving(g, tid, e, n) == s + if ChildGives(g, tid, n - 1, e) then {n - 1} else {};
  }

  lemma {:induction false} ChildEdgesCount(g: Graph, tid: TypeId, e: Edge, n: nat)
    requires n <= |g.registry.types|
    ensures Occurrences(ChildEdges(g, tid, n), e) == |ChildrenGiving(g, tid, e, n)|
    decreases n
  {
    hide ChildEdges, Occurrences, ChildEdge, ChildGives, ChildrenGiving;
    ChildUnfold(g, tid, e, n);
    OccurrencesOne([], e);
    if n > 0 {
      ChildEdgesCount(g, tid, e, n - 1);
      ChildStep(g, tid, e, n);
      ChildEdgeCount(g, tid, n - 1, e);
      OccurrencesConcat(ChildEdges(g, tid, n - 1), ChildEdge(g, tid, n - 1), e);
    }
  }

  lemma AggregateUnfold(g: Graph, tid: TypeId, e: Edge, n: nat)
    requires g.Valid() && n <= |g.aggregates|
    ensures n == 0 ==> AggregateEdges(g, tid, n) == [] && AggregationsGiving(g, tid, e, n) == {}
    ensures n > 0 ==> AggregateEdges(g, tid, n) ==
                      AggregateEdges(g, tid, n - 1) + AggregateEdge(g, tid, g.aggregates[n - 1])
  {
    hide AggregateEdge;
  }

  lemma AggregateStep(g: Graph, tid: TypeId, e: Edge, n: nat)
    requires g.Valid() && n <= |g.aggregates| && n > 0
    ensures |AggregationsGiving(g, tid, e, n)| == |AggregationsGiving(g, tid, e, n - 1)| +
            if AggregationGives(g, tid, g.aggregates[n - 1], e) then 1 else 0
  {
    var s := AggregationsGiving(g, tid, e, n - 1);
    assert n - 1 !in s;
    assert AggregationsGiving(g, tid, e, n) ==
           s + if AggregationGives(g, tid, g.aggregates[n - 1], e) then {n - 1} else {};
  }

  lemma {:induction false} AggregateEdgesCount(g: Graph, tid: TypeId, e: Edge, n: nat)
    requires g.Valid() && n <= |g.aggregates|
    ensures Occurrences(AggregateEdges(g, tid, n), e) == |AggregationsGiving(g, tid, e, n)|
    decreases n
  {
    hide AggregateEdges, Occurrences, AggregateEdge, AggregationGives, AggregationsGiving;
    AggregateUnfold(g, tid, e, n);
    OccurrencesOne([], e);
    if n > 0 {
      AggregateEdgesCount(g, tid, e, n - 1);
      AggregateStep(g, tid, e, n);
      AggregateEdgeCount(g, tid, g.aggregates[n - 1], e);
      OccurrencesConcat(AggregateEdges(g, tid, n - 1), AggregateEdge(g, tid, g.aggregates[n - 1]), e);
    }
  }

  // ----- All edges -----

  /** An edge occurs once for each attribute, each child and each recorded aggregation that gives it. */
  lemma EdgesCount(g: Graph, tid: TypeId, e: Edge)
    requires g.Valid() && g.Registered(tid)
    ensures Occurrences(Edges(g, tid), e) ==
            |AttributesGiving(g, tid, e, |g.registry.types[tid].attributes|)| +
            |ChildrenGiving(g, tid, e, |g.registry.types|)| +
            |AggregationsGiving(g, tid, e, |g.aggregates|)|
  {
    hide AttributesGiving, ChildrenGiving, AggregationsGiving, AttributeEdges, ChildEdges, AggregateEdges, Occurrences;
    var a, b, c := AttributeEdges(g, tid, |g.registry.types[tid].attributes|),
                   ChildEdges(g, tid, |g.registry.types|), AggregateEdges(g, tid, |g.aggregates|);
    OccurrencesConcat(a + b, c, e);
    OccurrencesConcat(a, b, e);
    AttributeEdgesCount(g, tid, e, |g.registry.types[tid].attributes|);
    ChildEdgesCount(g, tid, e, |g.registry.types|);
    AggregateEdgesCount(g, tid, e, |g.aggregates|);
  }

  /** The edges that are followed, in terms of the registry alone. */
  lemma EdgesWhen(g: Graph, tid: TypeId, e: Edge)
    requires g.Valid() && g.Registered(tid)
    ensures e in Edges(g, tid) <==>
            || (exists i :: && 0 <= i < |g.registry.types[tid].attributes|
                            && AttributeGives(g, g.registry.types[tid].attributes[i], e))
            || ((e.target, tid) in g.registry.childOf && NamesTarget(g, e))
            || (exists k :: 0 <= k < |g.aggregates| && AggregationGives(g, tid, g.aggregates[k], e))
  {
    var n := |g.registry.types[tid].attributes|;
    EdgesCount(g, tid, e);
    hide Edges, AttributeGives, NamesTarget, Occurrences;
    OccurrencesConcat([], Edges(g, tid), e);
    NotEmpty(AttributesGiving(g, tid, e, n));
    NotEmpty(ChildrenGiving(g, tid, e, |g.registry.types|));
    NotEmpty(AggregationsGiving(g, tid, e, |g.aggregates|));
    if i :| 0 <= i < n && AttributeGives(g, g.registry.types[tid].attributes[i], e) {
      assert i in AttributesGiving(g, tid, e, n);
    }
    if (e.target, tid) in g.registry.childOf && NamesTarget(g, e) {
      TargetIsRegistered(g, e);
      assert e.target in ChildrenGiving(g, tid, e, |g.registry.types|);
    }
    if k :| 0 <= k < |g.aggregates| && AggregationGives(g, tid, g.aggregates[k], e) {
      assert k in AggregationsGiving(g, tid, e, |g.aggregates|);
    }
  }

  lemma NotEmpty(s: set<nat>)
    ensures |s| > 0 <==> exists i :: i in s
  {
    if |s| > 0 {
      var i :| i in s;
    }
  }

  lemma TargetIsRegistered(g: Graph, e: Edge)
    requires NamesTarget(g, e)
    ensures e.target < |g.registry.types|
  {
  }

  // ----- Paths as text -----

  /** The text of a path is the text of its parts, each one after a slash. */
  lemma {:induction false} RenderConcat(p: seq<string>, q: seq<string>)
    ensures Render(p + q) == Render(p) + Render(q)
    ensures Render([]) == "" && forall x :: Render([x]) == "/" + x
  {
    forall x ensures Render([x]) == "/" + x {
      assert [x][..0] == [];
    }
    if q == [] {
      assert p + q == p;
    } else {
      assert (p + q)[..|p + q| - 1] == p + q[..|q| - 1];
      RenderConcat(p, q[..|q| - 1]);
    }
  }

  // ----- What the log says of one type -----

  /** The paths of a type are those of its log entries, each as often. */
  lemma {:induction false} PathsToCount(log: seq<Entry>, tid: TypeId, path: string)
    ensures multiset(PathsTo(log, tid))[path] == multiset(log)[(tid, path)]
  {
    if log != [] {
      var n := |log| - 1;
      PathsToCount(log[..n], tid, path);
      assert log == log[..n] + [log[n]];
    }
  }

  /** From an empty state, the paths of a type are the texts of the simple paths from the root to it. */
  lemma PathsAreSimplePaths(g: Graph, root: TypeId, tid: TypeId, path: string)
    requires g.Valid() && g.Registered(root)
    ensures path in PathsTo(Gathered(g, [], [], root), tid) <==>
            exists w :: IsSimplePath(g, [], root, w) && End(g, root, w) == tid && Render(Labels(g, root, w)) == path
  {
    hide Gathered, IsSimplePath, IsWalk, Edges;
    var log := Gathered(g, [], [], root);
    var ws := LogsExactlyTheSimplePaths(g, [], [], root);
    PathsToCount(log, tid, path);
    assert path in multiset(PathsTo(log, tid)) <==> (tid, path) in multiset(log);
    if i :| 0 <= i < |log| && log[i] == (tid, path) {
      assert ws[i] in ws && [] + Labels(g, root, ws[i]) == Labels(g, root, ws[i]);
    }
    if w :| IsSimplePath(g, [], root, w) && End(g, root, w) == tid && Render(Labels(g, root, w)) == path {
      var i :| 0 <= i < |ws| && ws[i] == w;
      assert [] + Labels(g, root, w) == Labels(g, root, w);
      assert log[i] == (tid, path);
    }
  }
}
