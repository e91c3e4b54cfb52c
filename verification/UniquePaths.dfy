/**
 When the log of a search holds an entry twice. The helper that is to keep only its unique
 items works on a copy, so this decides whether a type is given the same path twice.
 */
module UniquePaths {
  import opened Wrappers
  import opened TypeGraph
  import opened PathSearch
  import opened PathSearchTheorems

  // ----- Names -----

  predicate IsPlain(s: string) {
    '/' !in s && s != "[i]"
  }

  predicate IsAttributeName(s: string) {
    IsPlain(s) && (s == "" || s[0] != '$')
  }

  /**
   What a registry of types sees to: type names are distinct, attribute names are distinct within
   a type, and neither holds a slash or looks like another part of a path.
   */
  ghost predicate WellNamed(g: Graph) {
    var types := g.registry.types;
    && (forall t :: 0 <= t < |types| ==> '/' !in types[t].name)
    && (forall t, u :: 0 <= t < u < |types| ==> types[t].name != types[u].name)
    && (forall t, i :: 0 <= t < |types| && 0 <= i < |types[t].attributes| ==>
          IsAttributeName(types[t].attributes[i].name))
    && (forall t, i, j :: 0 <= t < |types| && 0 <= i < j < |types[t].attributes| ==>
          types[t].attributes[i].name != types[t].attributes[j].name)
  }

  const VECTOR: string := "/[i]"

  /** One part of a path: a plain name, or one followed by the mark of a vector. */
  predicate IsLabel(s: string) {
    IsPlain(s) || (|s| >= 4 && s[|s| - 4..] == VECTOR && IsPlain(s[..|s| - 4]))
  }

  lemma SplitUnique(a: string, x: string, b: string, y: string)
    requires a + "/" + x == b + "/" + y && '/' !in x && '/' !in y
    ensures a == b && x == y
  {
    var s := a + "/" + x;
    assert s[|a|] == '/' && s[|b|] == '/';
    assert forall i :: |a| < i < |s| ==> s[i] == x[i - |a| - 1];
    assert forall i :: |b| < i < |s| ==> s[i] == y[i - |b| - 1];
    assert a == s[..|a|] && b == s[..|b|];
    assert x == s[|a| + 1..] && y == s[|b| + 1..];
  }

  const MARK: string := "[i]"

  /** A label with the mark of a vector, as the two parts of a path that it looks like. */
  lemma MarkedLabel(a: string, x: string) returns (x0: string)
    requires IsLabel(x) && !IsPlain(x)
    ensures x == x0 + VECTOR && IsPlain(x0) && a + "/" + x == (a + "/" + x0) + "/" + MARK
    ensures '/' !in MARK
  {
    x0 := x[..|x| - 4];
    assert VECTOR == "/" + MARK;
    assert x == x0 + VECTOR;
    hide IsPlain;
    assert a + "/" + (x0 + ("/" + MARK)) == (a + "/" + x0) + "/" + MARK;
  }

  /** A label is split off the end of a path in one way only. */
  lemma LastLabelUnique(a: string, x: string, b: string, y: string)
    requires IsLabel(x) && IsLabel(y) && a + "/" + x == b + "/" + y
    ensures a == b && x == y
  {
    if IsPlain(x) && IsPlain(y) {
      SplitUnique(a, x, b, y);
    } else if IsPlain(x) {
      hide IsLabel;
      var y0 := MarkedLabel(b, y);
      SplitUnique(a, x, b + "/" + y0, MARK);
    } else if IsPlain(y) {
      hide IsLabel;
      var x0 := MarkedLabel(a, x);
      SplitUnique(a + "/" + x0, MARK, b, y);
    } else {
      hide IsLabel;
      var x0 := MarkedLabel(a, x);
      var y0 := MarkedLabel(b, y);
      SplitUnique(a + "/" + x0, MARK, b + "/" + y0, MARK);
      SplitUnique(a, x0, b, y0);
    }
  }

  ghost predicate AreLabels(path: seq<string>) {
    forall i :: 0 <= i < |path| ==> IsLabel(path[i])
  }

  /** A path text determines its parts. */
  lemma {:induction false} RenderInjective(p: seq<string>, q: seq<string>)
    requires AreLabels(p) && AreLabels(q) && Render(p) == Render(q)
    ensures p == q
  {
    hide IsLabel;
    if p != [] && q != [] {
      var p', q' := p[..|p| - 1], q[..|q| - 1];
      LastLabelUnique(Render(p'), p[|p| - 1], Render(q'), q[|q| - 1]);
      RenderInjective(p', q');
      assert p == p' + [p[|p| - 1]] && q == q' + [q[|q| - 1]];
    }
  }

  // ----- Edges and their names -----

  /** Where an edge comes from. */
  ghost predicate FromAttribute(g: Graph, tid: TypeId, e: Edge, i: nat)
    requires g.Registered(tid)
  {
    i < |g.registry.types[tid].attributes| &&
    var a := g.registry.types[tid].attributes[i];
    (a.Pointer? && e == Edge(a.name, a.pointee)) || (a.ObjectVector? && e == Edge(a.name + VECTOR, a.item))
  }

  ghost predicate NamesItsTarget(g: Graph, e: Edge) {
    g.Registered(e.target) && e.name == "$" + g.registry.types[e.target].name
  }

  lemma {:induction false} AttributeEdgeComes(g: Graph, tid: TypeId, n: nat, k: nat) returns (i: nat)
    requires g.Registered(tid) && n <= |g.registry.types[tid].attributes| && k < |AttributeEdges(g, tid, n)|
    ensures FromAttribute(g, tid, AttributeEdges(g, tid, n)[k], i)
  {
    var front := AttributeEdges(g, tid, n - 1);
    if k < |front| {
      i := AttributeEdgeComes(g, tid, n - 1, k);
    } else {
      i := n - 1;
    }
  }

  lemma {:induction false} ChildEdgeNamed(g: Graph, tid: TypeId, n: nat)
    requires n <= |g.registry.types|
    ensures forall k :: 0 <= k < |ChildEdges(g, tid, n)| ==> NamesItsTarget(g, ChildEdges(g, tid, n)[k])
  {
    if n > 0 {
      ChildEdgeNamed(g, tid, n - 1);
    }
  }

  lemma {:induction false} AggregateEdgeNamed(g: Graph, tid: TypeId, n: nat)
    requires g.Valid() && n <= |g.aggregates|
    ensures forall k :: 0 <= k < |AggregateEdges(g, tid, n)| ==> NamesItsTarget(g, AggregateEdges(g, tid, n)[k])
  {
    if n > 0 {
      AggregateEdgeNamed(g, tid, n - 1);
    }
  }

  lemma EdgeComes(g: Graph, tid: TypeId, k: nat) returns (i: nat)
    requires g.Valid() && g.Registered(tid) && k < |Edges(g, tid)|
    ensures FromAttribute(g, tid, Edges(g, tid)[k], i) || NamesItsTarget(g, Edges(g, tid)[k])
  {
    hide FromAttribute, NamesItsTarget, AttributeEdges, ChildEdges, AggregateEdges;
    i := 0;
    var n := |g.registry.types[tid].attributes|;
    ChildEdgeNamed(g, tid, |g.registry.types|);
    AggregateEdgeNamed(g, tid, |g.aggregates|);
    if k < |AttributeEdges(g, tid, n)| {
      i := AttributeEdgeComes(g, tid, n, k);
    }
  }

  lemma LabelOfEdge(g: Graph, tid: TypeId, e: Edge, i: nat)
    requires WellNamed(g) && g.Registered(tid)
    requires FromAttribute(g, tid, e, i) || NamesItsTarget(g, e)
    ensures IsLabel(e.name) && (NamesItsTarget(g, e) <==> e.name != "" && e.name[0] == '$')
  {
    if FromAttribute(g, tid, e, i) {
      var name := g.registry.types[tid].attributes[i].name;
      assert IsAttributeName(name);
      assert (name + VECTOR)[..|name + VECTOR| - 4] == name;
      assert (name + VECTOR)[|name + VECTOR| - 4..] == VECTOR;
    } else {
      assert '/' !in g.registry.types[e.target].name;
      assert e.name[0] == '$';
    }
  }

  lemma SameAttribute(g: Graph, tid: TypeId, d: Edge, i: nat, e: Edge, j: nat)
    requires WellNamed(g) && g.Registered(tid) && d.name == e.name
    requires FromAttribute(g, tid, d, i) && FromAttribute(g, tid, e, j)
    ensures d == e
  {
    var types := g.registry.types;
    var a, b := types[tid].attributes[i], types[tid].attributes[j];
    assert IsAttributeName(a.name) && IsAttributeName(b.name);
    assert (a.name + VECTOR)[..|a.name|] == a.name && (b.name + VECTOR)[..|b.name|] == b.name;
    assert (a.name + VECTOR)[|a.name|] == '/' && (b.name + VECTOR)[|b.name|] == '/';
    assert a.name == b.name;
    assert i == j;
  }

  /** Two edges of one type with the same name are the same edge. */
  lemma SameNameSameEdge(g: Graph, tid: TypeId, k: nat, l: nat)
    requires g.Valid() && WellNamed(g) && g.Registered(tid)
    requires k < |Edges(g, tid)| && l < |Edges(g, tid)| && Edges(g, tid)[k].name == Edges(g, tid)[l].name
    ensures Edges(g, tid)[k] == Edges(g, tid)[l]
  {
    hide FromAttribute, Edges, IsLabel;
    var d, e := Edges(g, tid)[k], Edges(g, tid)[l];
    var i := EdgeComes(g, tid, k);
    var j := EdgeComes(g, tid, l);
    LabelOfEdge(g, tid, d, i);
    LabelOfEdge(g, tid, e, j);
    if NamesItsTarget(g, d) {
      assert d.name[1..] == g.registry.types[d.target].name && e.name[1..] == g.registry.types[e.target].name;
    } else {
      SameAttribute(g, tid, d, i, e, j);
    }
  }

  lemma {:induction false} LabelsAreLabels(g: Graph, from: TypeId, w: Walk)
    requires g.Valid() && WellNamed(g) && g.Registered(from) && IsWalk(g, from, w)
    ensures |Labels(g, from, w)| == |w| && AreLabels(Labels(g, from, w))
    decreases |w|
  {
    hide Edges, IsLabel, FromAttribute, NamesItsTarget, WellNamed;
    if w != [] {
      var i := EdgeComes(g, from, w[0]);
      LabelOfEdge(g, from, Edges(g, from)[w[0]], i);
      LabelsAreLabels(g, Edges(g, from)[w[0]].target, w[1..]);
    }
  }

  // ----- Walks, step by step -----

  /** The step that a walk takes at place `k`, and the part of the walk before it. */
  lemma {:induction false} WalkAt(g: Graph, from: TypeId, w: Walk, k: nat)
    requires g.Valid() && g.Registered(from) && IsWalk(g, from, w) && k < |w|
    ensures IsWalk(g, from, w[..k]) && Nodes(g, from, w[..k]) == Nodes(g, from, w)[..k + 1]
    ensures var t := Nodes(g, from, w)[k];
            && g.Registered(t) && w[k] < |Edges(g, t)|
            && Nodes(g, from, w)[k + 1] == Edges(g, t)[w[k]].target
            && |Labels(g, from, w)| == |w| && Labels(g, from, w)[k] == Edges(g, t)[w[k]].name
    decreases |w|
  {
    hide Edges;
    LabelCount(g, from, w);
    var next := Edges(g, from)[w[0]].target;
    if k > 0 {
      WalkAt(g, next, w[1..], k - 1);
      assert w[..k][1..] == w[1..][..k - 1];
    }
  }

  lemma {:induction false} LabelCount(g: Graph, from: TypeId, w: Walk)
    requires g.Valid() && g.Registered(from) && IsWalk(g, from, w)
    ensures |Labels(g, from, w)| == |w|
    decreases |w|
  {
    hide Edges;
    if w != [] {
      LabelCount(g, Edges(g, from)[w[0]].target, w[1..]);
    }
  }

  /** One more step. */
  lemma {:induction false} StepOn(g: Graph, from: TypeId, w: Walk, k: nat)
    requires g.Valid() && g.Registered(from) && IsWalk(g, from, w)
    requires g.Registered(End(g, from, w)) && k < |Edges(g, End(g, from, w))|
    ensures var e := Edges(g, End(g, from, w))[k];
            && IsWalk(g, from, w + [k])
            && Nodes(g, from, w + [k]) == Nodes(g, from, w) + [e.target]
            && Labels(g, from, w + [k]) == Labels(g, from, w) + [e.name]
    decreases |w|
  {
    hide Edges;
    if w == [] {
      assert ([k])[1..] == [] && w + [k] == [k];
    } else {
      assert (w + [k])[1..] == w[1..] + [k];
      StepOn(g, Edges(g, from)[w[0]].target, w[1..], k);
    }
  }

  // ----- When an entry is logged twice -----

  /** Two equal edges out of one type, which a walk reaches without visiting their target. */
  ghost predicate IsDoubled(g: Graph, root: TypeId, w: Walk, i: nat, j: nat)
    requires g.Valid() && g.Registered(root)
  {
    && IsWalk(g, root, w) && g.Registered(End(g, root, w))
    && i < j < |Edges(g, End(g, root, w))|
    && Edges(g, End(g, root, w))[i] == Edges(g, End(g, root, w))[j]
    && Edges(g, End(g, root, w))[i].target !in Nodes(g, root, w)
  }

  /** The place where two different walks of equal length part. */
  lemma {:induction false} PartAt(v: Walk, w: Walk) returns (k: nat)
    requires |v| == |w| && v != w
    ensures k < |v| && v[..k] == w[..k] && v[k] != w[k]
  {
    if v[0] != w[0] {
      k := 0;
    } else {
      assert v == [v[0]] + v[1..] && w == [w[0]] + w[1..];
      var l := PartAt(v[1..], w[1..]);
      k := l + 1;
      assert v[..k] == [v[0]] + v[1..][..l] && w[..k] == [w[0]] + w[1..][..l];
    }
  }

  /** Two simple paths with one text part over equal edges. */
  lemma SameTextMeansDoubled(g: Graph, root: TypeId, v: Walk, w: Walk) returns (u: Walk, i: nat, j: nat)
    requires g.Valid() && WellNamed(g) && g.Registered(root) && v != w
    requires IsSimplePath(g, [], root, v) && IsSimplePath(g, [], root, w)
    requires Render(Labels(g, root, v)) == Render(Labels(g, root, w))
    ensures IsDoubled(g, root, u, i, j)
  {
    hide Edges, IsLabel, WellNamed;
    LabelsAreLabels(g, root, v);
    LabelsAreLabels(g, root, w);
    RenderInjective(Labels(g, root, v), Labels(g, root, w));
    var k := PartAt(v, w);
    WalkAt(g, root, v, k);
    WalkAt(g, root, w, k);
    u := v[..k];
    var ns := Nodes(g, root, v);
    assert Nodes(g, root, w)[..k + 1] == ns[..k + 1];
    assert End(g, root, u) == ns[k] == Nodes(g, root, w)[..k + 1][k];
    SameNameSameEdge(g, ns[k], v[k], w[k]);
    assert forall l :: 0 <= l < k + 1 ==> ns[l] != ns[k + 1];
    if v[k] < w[k] {
      i, j := v[k], w[k];
    } else {
      i, j := w[k], v[k];
    }
  }

  /** A simple path, followed by either of two equal edges, is two simple paths with one text. */
  lemma DoubledMeansTwoPaths(g: Graph, root: TypeId, w: Walk, i: nat, j: nat) returns (v: Walk)
    requires g.Valid() && g.Registered(root) && IsDoubled(g, root, w, i, j)
    ensures IsSimplePath(g, [], root, v + [i]) && IsSimplePath(g, [], root, v + [j])
    ensures EntryOf(g, [], root, v + [i]) == EntryOf(g, [], root, v + [j])
  {
    hide Edges;
    v := Shorten(g, root, w);
    StepOn(g, root, v, i);
    StepOn(g, root, v, j);
    var e := Edges(g, End(g, root, w))[i];
    assert e.target !in Nodes(g, root, v);
    var ns := Nodes(g, root, v) + [e.target];
    forall a, b | 0 <= a < b < |ns| ensures ns[a] != ns[b] {
      assert a < |ns| - 1 ==> ns[a] in Nodes(g, root, v);
    }
  }

  lemma TwiceMeansDoubled(g: Graph, root: TypeId, a: nat, b: nat)
    requires g.Valid() && WellNamed(g) && g.Registered(root)
    requires a < b < |Gathered(g, [], [], root)| && Gathered(g, [], [], root)[a] == Gathered(g, [], [], root)[b]
    ensures exists w, i, j :: IsDoubled(g, root, w, i, j)
  {
    hide Gathered, WellNamed, IsSimplePath, IsWalk, IsDoubled;
    var ws := LogsExactlyTheSimplePaths(g, [], [], root);
    assert ws[a] in ws && ws[b] in ws;
    assert [] + Labels(g, root, ws[a]) == Labels(g, root, ws[a]);
    assert [] + Labels(g, root, ws[b]) == Labels(g, root, ws[b]);
    var w, i, j := SameTextMeansDoubled(g, root, ws[a], ws[b]);
  }

  /** Two walks with one entry are two places of the log with one entry. */
  lemma TwoPlaces(g: Graph, root: TypeId, log: seq<Entry>, ws: seq<Walk>, v: Walk, w: Walk)
    requires g.Valid() && g.Registered(root) && Explains(g, [], root, log, ws)
    requires v in ws && w in ws && v != w && IsWalk(g, root, v) && IsWalk(g, root, w)
    requires EntryOf(g, [], root, v) == EntryOf(g, [], root, w)
    ensures !NoDuplicates(log)
  {
    hide IsWalk, EntryOf, Edges;
    var a :| 0 <= a < |ws| && ws[a] == v;
    var b :| 0 <= b < |ws| && ws[b] == w;
    assert log[a] == log[b];
  }

  lemma DoubledMeansTwice(g: Graph, root: TypeId, w: Walk, i: nat, j: nat)
    requires g.Valid() && g.Registered(root) && IsDoubled(g, root, w, i, j)
    ensures !NoDuplicates(Gathered(g, [], [], root))
  {
    IndicesDiffer(g, root, w, i, j);
    hide Gathered, IsDoubled, EntryOf, Edges, Explains, InOrder, NoDuplicates, IsWalk, Nodes;
    var ws := LogsExactlyTheSimplePaths(g, [], [], root);
    var v := DoubledMeansTwoPaths(g, root, w, i, j);
    assert v + [i] in ws && v + [j] in ws;
    assert (v + [i])[|v|] != (v + [j])[|v|];
    TwoPlaces(g, root, Gathered(g, [], [], root), ws, v + [i], v + [j]);
  }

  /**
   The log of a search holds no entry twice if and only if there are no two equal edges whose
   source can be reached from the root without visiting their target.
   */
  lemma {:induction false} LoggedOnceWhen(g: Graph, root: TypeId)
    requires g.Valid() && WellNamed(g) && g.Registered(root)
    ensures NoDuplicates(Gathered(g, [], [], root)) <==> forall w, i, j :: !IsDoubled(g, root, w, i, j)
  {
    hide Gathered, WellNamed, IsDoubled;
    var log := Gathered(g, [], [], root);
    if a, b :| 0 <= a < b < |log| && log[a] == log[b] {
      TwiceMeansDoubled(g, root, a, b);
    }
    if w, i, j :| IsDoubled(g, root, w, i, j) {
      DoubledMeansTwice(g, root, w, i, j);
    }
  }

  lemma IndicesDiffer(g: Graph, root: TypeId, w: Walk, i: nat, j: nat)
    requires g.Valid() && g.Registered(root) && IsDoubled(g, root, w, i, j)
    ensures i != j
  {
  }

  // ----- Several roots -----

  lemma {:induction false} OnceInBoth(a: seq<Entry>, b: seq<Entry>)
    ensures NoDuplicates(a + b) <==> NoDuplicates(a) && NoDuplicates(b) && forall e :: e in a ==> e !in b
  {
    var s := a + b;
    if NoDuplicates(s) {
      forall i, j | 0 <= i < j < |a| ensures a[i] != a[j] {
        assert s[i] == a[i] && s[j] == a[j];
      }
      forall i, j | 0 <= i < j < |b| ensures b[i] != b[j] {
        assert s[|a| + i] == b[i] && s[|a| + j] == b[j];
      }
      forall i, j | 0 <= i < |a| && 0 <= j < |b| ensures a[i] != b[j] {
        assert s[i] == a[i] && s[|a| + j] == b[j];
      }
    }
    if NoDuplicates(a) && NoDuplicates(b) && forall e :: e in a ==> e !in b {
      forall i, j | 0 <= i < j < |s| ensures s[i] != s[j] {
        if i < |a| <= j {
          assert a[i] in a && b[j - |a|] in b;
        }
      }
    }
  }

  lemma {:induction false} InGatheredFrom(g: Graph, roots: seq<TypeId>, e: Entry)
    requires g.Valid() && forall i :: 0 <= i < |roots| ==> g.Registered(roots[i])
    ensures e in GatheredFrom(g, roots) <==> exists i :: 0 <= i < |roots| && e in Gathered(g, [], [], roots[i])
  {
    hide Gathered;
    if roots != [] {
      var n := |roots| - 1;
      InGatheredFrom(g, roots[..n], e);
      if i :| 0 <= i < |roots| && e in Gathered(g, [], [], roots[i]) && i < n {
        assert roots[..n][i] == roots[i];
      }
      if i :| 0 <= i < n && e in Gathered(g, [], [], roots[..n][i]) {
        assert roots[i] == roots[..n][i];
      }
    }
  }

  /** Simple paths out of two types that end in the same type and have the same parts. */
  ghost predicate AreAlike(g: Graph, r: TypeId, v: Walk, s: TypeId, w: Walk)
    requires g.Valid() && g.Registered(r) && g.Registered(s)
  {
    && IsSimplePath(g, [], r, v) && IsSimplePath(g, [], s, w)
    && End(g, r, v) == End(g, s, w) && Labels(g, r, v) == Labels(g, s, w)
  }

  lemma LoggedWhen(g: Graph, root: TypeId, e: Entry)
    requires g.Valid() && g.Registered(root)
    ensures e in Gathered(g, [], [], root) <==>
            exists w :: IsSimplePath(g, [], root, w) && EntryOf(g, [], root, w) == e
  {
    hide Gathered, IsSimplePath, IsWalk, EntryOf, Edges;
    var log := Gathered(g, [], [], root);
    var ws := LogsExactlyTheSimplePaths(g, [], [], root);
    if i :| 0 <= i < |log| && log[i] == e {
      assert ws[i] in ws && EntryOf(g, [], root, ws[i]) == e;
    }
    if w :| IsSimplePath(g, [], root, w) && EntryOf(g, [], root, w) == e {
      var i :| 0 <= i < |ws| && ws[i] == w;
      assert log[i] == e;
    }
  }

  /** Two roots have a log entry in common exactly when they have paths that are alike. */
  lemma {:induction false} SharedWhen(g: Graph, r: TypeId, s: TypeId)
    requires g.Valid() && WellNamed(g) && g.Registered(r) && g.Registered(s)
    ensures (exists e :: e in Gathered(g, [], [], r) && e in Gathered(g, [], [], s)) <==>
            exists v, w :: AreAlike(g, r, v, s, w)
  {
    hide Gathered, IsWalk, WellNamed, IsLabel;
    if e :| e in Gathered(g, [], [], r) && e in Gathered(g, [], [], s) {
      LoggedWhen(g, r, e);
      LoggedWhen(g, s, e);
      var v :| IsSimplePath(g, [], r, v) && EntryOf(g, [], r, v) == e;
      var w :| IsSimplePath(g, [], s, w) && EntryOf(g, [], s, w) == e;
      LabelsAreLabels(g, r, v);
      LabelsAreLabels(g, s, w);
      assert [] + Labels(g, r, v) == Labels(g, r, v) && [] + Labels(g, s, w) == Labels(g, s, w);
      RenderInjective(Labels(g, r, v), Labels(g, s, w));
      assert AreAlike(g, r, v, s, w);
    }
    if v, w :| AreAlike(g, r, v, s, w) {
      var e := EntryOf(g, [], r, v);
      assert e == EntryOf(g, [], s, w);
      LoggedWhen(g, r, e);
      LoggedWhen(g, s, e);
    }
  }

  /** No root has a doubled edge, and no two roots have paths that are alike. */
  ghost predicate RootsApart(g: Graph, roots: seq<TypeId>)
    requires g.Valid() && forall i :: 0 <= i < |roots| ==> g.Registered(roots[i])
  {
    && (forall k, w, i, j :: 0 <= k < |roots| ==> !IsDoubled(g, roots[k], w, i, j))
    && (forall k, l, v, w :: 0 <= k < l < |roots| ==> !AreAlike(g, roots[k], v, roots[l], w))
  }

  lemma RootsApartStep(g: Graph, roots: seq<TypeId>)
    requires g.Valid() && roots != [] && forall i :: 0 <= i < |roots| ==> g.Registered(roots[i])
    ensures var n := |roots| - 1;
            RootsApart(g, roots) <==>
            && RootsApart(g, roots[..n])
            && (forall w, i, j :: !IsDoubled(g, roots[n], w, i, j))
            && (forall k, v, w :: 0 <= k < n ==> !AreAlike(g, roots[k], v, roots[n], w))
  {
    hide IsDoubled, AreAlike;
    var front := roots[..|roots| - 1];
    assert forall k :: 0 <= k < |front| ==> front[k] == roots[k];
    if RootsApart(g, roots) {
      forall k, w, i, j | 0 <= k < |front| ensures !IsDoubled(g, front[k], w, i, j) {
        assert front[k] == roots[k];
      }
      forall k, l, v, w | 0 <= k < l < |front| ensures !AreAlike(g, front[k], v, front[l], w) {
        assert front[k] == roots[k] && front[l] == roots[l];
      }
    }
    if RootsApart(g, front) {
      forall k, w, i, j | 0 <= k < |front| ensures !IsDoubled(g, roots[k], w, i, j) {
        assert front[k] == roots[k];
      }
      forall k, l, v, w | 0 <= k < l < |front| ensures !AreAlike(g, roots[k], v, roots[l], w) {
        assert front[k] == roots[k] && front[l] == roots[l];
      }
    }
  }

  /**
   The whole log, gathered from all roots, holds no entry twice if and only if no root has a
   doubled edge and no two roots have simple paths with one end and the same parts.
   */
  lemma {:induction false} LoggedOnceFromRootsWhen(g: Graph, roots: seq<TypeId>)
    requires g.Valid() && WellNamed(g) && forall i :: 0 <= i < |roots| ==> g.Registered(roots[i])
    ensures NoDuplicates(GatheredFrom(g, roots)) <==> RootsApart(g, roots)
  {
    if roots != [] {
      hide Gathered, WellNamed, IsDoubled, AreAlike, NoDuplicates, RootsApart;
      var n := |roots| - 1;
      var front, last := GatheredFrom(g, roots[..n]), Gathered(g, [], [], roots[n]);
      LoggedOnceFromRootsWhen(g, roots[..n]);
      LoggedOnceWhen(g, roots[n]);
      OnceInBoth(front, last);
      RootsApartStep(g, roots);
      ApartFromLast(g, roots);
    }
  }

  /** The last root shares no entry with the log so far exactly when it has no path like one of another root. */
  lemma ApartFromLast(g: Graph, roots: seq<TypeId>)
    requires g.Valid() && WellNamed(g) && roots != [] && forall i :: 0 <= i < |roots| ==> g.Registered(roots[i])
    ensures var n := |roots| - 1;
            (forall e :: e in GatheredFrom(g, roots[..n]) ==> e !in Gathered(g, [], [], roots[n])) <==>
            forall k, v, w :: 0 <= k < n ==> !AreAlike(g, roots[k], v, roots[n], w)
  {
    hide Gathered, GatheredFrom, WellNamed, AreAlike;
    var n := |roots| - 1;
    var front, last := roots[..n], Gathered(g, [], [], roots[n]);
    assert forall k :: 0 <= k < n ==> front[k] == roots[k];
    if e :| e in GatheredFrom(g, front) && e in last {
      InGatheredFrom(g, front, e);
      var k :| 0 <= k < |front| && e in Gathered(g, [], [], front[k]);
      SharedWhen(g, roots[k], roots[n]);
    }
    if k, v, w :| 0 <= k < n && AreAlike(g, roots[k], v, roots[n], w) {
      SharedWhen(g, roots[k], roots[n]);
      var e :| e in Gathered(g, [], [], roots[k]) && e in last;
      InGatheredFrom(g, front, e);
      assert e in Gathered(g, [], [], front[k]);
    }
  }

  // ----- Aggregations recorded twice -----

  lemma {:induction false} AggregatePrefix(g: Graph, tid: TypeId, n: nat, m: nat)
    requires g.Valid() && n <= m <= |g.aggregates|
    ensures AggregateEdges(g, tid, n) <= AggregateEdges(g, tid, m)
  {
    if n < m {
      AggregatePrefix(g, tid, n, m - 1);
    }
  }

  /** The edge that aggregation `k` gives its first type, and its place among the edges. */
  lemma AggregateEdgeAt(g: Graph, k: nat) returns (e: Edge)
    requires g.Valid() && k < |g.aggregates| && g.aggregates[k].0 != g.aggregates[k].1
    ensures var (a, b) := g.aggregates[k];
            && e == Edge("$" + g.registry.types[b].name, b)
            && AggregateEdges(g, a, k + 1) == AggregateEdges(g, a, k) + [e]
  {
    var (a, b) := g.aggregates[k];
    e := Edge("$" + g.registry.types[b].name, b);
  }

  /** Any aggregation of two types that is recorded twice puts an entry into the log twice. */
  lemma AggregatedTwice(g: Graph, k: nat, l: nat)
    requires g.Valid() && k < l < |g.aggregates| && g.aggregates[k] == g.aggregates[l]
    requires g.aggregates[k].0 != g.aggregates[k].1
    ensures g.Registered(g.aggregates[k].0) && !NoDuplicates(Gathered(g, [], [], g.aggregates[k].0))
  {
    hide Gathered, AggregateEdges, AttributeEdges, ChildEdges, AggregateEdge;
    var n, a := |g.aggregates|, g.aggregates[k].0;
    var e := AggregateEdgeAt(g, k);
    var f := AggregateEdgeAt(g, l);
    AggregatePrefix(g, a, k + 1, l);
    AggregatePrefix(g, a, l + 1, n);
    var before := AttributeEdges(g, a, |g.registry.types[a].attributes|) + ChildEdges(g, a, |g.registry.types|);
    var i, j := |before| + |AggregateEdges(g, a, k)|, |before| + |AggregateEdges(g, a, l)|;
    assert Edges(g, a) == before + AggregateEdges(g, a, n);
    assert Edges(g, a)[i] == e && Edges(g, a)[j] == e;
    hide Edges;
    assert Nodes(g, a, []) == [a];
    DoubledMeansTwice(g, a, [], i, j);
  }

  /** As the program itself records twice that a node aggregates its ICMP protocol. */
  const RECORDED_TWICE: Graph :=
    Graph(Registry([TypeInfo("ns3::Node", []), TypeInfo("ns3::Icmpv4L4Protocol", [])], {}, 2), [(0, 1), (0, 1)])

  lemma TwiceInTheLog()
    ensures RECORDED_TWICE.Valid() && RECORDED_TWICE.Registered(0)
    ensures !NoDuplicates(Gathered(RECORDED_TWICE, [], [], 0))
  {
    hide Gathered;
    AggregatedTwice(RECORDED_TWICE, 0, 1);
  }
}
