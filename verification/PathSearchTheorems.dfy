/**
 What the search promises: it logs exactly the simple paths, each one once, in depth-first
 order, and so a type gets a path exactly when it is reachable.
 */
module PathSearchTheorems {
  import opened Wrappers
  import opened TypeGraph
  import opened PathSearch

  /** The log entry of a walk found below `path`. */
  function EntryOf(g: Graph, path: seq<string>, from: TypeId, w: Walk): Entry
    requires g.Valid() && g.Registered(from) && IsWalk(g, from, w)
  {
    (End(g, from, w), Render(path + Labels(g, from, w)))
  }

  /** `ws` lists the walks behind `log`, one for each entry and in the same order. */
  ghost predicate Explains(g: Graph, path: seq<string>, from: TypeId, log: seq<Entry>, ws: seq<Walk>)
    requires g.Valid() && g.Registered(from)
  {
    && |log| == |ws|
    && forall i :: 0 <= i < |ws| ==> IsWalk(g, from, ws[i]) && log[i] == EntryOf(g, path, from, ws[i])
  }

  /** A simple path out of `from` that starts with one of the first `k` edges. */
  ghost predicate StartsWithin(g: Graph, avoid: seq<TypeId>, from: TypeId, k: nat, w: Walk)
    requires g.Valid() && g.Registered(from)
  {
    && w != [] && w[0] < k && w[0] < |Edges(g, from)|
    && IsSimplePath(g, avoid + [from], Edges(g, from)[w[0]].target, w[1..])
  }

  /** Sound, complete and without repetition: the log holds one entry for each simple path. */
  lemma {:induction false} LogsExactlyTheSimplePaths(g: Graph, avoid: seq<TypeId>, path: seq<string>, from: TypeId)
      returns (ws: seq<Walk>)
    requires g.Valid() && g.Registered(from)
    ensures Explains(g, path, from, Gathered(g, avoid, path, from), ws)
    ensures InOrder(ws) && NoDuplicates(ws)
    ensures forall w :: w in ws <==> IsSimplePath(g, avoid, from, w)
    decreases Room(g, avoid), 0
  {
    hide Gathered, GatheredAlong, Edges;
    forall w ensures IsSimplePath(g, avoid, from, w) <==>
                     from !in avoid && (w == [] || StartsWithin(g, avoid, from, |Edges(g, from)|, w))
    {
      SimplePathStep(g, avoid, from, w);
    }
    hide IsSimplePath;
    if from in avoid {
      ws := [];
      GatheredOnceOnStack(g, avoid, path, from);
    } else {
      EnteringTakesRoom(g, avoid, from);
      GatheredOnce(g, avoid, path, from);
      var es := Edges(g, from);
      assert es[..|es|] == es;
      var below := LogsAlong(g, avoid, path, from, |es|);
      ws := [[]] + below;
      forall j | 0 <= j < |below| ensures below[j] != [] {
        assert below[j] in below;
      }
      assert path + Labels(g, from, []) == path;
    }
    OrderedListsHaveNoDuplicates(ws);
  }

  lemma {:induction false} LogsAlong(g: Graph, avoid: seq<TypeId>, path: seq<string>, from: TypeId, k: nat)
      returns (ws: seq<Walk>)
    requires g.Valid() && g.Registered(from) && from !in avoid && k <= |Edges(g, from)|
    ensures Explains(g, path, from, GatheredAlong(g, avoid + [from], path, Edges(g, from)[..k]), ws)
    ensures InOrder(ws)
    ensures forall w :: w in ws <==> StartsWithin(g, avoid, from, k, w)
    decreases Room(g, avoid + [from]), k
  {
    hide Gathered, GatheredAlong, Edges, IsSimplePath, IsWalk, EntryOf, Room;
    if k == 0 {
      ws := [];
      assert Edges(g, from)[..0] == [];
      GatheredAlongNothing(g, avoid + [from], path);
    } else {
      hide Explains, InOrder;
      var es := Edges(g, from);
      var e := es[k - 1];
      assert es[..k] == es[..k - 1] + [e];
      GatheredAlongSnoc(g, avoid + [from], path, es[..k - 1], e);
      var front := LogsAlong(g, avoid, path, from, k - 1);
      var inner := LogsExactlyTheSimplePaths(g, avoid + [from], path + [e.name], e.target);
      var back := Prepended(g, path, from, k - 1, Gathered(g, avoid + [from], path + [e.name], e.target), inner);
      ws := Joined(g, path, from, k - 1, GatheredAlong(g, avoid + [from], path, es[..k - 1]), front,
                   Gathered(g, avoid + [from], path + [e.name], e.target), back);
      OneMoreEdge(g, avoid, from, k, front, inner, back);
    }
  }

  lemma OneMoreEdge(g: Graph, avoid: seq<TypeId>, from: TypeId, k: nat,
                    front: seq<Walk>, inner: seq<Walk>, back: seq<Walk>)
    requires g.Valid() && g.Registered(from) && 0 < k <= |Edges(g, from)|
    requires forall w :: w in front <==> StartsWithin(g, avoid, from, k - 1, w)
    requires forall w :: w in inner <==> IsSimplePath(g, avoid + [from], Edges(g, from)[k - 1].target, w)
    requires forall w :: w in back <==> w != [] && w[0] == k - 1 && w[1..] in inner
    ensures forall w :: w in front + back <==> StartsWithin(g, avoid, from, k, w)
  {
    hide Edges, IsSimplePath;
    forall w ensures w in front + back <==> StartsWithin(g, avoid, from, k, w) {
      assert w in front <==> StartsWithin(g, avoid, from, k - 1, w);
      assert w in back <==> w != [] && w[0] == k - 1 && w[1..] in inner;
    }
  }

  /** Two lists that go through edges below `i` and through edge `i` make one ordered list. */
  lemma Joined(g: Graph, path: seq<string>, from: TypeId, i: nat,
               log: seq<Entry>, front: seq<Walk>, log': seq<Entry>, back: seq<Walk>)
      returns (ws: seq<Walk>)
    requires g.Valid() && g.Registered(from)
    requires Explains(g, path, from, log, front) && Explains(g, path, from, log', back)
    requires InOrder(front) && InOrder(back)
    requires forall w :: w in front ==> w != [] && w[0] < i
    requires forall w :: w in back ==> w != [] && w[0] == i
    ensures ws == front + back && Explains(g, path, from, log + log', ws) && InOrder(ws)
  {
    hide Edges, IsWalk, EntryOf;
    ws := front + back;
    forall a, b | 0 <= a < b < |ws| ensures Before(ws[a], ws[b]) {
      if a < |front| <= b {
        assert ws[a] in front && ws[b] in back;
      }
    }
  }

  /** Taking edge `i` first lengthens a walk, and moves its name into the path. */
  lemma PrependedWalk(g: Graph, path: seq<string>, from: TypeId, i: nat, w: Walk)
    requires g.Valid() && g.Registered(from) && i < |Edges(g, from)|
    requires IsWalk(g, Edges(g, from)[i].target, w)
    ensures IsWalk(g, from, [i] + w)
    ensures EntryOf(g, path, from, [i] + w) ==
            EntryOf(g, path + [Edges(g, from)[i].name], Edges(g, from)[i].target, w)
  {
    hide Edges, Nodes;
    var e := Edges(g, from)[i];
    StepFirst(g, from, i, w);
    assert ([i] + w)[1..] == w;
    assert path + Labels(g, from, [i] + w) == (path + [e.name]) + Labels(g, e.target, w);
  }

  /** The walks `inner` out of the target of edge `i`, as walks out of its source. */
  lemma Prepended(g: Graph, path: seq<string>, from: TypeId, i: nat, log: seq<Entry>, inner: seq<Walk>)
      returns (ws: seq<Walk>)
    requires g.Valid() && g.Registered(from) && i < |Edges(g, from)|
    requires Explains(g, path + [Edges(g, from)[i].name], Edges(g, from)[i].target, log, inner)
    requires InOrder(inner)
    ensures Explains(g, path, from, log, ws) && InOrder(ws)
    ensures forall w :: w in ws <==> w != [] && w[0] == i && w[1..] in inner
  {
    hide Edges, IsWalk, EntryOf;
    ws := PrependedList(i, inner);
    forall j | 0 <= j < |ws| ensures IsWalk(g, from, ws[j]) && log[j] == EntryOf(g, path, from, ws[j]) {
      PrependedWalk(g, path, from, i, inner[j]);
    }
  }

  lemma PrependedList(i: nat, inner: seq<Walk>) returns (ws: seq<Walk>)
    requires InOrder(inner)
    ensures |ws| == |inner| && (forall j :: 0 <= j < |ws| ==> ws[j] == [i] + inner[j]) && InOrder(ws)
    ensures forall w :: w in ws <==> w != [] && w[0] == i && w[1..] in inner
  {
    ws := seq(|inner|, j requires 0 <= j < |inner| => [i] + inner[j]);
    forall a, b | 0 <= a < b < |ws| ensures Before(ws[a], ws[b]) {
      assert ws[a][1..] == inner[a] && ws[b][1..] == inner[b];
    }
    forall w ensures w in ws <==> w != [] && w[0] == i && w[1..] in inner {
      if w in ws {
        var j :| 0 <= j < |ws| && ws[j] == w;
        assert w[1..] == inner[j];
      }
      if w != [] && w[0] == i && w[1..] in inner {
        var j :| 0 <= j < |inner| && inner[j] == w[1..];
        assert ws[j] == w;
      }
    }
  }

  lemma OrderedListsHaveNoDuplicates(ws: seq<Walk>)
    requires InOrder(ws)
    ensures NoDuplicates(ws)
  {
    forall i, j | 0 <= i < j < |ws| ensures ws[i] != ws[j] {
      BeforeIsStrict(ws[i]);
    }
  }

  // ----- Which types get a path -----

  lemma {:induction false} PathsToFound(log: seq<Entry>, tid: TypeId)
    ensures PathsTo(log, tid) != [] <==> exists i :: 0 <= i < |log| && log[i].0 == tid
  {
    if log != [] {
      var n := |log| - 1;
      PathsToFound(log[..n], tid);
      assert log == log[..n] + [log[n]];
    }
  }

  /** From an empty state, a type is given a path exactly when it is reachable. */
  lemma {:induction false} FoundIffReachable(g: Graph, root: TypeId, tid: TypeId)
    requires g.Valid() && g.Registered(root)
    ensures PathsTo(Gathered(g, [], [], root), tid) != [] <==> Reachable(g, root, tid)
  {
    var log := Gathered(g, [], [], root);
    var ws := LogsExactlyTheSimplePaths(g, [], [], root);
    PathsToFound(log, tid);
    if i :| 0 <= i < |log| && log[i].0 == tid {
      assert IsWalk(g, root, ws[i]) && End(g, root, ws[i]) == tid;
    }
    if Reachable(g, root, tid) {
      var w: Walk :| IsWalk(g, root, w) && End(g, root, w) == tid;
      var v := Shorten(g, root, w);
      assert v in ws;
      var i :| 0 <= i < |ws| && ws[i] == v;
      assert log[i].0 == tid;
    }
  }

  lemma {:induction false} PathsToConcat(a: seq<Entry>, b: seq<Entry>, tid: TypeId)
    ensures PathsTo(a + b, tid) == PathsTo(a, tid) + PathsTo(b, tid)
  {
    if b == [] {
      assert a + b == a;
    } else {
      assert (a + b)[..|a + b| - 1] == a + b[..|b| - 1];
      PathsToConcat(a, b[..|b| - 1], tid);
    }
  }

  /** The same for a search from several roots. */
  lemma {:induction false} FoundIffReachableFromARoot(g: Graph, roots: seq<TypeId>, tid: TypeId)
    requires g.Valid() && forall i :: 0 <= i < |roots| ==> g.Registered(roots[i])
    ensures PathsTo(GatheredFrom(g, roots), tid) != [] <==>
            exists i :: 0 <= i < |roots| && Reachable(g, roots[i], tid)
  {
    hide Gathered, Reachable;
    if roots != [] {
      var n := |roots| - 1;
      FoundIffReachableFromARoot(g, roots[..n], tid);
      FoundIffReachable(g, roots[n], tid);
      PathsToConcat(GatheredFrom(g, roots[..n]), Gathered(g, [], [], roots[n]), tid);
      if i :| 0 <= i < |roots| && Reachable(g, roots[i], tid) && i < n {
        assert roots[..n][i] == roots[i];
      }
      if i :| 0 <= i < n && Reachable(g, roots[..n][i], tid) {
        assert roots[i] == roots[..n][i];
      }
    }
  }
}
