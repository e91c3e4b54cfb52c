/**
 The recursive search for attribute configuration paths. It keeps two stacks, the current
 path and the types already entered, and appends to a log of results. The type graph may
 hold cycles and parallel edges.
 */
module PathSearch {
  import opened TypeGraph

  type Entry = (TypeId, string)

  function Render(path: seq<string>): string {
    if path == [] then "" else Render(path[..|path| - 1]) + "/" + path[|path| - 1]
  }

  ghost function Unprocessed(types: nat, processed: seq<TypeId>): set<TypeId> {
    set t: TypeId | t < types && t !in processed
  }

  /** How many more types the search can enter before every type is on its stack. */
  ghost function Room(g: Graph, processed: seq<TypeId>): nat {
    |Unprocessed(|g.registry.types|, processed)|
  }

  lemma EnteringTakesRoom(g: Graph, processed: seq<TypeId>, tid: TypeId)
    requires g.Registered(tid) && tid !in processed
    ensures Room(g, processed + [tid]) < Room(g, processed)
  {
    var n := |g.registry.types|;
    assert tid in Unprocessed(n, processed);
    assert Unprocessed(n, processed + [tid]) == Unprocessed(n, processed) - {tid};
  }

  /** What the search from `tid` appends to the log. */
  function Gathered(g: Graph, processed: seq<TypeId>, path: seq<string>, tid: TypeId): seq<Entry>
    requires g.Valid() && g.Registered(tid)
    decreases Room(g, processed), 0
  {
    if tid in processed then []
    else
      EnteringTakesRoom(g, processed, tid);
      [(tid, Render(path))] + GatheredAlong(g, processed + [tid], path, Edges(g, tid))
  }

  /** What the searches along `edges`, one after the other, append to the log. */
  function GatheredAlong(g: Graph, processed: seq<TypeId>, path: seq<string>, edges: seq<Edge>): seq<Entry>
    requires g.Valid() && TargetsRegistered(g, edges)
    decreases Room(g, processed), |edges|
  {
    if edges == [] then []
    else
      var last := edges[|edges| - 1];
      GatheredAlong(g, processed, path, edges[..|edges| - 1]) +
      Gathered(g, processed, path + [last.name], last.target)
  }

  /** What searches from `roots`, each starting with empty stacks, append to the log. */
  function GatheredFrom(g: Graph, roots: seq<TypeId>): seq<Entry>
    requires g.Valid() && forall i :: 0 <= i < |roots| ==> g.Registered(roots[i])
  {
    if roots == [] then []
    else GatheredFrom(g, roots[..|roots| - 1]) + Gathered(g, [], [], roots[|roots| - 1])
  }

  function PathsTo(output: seq<Entry>, tid: TypeId): seq<string> {
    if output == [] then []
    else
      var last := output[|output| - 1];
      PathsTo(output[..|output| - 1], tid) + if last.0 == tid then [last.1] else []
  }

  lemma {:induction false} GatheredAlongSnoc(g: Graph, processed: seq<TypeId>, path: seq<string>,
                                              edges: seq<Edge>, e: Edge)
    requires g.Valid() && TargetsRegistered(g, edges) && g.Registered(e.target)
    ensures TargetsRegistered(g, edges + [e])
    ensures GatheredAlong(g, processed, path, edges + [e]) ==
            GatheredAlong(g, processed, path, edges) + Gathered(g, processed, path + [e.name], e.target)
  {
  }

  lemma GatheredOnceOnStack(g: Graph, processed: seq<TypeId>, path: seq<string>, tid: TypeId)
    requires g.Valid() && g.Registered(tid) && tid in processed
    ensures Gathered(g, processed, path, tid) == []
  {
  }

  lemma {:induction false} GatheredAlongNothing(g: Graph, processed: seq<TypeId>, path: seq<string>)
    requires g.Valid()
    ensures GatheredAlong(g, processed, path, []) == []
  {
  }

  lemma {:induction false} GatheredAlongConcat(g: Graph, processed: seq<TypeId>, path: seq<string>,
                                                a: seq<Edge>, b: seq<Edge>)
    requires g.Valid() && TargetsRegistered(g, a) && TargetsRegistered(g, b)
    ensures GatheredAlong(g, processed, path, a + b) ==
            GatheredAlong(g, processed, path, a) + GatheredAlong(g, processed, path, b)
  {
    hide Gathered, GatheredAlong;
    if b == [] {
      assert a + b == a;
      GatheredAlongNothing(g, processed, path);
    } else {
      var front, last := b[..|b| - 1], b[|b| - 1];
      GatheredAlongConcat(g, processed, path, a, front);
      assert b == front + [last] && a + b == (a + front) + [last];
      GatheredAlongSnoc(g, processed, path, front, last);
      GatheredAlongSnoc(g, processed, path, a + front, last);
    }
  }

  lemma GatheredOnce(g: Graph, processed: seq<TypeId>, path: seq<string>, tid: TypeId)
    requires g.Valid() && g.Registered(tid) && tid !in processed
    ensures Gathered(g, processed, path, tid) ==
            [(tid, Render(path))] + GatheredAlong(g, processed + [tid], path, Edges(g, tid))
  {
    hide GatheredAlong;
  }

  /** Entering a type records it, then follows its three kinds of edge in turn. */
  lemma {:induction false} GatheredInTurn(g: Graph, processed: seq<TypeId>, path: seq<string>, tid: TypeId)
      returns (a: seq<Edge>, b: seq<Edge>, c: seq<Edge>)
    requires g.Valid() && g.Registered(tid) && tid !in processed
    ensures a == AttributeEdges(g, tid, |g.registry.types[tid].attributes|) && TargetsRegistered(g, a)
    ensures b == ChildEdges(g, tid, |g.registry.types|) && TargetsRegistered(g, b)
    ensures c == AggregateEdges(g, tid, |g.aggregates|) && TargetsRegistered(g, c)
    ensures Gathered(g, processed, path, tid) ==
            [(tid, Render(path))] + GatheredAlong(g, processed + [tid], path, a) +
            GatheredAlong(g, processed + [tid], path, b) + GatheredAlong(g, processed + [tid], path, c)
  {
    hide Gathered, GatheredAlong, Render, AttributeEdges, ChildEdges, AggregateEdges;
    GatheredOnce(g, processed, path, tid);
    AttributeEdgesRegistered(g, tid, |g.registry.types[tid].attributes|);
    ChildEdgesRegistered(g, tid, |g.registry.types|);
    AggregateEdgesRegistered(g, tid, |g.aggregates|);
    a := AttributeEdges(g, tid, |g.registry.types[tid].attributes|);
    b := ChildEdges(g, tid, |g.registry.types|);
    c := AggregateEdges(g, tid, |g.aggregates|);
    GatheredAlongConcat(g, processed + [tid], path, a, b);
    GatheredAlongConcat(g, processed + [tid], path, a + b, c);
  }

  class StaticInformation {
    const registry: Registry
    var output: seq<Entry>
    var currentPath: seq<string>
    var alreadyProcessed: seq<TypeId>
    var aggregates: seq<(TypeId, TypeId)>
    var noTids: seq<string>

    constructor (registry: Registry)
      ensures this.registry == registry
      ensures output == [] && currentPath == [] && alreadyProcessed == [] && aggregates == [] && noTids == []
    {
      this.registry := registry;
      output, currentPath, alreadyProcessed, aggregates, noTids := [], [], [], [], [];
    }

    function TheGraph(): Graph
      reads this
    {
      Graph(registry, aggregates)
    }

    /** The state of a search over `g` with the given two stacks. */
    ghost predicate Searching(g: Graph, processed: seq<TypeId>, path: seq<string>)
      reads this
    {
      g == TheGraph() && g.Valid() && alreadyProcessed == processed && currentPath == path
    }

    method HasAlreadyBeenProcessed(tid: TypeId) returns (found: bool)
      ensures found <==> tid in alreadyProcessed
    {
      for i := 0 to |alreadyProcessed|
        invariant tid !in alreadyProcessed[..i]
      {
        if alreadyProcessed[i] == tid {
          return true;
        }
      }
      return false;
    }

    method GetCurrentPath() returns (text: string)
      ensures text == Render(currentPath)
    {
      text := "";
      for i := 0 to |currentPath|
        invariant text == Render(currentPath[..i])
      {
        assert currentPath[..i + 1][..i] == currentPath[..i];
        text := text + "/" + currentPath[i];
      }
      assert currentPath[..|currentPath|] == currentPath;
    }

    /** The index of the first type with this name. */
    method Lookup(name: string) returns (found: bool, tid: TypeId)
      ensures found <==> exists t :: 0 <= t < |registry.types| && registry.types[t].name == name
      ensures found ==> tid < |registry.types| && registry.types[tid].name == name
    {
      found, tid := false, 0;
      while tid < |registry.types|
        invariant forall t :: 0 <= t < tid && t < |registry.types| ==> registry.types[t].name != name
      {
        if registry.types[tid].name == name {
          return true, tid;
        }
        tid := tid + 1;
      }
    }

    /** Records an aggregation, or the first of the two names that names no type. */
    method RecordAggregationInfo(a: string, b: string)
      requires TheGraph().Valid()
      modifies this`aggregates, this`noTids
      ensures TheGraph().Valid()
      ensures if Named(a) && Named(b)
              then exists p: (TypeId, TypeId) :: && aggregates == old(aggregates) + [p] && noTids == old(noTids)
                               && TheGraph().Registered(p.0) && registry.types[p.0].name == a
                               && TheGraph().Registered(p.1) && registry.types[p.1].name == b
              else aggregates == old(aggregates) && noTids == old(noTids) + [if Named(a) then b else a]
    {
      var found, aTid := Lookup(a);
      if !found {
        noTids := noTids + [a];
        return;
      }
      var bTid;
      found, bTid := Lookup(b);
      if !found {
        noTids := noTids + [b];
        return;
      }
      aggregates := aggregates + [(aTid, bTid)];
    }

    predicate Named(name: string) {
      exists t :: 0 <= t < |registry.types| && registry.types[t].name == name
    }

    method RecordOutput(tid: TypeId)
      modifies this`output
      ensures output == old(output) + [(tid, Render(currentPath))]
    {
      var text := GetCurrentPath();
      output := output + [(tid, text)];
    }

    method Get(tid: TypeId) returns (paths: seq<string>)
      ensures paths == PathsTo(output, tid)
    {
      paths := [];
      for i := 0 to |output|
        invariant paths == PathsTo(output[..i], tid)
      {
        assert output[..i + 1][..i] == output[..i];
        if output[i].0 == tid {
          paths := paths + [output[i].1];
        }
      }
      assert output[..|output|] == output;
    }

    /** The push, recurse and pop that all three kinds of edge share. */
    method Follow(ghost g: Graph, ghost processed: seq<TypeId>, ghost path: seq<string>, tid: TypeId, e: Edge)
      requires Searching(g, processed, path) && g.Registered(tid) && g.Registered(e.target)
      requires tid !in processed
      modifies this`output, this`currentPath, this`alreadyProcessed
      ensures Searching(g, processed, path)
      ensures output == old(output) +
                        Gathered(g, processed + [tid], path + [e.name], e.target)
      decreases Room(g, processed), 0
    {
      EnteringTakesRoom(g, processed, tid);
      currentPath := currentPath + [e.name];
      alreadyProcessed := alreadyProcessed + [tid];
      DoGather(g, processed + [tid], path + [e.name], e.target);
      alreadyProcessed := alreadyProcessed[..|alreadyProcessed| - 1];
      currentPath := currentPath[..|currentPath| - 1];
    }

    method GatherAttributes(ghost g: Graph, ghost processed: seq<TypeId>, ghost path: seq<string>, tid: TypeId)
      requires Searching(g, processed, path) && g.Registered(tid) && tid !in processed
      modifies this`output, this`currentPath, this`alreadyProcessed
      ensures Searching(g, processed, path)
      ensures var es := AttributeEdges(g, tid, |registry.types[tid].attributes|);
              && TargetsRegistered(g, es)
              && output == old(output) + GatheredAlong(g, processed + [tid], path, es)
      decreases Room(g, processed), 1
    {
      hide Gathered, GatheredAlong;
      ghost var inner := processed + [tid];
      GatheredAlongNothing(g, inner, path);
      var attributes := registry.types[tid].attributes;
      for i := 0 to |attributes|
        invariant Searching(g, processed, path)
        invariant TargetsRegistered(g, AttributeEdges(g, tid, i))
        invariant output == old(output) + GatheredAlong(g, inner, path, AttributeEdges(g, tid, i))
      {
        ghost var done := AttributeEdges(g, tid, i);
        assert g.AttributeValid(attributes[i]);
        match attributes[i] {
          case Pointer(name, pointee) =>
            if pointee == registry.objectType {
              assert done + [] == done;
              continue;
            }
            GatheredAlongSnoc(g, inner, path, done, Edge(name, pointee));
            Follow(g, processed, path, tid, Edge(name, pointee));
          case ObjectVector(name, item) =>
            GatheredAlongSnoc(g, inner, path, done, Edge(name + "/[i]", item));
            Follow(g, processed, path, tid, Edge(name + "/[i]", item));
          case Plain(_) =>
            assert done + [] == done;
        }
      }
    }

    method GatherChildren(ghost g: Graph, ghost processed: seq<TypeId>, ghost path: seq<string>, tid: TypeId)
      requires Searching(g, processed, path) && g.Registered(tid) && tid !in processed
      modifies this`output, this`currentPath, this`alreadyProcessed
      ensures Searching(g, processed, path)
      ensures var es := ChildEdges(g, tid, |registry.types|);
              && TargetsRegistered(g, es)
              && output == old(output) + GatheredAlong(g, processed + [tid], path, es)
      decreases Room(g, processed), 1
    {
      hide Gathered, GatheredAlong;
      ghost var inner := processed + [tid];
      GatheredAlongNothing(g, inner, path);
      for j := 0 to |registry.types|
        invariant Searching(g, processed, path)
        invariant TargetsRegistered(g, ChildEdges(g, tid, j))
        invariant output == old(output) + GatheredAlong(g, inner, path, ChildEdges(g, tid, j))
      {
        ghost var done := ChildEdges(g, tid, j);
        if (j, tid) in registry.childOf {
          var childName := "$" + registry.types[j].name;
          GatheredAlongSnoc(g, inner, path, done, Edge(childName, j));
          Follow(g, processed, path, tid, Edge(childName, j));
        } else {
          assert done + [] == done;
        }
      }
    }

    method GatherAggregates(ghost g: Graph, ghost processed: seq<TypeId>, ghost path: seq<string>, tid: TypeId)
      requires Searching(g, processed, path) && g.Registered(tid) && tid !in processed
      modifies this`output, this`currentPath, this`alreadyProcessed
      ensures Searching(g, processed, path)
      ensures var es := AggregateEdges(g, tid, |aggregates|);
              && TargetsRegistered(g, es)
              && output == old(output) + GatheredAlong(g, processed + [tid], path, es)
      decreases Room(g, processed), 1
    {
      hide Gathered, GatheredAlong;
      ghost var inner := processed + [tid];
      GatheredAlongNothing(g, inner, path);
      for k := 0 to |aggregates|
        invariant Searching(g, processed, path)
        invariant TargetsRegistered(g, AggregateEdges(g, tid, k))
        invariant output == old(output) + GatheredAlong(g, inner, path, AggregateEdges(g, tid, k))
      {
        ghost var done := AggregateEdges(g, tid, k);
        var item := aggregates[k];
        if item.0 == tid || item.1 == tid {
          var other := item.0;
          if item.0 == tid {
            other := item.1;
          }
          if item.1 == tid {
            other := item.0;
          }
          var name := "$" + registry.types[other].name;
          GatheredAlongSnoc(g, inner, path, done, Edge(name, other));
          Follow(g, processed, path, tid, Edge(name, other));
        } else {
          assert done + [] == done;
        }
      }
    }

    method DoGather(ghost g: Graph, ghost processed: seq<TypeId>, ghost path: seq<string>, tid: TypeId)
      requires Searching(g, processed, path) && g.Registered(tid)
      modifies this`output, this`currentPath, this`alreadyProcessed
      ensures Searching(g, processed, path)
      ensures output == old(output) + Gathered(g, processed, path, tid)
      decreases Room(g, processed), 2
    {
      hide AttributeEdges, ChildEdges, AggregateEdges, Gathered, GatheredAlong, Room;
      var entered := HasAlreadyBeenProcessed(tid);
      if entered {
        GatheredOnceOnStack(g, processed, path, tid);
        return;
      }
      ghost var a, b, c := GatheredInTurn(g, processed, path, tid);
      RecordOutput(tid);
      GatherAttributes(g, processed, path, tid);
      GatherChildren(g, processed, path, tid);
      GatherAggregates(g, processed, path, tid);
    }

    /** Sorting and deduplicating a copy of the log leaves the log itself as it was. */
    method Gather(tid: TypeId)
      requires TheGraph().Valid() && TheGraph().Registered(tid)
      modifies this`output, this`currentPath, this`alreadyProcessed
      ensures currentPath == old(currentPath) && alreadyProcessed == old(alreadyProcessed)
      ensures output == old(output) + Gathered(TheGraph(), alreadyProcessed, currentPath, tid)
    {
      DoGather(TheGraph(), alreadyProcessed, currentPath, tid);
    }

    /** Gathers from the type of every root namespace object. */
    method GatherRoots(roots: seq<TypeId>)
      requires TheGraph().Valid() && forall i :: 0 <= i < |roots| ==> TheGraph().Registered(roots[i])
      requires alreadyProcessed == [] && currentPath == []
      modifies this`output, this`currentPath, this`alreadyProcessed
      ensures alreadyProcessed == [] && currentPath == []
      ensures output == old(output) + GatheredFrom(TheGraph(), roots)
    {
      hide Gathered;
      for i := 0 to |roots|
        invariant alreadyProcessed == [] && currentPath == []
        invariant output == old(output) + GatheredFrom(TheGraph(), roots[..i])
      {
        assert roots[..i + 1][..i] == roots[..i];
        Gather(roots[i]);
      }
      assert roots[..|roots|] == roots;
    }
  }
}
