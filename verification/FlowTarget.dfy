/** Which on-off application a set-flow-rate command acts upon. */
module FlowTarget {
  import opened Wrappers

  /** A node that exists says of each of its applications whether it is an on-off application. */
  type Nodes = seq<Option<seq<bool>>>

  /** A command without a node is given this one. */
  const NOT_SPECIFIED: nat := 0xffff_ffff

  predicate IsTarget(nodes: Nodes, node: nat, app: nat) {
    node < |nodes| && nodes[node].Some? && app < |nodes[node].value| && nodes[node].value[app]
  }

  predicate NodeGiven(nodes: Nodes, node: nat) {
    node != NOT_SPECIFIED && node < |nodes| && nodes[node].Some?
  }

  method FirstOnNode(apps: seq<bool>) returns (found: Option<nat>)
    ensures found.None? ==> forall a :: 0 <= a < |apps| ==> !apps[a]
    ensures found.Some? ==> found.value < |apps| && apps[found.value] && forall a :: 0 <= a < found.value ==> !apps[a]
  {
    for i := 0 to |apps|
      invariant forall a :: 0 <= a < i ==> !apps[a]
    {
      if apps[i] {
        return Some(i);
      }
    }
    return None;
  }

  /**
   A target is found exactly when there is one on any node. The given application of the given
   node comes first, then the first one on that node, then the first one on the first node.
   */
  method FindTarget(nodes: Nodes, node: nat, app: nat) returns (found: Option<(nat, nat)>)
    ensures found.None? <==> forall n: nat, a: nat :: !IsTarget(nodes, n, a)
    ensures found.Some? ==> IsTarget(nodes, found.value.0, found.value.1)
    ensures NodeGiven(nodes, node) && IsTarget(nodes, node, app) ==> found == Some((node, app))
    ensures NodeGiven(nodes, node) && !IsTarget(nodes, node, app) && (exists a: nat :: IsTarget(nodes, node, a)) ==>
              found.Some? && found.value.0 == node && forall a: nat :: a < found.value.1 ==> !IsTarget(nodes, node, a)
    ensures (!NodeGiven(nodes, node) || forall a: nat :: !IsTarget(nodes, node, a)) && found.Some? ==>
              forall n: nat, a: nat :: IsTarget(nodes, n, a) ==>
                found.value.0 < n || (found.value.0 == n && found.value.1 <= a)
  {
    if node != NOT_SPECIFIED && node < |nodes| && nodes[node].Some? {
      var apps := nodes[node].value;
      if app < |apps| && apps[app] {
        assert IsTarget(nodes, node, app);
        return Some((node, app));
      }
      var onNode := FirstOnNode(apps);
      if onNode.Some? {
        assert IsTarget(nodes, node, onNode.value);
        return Some((node, onNode.value));
      }
    }
    for i := 0 to |nodes|
      invariant forall n: nat, a: nat :: IsTarget(nodes, n, a) ==> i <= n
    {
      if nodes[i].None? {
        continue;
      }
      var onNode := FirstOnNode(nodes[i].value);
      if onNode.Some? {
        assert IsTarget(nodes, i, onNode.value);
        return Some((i, onNode.value));
      }
    }
    return None;
  }
}
