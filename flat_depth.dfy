/**
 * `getNodeDepth` and `calculateMaxDepth` of web/app.js. Both follow outgoing edges without a
 * visited set, so they run forever when a cycle is reachable; the model asks for a rank on ids
 * that falls along every edge, which exists exactly when the edges have no cycle.
 */
module FlatDepth {
  import opened Wrappers
  import opened FlatModel
  import opened FlatAnalysis

  /** Every edge leads from a higher rank to a lower one, so no walk along edges comes back. */
  predicate Ranked(t: FlatTree, rank: Option<string> -> nat)
  {
    forall e :: e in t.edges ==> rank(e.from) > rank(e.to)
  }

  function Max(a: nat, b: nat): nat
  {
    if a < b then b else a
  }

  lemma TargetsBelow(t: FlatTree, rank: Option<string> -> nat, id: Option<string>)
    requires Ranked(t, rank)
    ensures forall c :: c in Targets(t.edges, id) ==> rank(c) < rank(id)
  {
    forall c | c in Targets(t.edges, id)
      ensures rank(c) < rank(id)
    {
      var e :| e in t.edges && e.from == id && e.to == c;
    }
  }

  /** The number of edges on the longest walk that leaves `id`. */
  function Height(t: FlatTree, rank: Option<string> -> nat, id: Option<string>): nat
    requires Ranked(t, rank)
    decreases rank(id), 1
  {
    TargetsBelow(t, rank, id);
    ChildrenHeight(t, rank, id, Targets(t.edges, id))
  }

  /** The largest `1 + Height(c)` over the children `cs` of `id`, 0 for none. */
  function ChildrenHeight(t: FlatTree, rank: Option<string> -> nat, id: Option<string>, cs: seq<Option<string>>): nat
    requires Ranked(t, rank)
    requires forall c :: c in cs ==> rank(c) < rank(id)
    decreases rank(id), 0, |cs|
  {
    if cs == [] then 0
    else
      var last := cs[|cs| - 1];
      Max(ChildrenHeight(t, rank, id, cs[..|cs| - 1]), 1 + Height(t, rank, last))
  }

  lemma {:induction false} ChildrenHeightSpec(t: FlatTree, rank: Option<string> -> nat, id: Option<string>, cs: seq<Option<string>>)
    requires Ranked(t, rank)
    requires forall c :: c in cs ==> rank(c) < rank(id)
    ensures forall c :: c in cs ==> ChildrenHeight(t, rank, id, cs) >= 1 + Height(t, rank, c)
    ensures cs == [] <==> ChildrenHeight(t, rank, id, cs) == 0
    ensures cs != [] ==> exists c :: c in cs && ChildrenHeight(t, rank, id, cs) == 1 + Height(t, rank, c)
    decreases |cs|
  {
    if cs != [] {
      var front := cs[..|cs| - 1];
      ChildrenHeightSpec(t, rank, id, front);
      assert forall c :: c in cs <==> c in front || c == cs[|cs| - 1];
    }
  }

  /**
   * The height is 0 exactly for an id without outgoing edges; otherwise it is one more than the
   * height of some child and no less than one more than that of every child, so it is the
   * length of the longest walk. It never exceeds the id's rank.
   */
  lemma HeightSpec(t: FlatTree, rank: Option<string> -> nat, id: Option<string>)
    requires Ranked(t, rank)
    ensures Height(t, rank, id) == 0 <==> !HasOutgoing(t, id)
    ensures forall c :: c in Targets(t.edges, id) ==> Height(t, rank, id) >= 1 + Height(t, rank, c)
    ensures HasOutgoing(t, id) ==>
      exists c :: c in Targets(t.edges, id) && Height(t, rank, id) == 1 + Height(t, rank, c)
    ensures Height(t, rank, id) <= rank(id)
    decreases rank(id)
  {
    var cs := Targets(t.edges, id);
    TargetsBelow(t, rank, id);
    ChildrenHeightSpec(t, rank, id, cs);
    if HasOutgoing(t, id) {
      var e :| e in t.edges && e.from == id;
      assert e.to in cs;
      var c :| c in cs && Height(t, rank, id) == 1 + Height(t, rank, c);
      HeightSpec(t, rank, c);
    }
  }

  /** `getNodeDepth(nodeId, currentDepth)`: the deepest level reached below the node. */
  method GetNodeDepth(t: FlatTree, ghost rank: Option<string> -> nat, nodeId: Option<string>, currentDepth: nat)
    returns (depth: nat)
    requires Ranked(t, rank)
    ensures depth == currentDepth + Height(t, rank, nodeId)
    decreases rank(nodeId)
  {
    var children := Targets(t.edges, nodeId);
    TargetsBelow(t, rank, nodeId);
    if |children| == 0 {
      return currentDepth;
    }
    var maxChildDepth := currentDepth;
    for i := 0 to |children|
      invariant maxChildDepth == currentDepth + ChildrenHeight(t, rank, nodeId, children[..i])
    {
      assert children[..i + 1][..i] == children[..i];
      assert children[i] in children;
      var childDepth := GetNodeDepth(t, rank, children[i], currentDepth + 1);
      maxChildDepth := Max(maxChildDepth, childDepth);
    }
    assert children[..|children|] == children;
    return maxChildDepth;
  }

  /** `calculateMaxDepth`: the largest height of a root, 0 when there is no root. */
  method CalculateMaxDepth(t: FlatTree, ghost rank: Option<string> -> nat) returns (maxDepth: nat)
    requires Ranked(t, rank)
    ensures forall n :: n in Roots(t, t.nodes) ==> maxDepth >= Height(t, rank, n.id)
    ensures Roots(t, t.nodes) == [] ==> maxDepth == 0
    ensures Roots(t, t.nodes) != [] ==> exists n :: n in Roots(t, t.nodes) && maxDepth == Height(t, rank, n.id)
  {
    var rootNodes := Roots(t, t.nodes);
    maxDepth := DeepestOf(t, rank, rootNodes);
  }

  /** The `forEach` of `calculateMaxDepth`, folding `Math.max` over the roots' depths. */
  method DeepestOf(t: FlatTree, ghost rank: Option<string> -> nat, rootNodes: seq<FlatNode>) returns (maxDepth: nat)
    requires Ranked(t, rank)
    ensures forall n :: n in rootNodes ==> maxDepth >= Height(t, rank, n.id)
    ensures rootNodes == [] ==> maxDepth == 0
    ensures rootNodes != [] ==> exists n :: n in rootNodes && maxDepth == Height(t, rank, n.id)
  {
    maxDepth := 0;
    for i := 0 to |rootNodes|
      invariant forall k :: 0 <= k < i ==> maxDepth >= Height(t, rank, rootNodes[k].id)
      invariant i == 0 ==> maxDepth == 0
      invariant i > 0 ==> exists k :: 0 <= k < i && maxDepth == Height(t, rank, rootNodes[k].id)
    {
      var depth := GetNodeDepth(t, rank, rootNodes[i].id, 0);
      maxDepth := Max(maxDepth, depth);
    }
  }
}
