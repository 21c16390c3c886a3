/**
 * The in-memory state of the standalone `ProductTreeManager` of ui/app.js: the loaded tree, the
 * set of expanded node ids, and the selected and edited node. Rendering, detail panels and the
 * server round trips are not modelled; where a server answer decides a branch it is a parameter.
 */
module UiState {
  import opened Wrappers
  import opened Strings
  import opened UiModel
  import opened Expansion

  // ------------------------------------------------------------------ delete

  /** `nodes.filter(n => n.id !== nodeId)`. */
  function WithoutNode(nodes: seq<UiNode>, id: string): (r: seq<UiNode>)
    ensures forall n :: n in r <==> n in nodes && n.id != id
    ensures |r| <= |nodes|
  {
    if nodes == [] then []
    else (if nodes[0].id != id then [nodes[0]] else []) + WithoutNode(nodes[1..], id)
  }

  /** `edges.filter(e => e.from !== nodeId && e.to !== nodeId)`. */
  function WithoutEdgesAt(edges: seq<UiEdge>, id: string): (r: seq<UiEdge>)
    ensures forall e :: e in r <==> e in edges && e.from != id && e.to != id
    ensures |r| <= |edges|
  {
    if edges == [] then []
    else (if edges[0].from != id && edges[0].to != id then [edges[0]] else []) + WithoutEdgesAt(edges[1..], id)
  }

  /** Deleting an id no node carries leaves the nodes as they were. */
  lemma {:induction false} WithoutAbsentNode(nodes: seq<UiNode>, id: string)
    requires id !in NodeIds(nodes)
    ensures WithoutNode(nodes, id) == nodes
  {
    if nodes != [] {
      assert NodeIds(nodes[1..]) <= NodeIds(nodes) by {
        forall x | x in NodeIds(nodes[1..]) ensures x in NodeIds(nodes) {
          var n :| n in nodes[1..] && n.id == x;
          assert n in nodes;
        }
      }
      WithoutAbsentNode(nodes[1..], id);
      assert nodes == [nodes[0]] + nodes[1..];
    }
  }

  // ------------------------------------------------------------------ getNodeCounts

  /** The counter object `getNodeCounts` starts from. */
  const InitialCounts: map<string, nat> :=
    map["total" := 0, "products" := 0, "goals" := 0, "jobs" := 0, "workItems" := 0]

  /** `(counts[k] || 0)`: a missing key reads as 0. */
  function Get(c: map<string, nat>, k: string): nat
  {
    if k in c then c[k] else 0
  }

  /** One step of the `forEach`: `counts.total++`, then `counts[node.type + 's']` is bumped. */
  function Bump(c: map<string, nat>, nodeType: string): map<string, nat>
  {
    var c1 := c["total" := Get(c, "total") + 1];
    c1[nodeType + "s" := Get(c1, nodeType + "s") + 1]
  }

  /** The object `getNodeCounts` returns after visiting `nodes` in order. */
  function Counts(nodes: seq<UiNode>): map<string, nat>
  {
    if nodes == [] then InitialCounts else Bump(Counts(nodes[..|nodes| - 1]), nodes[|nodes| - 1].nodeType)
  }

  /** How many nodes have a type whose plural key is `k`. */
  function KeyCount(nodes: seq<UiNode>, k: string): nat
  {
    if nodes == [] then 0
    else KeyCount(nodes[..|nodes| - 1], k) + (if nodes[|nodes| - 1].nodeType + "s" == k then 1 else 0)
  }

  /** How many nodes have exactly the type `ty`. */
  function TypeCount(nodes: seq<UiNode>, ty: string): nat
  {
    if nodes == [] then 0
    else TypeCount(nodes[..|nodes| - 1], ty) + (if nodes[|nodes| - 1].nodeType == ty then 1 else 0)
  }

  lemma PluralInjective(a: string, b: string)
    requires a + "s" == b + "s"
    ensures a == b
  {
    assert a == (a + "s")[..|a|];
    assert b == (b + "s")[..|b|];
  }

  lemma CountsStep(nodes: seq<UiNode>, i: nat)
    requires i < |nodes|
    ensures Counts(nodes[..i + 1]) == Bump(Counts(nodes[..i]), nodes[i].nodeType)
  {
    assert nodes[..i + 1][..i] == nodes[..i];
  }

  /** A key counts the nodes whose type pluralises to it; `total` also counts every node. */
  lemma {:induction false} CountsSpec(nodes: seq<UiNode>)
    ensures forall k :: k in InitialCounts ==> k in Counts(nodes)
    ensures Counts(nodes)["total"] == |nodes| + KeyCount(nodes, "total")
    ensures forall k :: k in Counts(nodes) && k != "total" ==> Counts(nodes)[k] == KeyCount(nodes, k)
    ensures forall k :: k in Counts(nodes) <==> k in InitialCounts || KeyCount(nodes, k) > 0
  {
    if nodes != [] {
      CountsSpec(nodes[..|nodes| - 1]);
    }
  }

  /** With one key per type, the plural keys count exactly the nodes of that type. */
  lemma {:induction false} KeyCountIsTypeCount(nodes: seq<UiNode>, ty: string)
    ensures KeyCount(nodes, ty + "s") == TypeCount(nodes, ty)
  {
    if nodes != [] {
      KeyCountIsTypeCount(nodes[..|nodes| - 1], ty);
      var last := nodes[|nodes| - 1].nodeType;
      if last + "s" == ty + "s" {
        PluralInjective(last, ty);
      }
    }
  }

  /**
   * The import summary reads `counts.workItems`, but `work_item` nodes are counted under
   * `work_items`: one `work_item` node leaves `workItems` at 0.
   */
  lemma WorkItemsNotCounted(n: UiNode)
    requires n.nodeType == "work_item"
    ensures Get(Counts([n]), "workItems") == 0 && Get(Counts([n]), "work_items") == 1
  {
    assert [n][..0] == [];
    assert "work_item" + "s" == "work_items";
  }

  /** The key a type was evidently meant to be counted under. */
  function CountKey(nodeType: string): string
  {
    match nodeType
    case "work_item" => "workItems"
    case _ => nodeType + "s"
  }

  function BumpFixed(c: map<string, nat>, nodeType: string): map<string, nat>
  {
    var c1 := c["total" := Get(c, "total") + 1];
    c1[CountKey(nodeType) := Get(c1, CountKey(nodeType)) + 1]
  }

  function FixedCounts(nodes: seq<UiNode>): map<string, nat>
  {
    if nodes == [] then InitialCounts else BumpFixed(FixedCounts(nodes[..|nodes| - 1]), nodes[|nodes| - 1].nodeType)
  }

  /** Corrected: `workItems` is the number of `work_item` nodes; the other keys are unchanged. */
  lemma {:induction false} FixedCountsWorkItems(nodes: seq<UiNode>)
    ensures "workItems" in FixedCounts(nodes) && "products" in FixedCounts(nodes)
    ensures FixedCounts(nodes)["workItems"] == TypeCount(nodes, "work_item") + TypeCount(nodes, "workItem")
    ensures FixedCounts(nodes)["products"] == TypeCount(nodes, "product")
  {
    if nodes != [] {
      FixedCountsWorkItems(nodes[..|nodes| - 1]);
      var last := nodes[|nodes| - 1].nodeType;
      if last + "s" == "products" {
        PluralInjective(last, "product");
      }
      if last + "s" == "workItems" {
        PluralInjective(last, "workItem");
      }
      assert (last + "s")[|last|] == 's';
    }
  }

  // ------------------------------------------------------------------ the manager

  /** `addChildNode`'s new node; the fields it does not set are "" (and no tags or job data). */
  function NewChild(newId: string, parentId: string): UiNode
  {
    UiNode(newId, "New Node", "Work Item", "", "", "Not Started", "Medium", "", "", "", "", [], None,
           "", "", parentId)
  }

  class ProductTreeManager {
    var productTree: Option<UiTree>
    var expandedNodes: set<string>
    var selectedNode: Option<string>
    var editingNode: Option<string>

    constructor()
      ensures productTree == None && expandedNodes == {} && selectedNode == None && editingNode == None
    {
      productTree := None;
      expandedNodes := {};
      selectedNode := None;
      editingNode := None;
    }

    /** `findNodeById`: the first node with that id, `null` when no tree is loaded. */
    function FindNodeById(id: string): (r: Option<UiNode>)
      reads this
      ensures productTree.None? ==> r.None?
      ensures r.Some? ==> r.value.id == id && r.value in productTree.value.nodes
      ensures productTree.Some? && r.None? ==> id !in NodeIds(productTree.value.nodes)
    {
      if productTree.None? then None
      else FindById(productTree.value.nodes, id)
    }

    method ToggleNode(id: string)
      modifies this
      ensures expandedNodes == Toggled(old(expandedNodes), id)
      ensures productTree == old(productTree) && selectedNode == old(selectedNode) && editingNode == old(editingNode)
    {
      if id in expandedNodes {
        expandedNodes := expandedNodes - {id};
      } else {
        expandedNodes := expandedNodes + {id};
      }
    }

    /**
     * `expandAll`: every node id is added. With no tree loaded, reading `nodes` throws before
     * the loop starts; `ok` is false and nothing changes.
     */
    method ExpandAll() returns (ok: bool)
      modifies this
      ensures productTree == old(productTree) && selectedNode == old(selectedNode) && editingNode == old(editingNode)
      ensures ok <==> productTree.Some?
      ensures ok ==> expandedNodes == old(expandedNodes) + NodeIds(productTree.value.nodes)
      ensures !ok ==> expandedNodes == old(expandedNodes)
    {
      if productTree.None? {
        return false;
      }
      var nodes := productTree.value.nodes;
      var i := 0;
      while i < |nodes|
        invariant 0 <= i <= |nodes|
        invariant expandedNodes == old(expandedNodes) + NodeIds(nodes[..i])
        invariant productTree == old(productTree) && selectedNode == old(selectedNode) && editingNode == old(editingNode)
      {
        assert nodes[..i + 1] == nodes[..i] + [nodes[i]];
        expandedNodes := expandedNodes + {nodes[i].id};
        i := i + 1;
      }
      assert nodes[..i] == nodes;
      return true;
    }

    method CollapseAll()
      modifies this
      ensures expandedNodes == {}
      ensures productTree == old(productTree) && selectedNode == old(selectedNode) && editingNode == old(editingNode)
    {
      expandedNodes := {};
    }

    /** `getNodeCounts()`, as written; `None` where no tree is loaded and reading `nodes` throws. */
    method GetNodeCounts() returns (counts: Option<map<string, nat>>)
      ensures productTree.None? ==> counts.None?
      ensures productTree.Some? ==> counts == Some(Counts(productTree.value.nodes))
    {
      if productTree.None? {
        return None;
      }
      var nodes := productTree.value.nodes;
      var c := InitialCounts;
      var i := 0;
      while i < |nodes|
        invariant 0 <= i <= |nodes|
        invariant c == Counts(nodes[..i])
      {
        CountsStep(nodes, i);
        var key := nodes[i].nodeType + "s";
        c := c["total" := Get(c, "total") + 1];
        c := c[key := Get(c, key) + 1];
        i := i + 1;
      }
      assert nodes[..i] == nodes;
      return Some(c);
    }

    method SelectNode(id: string)
      modifies this
      ensures selectedNode == Some(id)
      ensures productTree == old(productTree) && expandedNodes == old(expandedNodes) && editingNode == old(editingNode)
    {
      selectedNode := Some(id);
    }

    /** `editNode`: only an id that names a node becomes the edited one. */
    method EditNode(id: string)
      modifies this
      ensures editingNode == if FindNodeById(id).Some? then Some(id) else old(editingNode)
      ensures productTree == old(productTree) && expandedNodes == old(expandedNodes) && selectedNode == old(selectedNode)
    {
      var node := FindNodeById(id);
      if node.Some? {
        editingNode := Some(id);
      }
    }

    /**
     * `addChildNode(parentId)`; `stamp` is `Date.now()`. Nothing happens unless the parent
     * exists; then one node and one edge parent→new are appended, and the new node is selected
     * and opened for editing.
     */
    method AddChildNode(parentId: string, stamp: nat)
      modifies this
      ensures old(FindNodeById(parentId)).None? ==>
        productTree == old(productTree) && selectedNode == old(selectedNode) && editingNode == old(editingNode)
      ensures old(FindNodeById(parentId)).Some? ==>
        var newId := "node_" + NatToString(stamp);
        && productTree == Some(UiTree(old(productTree).value.nodes + [NewChild(newId, parentId)],
                                      old(productTree).value.edges + [UiEdge("", parentId, newId, "")]))
        && selectedNode == Some(newId) && editingNode == Some(newId)
      ensures expandedNodes == old(expandedNodes)
    {
      var parent := FindNodeById(parentId);
      if parent.None? {
        return;
      }
      var newId := "node_" + NatToString(stamp);
      var tree := productTree.value;
      productTree := Some(UiTree(tree.nodes + [NewChild(newId, parentId)], tree.edges + [UiEdge("", parentId, newId, "")]));
      SelectNode(newId);
      assert productTree.value.nodes[|tree.nodes|] == NewChild(newId, parentId);
      EditNode(newId);
    }

    /**
     * The local update of `deleteNodeConfirm(nodeId)`: `confirmed` is the user's answer and
     * `deleted` whether `deleteNode` reported success. Then the node and every edge touching
     * it are dropped and the selection is cleared.
     */
    method DeleteNodeConfirm(nodeId: string, confirmed: bool, deleted: bool)
      modifies this
      ensures old(FindNodeById(nodeId)).Some? && confirmed && deleted ==>
        && productTree == Some(UiTree(WithoutNode(old(productTree).value.nodes, nodeId),
                                      WithoutEdgesAt(old(productTree).value.edges, nodeId)))
        && selectedNode == None
      ensures !(old(FindNodeById(nodeId)).Some? && confirmed && deleted) ==>
        productTree == old(productTree) && selectedNode == old(selectedNode)
      ensures expandedNodes == old(expandedNodes) && editingNode == old(editingNode)
    {
      var node := FindNodeById(nodeId);
      if node.None? || !confirmed || !deleted {
        return;
      }
      var tree := productTree.value;
      productTree := Some(UiTree(WithoutNode(tree.nodes, nodeId), WithoutEdgesAt(tree.edges, nodeId)));
      selectedNode := None;
    }
  }

  /**
   * After `addChildNode` with a fresh id, the new node is the one found under that id and the
   * only edge into it comes from the parent.
   */
  lemma AddedChildIsLinked(t: UiTree, parentId: string, newId: string)
    requires newId !in NodeIds(t.nodes) && forall e :: e in t.edges ==> e.to != newId
    ensures var t2 := UiTree(t.nodes + [NewChild(newId, parentId)], t.edges + [UiEdge("", parentId, newId, "")]);
      && FindById(t2.nodes, newId) == Some(NewChild(newId, parentId))
      && (forall e :: e in t2.edges && e.to == newId ==> e == UiEdge("", parentId, newId, ""))
      && |t2.nodes| == |t.nodes| + 1 && |t2.edges| == |t.edges| + 1
  {
    var nodes := t.nodes + [NewChild(newId, parentId)];
    assert nodes[|t.nodes|] == NewChild(newId, parentId);
    forall j | 0 <= j < |t.nodes|
      ensures nodes[j].id != newId
    {
      assert nodes[j] == t.nodes[j];
      assert t.nodes[j] in t.nodes;
    }
  }

  /** After a delete, no remaining edge touches the id and no remaining node carries it. */
  lemma DeleteLeavesNoTrace(t: UiTree, id: string)
    ensures id !in NodeIds(WithoutNode(t.nodes, id))
    ensures forall e :: e in WithoutEdgesAt(t.edges, id) ==> e.from != id && e.to != id
    ensures forall n :: n in t.nodes && n.id != id ==> n in WithoutNode(t.nodes, id)
    ensures forall e :: e in t.edges && e.from != id && e.to != id ==> e in WithoutEdgesAt(t.edges, id)
  {
  }
}
