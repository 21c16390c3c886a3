/**
 * The state of the `ProductTreeManager` of web-deploy/public/app.js: the loaded tree, the
 * selected node, the search term and the set of expanded ids, with the operations that change
 * them and the context object handed to the assistant.
 */
module DeployState {
  import opened Wrappers
  import opened Strings
  import opened Xml
  import opened Expansion
  import opened DeployTree

  // ---------------------------------------------------------------- levels below the root

  /** The node and the nodes at most `d` levels below it, in pre-order. */
  function Within(n: TreeNode, d: nat): seq<TreeNode>
    decreases n, 1
  {
    [n] + if d == 0 then [] else ForestWithin(n.children, d - 1)
  }

  function ForestWithin(cs: seq<TreeNode>, d: nat): seq<TreeNode>
    decreases cs, 0
  {
    if cs == [] then [] else Within(cs[0], d) + ForestWithin(cs[1..], d)
  }

  lemma ForestWithinAt(cs: seq<TreeNode>, i: nat, d: nat)
    requires i < |cs|
    ensures ForestWithin(cs[i..], d) == Within(cs[i], d) + ForestWithin(cs[i + 1..], d)
  {
    assert cs[i..][1..] == cs[i + 1..];
  }

  /** At depth 0 each tree of a forest contributes its root alone. */
  lemma LeafIdsAt(cs: seq<TreeNode>, i: nat)
    requires i < |cs|
    ensures Ids(ForestWithin(cs[i..], 0)) == {cs[i].id} + Ids(ForestWithin(cs[i + 1..], 0))
  {
    ForestWithinAt(cs, i, 0);
    assert Within(cs[i], 0) == [cs[i]];
    IdsAppend([cs[i]], ForestWithin(cs[i + 1..], 0));
    assert Ids([cs[i]]) == {cs[i].id};
  }

  /** The number of levels below the node: 0 for a leaf. */
  function Height(n: TreeNode): nat
    decreases n, 1
  {
    ForestHeight(n.children)
  }

  function ForestHeight(cs: seq<TreeNode>): nat
    decreases cs, 0
  {
    if cs == [] then 0
    else
      var rest := ForestHeight(cs[1..]);
      if rest < 1 + Height(cs[0]) then 1 + Height(cs[0]) else rest
  }

  /**
   * Depth-limited pre-order keeps only nodes of the tree, and on a tree no more than `d`
   * levels deep it is the whole pre-order.
   */
  lemma {:induction false} WithinIsNodes(n: TreeNode, d: nat)
    ensures Ids(Within(n, d)) <= Ids(Nodes(n))
    ensures Height(n) <= d ==> Within(n, d) == Nodes(n)
    decreases n, 1
  {
    if d == 0 {
      assert Within(n, d) == [n];
      if n.children != [] {
        assert Height(n) >= 1;
      }
    } else {
      ForestWithinIsForest(n.children, d - 1);
      IdsAppend([n], ForestWithin(n.children, d - 1));
      IdsAppend([n], Forest(n.children));
    }
  }

  lemma {:induction false} ForestWithinIsForest(cs: seq<TreeNode>, d: nat)
    ensures Ids(ForestWithin(cs, d)) <= Ids(Forest(cs))
    ensures ForestHeight(cs) <= d + 1 ==> ForestWithin(cs, d) == Forest(cs)
    decreases cs, 0
  {
    if cs != [] {
      WithinIsNodes(cs[0], d);
      ForestWithinIsForest(cs[1..], d);
      IdsAppend(Within(cs[0], d), ForestWithin(cs[1..], d));
      IdsAppend(Nodes(cs[0]), Forest(cs[1..]));
    }
  }

  // ---------------------------------------------------------------- the context for the assistant

  /** The fields of the selected node and of its children in the context. */
  datatype Summary = Summary(id: string, title: string, nodeType: string, status: string,
                             priority: string, team: string, summary: string, description: string)

  /** The fields of the parent and of the siblings in the context. */
  datatype Brief = Brief(id: string, title: string, nodeType: string, status: string, priority: string)

  /** A listed node, or the `note`/`info` entry that says how many were left out. */
  datatype Entry<T> = Item(item: T) | Note(id: string, title: string)

  datatype DetailedContext =
    | NoItemSelected
    | Context(selectedItem: Summary, children: seq<Entry<Summary>>, parent: Option<Brief>, siblings: seq<Entry<Brief>>)

  function SummaryOf(n: TreeNode): Summary
  {
    Summary(n.id, n.title, n.nodeType, n.status, n.priority, n.team, n.summary, n.description)
  }

  function BriefOf(n: TreeNode): Brief
  {
    Brief(n.id, n.title, n.nodeType, n.status, n.priority)
  }

  function Summaries(ns: seq<TreeNode>): (r: seq<Summary>)
    ensures |r| == |ns| && forall k :: 0 <= k < |ns| ==> r[k] == SummaryOf(ns[k])
  {
    seq(|ns|, k requires 0 <= k < |ns| => SummaryOf(ns[k]))
  }

  function Briefs(ns: seq<TreeNode>): (r: seq<Brief>)
    ensures |r| == |ns| && forall k :: 0 <= k < |ns| ==> r[k] == BriefOf(ns[k])
  {
    seq(|ns|, k requires 0 <= k < |ns| => BriefOf(ns[k]))
  }

  function Items<T>(xs: seq<T>): (r: seq<Entry<T>>)
    ensures |r| == |xs| && forall k :: 0 <= k < |xs| ==> r[k] == Item(xs[k])
  {
    seq(|xs|, k requires 0 <= k < |xs| => Item(xs[k]))
  }

  /**
   * `slice(0, cap)` of the entries, followed by one note `... and N more <noun>` exactly when
   * there are more than `cap`: the first entries are the items in order, the note comes last,
   * and N is the number left out.
   */
  function Capped<T>(items: seq<T>, cap: nat, noteId: string, noun: string): (r: seq<Entry<T>>)
    ensures |r| == if |items| <= cap then |items| else cap + 1
    ensures forall k :: 0 <= k < |r| && k < cap ==> k < |items| && r[k] == Item(items[k])
    ensures forall k :: 0 <= k < |r| ==> (r[k].Note? <==> k == cap)
    ensures |items| > cap ==> r[cap] == Note(noteId, "... and " + NatToString(|items| - cap) + " more " + noun)
  {
    if |items| <= cap then Items(items)
    else Items(items[..cap]) + [Note(noteId, "... and " + NatToString(|items| - cap) + " more " + noun)]
  }

  /** `parent.children.filter(s => s.id !== id)`: the other children, in order. */
  function Siblings(cs: seq<TreeNode>, id: string): (r: seq<TreeNode>)
    ensures |r| <= |cs|
    ensures forall s :: s in r <==> s in cs && s.id != id
  {
    if cs == [] then []
    else (if cs[0].id != id then [cs[0]] else []) + Siblings(cs[1..], id)
  }

  /** The object `buildDetailedContext` assembles for the selected node and its parent, if any. */
  function ContextFor(selected: TreeNode, parent: Option<TreeNode>): DetailedContext
  {
    Context(
      SummaryOf(selected),
      Capped(Summaries(selected.children), 5, "more-children", "children"),
      if parent.Some? then Some(BriefOf(parent.value)) else None,
      if parent.Some? then Capped(Briefs(Siblings(parent.value.children, selected.id)), 3, "more-siblings", "siblings")
      else [])
  }

  // ---------------------------------------------------------------- ProductTreeManager

  class ProductTreeManager {
    var productTree: Option<TreeNode>
    var selectedItem: Option<TreeNode>
    var searchTerm: string
    var expandedNodes: set<string>

    constructor()
      ensures productTree == None && selectedItem == None && searchTerm == "" && expandedNodes == {}
    {
      productTree := None;
      selectedItem := None;
      searchTerm := "";
      expandedNodes := {};
    }

    /** The search box handler keeps the lower-cased input. */
    method SetSearchTerm(value: string)
      modifies this
      ensures searchTerm == Lower(value)
      ensures productTree == old(productTree) && selectedItem == old(selectedItem) && expandedNodes == old(expandedNodes)
    {
      searchTerm := Lower(value);
    }

    /** `matchesSearch(node)` against the current term. */
    predicate MatchesSearch(node: TreeNode)
      reads this
    {
      Matches(searchTerm, node)
    }

    /** `toggleNode(nodeId)`: exactly that id changes membership. */
    method ToggleNode(nodeId: string)
      modifies this
      ensures expandedNodes == Toggled(old(expandedNodes), nodeId)
      ensures productTree == old(productTree) && selectedItem == old(selectedItem) && searchTerm == old(searchTerm)
    {
      if nodeId in expandedNodes {
        expandedNodes := expandedNodes - {nodeId};
      } else {
        expandedNodes := expandedNodes + {nodeId};
      }
    }

    /** `expandAll()`: nothing without a tree, else every id of the tree is added. */
    method ExpandAll() returns (ok: bool)
      modifies this
      ensures ok <==> productTree.Some?
      ensures ok ==> expandedNodes == old(expandedNodes) + Ids(Nodes(productTree.value))
      ensures !ok ==> expandedNodes == old(expandedNodes)
      ensures productTree == old(productTree) && selectedItem == old(selectedItem) && searchTerm == old(searchTerm)
    {
      if productTree.None? {
        return false;
      }
      ExpandNode(productTree.value);
      return true;
    }

    /** The `expandNode` closure of `expandAll`: the node's id, then each child's subtree. */
    method ExpandNode(node: TreeNode)
      modifies this
      ensures expandedNodes == old(expandedNodes) + Ids(Nodes(node))
      ensures productTree == old(productTree) && selectedItem == old(selectedItem) && searchTerm == old(searchTerm)
      decreases node
    {
      expandedNodes := expandedNodes + {node.id};
      var cs := node.children;
      IdsAppend([node], Forest(cs));
      for i := 0 to |cs|
        invariant expandedNodes + Ids(Forest(cs[i..])) == old(expandedNodes) + Ids(Nodes(node))
        invariant productTree == old(productTree) && selectedItem == old(selectedItem) && searchTerm == old(searchTerm)
      {
        ForestAt(cs, i);
        IdsAppend(Nodes(cs[i]), Forest(cs[i + 1..]));
        ExpandNode(cs[i]);
      }
    }

    /** `collapseAll()`. */
    method CollapseAll()
      modifies this
      ensures expandedNodes == {}
      ensures productTree == old(productTree) && selectedItem == old(selectedItem) && searchTerm == old(searchTerm)
    {
      expandedNodes := {};
    }

    /** `selectItem(nodeId)`: the first node with the id becomes selected; nothing happens without one. */
    method SelectItem(nodeId: string)
      modifies this
      ensures productTree.Some? && FirstWithId(Nodes(productTree.value), nodeId).Some? ==>
        selectedItem == FirstWithId(Nodes(productTree.value), nodeId)
      ensures productTree.None? || FirstWithId(Nodes(productTree.value), nodeId).None? ==>
        selectedItem == old(selectedItem)
      ensures productTree == old(productTree) && expandedNodes == old(expandedNodes) && searchTerm == old(searchTerm)
    {
      var node := FindNodeById(productTree, nodeId);
      if node.None? {
        return;
      }
      selectedItem := node;
    }

    /** `clearCache()`: no tree, no selection, nothing expanded. */
    method ClearCache()
      modifies this
      ensures expandedNodes == {} && selectedItem == None && productTree == None
      ensures searchTerm == old(searchTerm)
    {
      expandedNodes := {};
      selectedItem := None;
      productTree := None;
    }

    /**
     * The loading part of `handleFileSelect`: the parsed tree replaces the old one (also when
     * parsing yields nothing), and the three levels below the root are expanded.
     */
    method LoadTree(root: Element)
      modifies this
      ensures TextTag(root.tag) ==> productTree == None && expandedNodes == old(expandedNodes)
      ensures !TextTag(root.tag) ==>
        productTree == Some(Parsed(root, None)) &&
        expandedNodes == old(expandedNodes) + Ids(ForestWithin(Parsed(root, None).children, 2))
      ensures selectedItem == old(selectedItem) && searchTerm == old(searchTerm)
    {
      productTree := ParseXmlToTree(root);
      if productTree.Some? && |productTree.value.children| > 0 {
        ExpandFirstLevels(productTree.value);
      }
    }

    /** The auto-expansion: each child, grandchild and great-grandchild of the root. */
    method ExpandFirstLevels(tree: TreeNode)
      modifies this
      ensures expandedNodes == old(expandedNodes) + Ids(ForestWithin(tree.children, 2))
      ensures productTree == old(productTree) && selectedItem == old(selectedItem) && searchTerm == old(searchTerm)
    {
      var cs := tree.children;
      for i := 0 to |cs|
        invariant expandedNodes + Ids(ForestWithin(cs[i..], 2)) == old(expandedNodes) + Ids(ForestWithin(cs, 2))
        invariant productTree == old(productTree) && selectedItem == old(selectedItem) && searchTerm == old(searchTerm)
      {
        ForestWithinAt(cs, i, 2);
        IdsAppend(Within(cs[i], 2), ForestWithin(cs[i + 1..], 2));
        ExpandChild(cs[i]);
      }
    }

    /** One child of the root: its id, then its children and their children. */
    method ExpandChild(child: TreeNode)
      modifies this
      ensures expandedNodes == old(expandedNodes) + Ids(Within(child, 2))
      ensures productTree == old(productTree) && selectedItem == old(selectedItem) && searchTerm == old(searchTerm)
    {
      expandedNodes := expandedNodes + {child.id};
      var gs := child.children;
      IdsAppend([child], ForestWithin(gs, 1));
      if |gs| > 0 {
        for j := 0 to |gs|
          invariant expandedNodes + Ids(ForestWithin(gs[j..], 1)) == old(expandedNodes) + Ids(Within(child, 2))
          invariant productTree == old(productTree) && selectedItem == old(selectedItem) && searchTerm == old(searchTerm)
        {
          ForestWithinAt(gs, j, 1);
          IdsAppend(Within(gs[j], 1), ForestWithin(gs[j + 1..], 1));
          ExpandGrandchild(gs[j]);
        }
      }
    }

    /** One grandchild of the root: its id, then the ids of its children. */
    method ExpandGrandchild(grandchild: TreeNode)
      modifies this
      ensures expandedNodes == old(expandedNodes) + Ids(Within(grandchild, 1))
      ensures productTree == old(productTree) && selectedItem == old(selectedItem) && searchTerm == old(searchTerm)
    {
      IdsAppend([grandchild], ForestWithin(grandchild.children, 0));
      expandedNodes := expandedNodes + {grandchild.id};
      var ggs := grandchild.children;
      if |ggs| > 0 {
        for k := 0 to |ggs|
          invariant expandedNodes + Ids(ForestWithin(ggs[k..], 0)) == old(expandedNodes) + Ids(Within(grandchild, 1))
          invariant productTree == old(productTree) && selectedItem == old(selectedItem) && searchTerm == old(searchTerm)
        {
          LeafIdsAt(ggs, k);
          expandedNodes := expandedNodes + {ggs[k].id};
        }
      }
    }

    /**
     * `buildDetailedContext()`: `'No item selected'` without a selection; otherwise the
     * selected node, its first five children and its parent with the first three siblings.
     * Looking for the parent of the selection in a missing tree throws (`None`).
     */
    method BuildDetailedContext() returns (ctx: Option<DetailedContext>)
      ensures selectedItem.None? ==> ctx == Some(NoItemSelected)
      ensures selectedItem.Some? && productTree.None? ==> ctx.None?
      ensures selectedItem.Some? && productTree.Some? ==>
        ctx == Some(ContextFor(selectedItem.value, FirstParentOf(ParentLinks(productTree.value), selectedItem.value.id)))
    {
      if selectedItem.None? {
        return Some(NoItemSelected);
      }
      if productTree.None? {
        return None;
      }
      var parent := FindParent(productTree.value, selectedItem.value.id);
      return Some(ContextFor(selectedItem.value, parent));
    }
  }
}
