/**
 * The tree view state of web/app.js and web-ai/app.js: the search filter, the children shown
 * under an expanded node, and the expanded-node set with `toggleNode`, `expandAll` and
 * `collapseAll`. The two files agree except in `renderNode`'s child filter, where web/app.js
 * reads `child && term === '' || child.title…` and so dereferences a missing child, while
 * web-ai/app.js parenthesises the search test behind `child &&`.
 */
module FlatView {
  import opened Wrappers
  import opened Strings
  import opened Expansion
  import opened FlatModel

  /** The search test of `renderTree` and `renderNode`; the term is already lower-case. */
  predicate Matches(term: string, n: FlatNode)
  {
    term == "" || Contains(Lower(n.title), term) || Contains(Lower(n.description), term)
  }

  /** `renderTree`'s top level: matching nodes with no incoming edge, in node order. */
  function TopLevel(t: FlatTree, nodes: seq<FlatNode>, term: string): (r: seq<FlatNode>)
    ensures |r| <= |nodes|
    ensures forall n :: n in r <==> n in nodes && Matches(term, n) && !HasIncoming(t, n.id)
  {
    if nodes == [] then []
    else
      var keep := Matches(term, nodes[0]) && !HasIncoming(t, nodes[0].id);
      (if keep then [nodes[0]] else []) + TopLevel(t, nodes[1..], term)
  }

  /** `.map(edge => nodes.find(n => n.id === edge.to))`: `None` stands for `undefined`. */
  function Lookups(nodes: seq<FlatNode>, targets: seq<Option<string>>): (r: seq<Option<FlatNode>>)
    ensures |r| == |targets|
    ensures forall k :: 0 <= k < |targets| ==> r[k] == FindNode(nodes, targets[k])
  {
    seq(|targets|, k requires 0 <= k < |targets| => FindNode(nodes, targets[k]))
  }

  /** `.filter(child => child && (…))` of web-ai/app.js: found children that match, in edge order. */
  function KeepFound(term: string, cs: seq<Option<FlatNode>>): (r: seq<FlatNode>)
    ensures |r| <= |cs|
    ensures forall c :: c in r <==> Some(c) in cs && Matches(term, c)
  {
    if cs == [] then []
    else
      var rest := KeepFound(term, cs[1..]);
      assert forall x :: x in cs <==> x == cs[0] || x in cs[1..];
      if cs[0].Some? && Matches(term, cs[0].value) then [cs[0].value] + rest else rest
  }

  /** The children `renderNode` of web-ai/app.js draws under an expanded node. */
  function ShownChildren(t: FlatTree, id: Option<string>, term: string): seq<FlatNode>
  {
    KeepFound(term, Lookups(t.nodes, Targets(t.edges, id)))
  }

  /** No outgoing edge of `id` leads to an id that no node carries. */
  predicate NoDanglingFrom(t: FlatTree, id: Option<string>)
  {
    forall e :: e in t.edges && e.from == id ==> FindNode(t.nodes, e.to).Some?
  }

  /**
   * A node is shown under `id` exactly when it matches the search and it is what `find`
   * returns for the target of one of `id`'s outgoing edges; with an empty term and no dangling
   * edge there is one shown child per outgoing edge.
   */
  lemma ShownChildrenSpec(t: FlatTree, id: Option<string>, term: string)
    ensures forall c :: c in ShownChildren(t, id, term) <==>
      Matches(term, c) && exists e :: e in t.edges && e.from == id && FindNode(t.nodes, e.to) == Some(c)
    ensures term == "" && NoDanglingFrom(t, id) ==> |ShownChildren(t, id, term)| == |Targets(t.edges, id)|
  {
    var ts := Targets(t.edges, id);
    var ls := Lookups(t.nodes, ts);
    forall c | Some(c) in ls
      ensures exists e :: e in t.edges && e.from == id && FindNode(t.nodes, e.to) == Some(c)
    {
      var k :| 0 <= k < |ls| && ls[k] == Some(c);
      assert ts[k] in ts;
    }
    forall c, e | e in t.edges && e.from == id && FindNode(t.nodes, e.to) == Some(c)
      ensures Some(c) in ls
    {
      assert e.to in ts;
      var k :| 0 <= k < |ts| && ts[k] == e.to;
      assert ls[k] == Some(c);
    }
    if term == "" && NoDanglingFrom(t, id) {
      forall k | 0 <= k < |ls|
        ensures ls[k].Some?
      {
        assert ts[k] in ts;
      }
      KeepAllFound(ls);
    }
  }

  /** With an empty term and every lookup found, the filter keeps every entry. */
  lemma {:induction false} KeepAllFound(cs: seq<Option<FlatNode>>)
    requires forall k :: 0 <= k < |cs| ==> cs[k].Some?
    ensures |KeepFound("", cs)| == |cs|
  {
    if cs != [] {
      assert forall k :: 0 <= k < |cs[1..]| ==> cs[1..][k] == cs[k + 1];
      KeepAllFound(cs[1..]);
    }
  }

  /** The filter of web/app.js on found children: `term === '' || title… || description…`. */
  function KeepMatching(term: string, cs: seq<FlatNode>): (r: seq<FlatNode>)
    ensures forall c :: c in r <==> c in cs && Matches(term, c)
  {
    if cs == [] then []
    else (if Matches(term, cs[0]) then [cs[0]] else []) + KeepMatching(term, cs[1..])
  }

  /**
   * The children `renderNode` of web/app.js draws, as written: the first `undefined` child
   * makes `child.title` throw a `TypeError` (`None`), whatever the search term.
   */
  function WebShownChildren(t: FlatTree, id: Option<string>, term: string): Option<seq<FlatNode>>
  {
    var found :- Collect(Lookups(t.nodes, Targets(t.edges, id)));
    Some(KeepMatching(term, found))
  }

  lemma {:induction false} KeepFoundAll(term: string, cs: seq<Option<FlatNode>>)
    requires Collect(cs).Some?
    ensures KeepFound(term, cs) == KeepMatching(term, Collect(cs).value)
  {
    if cs != [] {
      KeepFoundAll(term, cs[1..]);
    }
  }

  /**
   * web/app.js throws exactly when an outgoing edge of the expanded node is dangling; when it
   * does not throw, it draws the same children as web-ai/app.js.
   */
  lemma WebShownChildrenSpec(t: FlatTree, id: Option<string>, term: string)
    ensures WebShownChildren(t, id, term).None? <==> !NoDanglingFrom(t, id)
    ensures WebShownChildren(t, id, term).Some? ==> WebShownChildren(t, id, term).value == ShownChildren(t, id, term)
  {
    var ts := Targets(t.edges, id);
    var ls := Lookups(t.nodes, ts);
    CollectNone(ls);
    if !NoDanglingFrom(t, id) {
      var e :| e in t.edges && e.from == id && FindNode(t.nodes, e.to).None?;
      assert e.to in ts;
      var k :| 0 <= k < |ts| && ts[k] == e.to;
      assert ls[k].None?;
    } else {
      forall k | 0 <= k < |ls|
        ensures ls[k].Some?
      {
        assert ts[k] in ts;
      }
      KeepFoundAll(term, ls);
    }
  }

  /** An expanded node with an edge to a missing id: web-ai/app.js draws nothing, web/app.js throws. */
  lemma DanglingEdgeThrows()
    ensures var t := FlatTree([FlatNode(Some("a"), "A", "Product", "", "", "active")],
                              [FlatEdge(Some("a"), Some("b"), "contains")]);
      WebShownChildren(t, Some("a"), "").None? && ShownChildren(t, Some("a"), "") == []
  {
    var t := FlatTree([FlatNode(Some("a"), "A", "Product", "", "", "active")],
                      [FlatEdge(Some("a"), Some("b"), "contains")]);
    WebShownChildrenSpec(t, Some("a"), "");
    ShownChildrenSpec(t, Some("a"), "");
    assert FindNode(t.nodes, Some("b")).None?;
    assert !NoDanglingFrom(t, Some("a"));
  }

  /** The view state that `ProductTreeManager` keeps in web/app.js and web-ai/app.js. */
  class ProductTreeManager {
    var productTree: Option<FlatTree>
    var expandedNodes: set<Option<string>>
    var searchTerm: string

    constructor ()
      ensures productTree.None? && expandedNodes == {} && searchTerm == ""
    {
      productTree := None;
      expandedNodes := {};
      searchTerm := "";
    }

    /** The search input handler stores the lower-cased value. */
    method SetSearchTerm(value: string)
      modifies this
      ensures searchTerm == Lower(value)
      ensures productTree == old(productTree) && expandedNodes == old(expandedNodes)
    {
      searchTerm := Lower(value);
    }

    /** `toggleNode`: flips the id's membership and nothing else. */
    method ToggleNode(id: Option<string>)
      modifies this
      ensures expandedNodes == Toggled(old(expandedNodes), id)
      ensures productTree == old(productTree) && searchTerm == old(searchTerm)
    {
      if id in expandedNodes {
        expandedNodes := expandedNodes - {id};
      } else {
        expandedNodes := expandedNodes + {id};
      }
    }

    /**
     * `expandAll`: every node id is added. With no tree loaded, reading `nodes` throws before
     * the loop starts; `ok` is false and nothing changes.
     */
    method ExpandAll() returns (ok: bool)
      modifies this
      ensures productTree == old(productTree) && searchTerm == old(searchTerm)
      ensures ok <==> productTree.Some?
      ensures ok ==> expandedNodes == old(expandedNodes) + IdsOf(productTree.value.nodes)
      ensures !ok ==> expandedNodes == old(expandedNodes)
    {
      if productTree.None? {
        return false;
      }
      var nodes := productTree.value.nodes;
      for i := 0 to |nodes|
        invariant expandedNodes == old(expandedNodes) + IdsOf(nodes[..i])
        invariant productTree == old(productTree) && searchTerm == old(searchTerm)
      {
        assert nodes[..i + 1] == nodes[..i] + [nodes[i]];
        expandedNodes := expandedNodes + {nodes[i].id};
      }
      assert nodes[..|nodes|] == nodes;
      return true;
    }

    /** `collapseAll`: the set is cleared. */
    method CollapseAll()
      modifies this
      ensures expandedNodes == {}
      ensures productTree == old(productTree) && searchTerm == old(searchTerm)
    {
      expandedNodes := {};
    }
  }
}
