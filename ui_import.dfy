/**
 * `parseXMLToTree` of ui/app.js: a pre-order walk of the document that numbers the nodes
 * `node_1`, `node_2`, ... with a shared counter, pushes each node, and pushes one `contains`
 * edge from the parent to every node except the document element. Children whose tag is
 * `title`, `description`, `summary` or `job_content` hold text and never become nodes. The
 * clock read by `new Date().toISOString()` is the parameter `now`.
 */
module UiImport {
  import opened Wrappers
  import opened Xml
  import opened UiModel

  predicate Reserved(tag: string)
  {
    tag == "title" || tag == "description" || tag == "summary" || tag == "job_content"
  }

  /** The node built for element `x` when the counter stands at `k`. */
  function MakeNode(x: Element, k: nat, now: string): UiNode
  {
    UiNode(
      NodeId(k), TextOf(x, "title"), x.tag, TextOf(x, "description"), TextOf(x, "summary"),
      AttrOr(x, "status", "not_started"), AttrOr(x, "priority", "P2"), AttrOr(x, "team", ""),
      AttrOr(x, "owner", ""), AttrOr(x, "created", now), AttrOr(x, "updated", now), [],
      if x.tag == "job" then
        Some(JobData(TextOf(x, "job_content"), GetAttribute(x, "effort").GetOr(""),
          GetAttribute(x, "start").GetOr(""), GetAttribute(x, "end").GetOr("")))
      else None,
      "", "", "")
  }

  /**
   * The import defaults: status `not_started` and priority `P2` when the attribute is absent or
   * empty, team and owner '' when absent; `job_data` is present exactly for a `job` element.
   */
  lemma MakeNodeDefaults(x: Element, k: nat, now: string)
    ensures var n := MakeNode(x, k, now);
      && n.id == NodeId(k) && n.nodeType == x.tag && n.tags == []
      && (n.jobData.Some? <==> x.tag == "job")
      && n.status == (if GetAttribute(x, "status").GetOr("") == "" then "not_started" else x.attrs["status"])
      && n.priority == (if GetAttribute(x, "priority").GetOr("") == "" then "P2" else x.attrs["priority"])
      && n.team == GetAttribute(x, "team").GetOr("") && n.ownerEmail == GetAttribute(x, "owner").GetOr("")
      && n.title == TextOf(x, "title") && n.description == TextOf(x, "description") && n.summary == TextOf(x, "summary")
  {
  }

  /** Number of nodes the walk makes for `x`: itself and its non-reserved children's subtrees. */
  function Count(x: Element): nat
    decreases x, 1, 0
  {
    1 + CountFrom(x.children, 0)
  }

  function CountFrom(cs: seq<Element>, i: nat): nat
    requires i <= |cs|
    decreases cs, 0, |cs| - i
  {
    if i == |cs| then 0 else (if Reserved(cs[i].tag) then 0 else Count(cs[i])) + CountFrom(cs, i + 1)
  }

  /** The state the `parseNode` closure shares: the counter `nodeId` and the two arrays. */
  datatype ImportState = ImportState(nextId: nat, nodes: seq<UiNode>, edges: seq<UiEdge>)

  /** What one call of `parseNode` does before it turns to the children: the node and its edge. */
  function Visit(x: Element, parent: Option<string>, s: ImportState, now: string): ImportState
  {
    ImportState(
      s.nextId + 1,
      s.nodes + [MakeNode(x, s.nextId, now)],
      s.edges + if parent.Some? then [UiEdge(EdgeId(|s.edges| + 1), parent.value, NodeId(s.nextId), "contains")] else [])
  }

  /** The whole of `parseNode(x, parent)` as a state transformer. */
  function Walk(x: Element, parent: Option<string>, s: ImportState, now: string): ImportState
    decreases x, 1, 0
  {
    WalkChildren(x.children, 0, NodeId(s.nextId), Visit(x, parent, s, now), now)
  }

  /** The `forEach` over the children from index `i` on: reserved children are skipped. */
  function WalkChildren(cs: seq<Element>, i: nat, parentId: string, s: ImportState, now: string): ImportState
    requires i <= |cs|
    decreases cs, 0, |cs| - i
  {
    if i == |cs| then s
    else WalkChildren(cs, i + 1, parentId, if Reserved(cs[i].tag) then s else Walk(cs[i], Some(parentId), s, now), now)
  }

  const Start := ImportState(1, [], [])

  /** The tree `parseXMLToTree` returns for the document element `root`. */
  function ImportedTree(root: Element, now: string): UiTree
  {
    var s := Walk(root, None, Start, now);
    UiTree(s.nodes, s.edges)
  }

  // ------------------------------------------------------------------ structure of the result

  /** The elements `parseNode` visits from `x`, in visiting order: `x`, then each non-reserved child's own list. */
  function Visited(x: Element): seq<Element>
    decreases x, 1, 0
  {
    [x] + VisitedFrom(x.children, 0)
  }

  function VisitedFrom(cs: seq<Element>, i: nat): seq<Element>
    requires i <= |cs|
    decreases cs, 0, |cs| - i
  {
    if i == |cs| then [] else (if Reserved(cs[i].tag) then [] else Visited(cs[i])) + VisitedFrom(cs, i + 1)
  }

  /** What holds of every node `parseNode` builds. */
  predicate NodeOk(n: UiNode)
  {
    (n.jobData.Some? <==> n.nodeType == "job") && n.status != "" && n.priority != "" && n.tags == []
  }

  /**
   * Edge number `j` (0-based) is `edge_{j+1}`, enters node `j + 2` and leaves node `m + 1` for
   * some `m <= j` whose element has the element of node `j + 2` among its children.
   */
  predicate EdgeOk(e: UiEdge, j: nat, vs: seq<Element>)
  {
    && e.id == EdgeId(j + 1) && e.to == NodeId(j + 2) && e.kind == "contains" && j + 1 < |vs|
    && exists m :: 0 <= m <= j && e.from == NodeId(m + 1) && vs[j + 1] in vs[m].children
  }

  /** Node `node_{j+1}` is the node built from the `j`-th visited element. */
  predicate BuiltFrom(nodes: seq<UiNode>, vs: seq<Element>, now: string)
  {
    |nodes| == |vs| && forall j :: 0 <= j < |nodes| ==> nodes[j] == MakeNode(vs[j], j + 1, now)
  }

  /** Every visited element after the first has a tag that is not reserved. */
  predicate NotReservedBelow(vs: seq<Element>)
  {
    forall j :: 1 <= j < |vs| ==> !Reserved(vs[j].tag)
  }

  predicate EdgesOk(edges: seq<UiEdge>, vs: seq<Element>)
  {
    forall j :: 0 <= j < |edges| ==> EdgeOk(edges[j], j, vs)
  }

  /** The invariant the walk keeps once the document element has been visited: `vs` lists the elements visited so far. */
  predicate Inv(s: ImportState, vs: seq<Element>, now: string)
  {
    && |s.nodes| >= 1 && s.nextId == |s.nodes| + 1 && |s.edges| + 1 == |s.nodes|
    && BuiltFrom(s.nodes, vs, now) && NotReservedBelow(vs) && EdgesOk(s.edges, vs)
  }

  lemma MakeNodeOk(x: Element, k: nat, now: string)
    ensures var n := MakeNode(x, k, now); NodeOk(n) && n.id == NodeId(k) && n.nodeType == x.tag
  {
  }

  lemma BuiltFromSnoc(nodes: seq<UiNode>, vs: seq<Element>, x: Element, now: string)
    requires BuiltFrom(nodes, vs, now)
    ensures BuiltFrom(nodes + [MakeNode(x, |nodes| + 1, now)], vs + [x], now)
  {
  }

  lemma EdgeOkExtends(e: UiEdge, j: nat, vs: seq<Element>, ws: seq<Element>)
    requires EdgeOk(e, j, vs)
    ensures EdgeOk(e, j, vs + ws)
  {
    var m :| 0 <= m <= j && e.from == NodeId(m + 1) && vs[j + 1] in vs[m].children;
    assert (vs + ws)[m] == vs[m] && (vs + ws)[j + 1] == vs[j + 1];
  }

  /** The edge into a newly visited child of the `p`-th visited element keeps the edges in order. */
  lemma EdgesOkSnoc(edges: seq<UiEdge>, vs: seq<Element>, x: Element, p: nat)
    requires EdgesOk(edges, vs) && |vs| == |edges| + 1 && p < |vs| && x in vs[p].children
    ensures EdgesOk(edges + [UiEdge(EdgeId(|edges| + 1), NodeId(p + 1), NodeId(|edges| + 2), "contains")], vs + [x])
  {
    var j := |edges|;
    var es := edges + [UiEdge(EdgeId(j + 1), NodeId(p + 1), NodeId(j + 2), "contains")];
    var vs' := vs + [x];
    assert vs'[j + 1] == x && vs'[p] == vs[p];
    assert EdgeOk(es[j], j, vs');
    forall i | 0 <= i < j
      ensures EdgeOk(es[i], i, vs')
    {
      assert es[i] == edges[i];
      EdgeOkExtends(edges[i], i, vs, [x]);
    }
  }

  lemma VisitKeepsInv(x: Element, p: nat, s: ImportState, vs: seq<Element>, now: string)
    requires Inv(s, vs, now) && !Reserved(x.tag) && p < |vs| && x in vs[p].children
    ensures Inv(Visit(x, Some(NodeId(p + 1)), s, now), vs + [x], now)
    ensures Visit(x, Some(NodeId(p + 1)), s, now).nextId == s.nextId + 1
  {
    BuiltFromSnoc(s.nodes, vs, x, now);
    EdgesOkSnoc(s.edges, vs, x, p);
  }

  lemma {:induction false} WalkKeepsInv(x: Element, p: nat, s: ImportState, vs: seq<Element>, now: string)
    requires Inv(s, vs, now) && !Reserved(x.tag) && p < |vs| && x in vs[p].children
    ensures Inv(Walk(x, Some(NodeId(p + 1)), s, now), vs + Visited(x), now)
    ensures Walk(x, Some(NodeId(p + 1)), s, now).nextId == s.nextId + Count(x)
    decreases x, 1, 0
  {
    var v := Visit(x, Some(NodeId(p + 1)), s, now);
    VisitKeepsInv(x, p, s, vs, now);
    assert s.nextId == |vs| + 1;
    assert Walk(x, Some(NodeId(p + 1)), s, now) == WalkChildren(x.children, 0, NodeId(|vs| + 1), v, now);
    assert (vs + [x])[|vs|] == x;
    ChildrenKeepInv(x.children, 0, |vs|, v, vs + [x], now);
    VisitedAfter(vs, x);
  }

  lemma VisitedAfter(vs: seq<Element>, x: Element)
    ensures vs + [x] + VisitedFrom(x.children, 0) == vs + Visited(x)
  {
    assert Visited(x) == [x] + VisitedFrom(x.children, 0);
  }

  lemma {:induction false} ChildrenKeepInv(cs: seq<Element>, i: nat, p: nat, s: ImportState, vs: seq<Element>, now: string)
    requires i <= |cs| && Inv(s, vs, now) && p < |vs| && vs[p].children == cs
    ensures Inv(WalkChildren(cs, i, NodeId(p + 1), s, now), vs + VisitedFrom(cs, i), now)
    ensures WalkChildren(cs, i, NodeId(p + 1), s, now).nextId == s.nextId + CountFrom(cs, i)
    decreases cs, 0, |cs| - i
  {
    if i == |cs| {
      assert vs + VisitedFrom(cs, i) == vs;
    } else if Reserved(cs[i].tag) {
      ChildrenKeepInv(cs, i + 1, p, s, vs, now);
      assert VisitedFrom(cs, i) == VisitedFrom(cs, i + 1);
    } else {
      var s' := Walk(cs[i], Some(NodeId(p + 1)), s, now);
      var vs' := vs + Visited(cs[i]);
      WalkKeepsInv(cs[i], p, s, vs, now);
      assert vs'[p] == vs[p];
      ChildrenKeepInv(cs, i + 1, p, s', vs', now);
      VisitedFromStep(vs, cs, i);
    }
  }

  lemma VisitedFromStep(vs: seq<Element>, cs: seq<Element>, i: nat)
    requires i < |cs| && !Reserved(cs[i].tag)
    ensures vs + Visited(cs[i]) + VisitedFrom(cs, i + 1) == vs + VisitedFrom(cs, i)
  {
    assert VisitedFrom(cs, i) == Visited(cs[i]) + VisitedFrom(cs, i + 1);
  }

  lemma RootVisitInv(root: Element, now: string)
    ensures var v := Visit(root, None, Start, now);
      Inv(v, [root], now) && v.nextId == 2
  {
    MakeNodeOk(root, 1, now);
  }

  lemma ImportKeepsInv(root: Element, now: string)
    ensures var s := Walk(root, None, Start, now);
      Inv(s, Visited(root), now) && |s.nodes| == Count(root)
  {
    var v := Visit(root, None, Start, now);
    RootVisitInv(root, now);
    ChildrenKeepInv(root.children, 0, 0, v, [root], now);
  }

  /**
   * The shape of an imported tree: node `node_{j+1}` is built from the `j`-th element of the
   * pre-order walk over the non-reserved elements, the document element first (so the ids are
   * distinct and no node below the first has a reserved tag); and edge `edge_{j+1}` is the
   * single `contains` edge into node `j + 2`, leaving the node built for the parent element
   * of its element, which comes earlier, so there is one edge fewer than there are nodes.
   */
  lemma ImportStructure(root: Element, now: string)
    ensures var t, vs := ImportedTree(root, now), Visited(root);
      && |t.nodes| == Count(root) == |vs| && |t.edges| == |t.nodes| - 1
      && vs[0] == root
      && (forall j :: 0 <= j < |t.nodes| ==> t.nodes[j] == MakeNode(vs[j], j + 1, now))
      && (forall j :: 0 <= j < |t.nodes| ==> t.nodes[j].id == NodeId(j + 1) && NodeOk(t.nodes[j]))
      && (forall i, j :: 0 <= i < j < |t.nodes| ==> t.nodes[i].id != t.nodes[j].id)
      && (forall j :: 1 <= j < |t.nodes| ==> !Reserved(t.nodes[j].nodeType))
      && (forall j :: 0 <= j < |t.edges| ==>
            t.edges[j].id == EdgeId(j + 1) && t.edges[j].kind == "contains" && t.edges[j].to == t.nodes[j + 1].id &&
            exists m :: 0 <= m <= j && t.edges[j].from == t.nodes[m].id && vs[j + 1] in vs[m].children)
  {
    ImportKeepsInv(root, now);
    var t, vs := ImportedTree(root, now), Visited(root);
    forall j | 0 <= j < |t.nodes|
      ensures t.nodes[j].id == NodeId(j + 1) && NodeOk(t.nodes[j])
      ensures j >= 1 ==> !Reserved(t.nodes[j].nodeType)
    {
      MakeNodeOk(vs[j], j + 1, now);
    }
    forall i, j | 0 <= i < j < |t.nodes|
      ensures t.nodes[i].id != t.nodes[j].id
    {
      if t.nodes[i].id == t.nodes[j].id {
        NodeIdInjective(i + 1, j + 1);
      }
    }
    forall j | 0 <= j < |t.edges|
      ensures exists m :: 0 <= m <= j && t.edges[j].from == t.nodes[m].id && vs[j + 1] in vs[m].children
    {
      assert EdgeOk(t.edges[j], j, vs);
      var m :| 0 <= m <= j && t.edges[j].from == NodeId(m + 1) && vs[j + 1] in vs[m].children;
      assert t.nodes[m].id == NodeId(m + 1);
    }
  }

  class Importer {
    var nextId: nat
    var nodes: seq<UiNode>
    var edges: seq<UiEdge>

    function State(): ImportState
      reads this
    {
      ImportState(nextId, nodes, edges)
    }

    constructor ()
      ensures State() == Start
    {
      nextId := 1;
      nodes := [];
      edges := [];
    }

    method ParseNode(x: Element, parentId: Option<string>, now: string) returns (node: UiNode)
      modifies this
      ensures node == MakeNode(x, old(nextId), now)
      ensures State() == Walk(x, parentId, old(State()), now)
      decreases x
    {
      node := MakeNode(x, nextId, now);
      nextId := nextId + 1;
      nodes := nodes + [node];
      if parentId.Some? {
        edges := edges + [UiEdge(EdgeId(|edges| + 1), parentId.value, node.id, "contains")];
      }
      assert State() == Visit(x, parentId, old(State()), now);
      var i := 0;
      while i < |x.children|
        invariant 0 <= i <= |x.children|
        invariant WalkChildren(x.children, i, node.id, State(), now) == Walk(x, parentId, old(State()), now)
      {
        ghost var before := State();
        if !Reserved(x.children[i].tag) {
          var _ := ParseNode(x.children[i], Some(node.id), now);
        }
        assert WalkChildren(x.children, i, node.id, before, now) == WalkChildren(x.children, i + 1, node.id, State(), now);
        i := i + 1;
      }
    }
  }

  method ParseXmlToTree(root: Element, now: string) returns (tree: UiTree)
    ensures tree == ImportedTree(root, now)
  {
    var importer := new Importer();
    var _ := importer.ParseNode(root, None, now);
    tree := UiTree(importer.nodes, importer.edges);
  }
}
