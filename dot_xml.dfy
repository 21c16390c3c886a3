/**
 * The XML the Python service writes from its stored tree (`get_product_tree_xml` and its
 * recursive `build_xml_node` in dot/main.py): the last node with each id, the edges between two
 * such nodes, and one element per node nested under its parent, roots first.
 */
module DotXml {
  import opened Wrappers
  import opened Strings
  import opened Seqs
  import opened FlatModel
  import opened DotModel
  import UiExport

  type Id = Option<string>

  // ------------------------------------------------------------------ node map and links

  /** `node_map[id]`: the last node with that id. */
  function LastWithId(nodes: seq<DotNode>, id: Id): (r: Option<DotNode>)
    ensures r.None? <==> id !in NodeIds(nodes)
    ensures r.Some? ==> r.value in nodes && r.value.id == id
  {
    if nodes == [] then None
    else
      assert nodes == nodes[..|nodes| - 1] + [nodes[|nodes| - 1]];
      if nodes[|nodes| - 1].id == id then Some(nodes[|nodes| - 1]) else LastWithId(nodes[..|nodes| - 1], id)
  }

  function IdSeq(nodes: seq<DotNode>): (r: seq<Id>)
    ensures |r| == |nodes| && forall k :: 0 <= k < |nodes| ==> r[k] == nodes[k].id
  {
    seq(|nodes|, k requires 0 <= k < |nodes| => nodes[k].id)
  }

  lemma IdSeqMembers(nodes: seq<DotNode>)
    ensures forall x :: x in IdSeq(nodes) <==> x in NodeIds(nodes)
  {
    forall x | x in NodeIds(nodes)
      ensures x in IdSeq(nodes)
    {
      var n :| n in nodes && n.id == x;
      var k :| 0 <= k < |nodes| && nodes[k] == n;
      assert IdSeq(nodes)[k] == x;
    }
  }

  /** `node_map.keys()`: each id once, in the order ids first appear. */
  function KeyOrder(nodes: seq<DotNode>): (r: seq<Id>)
    ensures Distinct(r) && forall x :: x in r <==> x in NodeIds(nodes)
  {
    IdSeqMembers(nodes);
    Dedupe(IdSeq(nodes))
  }

  /** One more node: its id joins the ids and becomes the last node with that id. */
  lemma NodesSnoc(s: seq<DotNode>, n: DotNode)
    ensures NodeIds(s + [n]) == NodeIds(s) + {n.id}
    ensures IdSeq(s + [n]) == IdSeq(s) + [n.id]
    ensures KeyOrder(s + [n]) == KeyOrder(s) + if n.id in NodeIds(s) then [] else [n.id]
    ensures forall id :: LastWithId(s + [n], id) == if n.id == id then Some(n) else LastWithId(s, id)
  {
    assert (s + [n])[..|s|] == s;
    assert forall m :: m in s + [n] <==> m in s || m == n;
    assert IdSeq(s + [n])[..|s|] == IdSeq(s);
    IdSeqMembers(s);
  }

  /** An edge the export follows: both ends are node ids. */
  predicate Linked(nodes: seq<DotNode>, e: FlatEdge)
  {
    e.from in NodeIds(nodes) && e.to in NodeIds(nodes)
  }

  /** `children[id]` after the edge loop: the `to` of each linked edge from `id`, in edge order. */
  function LinkedChildren(nodes: seq<DotNode>, edges: seq<FlatEdge>, id: Id): (r: seq<Id>)
    ensures forall c :: c in r <==> exists e :: e in edges && Linked(nodes, e) && e.from == id && e.to == c
  {
    if edges == [] then []
    else
      var e := edges[|edges| - 1];
      assert edges == edges[..|edges| - 1] + [e];
      LinkedChildren(nodes, edges[..|edges| - 1], id) + if e.from == id && Linked(nodes, e) then [e.to] else []
  }

  /** The keys of `parents`: the `to` of every linked edge. */
  function ParentKeys(nodes: seq<DotNode>, edges: seq<FlatEdge>): set<Id>
  {
    set e | e in edges && Linked(nodes, e) :: e.to
  }

  /** `[node_id for node_id in node_map.keys() if node_id not in parents]`. */
  function RootsOf(keys: seq<Id>, parents: set<Id>): (r: seq<Id>)
    ensures forall x :: x in r <==> x in keys && x !in parents
    ensures Distinct(keys) ==> Distinct(r)
  {
    if keys == [] then []
    else
      var r := RootsOf(keys[..|keys| - 1], parents) + if keys[|keys| - 1] in parents then [] else [keys[|keys| - 1]];
      assert keys == keys[..|keys| - 1] + [keys[|keys| - 1]];
      assert Distinct(keys) ==> keys[|keys| - 1] !in keys[..|keys| - 1];
      r
  }

  function Roots(t: DotTree): seq<Id>
  {
    RootsOf(KeyOrder(t.nodes), ParentKeys(t.nodes, t.edges))
  }

  /**
   * The roots are the node ids that no linked edge leads to, each once; an edge from or to an
   * id that names no node does not make a parent.
   */
  lemma RootsSpec(t: DotTree)
    ensures Distinct(Roots(t))
    ensures forall x :: x in Roots(t) <==>
      x in NodeIds(t.nodes) && !exists e :: e in t.edges && Linked(t.nodes, e) && e.to == x
  {
  }

  /** Every node carries the keys `build_xml_node` reads with `[]`: `id`, `type` and `title`. */
  predicate Keyed(t: DotTree)
  {
    forall n :: n in t.nodes ==> n.id.Some? && n.nodeType.Some? && n.title.Some?
  }

  /**
   * `build_xml_node` recurses along the linked edges without a visited set and does not return
   * when a cycle is reachable from a root, so the export asks for a rank that falls along every
   * linked edge.
   */
  predicate Acyclic(t: DotTree, rank: Id -> nat)
  {
    forall e :: e in t.edges && Linked(t.nodes, e) ==> rank(e.from) > rank(e.to)
  }

  // ------------------------------------------------------------------ one element

  /** The attributes `build_xml_node` may write, in their output order. */
  datatype AttrName = Status | Priority | Team | Owner | Effort

  function AttrNameText(a: AttrName): string
  {
    match a
    case Status => "status"
    case Priority => "priority"
    case Team => "team"
    case Owner => "owner"
    case Effort => "effort"
  }

  function Position(a: AttrName): nat
  {
    match a
    case Status => 0
    case Priority => 1
    case Team => 2
    case Owner => 3
    case Effort => 4
  }

  function FieldOf(n: DotNode, a: AttrName): Field
  {
    match a
    case Status => n.status
    case Priority => n.priority
    case Team => n.team
    case Owner => n.owner
    case Effort => n.effort
  }

  /** `if node.get(name): attrs.append(...)`. */
  function Attr(n: DotNode, a: AttrName): seq<(AttrName, string)>
  {
    if Truthy(FieldOf(n, a)) then [(a, FieldOf(n, a).value)] else []
  }

  function AttrPairs(n: DotNode): seq<(AttrName, string)>
  {
    Attr(n, Status) + Attr(n, Priority) + Attr(n, Team) + Attr(n, Owner) + Attr(n, Effort)
  }

  predicate Ascending(ps: seq<(AttrName, string)>)
  {
    forall i, j :: 0 <= i < j < |ps| ==> Position(ps[i].0) < Position(ps[j].0)
  }

  lemma AttrOnly(n: DotNode, a: AttrName)
    ensures forall p :: p in Attr(n, a) <==> Truthy(FieldOf(n, a)) && p == (a, FieldOf(n, a).value)
  {
  }

  lemma AscendingCons(n: DotNode, a: AttrName, rest: seq<(AttrName, string)>)
    requires Ascending(rest) && forall p :: p in rest ==> Position(a) < Position(p.0)
    ensures Ascending(Attr(n, a) + rest)
  {
    var ps := Attr(n, a) + rest;
    if Attr(n, a) != [] {
      forall i, j | 0 <= i < j < |ps|
        ensures Position(ps[i].0) < Position(ps[j].0)
      {
        assert ps[j] == rest[j - 1] && rest[j - 1] in rest;
        if i > 0 {
          assert ps[i] == rest[i - 1];
        }
      }
    }
  }

  /** An attribute is written exactly when the node's value for it is truthy, and with that value. */
  lemma AttrWritten(n: DotNode, a: AttrName, v: string)
    ensures (a, v) in AttrPairs(n) <==> Truthy(FieldOf(n, a)) && v == FieldOf(n, a).value
  {
    var s, p, t, o, e := Attr(n, Status), Attr(n, Priority), Attr(n, Team), Attr(n, Owner), Attr(n, Effort);
    assert AttrPairs(n) == s + p + t + o + e;
    AttrOnly(n, Status);
    AttrOnly(n, Priority);
    AttrOnly(n, Team);
    AttrOnly(n, Owner);
    AttrOnly(n, Effort);
  }

  /** The pairs written for the attributes from `a` to `effort`: each one's position is at least `a`'s. */
  function AttrsFrom(n: DotNode, a: AttrName): seq<(AttrName, string)>
    decreases 4 - Position(a)
  {
    match a
    case Effort => Attr(n, Effort)
    case Owner => Attr(n, Owner) + AttrsFrom(n, Effort)
    case Team => Attr(n, Team) + AttrsFrom(n, Owner)
    case Priority => Attr(n, Priority) + AttrsFrom(n, Team)
    case Status => Attr(n, Status) + AttrsFrom(n, Priority)
  }

  lemma AttrsFromAscending(n: DotNode, a: AttrName)
    ensures Ascending(AttrsFrom(n, a))
    ensures forall p :: p in AttrsFrom(n, a) ==> Position(a) <= Position(p.0)
    decreases 4 - Position(a)
  {
    AttrOnly(n, a);
    match a
    case Effort =>
    case Owner =>
      AttrsFromAscending(n, Effort);
      AscendingCons(n, Owner, AttrsFrom(n, Effort));
    case Team =>
      AttrsFromAscending(n, Owner);
      AscendingCons(n, Team, AttrsFrom(n, Owner));
    case Priority =>
      AttrsFromAscending(n, Team);
      AscendingCons(n, Priority, AttrsFrom(n, Team));
    case Status =>
      AttrsFromAscending(n, Priority);
      AscendingCons(n, Status, AttrsFrom(n, Priority));
  }

  /** The attributes come in the fixed order status, priority, team, owner, effort. */
  lemma AttrOrder(n: DotNode)
    ensures Ascending(AttrPairs(n))
  {
    var s, p, t, o, e := Attr(n, Status), Attr(n, Priority), Attr(n, Team), Attr(n, Owner), Attr(n, Effort);
    assert AttrPairs(n) == s + (p + (t + (o + e)));
    assert AttrsFrom(n, Status) == s + (p + (t + (o + e)));
    AttrsFromAscending(n, Status);
  }

  function AttrText(p: (AttrName, string)): string
  {
    AttrNameText(p.0) + "=\"" + p.1 + "\""
  }

  function AttrTexts(ps: seq<(AttrName, string)>): (r: seq<string>)
    ensures |r| == |ps| && forall i :: 0 <= i < |ps| ==> r[i] == AttrText(ps[i])
  {
    if ps == [] then [] else [AttrText(ps[0])] + AttrTexts(ps[1..])
  }

  /** `' ' + ' '.join(attrs) if attrs else ''`. */
  function AttrString(n: DotNode): string
  {
    var ps := AttrPairs(n);
    if ps != [] then " " + Join(AttrTexts(ps), " ") else ""
  }

  /** The opening tag and the text children, the same in both branches; the text is written as is, not escaped. */
  function Head(n: DotNode, depth: nat): string
    requires n.nodeType.Some? && n.title.Some?
  {
    var ind := UiExport.Indent(depth);
    ind + "<" + n.nodeType.value + AttrString(n) + ">\n" +
    ind + "  <title>" + n.title.value + "</title>\n" +
    if Truthy(n.description) then ind + "  <description>" + n.description.value + "</description>\n" else ""
  }

  function Tail(n: DotNode, depth: nat): string
    requires n.nodeType.Some?
  {
    UiExport.Indent(depth) + "</" + n.nodeType.value + ">\n"
  }

  // ------------------------------------------------------------------ the document

  /** `build_xml_node(node_id, depth)`: the element of the last node with the id and, nested, its children's. */
  function NodeXml(t: DotTree, rank: Id -> nat, id: Id, depth: nat): string
    requires Keyed(t) && Acyclic(t, rank) && id in NodeIds(t.nodes)
    decreases rank(id), 1, 0
  {
    var n := LastWithId(t.nodes, id).value;
    var ids := LinkedChildren(t.nodes, t.edges, id);
    Head(n, depth) + ChildrenXml(t, rank, id, ids, |ids|, depth + 1) + Tail(n, depth)
  }

  /** The elements of the first `k` children, in edge order. */
  function ChildrenXml(t: DotTree, rank: Id -> nat, parent: Id, ids: seq<Id>, k: nat, depth: nat): string
    requires Keyed(t) && Acyclic(t, rank) && ids == LinkedChildren(t.nodes, t.edges, parent) && k <= |ids|
    decreases rank(parent), 0, k
  {
    if k == 0 then ""
    else
      assert ids[k - 1] in ids;
      ChildrenXml(t, rank, parent, ids, k - 1, depth) + NodeXml(t, rank, ids[k - 1], depth)
  }

  /** The elements of the first `k` roots, each at depth 1. */
  function RootsXml(t: DotTree, rank: Id -> nat, roots: seq<Id>, k: nat): string
    requires Keyed(t) && Acyclic(t, rank) && k <= |roots| && forall r :: r in roots ==> r in NodeIds(t.nodes)
  {
    if k == 0 then "" else RootsXml(t, rank, roots, k - 1) + NodeXml(t, rank, roots[k - 1], 1)
  }

  /** The text `get_product_tree_xml` assembles: every root's element at depth 1 inside `product_tree`. */
  function XmlDocument(t: DotTree, rank: Id -> nat): string
    requires Keyed(t) && Acyclic(t, rank)
  {
    RootsSpec(t);
    UiExport.Prolog + RootsXml(t, rank, Roots(t), |Roots(t)|) + UiExport.Epilog
  }

  // ------------------------------------------------------------------ the methods

  /** What `node_map` and its key order hold after the first `i` nodes. */
  ghost predicate MapAfter(nodes: seq<DotNode>, i: nat, nodeMap: map<Id, DotNode>, keys: seq<Id>)
    requires i <= |nodes|
  {
    && nodeMap.Keys == NodeIds(nodes[..i]) && keys == KeyOrder(nodes[..i])
    && forall id :: id in nodeMap ==> LastWithId(nodes[..i], id) == Some(nodeMap[id])
  }

  lemma MapStep(nodes: seq<DotNode>, i: nat, nodeMap: map<Id, DotNode>, keys: seq<Id>)
    requires i < |nodes| && MapAfter(nodes, i, nodeMap, keys)
    ensures MapAfter(nodes, i + 1, nodeMap[nodes[i].id := nodes[i]],
                     if nodes[i].id in nodeMap then keys else keys + [nodes[i].id])
  {
    var node := nodes[i];
    assert nodes[..i + 1] == nodes[..i] + [node];
    NodesSnoc(nodes[..i], node);
    var m := nodeMap[node.id := node];
    assert m.Keys == nodeMap.Keys + {node.id};
    forall id | id in m
      ensures LastWithId(nodes[..i + 1], id) == Some(m[id])
    {
      if id != node.id {
        assert id in nodeMap;
      }
    }
  }

  method BuildNodeMap(nodes: seq<DotNode>) returns (nodeMap: map<Id, DotNode>, keys: seq<Id>)
    ensures nodeMap.Keys == NodeIds(nodes) && keys == KeyOrder(nodes)
    ensures forall id :: id in nodeMap ==> LastWithId(nodes, id) == Some(nodeMap[id])
  {
    nodeMap, keys := map[], [];
    for i := 0 to |nodes|
      invariant MapAfter(nodes, i, nodeMap, keys)
    {
      var node := nodes[i];
      MapStep(nodes, i, nodeMap, keys);
      if node.id !in nodeMap {
        keys := keys + [node.id];
      }
      nodeMap := nodeMap[node.id := node];
    }
    assert nodes[..|nodes|] == nodes;
  }

  /** Appending one edge extends the children of its `from` id and the parent set, and only those. */
  lemma LinksSnoc(nodes: seq<DotNode>, es: seq<FlatEdge>, e: FlatEdge)
    ensures forall id :: LinkedChildren(nodes, es + [e], id)
                         == LinkedChildren(nodes, es, id) + if e.from == id && Linked(nodes, e) then [e.to] else []
    ensures ParentKeys(nodes, es + [e]) == ParentKeys(nodes, es) + if Linked(nodes, e) then {e.to} else {}
  {
    assert (es + [e])[..|es|] == es;
    assert forall x :: x in es + [e] <==> x in es || x == e;
  }

  method FillLinks(t: DotTree, nodeMap: map<Id, DotNode>) returns (children: map<Id, seq<Id>>, parents: set<Id>)
    requires nodeMap.Keys == NodeIds(t.nodes)
    ensures children.Keys == NodeIds(t.nodes) && parents == ParentKeys(t.nodes, t.edges)
    ensures forall id :: ListAt(children, id) == LinkedChildren(t.nodes, t.edges, id)
  {
    children := map id | id in nodeMap.Keys :: [];
    parents := {};
    for j := 0 to |t.edges|
      invariant children.Keys == NodeIds(t.nodes) && parents == ParentKeys(t.nodes, t.edges[..j])
      invariant forall id :: ListAt(children, id) == LinkedChildren(t.nodes, t.edges[..j], id)
    {
      var edge := t.edges[j];
      assert t.edges[..j + 1] == t.edges[..j] + [edge];
      LinksSnoc(t.nodes, t.edges[..j], edge);
      if edge.from in nodeMap && edge.to in nodeMap {
        children := children[edge.from := children[edge.from] + [edge.to]];
        parents := parents + {edge.to};
      }
    }
    assert t.edges[..|t.edges|] == t.edges;
  }

  /** The state the recursive writer reads: `node_map` and the filled `children`. */
  ghost predicate Maps(t: DotTree, nodeMap: map<Id, DotNode>, children: map<Id, seq<Id>>)
  {
    && nodeMap.Keys == NodeIds(t.nodes)
    && (forall id :: id in nodeMap ==> LastWithId(t.nodes, id) == Some(nodeMap[id]))
    && (forall id :: ListAt(children, id) == LinkedChildren(t.nodes, t.edges, id))
  }

  /** The child at index `i` names a node of lower rank. */
  lemma ChildBelow(t: DotTree, rank: Id -> nat, parent: Id, ids: seq<Id>, i: nat)
    requires Keyed(t) && Acyclic(t, rank) && ids == LinkedChildren(t.nodes, t.edges, parent) && i < |ids|
    ensures ids[i] in NodeIds(t.nodes) && rank(ids[i]) < rank(parent)
  {
    assert ids[i] in ids;
  }

  /** One more child: its element follows the elements of the children before it. */
  lemma ChildrenStep(t: DotTree, rank: Id -> nat, parent: Id, ids: seq<Id>, i: nat, depth: nat)
    requires Keyed(t) && Acyclic(t, rank) && ids == LinkedChildren(t.nodes, t.edges, parent) && i < |ids|
    ensures ids[i] in NodeIds(t.nodes) && rank(ids[i]) < rank(parent)
    ensures ChildrenXml(t, rank, parent, ids, i + 1, depth) == ChildrenXml(t, rank, parent, ids, i, depth) + NodeXml(t, rank, ids[i], depth)
  {
    ChildBelow(t, rank, parent, ids, i);
  }

  /** One more root: its element follows the elements of the roots before it. */
  lemma RootsStep(t: DotTree, rank: Id -> nat, roots: seq<Id>, i: nat)
    requires Keyed(t) && Acyclic(t, rank) && i < |roots| && forall r :: r in roots ==> r in NodeIds(t.nodes)
    ensures roots[i] in NodeIds(t.nodes)
    ensures RootsXml(t, rank, roots, i + 1) == RootsXml(t, rank, roots, i) + NodeXml(t, rank, roots[i], 1)
  {
    assert roots[i] in roots;
  }

  lemma NodeXmlParts(t: DotTree, rank: Id -> nat, id: Id, depth: nat, n: DotNode)
    requires Keyed(t) && Acyclic(t, rank) && id in NodeIds(t.nodes) && LastWithId(t.nodes, id) == Some(n)
    ensures n.nodeType.Some? && n.title.Some?
    ensures NodeXml(t, rank, id, depth) ==
      Head(n, depth) + ChildrenXml(t, rank, id, LinkedChildren(t.nodes, t.edges, id), |LinkedChildren(t.nodes, t.edges, id)|, depth + 1) + Tail(n, depth)
  {
  }

  /**
   * The recursive `build_xml_node`: the head, the children's elements in edge order, then the
   * closing tag; a node with children and a leaf get the same text around them. Titles and
   * descriptions are written verbatim.
   */
  method BuildXmlNode(t: DotTree, ghost rank: Id -> nat, nodeMap: map<Id, DotNode>, children: map<Id, seq<Id>>,
                      nodeId: Id, depth: nat) returns (xml: string)
    requires Keyed(t) && Acyclic(t, rank) && nodeId in NodeIds(t.nodes) && Maps(t, nodeMap, children)
    ensures xml == NodeXml(t, rank, nodeId, depth)
    decreases rank(nodeId), 1
  {
    var node := nodeMap[nodeId];
    NodeXmlParts(t, rank, nodeId, depth, node);
    var nodeChildren := ListAt(children, nodeId);
    var childrenXml := BuildChildren(t, rank, nodeMap, children, nodeId, nodeChildren, depth + 1);
    xml := Head(node, depth) + childrenXml + Tail(node, depth);
  }

  /** The `for child_id in node_children` loop: each child's element, appended in edge order. */
  method BuildChildren(t: DotTree, ghost rank: Id -> nat, nodeMap: map<Id, DotNode>, children: map<Id, seq<Id>>,
                       parent: Id, ids: seq<Id>, depth: nat) returns (xml: string)
    requires Keyed(t) && Acyclic(t, rank) && Maps(t, nodeMap, children)
    requires ids == LinkedChildren(t.nodes, t.edges, parent)
    ensures xml == ChildrenXml(t, rank, parent, ids, |ids|, depth)
    decreases rank(parent), 0
  {
    xml := "";
    for i := 0 to |ids|
      invariant xml == ChildrenXml(t, rank, parent, ids, i, depth)
    {
      ChildBelow(t, rank, parent, ids, i);
      var childXml := BuildXmlNode(t, rank, nodeMap, children, ids[i], depth);
      ChildrenStep(t, rank, parent, ids, i, depth);
      xml := xml + childXml;
    }
  }

  /** The `for root_node_id in root_nodes` loop: every root's element at depth 1. */
  method BuildRoots(t: DotTree, ghost rank: Id -> nat, nodeMap: map<Id, DotNode>, children: map<Id, seq<Id>>,
                    roots: seq<Id>) returns (xml: string)
    requires Keyed(t) && Acyclic(t, rank) && Maps(t, nodeMap, children)
    requires forall r :: r in roots ==> r in NodeIds(t.nodes)
    ensures xml == RootsXml(t, rank, roots, |roots|)
  {
    xml := "";
    for i := 0 to |roots|
      invariant xml == RootsXml(t, rank, roots, i)
    {
      RootsStep(t, rank, roots, i);
      var rootXml := BuildXmlNode(t, rank, nodeMap, children, roots[i], 1);
      xml := xml + rootXml;
    }
  }

  /**
   * `get_product_tree_xml` up to the reply it wraps the text in: the prolog, every root's
   * element at depth 1, and the closing tag.
   */
  method GetProductTreeXml(t: DotTree, ghost rank: Id -> nat) returns (xml: string)
    requires Keyed(t) && Acyclic(t, rank)
    ensures xml == XmlDocument(t, rank)
  {
    var nodeMap, keys := BuildNodeMap(t.nodes);
    var children, parents := FillLinks(t, nodeMap);
    var rootNodes := RootsOf(keys, parents);
    RootsSpec(t);
    var body := BuildRoots(t, rank, nodeMap, children, rootNodes);
    xml := UiExport.Prolog + body + UiExport.Epilog;
  }
}
