/**
 * The exporters of ui/app.js: `generateXML` (the hierarchy rebuilt from the edges and written
 * back as nested elements) and `generateJiraCSV` (one Jira row per node, labelled with the
 * product found by `findProductForNode`).
 */
module UiExport {
  import opened Wrappers
  import opened Strings
  import opened Escaping
  import opened UiModel

  // ------------------------------------------------------------------ hierarchy

  predicate HasIncoming(edges: seq<UiEdge>, id: string)
  {
    exists e :: e in edges && e.to == id
  }

  /** `nodes.filter(node => !edges.some(edge => edge.to === node.id))`. */
  function RootNodes(nodes: seq<UiNode>, edges: seq<UiEdge>): (r: seq<UiNode>)
    ensures forall n :: n in r <==> n in nodes && !HasIncoming(edges, n.id)
  {
    if nodes == [] then []
    else (if HasIncoming(edges, nodes[0].id) then [] else [nodes[0]]) + RootNodes(nodes[1..], edges)
  }

  /** `nodeMap.get(id)` after `nodes.forEach(node => nodeMap.set(node.id, node))`: the last node with that id. */
  function LastById(nodes: seq<UiNode>, id: string): (r: Option<UiNode>)
    ensures r.None? <==> id !in NodeIds(nodes)
    ensures r.Some? ==> r.value in nodes && r.value.id == id
  {
    if nodes == [] then None
    else if nodes[|nodes| - 1].id == id then Some(nodes[|nodes| - 1])
    else
      var r := LastById(nodes[..|nodes| - 1], id);
      assert nodes == nodes[..|nodes| - 1] + [nodes[|nodes| - 1]];
      r
  }

  /** `children.get(id)` once every edge leaving `id` has been pushed: their targets in edge order. */
  function ChildIds(edges: seq<UiEdge>, id: string): (r: seq<string>)
    ensures forall c :: c in r <==> exists e :: e in edges && e.from == id && e.to == c
  {
    if edges == [] then []
    else
      var r := ChildIds(edges[..|edges| - 1], id) + (if edges[|edges| - 1].from == id then [edges[|edges| - 1].to] else []);
      assert edges == edges[..|edges| - 1] + [edges[|edges| - 1]];
      r
  }

  /**
   * Acyclicity of the hierarchy the export follows, witnessed by a rank that drops along every
   * edge between two nodes. `generateXML` recurses without a visited set and does not return
   * when a cycle is reachable from a root, so it demands this of its callers.
   */
  predicate Ranked(t: UiTree, rank: map<string, nat>)
  {
    && NodeIds(t.nodes) <= rank.Keys
    && forall e :: e in t.edges && e.from in NodeIds(t.nodes) && e.to in NodeIds(t.nodes) ==> rank[e.from] > rank[e.to]
  }

  function Indent(depth: nat): string
  {
    if depth == 0 then "" else "  " + Indent(depth - 1)
  }

  /** The attribute names `generateNodeXML` may write, in their output order. */
  datatype AttrName = Status | Priority | Team | Owner | Created | Updated | Effort | Start | End

  function AttrNameText(a: AttrName): string
  {
    match a
    case Status => "status"
    case Priority => "priority"
    case Team => "team"
    case Owner => "owner"
    case Created => "created"
    case Updated => "updated"
    case Effort => "effort"
    case Start => "start"
    case End => "end"
  }

  function Attr(name: AttrName, value: string): seq<(AttrName, string)>
  {
    if value != "" then [(name, value)] else []
  }

  /** The attributes written for a node, as name/value pairs in output order. */
  function AttrPairs(n: UiNode): seq<(AttrName, string)>
  {
    FixedAttrs(n) + if n.nodeType == "job" && n.jobData.Some? then JobAttrs(n.jobData.value) else []
  }

  /** The attributes every node may carry. */
  function FixedAttrs(n: UiNode): seq<(AttrName, string)>
  {
    Attr(Status, n.status) + Attr(Priority, n.priority) + Attr(Team, n.team) +
    Attr(Owner, n.ownerEmail) + Attr(Created, n.createdAt) + Attr(Updated, n.updatedAt)
  }

  /** The attributes only a `job` node with job data carries. */
  function JobAttrs(j: JobData): seq<(AttrName, string)>
  {
    Attr(Effort, j.effortEstimate) + Attr(Start, j.startDate) + Attr(End, j.endDate)
  }

  function AttrText(p: (AttrName, string)): string
  {
    AttrNameText(p.0) + "=\"" + p.1 + "\""
  }

  /** `attrs`, the list of `name="value"` strings. */
  function AttrTexts(ps: seq<(AttrName, string)>): (r: seq<string>)
    ensures |r| == |ps| && forall i :: 0 <= i < |ps| ==> r[i] == AttrText(ps[i])
  {
    if ps == [] then [] else [AttrText(ps[0])] + AttrTexts(ps[1..])
  }

  /** `attrs.length > 0 ? ' ' + attrs.join(' ') : ''`. */
  function AttrString(n: UiNode): string
  {
    var ps := AttrPairs(n);
    if |ps| > 0 then " " + Join(AttrTexts(ps), " ") else ""
  }

  /** The value `n` holds for an attribute name. */
  function FieldFor(n: UiNode, a: AttrName): string
  {
    match a
    case Status => n.status
    case Priority => n.priority
    case Team => n.team
    case Owner => n.ownerEmail
    case Created => n.createdAt
    case Updated => n.updatedAt
    case Effort => if n.jobData.Some? then n.jobData.value.effortEstimate else ""
    case Start => if n.jobData.Some? then n.jobData.value.startDate else ""
    case End => if n.jobData.Some? then n.jobData.value.endDate else ""
  }

  predicate JobOnly(a: AttrName)
  {
    a == Effort || a == Start || a == End
  }

  /** Whether `generateNodeXML` writes attribute `a` for `n`. */
  predicate Written(n: UiNode, a: AttrName)
  {
    FieldFor(n, a) != "" && (JobOnly(a) ==> n.nodeType == "job" && n.jobData.Some?)
  }

  lemma InAttr(name: AttrName, value: string, p: (AttrName, string))
    ensures p in Attr(name, value) <==> value != "" && p == (name, value)
  {
  }

  /**
   * An attribute is written exactly when the node's field for it is non-empty, except that
   * `effort`, `start` and `end` are written only for a `job` node with job data; it carries the
   * field's value, and no name is written twice.
   */
  lemma AttrPairsSpec(n: UiNode, a: AttrName)
    ensures (a, FieldFor(n, a)) in AttrPairs(n) <==> Written(n, a)
    ensures forall v :: (a, v) in AttrPairs(n) ==> v == FieldFor(n, a)
  {
    var job := n.nodeType == "job" && n.jobData.Some?;
    forall p
      ensures p in AttrPairs(n) <==> p in FixedAttrs(n) || (job && p in JobAttrs(n.jobData.value))
      ensures p in FixedAttrs(n) <==> p.1 != "" && !JobOnly(p.0) && p.1 == FieldFor(n, p.0)
      ensures job ==> (p in JobAttrs(n.jobData.value) <==> p.1 != "" && JobOnly(p.0) && p.1 == FieldFor(n, p.0))
    {
      FixedMember(n, p);
      if job {
        JobMember(n, p);
      }
    }
  }

  lemma FixedMember(n: UiNode, p: (AttrName, string))
    ensures p in FixedAttrs(n) <==> p.1 != "" && !JobOnly(p.0) && p.1 == FieldFor(n, p.0)
  {
    InAttr(Status, n.status, p);
    InAttr(Priority, n.priority, p);
    InAttr(Team, n.team, p);
    InAttr(Owner, n.ownerEmail, p);
    InAttr(Created, n.createdAt, p);
    InAttr(Updated, n.updatedAt, p);
  }

  lemma JobMember(n: UiNode, p: (AttrName, string))
    requires n.jobData.Some?
    ensures p in JobAttrs(n.jobData.value) <==> p.1 != "" && JobOnly(p.0) && p.1 == FieldFor(n, p.0)
  {
    var j := n.jobData.value;
    InAttr(Effort, j.effortEstimate, p);
    InAttr(Start, j.startDate, p);
    InAttr(End, j.endDate, p);
  }


  /** One text child: `<tag>escaped value</tag>` on its own line. */
  function TextElement(indent: string, tag: string, value: string): string
  {
    indent + "  <" + tag + ">" + EscapeXmlGuarded(value) + "</" + tag + ">\n"
  }

  /**
   * The text between the tags of a text child holds no raw markup character, and unescaping it
   * yields the field's value.
   */
  lemma TextElementEscaped(indent: string, tag: string, value: string)
    ensures exists payload ::
      && TextElement(indent, tag, value) == indent + "  <" + tag + ">" + payload + "</" + tag + ">\n"
      && (forall i :: 0 <= i < |payload| ==> !IsMarkupChar(payload[i]))
      && UnescapeXml(payload) == value
  {
    var payload := EscapeXmlGuarded(value);
    EscapeXmlHasNoMarkup(value);
    EscapeXmlRoundTrip(value);
    assert TextElement(indent, tag, value) == indent + "  <" + tag + ">" + payload + "</" + tag + ">\n";
  }

  /** Opening tag and text children; both branches of `generateNodeXML` write the same. */
  function Head(n: UiNode, depth: nat): string
  {
    var ind := Indent(depth);
    ind + "<" + n.nodeType + AttrString(n) + ">\n" +
    TextElement(ind, "title", n.title) +
    (if n.description != "" then TextElement(ind, "description", n.description) else "") +
    (if n.summary != "" then TextElement(ind, "summary", n.summary) else "") +
    (if n.nodeType == "job" && n.jobData.Some? && n.jobData.value.jobContent != "" then
       TextElement(ind, "job_content", n.jobData.value.jobContent) else "")
  }

  function Tail(n: UiNode, depth: nat): string
  {
    Indent(depth) + "</" + n.nodeType + ">\n"
  }

  /** `generateNodeXML(node, depth)`: the element for `n` and, nested, those of its children. */
  function NodeXml(t: UiTree, rank: map<string, nat>, n: UiNode, depth: nat): string
    requires Ranked(t, rank) && n.id in NodeIds(t.nodes)
    decreases rank[n.id], 1, 0
  {
    Head(n, depth) + ChildrenXml(t, rank, n.id, ChildIds(t.edges, n.id), 0, depth + 1) + Tail(n, depth)
  }

  /** The children from index `i` on; an id that names no node writes nothing. */
  function ChildrenXml(t: UiTree, rank: map<string, nat>, parent: string, ids: seq<string>, i: nat, depth: nat): string
    requires Ranked(t, rank) && parent in NodeIds(t.nodes) && i <= |ids|
    requires forall c :: c in ids ==> exists e :: e in t.edges && e.from == parent && e.to == c
    decreases rank[parent], 0, |ids| - i
  {
    if i == |ids| then ""
    else
      (match LastById(t.nodes, ids[i])
       case Some(c) =>
         assert ids[i] in ids;
         var e :| e in t.edges && e.from == parent && e.to == ids[i];
         assert c.id in NodeIds(t.nodes);
         NodeXml(t, rank, c, depth)
       case None => "") +
      ChildrenXml(t, rank, parent, ids, i + 1, depth)
  }

  function RootsXml(t: UiTree, rank: map<string, nat>, roots: seq<UiNode>, i: nat): string
    requires Ranked(t, rank) && i <= |roots| && forall r :: r in roots ==> r in t.nodes
    decreases |roots| - i
  {
    if i == |roots| then "" else NodeXml(t, rank, roots[i], 1) + RootsXml(t, rank, roots, i + 1)
  }

  const Prolog := "<?xml version=\"1.0\" encoding=\"UTF-8\"?>\n<product_tree>\n"
  const Epilog := "</product_tree>"

  /** The document `generateXML` returns: one element tree per node without an incoming edge. */
  function XmlDocument(t: UiTree, rank: map<string, nat>): string
    requires Ranked(t, rank)
  {
    Prolog + RootsXml(t, rank, RootNodes(t.nodes, t.edges), 0) + Epilog
  }

  lemma Assoc3(a: string, b: string, c: string)
    ensures a + b + c == a + (b + c)
  {
  }

  lemma Assoc4(a: string, b: string, c: string, d: string)
    ensures a + b + c + d == a + (b + c + d)
  {
  }

  lemma AppendEmpty(a: string)
    ensures a + "" == a
  {
  }

  lemma EmptyAppend(a: string)
    ensures "" + a == a
  {
  }

  lemma NodesSnoc(s: seq<UiNode>, n: UiNode)
    ensures NodeIds(s + [n]) == NodeIds(s) + {n.id}
    ensures forall id :: LastById(s + [n], id) == if n.id == id then Some(n) else LastById(s, id)
  {
    assert (s + [n])[..|s|] == s;
    forall id | true
      ensures LastById(s + [n], id) == if n.id == id then Some(n) else LastById(s, id)
    {
    }
    assert forall m :: m in s + [n] <==> m in s || m == n;
  }

  lemma EdgesSnoc(s: seq<UiEdge>, e: UiEdge)
    ensures forall id :: ChildIds(s + [e], id) == ChildIds(s, id) + if e.from == id then [e.to] else []
  {
    assert (s + [e])[..|s|] == s;
  }

  /** The first `forEach` of `generateXML`: `nodeMap` and an empty child list per node id. */
  method BuildNodeMap(t: UiTree) returns (nodeMap: map<string, UiNode>, children: map<string, seq<string>>)
    ensures nodeMap.Keys == NodeIds(t.nodes) && children.Keys == NodeIds(t.nodes)
    ensures forall id :: id in nodeMap ==> LastById(t.nodes, id) == Some(nodeMap[id])
    ensures forall id :: id in children ==> children[id] == []
  {
    nodeMap, children := map[], map[];
    var i := 0;
    while i < |t.nodes|
      invariant 0 <= i <= |t.nodes|
      invariant nodeMap.Keys == NodeIds(t.nodes[..i]) && children.Keys == NodeIds(t.nodes[..i])
      invariant forall id :: id in nodeMap ==> LastById(t.nodes[..i], id) == Some(nodeMap[id])
      invariant forall id :: id in children ==> children[id] == []
    {
      var node := t.nodes[i];
      assert t.nodes[..i + 1] == t.nodes[..i] + [node];
      NodesSnoc(t.nodes[..i], node);
      nodeMap := nodeMap[node.id := node];
      children := children[node.id := []];
      i := i + 1;
    }
    assert t.nodes[..i] == t.nodes;
  }

  /** The second `forEach`: each edge whose `from` is a node id appends its `to`. */
  method FillChildren(t: UiTree, empty: map<string, seq<string>>) returns (children: map<string, seq<string>>)
    requires forall id :: id in empty ==> empty[id] == []
    ensures children.Keys == empty.Keys
    ensures forall id :: id in children ==> children[id] == ChildIds(t.edges, id)
  {
    children := empty;
    var j := 0;
    while j < |t.edges|
      invariant 0 <= j <= |t.edges|
      invariant children.Keys == empty.Keys
      invariant forall id :: id in children ==> children[id] == ChildIds(t.edges[..j], id)
    {
      var edge := t.edges[j];
      assert t.edges[..j + 1] == t.edges[..j] + [edge];
      EdgesSnoc(t.edges[..j], edge);
      if edge.from in children {
        children := children[edge.from := children[edge.from] + [edge.to]];
      }
      j := j + 1;
    }
    assert t.edges[..j] == t.edges;
  }

  /** One step of the children loop: the child the id names, if any, and the text it contributes. */
  lemma ChildStep(t: UiTree, rank: map<string, nat>, nodeMap: map<string, UiNode>, parent: string, ids: seq<string>, i: nat, depth: nat)
    requires Ranked(t, rank) && parent in NodeIds(t.nodes) && ids == ChildIds(t.edges, parent) && i < |ids|
    requires nodeMap.Keys == NodeIds(t.nodes)
    requires forall id :: id in nodeMap ==> LastById(t.nodes, id) == Some(nodeMap[id])
    ensures ids[i] in nodeMap ==>
      && nodeMap[ids[i]].id in NodeIds(t.nodes) && rank[nodeMap[ids[i]].id] < rank[parent]
      && ChildrenXml(t, rank, parent, ids, i, depth) ==
           NodeXml(t, rank, nodeMap[ids[i]], depth) + ChildrenXml(t, rank, parent, ids, i + 1, depth)
    ensures ids[i] !in nodeMap ==> ChildrenXml(t, rank, parent, ids, i, depth) == ChildrenXml(t, rank, parent, ids, i + 1, depth)
  {
    if ids[i] in nodeMap {
      var child := nodeMap[ids[i]];
      assert LastById(t.nodes, ids[i]) == Some(child);
      assert ids[i] in ids;
      var e :| e in t.edges && e.from == parent && e.to == ids[i];
    } else {
      EmptyAppend(ChildrenXml(t, rank, parent, ids, i + 1, depth));
    }
  }

  /** The recursive `generateNodeXML` closure; `xml` is the accumulator it appends to. */
  method EmitNode(t: UiTree, ghost rank: map<string, nat>, nodeMap: map<string, UiNode>,
                  children: map<string, seq<string>>, n: UiNode, depth: nat, xml: string) returns (out: string)
    requires Ranked(t, rank) && n.id in NodeIds(t.nodes)
    requires nodeMap.Keys == NodeIds(t.nodes) && children.Keys == NodeIds(t.nodes)
    requires forall id :: id in nodeMap ==> LastById(t.nodes, id) == Some(nodeMap[id])
    requires forall id :: id in children ==> children[id] == ChildIds(t.edges, id)
    ensures out == xml + NodeXml(t, rank, n, depth)
    decreases rank[n.id], 1
  {
    var ids := if n.id in children then children[n.id] else [];
    assert ids == ChildIds(t.edges, n.id);
    var head, tail := Head(n, depth), Tail(n, depth);
    ghost var body := ChildrenXml(t, rank, n.id, ids, 0, depth + 1);
    assert NodeXml(t, rank, n, depth) == head + body + tail;
    out := EmitChildren(t, rank, nodeMap, children, n.id, ids, depth + 1, xml + head);
    out := out + tail;
    Assoc4(xml, head, body, tail);
  }

  /** The `childNodes.forEach` of `generateNodeXML`: each child id that names a node is written. */
  method EmitChildren(t: UiTree, ghost rank: map<string, nat>, nodeMap: map<string, UiNode>,
                      children: map<string, seq<string>>, parent: string, ids: seq<string>, depth: nat, xml: string)
    returns (out: string)
    requires Ranked(t, rank) && parent in NodeIds(t.nodes) && ids == ChildIds(t.edges, parent)
    requires nodeMap.Keys == NodeIds(t.nodes) && children.Keys == NodeIds(t.nodes)
    requires forall id :: id in nodeMap ==> LastById(t.nodes, id) == Some(nodeMap[id])
    requires forall id :: id in children ==> children[id] == ChildIds(t.edges, id)
    ensures out == xml + ChildrenXml(t, rank, parent, ids, 0, depth)
    decreases rank[parent], 0
  {
    out := xml;
    ghost var total := xml + ChildrenXml(t, rank, parent, ids, 0, depth);
    var i := 0;
    while i < |ids|
      invariant 0 <= i <= |ids|
      invariant out + ChildrenXml(t, rank, parent, ids, i, depth) == total
    {
      var childId := ids[i];
      ChildStep(t, rank, nodeMap, parent, ids, i, depth);
      ghost var rest := ChildrenXml(t, rank, parent, ids, i + 1, depth);
      ghost var before := out;
      if childId in nodeMap {
        out := EmitNode(t, rank, nodeMap, children, nodeMap[childId], depth, out);
        Assoc3(before, NodeXml(t, rank, nodeMap[childId], depth), rest);
      }
      assert out + rest == total;
      i := i + 1;
    }
    AppendEmpty(out);
  }

  method GenerateXml(t: UiTree, ghost rank: map<string, nat>) returns (xml: string)
    requires Ranked(t, rank)
    ensures xml == XmlDocument(t, rank)
  {
    var nodeMap, empty := BuildNodeMap(t);
    var children := FillChildren(t, empty);
    var roots := RootNodes(t.nodes, t.edges);
    xml := EmitRoots(t, rank, nodeMap, children, roots, Prolog);
    xml := xml + Epilog;
  }

  /** The `rootNodes.forEach` of `generateXML`: every root is written at depth 1. */
  method EmitRoots(t: UiTree, ghost rank: map<string, nat>, nodeMap: map<string, UiNode>,
                   children: map<string, seq<string>>, roots: seq<UiNode>, xml: string) returns (out: string)
    requires Ranked(t, rank) && forall r :: r in roots ==> r in t.nodes
    requires nodeMap.Keys == NodeIds(t.nodes) && children.Keys == NodeIds(t.nodes)
    requires forall id :: id in nodeMap ==> LastById(t.nodes, id) == Some(nodeMap[id])
    requires forall id :: id in children ==> children[id] == ChildIds(t.edges, id)
    ensures out == xml + RootsXml(t, rank, roots, 0)
  {
    out := xml;
    ghost var total := xml + RootsXml(t, rank, roots, 0);
    var i := 0;
    while i < |roots|
      invariant 0 <= i <= |roots|
      invariant out + RootsXml(t, rank, roots, i) == total
    {
      assert roots[i] in t.nodes;
      ghost var before := out;
      out := EmitNode(t, rank, nodeMap, children, roots[i], 1, out);
      Assoc3(before, NodeXml(t, rank, roots[i], 1), RootsXml(t, rank, roots, i + 1));
      i := i + 1;
    }
    AppendEmpty(out);
  }
}
