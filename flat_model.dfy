/**
 * The flat node/edge representation of web/app.js and web-ai/app.js (the two files share
 * this code verbatim), and its importer from `<node>` and `<edge>` elements anywhere in the
 * document. Attributes read with `getAttribute` are `null` when absent, so ids are options;
 * JavaScript's `===` then makes two absent ids equal, as `None == None` does here.
 */
module FlatModel {
  import opened Wrappers
  import opened Strings
  import opened Xml

  datatype FlatNode = FlatNode(id: Option<string>, title: string, nodeType: string, description: string,
                               jobContent: string, status: string)

  datatype FlatEdge = FlatEdge(from: Option<string>, to: Option<string>, kind: string)

  datatype FlatTree = FlatTree(nodes: seq<FlatNode>, edges: seq<FlatEdge>)

  /** `x || d` on a string: the default replaces the empty string. */
  function OrDefault(s: string, d: string): (r: string)
    ensures s == "" ==> r == d
    ensures s != "" ==> r == s
  {
    if s == "" then d else s
  }

  /** One `<node>` element: text children (first descendant with the tag), status default `active`. */
  function ParseFlatNode(x: Element): FlatNode
  {
    FlatNode(GetAttribute(x, "id"), RawTextOf(x, "title"), RawTextOf(x, "type"), RawTextOf(x, "description"),
             RawTextOf(x, "job_content"), OrDefault(RawTextOf(x, "status"), "active"))
  }

  /** One `<edge>` element: endpoints from attributes, type default `contains`. */
  function ParseFlatEdge(x: Element): FlatEdge
  {
    FlatEdge(GetAttribute(x, "from"), GetAttribute(x, "to"), AttrOr(x, "type", "contains"))
  }

  /** The importer's defaults: an empty or missing status is `active`, an edge type `contains`. */
  lemma FlatDefaults(x: Element)
    ensures ParseFlatNode(x).status == "active" <== RawTextOf(x, "status") == ""
    ensures RawTextOf(x, "status") != "" ==> ParseFlatNode(x).status == RawTextOf(x, "status")
    ensures ParseFlatNode(x).id.None? <==> "id" !in x.attrs
    ensures ParseFlatNode(x).title == (match QuerySelector(x, "title") case Some(d) => d.text case None => "")
    ensures ParseFlatEdge(x).kind == "contains" <== "type" !in x.attrs || x.attrs["type"] == ""
    ensures ParseFlatEdge(x).from.None? <==> "from" !in x.attrs
    ensures ParseFlatEdge(x).to.None? <==> "to" !in x.attrs
  {
  }

  /**
   * `parseXMLToTree(xmlDoc)`: one node per `<node>` element and one edge per `<edge>`
   * element, both in document order.
   */
  method ParseXmlToTree(doc: Element) returns (t: FlatTree)
    ensures var xs := DocumentElementsByTag(doc, "node");
      |t.nodes| == |xs| && forall k :: 0 <= k < |xs| ==> t.nodes[k] == ParseFlatNode(xs[k])
    ensures var ys := DocumentElementsByTag(doc, "edge");
      |t.edges| == |ys| && forall k :: 0 <= k < |ys| ==> t.edges[k] == ParseFlatEdge(ys[k])
  {
    var nodes: seq<FlatNode> := [];
    var xs := DocumentElementsByTag(doc, "node");
    for i := 0 to |xs|
      invariant |nodes| == i && forall k :: 0 <= k < i ==> nodes[k] == ParseFlatNode(xs[k])
    {
      nodes := nodes + [ParseFlatNode(xs[i])];
    }
    var edges: seq<FlatEdge> := [];
    var ys := DocumentElementsByTag(doc, "edge");
    for i := 0 to |ys|
      invariant |edges| == i && forall k :: 0 <= k < i ==> edges[k] == ParseFlatEdge(ys[k])
    {
      edges := edges + [ParseFlatEdge(ys[i])];
    }
    t := FlatTree(nodes, edges);
  }

  // ------------------------------------------------------------------ queries shared by the analyses

  /** `edges.some(e => e.to === id)`. */
  predicate HasIncoming(t: FlatTree, id: Option<string>)
  {
    exists e :: e in t.edges && e.to == id
  }

  /** `edges.some(e => e.from === id)`. */
  predicate HasOutgoing(t: FlatTree, id: Option<string>)
  {
    exists e :: e in t.edges && e.from == id
  }

  /** `edges.filter(e => e.from === id).map(e => e.to)`, in edge order. */
  function Targets(edges: seq<FlatEdge>, id: Option<string>): (r: seq<Option<string>>)
    ensures |r| <= |edges|
    ensures forall c :: c in r <==> exists e :: e in edges && e.from == id && e.to == c
  {
    if edges == [] then []
    else (if edges[0].from == id then [edges[0].to] else []) + Targets(edges[1..], id)
  }

  /** The ids of a node list. */
  function IdsOf(nodes: seq<FlatNode>): (r: set<Option<string>>)
    ensures forall x :: x in r <==> exists n :: n in nodes && n.id == x
  {
    set n | n in nodes :: n.id
  }

  /** `nodes.find(n => n.id === id)`. */
  function FindNode(nodes: seq<FlatNode>, id: Option<string>): (r: Option<FlatNode>)
    ensures r.None? <==> forall i :: 0 <= i < |nodes| ==> nodes[i].id != id
    ensures r.Some? ==>
      exists i :: 0 <= i < |nodes| && nodes[i] == r.value && r.value.id == id &&
        forall j :: 0 <= j < i ==> nodes[j].id != id
  {
    if nodes == [] then None
    else if nodes[0].id == id then Some(nodes[0])
    else
      var r := FindNode(nodes[1..], id);
      assert forall i :: 1 <= i < |nodes| ==> nodes[i] == nodes[1..][i - 1];
      r
  }
}
