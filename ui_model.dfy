/**
 * The node/edge representation kept by the standalone manager of ui/app.js
 * (`this.productTree = { nodes, edges }`). A field that JavaScript leaves `undefined` or `null`
 * and that the code only tests for truthiness is the empty string here.
 */
module UiModel {
  import opened Wrappers
  import opened Strings

  /** `job_data` of a `job` node; an absent attribute (`null`) is "". */
  datatype JobData = JobData(jobContent: string, effortEstimate: string, startDate: string, endDate: string)

  /**
   * A node as imported (`owner`, `effort` and `parentId` are then "") or as created by
   * `addChildNode` (which sets no `summary`, `owner_email`, dates or `job_data`).
   */
  datatype UiNode = UiNode(
    id: string, title: string, nodeType: string, description: string, summary: string,
    status: string, priority: string, team: string, ownerEmail: string,
    createdAt: string, updatedAt: string, tags: seq<string>, jobData: Option<JobData>,
    owner: string, effort: string, parentId: string)

  /** An edge; the edges pushed by `addChildNode` carry no `id` and no `type` (""). */
  datatype UiEdge = UiEdge(id: string, from: string, to: string, kind: string)

  datatype UiTree = UiTree(nodes: seq<UiNode>, edges: seq<UiEdge>)

  /** The ids carried by a sequence of nodes. */
  function NodeIds(nodes: seq<UiNode>): set<string>
  {
    set n | n in nodes :: n.id
  }

  function NodeId(k: nat): string
  {
    "node_" + NatToString(k)
  }

  function EdgeId(k: nat): string
  {
    "edge_" + NatToString(k)
  }

  lemma NodeIdInjective(a: nat, b: nat)
    requires NodeId(a) == NodeId(b)
    ensures a == b
  {
    assert NodeId(a)[5..] == NatToString(a);
    assert NodeId(b)[5..] == NatToString(b);
    NatToStringInjective(a, b);
  }

  /** `nodes.find(n => n.id === id)`: the first node with that id. */
  function FindById(nodes: seq<UiNode>, id: string): (r: Option<UiNode>)
    ensures r.None? <==> forall i :: 0 <= i < |nodes| ==> nodes[i].id != id
    ensures r.Some? ==>
      exists i :: 0 <= i < |nodes| && nodes[i] == r.value && r.value.id == id &&
        forall j :: 0 <= j < i ==> nodes[j].id != id
  {
    if nodes == [] then None
    else if nodes[0].id == id then Some(nodes[0])
    else
      var r := FindById(nodes[1..], id);
      assert forall i :: 1 <= i < |nodes| ==> nodes[i] == nodes[1..][i - 1];
      r
  }

  /** `edges.find(e => e.to === id)`: the first edge into `id`. */
  function FirstEdgeTo(edges: seq<UiEdge>, id: string): (r: Option<UiEdge>)
    ensures r.None? <==> forall i :: 0 <= i < |edges| ==> edges[i].to != id
    ensures r.Some? ==>
      exists i :: 0 <= i < |edges| && edges[i] == r.value && r.value.to == id &&
        forall j :: 0 <= j < i ==> edges[j].to != id
  {
    if edges == [] then None
    else if edges[0].to == id then Some(edges[0])
    else
      var r := FirstEdgeTo(edges[1..], id);
      assert forall i :: 1 <= i < |edges| ==> edges[i] == edges[1..][i - 1];
      r
  }

  predicate HasNode(t: UiTree, id: string)
  {
    exists i :: 0 <= i < |t.nodes| && t.nodes[i].id == id
  }
}
