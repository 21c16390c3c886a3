/**
 * `generateJiraCSV` of web/app.js and web-ai/app.js: a four-column sheet in which every cell,
 * the header's included, is wrapped in quotes with its quotes doubled; the issue type comes
 * from `mapIssueType` and the labels from `getNodeLabels`.
 */
module FlatCsv {
  import opened Wrappers
  import opened Strings
  import opened Escaping
  import opened Csv
  import opened FlatModel

  /** `mapIssueType`: the fixed table, `Task` for every other type. */
  function MapIssueType(nodeType: string): string
  {
    var mapping := map["Product" := "Initiative", "Goal" := "Initiative", "Job" := "Epic",
                       "Work Item" := "Story", "Task" := "Task"];
    if nodeType in mapping then mapping[nodeType] else "Task"
  }

  lemma MapIssueTypeSpec(nodeType: string)
    ensures MapIssueType(nodeType) == "Initiative" <==> nodeType == "Product" || nodeType == "Goal"
    ensures MapIssueType(nodeType) == "Epic" <==> nodeType == "Job"
    ensures MapIssueType(nodeType) == "Story" <==> nodeType == "Work Item"
    ensures MapIssueType(nodeType) == "Task" <==>
      nodeType !in {"Product", "Goal", "Job", "Work Item"}
  {
  }

  /** `nodes.find(n => n.id === id)?.type === 'Product'`. */
  predicate IsProductId(nodes: seq<FlatNode>, id: Option<string>)
  {
    FindNode(nodes, id).Some? && FindNode(nodes, id).value.nodeType == "Product"
  }

  /** The test of that `find`: the edge goes into `id` and leaves a `Product` node. */
  predicate IntoProduct(t: FlatTree, e: FlatEdge, id: Option<string>)
  {
    e.to == id && IsProductId(t.nodes, e.from)
  }

  /** The `edges.find` of `getNodeLabels`: the first edge into `id` that leaves a `Product` node. */
  function ProductEdge(t: FlatTree, edges: seq<FlatEdge>, id: Option<string>): (r: Option<FlatEdge>)
    ensures r.None? <==> forall k :: 0 <= k < |edges| ==> !IntoProduct(t, edges[k], id)
    ensures r.Some? ==>
      exists k :: 0 <= k < |edges| && edges[k] == r.value && IntoProduct(t, r.value, id) &&
        forall j :: 0 <= j < k ==> !IntoProduct(t, edges[j], id)
  {
    if edges == [] then None
    else if IntoProduct(t, edges[0], id) then Some(edges[0])
    else
      var r := ProductEdge(t, edges[1..], id);
      assert forall k :: 1 <= k < |edges| ==> edges[k] == edges[1..][k - 1];
      r
  }

  /** `getNodeLabels(node)`: the node's type, then the title of that parent when there is one. */
  function NodeLabels(t: FlatTree, n: FlatNode): string
  {
    var labels := [n.nodeType] +
      match ProductEdge(t, t.edges, n.id)
      case None => []
      case Some(e) => [FindNode(t.nodes, e.from).value.title];
    Join(labels, ",")
  }

  /**
   * The labels are the node's type alone when no edge into the node leaves a `Product` node;
   * otherwise they are the type and the title of the product that the first such edge leaves.
   */
  lemma NodeLabelsSpec(t: FlatTree, n: FlatNode)
    ensures (forall k :: 0 <= k < |t.edges| ==> !IntoProduct(t, t.edges[k], n.id)) ==> NodeLabels(t, n) == n.nodeType
    ensures forall k :: (0 <= k < |t.edges| && IntoProduct(t, t.edges[k], n.id) &&
      (forall j :: 0 <= j < k ==> !IntoProduct(t, t.edges[j], n.id))) ==>
        NodeLabels(t, n) == n.nodeType + "," + FindNode(t.nodes, t.edges[k].from).value.title
  {
    var r := ProductEdge(t, t.edges, n.id);
    if r.Some? {
      LabelsWithParent(t, n, r.value);
      forall k | 0 <= k < |t.edges| && IntoProduct(t, t.edges[k], n.id) &&
        (forall j :: 0 <= j < k ==> !IntoProduct(t, t.edges[j], n.id))
        ensures t.edges[k] == r.value
      {
        ProductEdgeIsFirst(t, n.id, k);
      }
    }
  }

  lemma LabelsWithParent(t: FlatTree, n: FlatNode, e: FlatEdge)
    requires ProductEdge(t, t.edges, n.id) == Some(e)
    ensures NodeLabels(t, n) == n.nodeType + "," + FindNode(t.nodes, e.from).value.title
  {
    var title := FindNode(t.nodes, e.from).value.title;
    assert NodeLabels(t, n) == Join([n.nodeType] + [title], ",");
    JoinPair(n.nodeType, title, ",");
  }

  /** The edge `find` returns is the first edge that passes its test. */
  lemma ProductEdgeIsFirst(t: FlatTree, id: Option<string>, k: nat)
    requires k < |t.edges| && IntoProduct(t, t.edges[k], id)
    requires forall j :: 0 <= j < k ==> !IntoProduct(t, t.edges[j], id)
    ensures ProductEdge(t, t.edges, id) == Some(t.edges[k])
  {
    var r := ProductEdge(t, t.edges, id);
    var m :| 0 <= m < |t.edges| && t.edges[m] == r.value && IntoProduct(t, r.value, id) &&
      forall j :: 0 <= j < m ==> !IntoProduct(t, t.edges[j], id);
    assert !(m < k) && !(k < m);
  }


  const Header: seq<string> := ["Issue Type", "Summary", "Description", "Labels"]

  /** The row pushed for one node. */
  function NodeRow(t: FlatTree, n: FlatNode): seq<string>
  {
    [MapIssueType(n.nodeType), n.title, n.description, NodeLabels(t, n)]
  }

  /** Every node's row, in node order. */
  function NodeRows(t: FlatTree): (r: seq<seq<string>>)
    ensures |r| == |t.nodes|
    ensures forall k :: 0 <= k < |r| ==> r[k] == NodeRow(t, t.nodes[k])
  {
    seq(|t.nodes|, k requires 0 <= k < |t.nodes| => NodeRow(t, t.nodes[k]))
  }

  /** The document `generateJiraCSV` returns: all rows, each cell quoted, joined by `,` and `\n`. */
  function JiraCsv(t: FlatTree): string
  {
    Document(Always, [Header] + NodeRows(t))
  }

  /** The `forEach` of `generateJiraCSV`, pushing one row per node after the header. */
  method CollectRows(t: FlatTree) returns (rows: seq<seq<string>>)
    ensures rows == [Header] + NodeRows(t)
  {
    rows := [Header];
    for i := 0 to |t.nodes|
      invariant rows == [Header] + NodeRows(t)[..i]
    {
      var node := t.nodes[i];
      RowsStep(t, i);
      rows := rows + [NodeRow(t, node)];
    }
    RowsStep(t, |t.nodes|);
  }

  lemma RowsStep(t: FlatTree, i: nat)
    requires i <= |t.nodes|
    ensures i < |t.nodes| ==> NodeRows(t)[..i + 1] == NodeRows(t)[..i] + [NodeRow(t, t.nodes[i])]
    ensures i == |t.nodes| ==> NodeRows(t)[..i] == NodeRows(t)
  {
  }

  method GenerateJiraCsv(t: FlatTree) returns (csv: string)
    ensures csv == JiraCsv(t)
  {
    var rows := CollectRows(t);
    csv := Document(Always, rows);
  }

  /**
   * Read back with a CSV reader, the sheet is the header followed by exactly one four-cell
   * row per node, in node order, every cell as it was: quoting never loses a comma, quote or
   * newline inside a title or description.
   */
  lemma JiraCsvReadsBack(t: FlatTree)
    ensures |ReadDocument(JiraCsv(t))| == |t.nodes| + 1
    ensures ReadDocument(JiraCsv(t)) == [Header] + NodeRows(t)
  {
    var rows := [Header] + NodeRows(t);
    forall i | 0 <= i < |rows|
      ensures |rows[i]| >= 1
    {
      if i > 0 {
        assert rows[i] == NodeRow(t, t.nodes[i - 1]);
      }
    }
    ReadDocumentRoundTrip(Always, rows);
  }
}
