/**
 * `generateJiraCSV` of ui/app.js: one Jira import row per node, labelled with the product
 * that `findProductForNode` finds by walking up the parent edges.
 */
module UiCsv {
  import opened Wrappers
  import opened Strings
  import opened Escaping
  import opened Csv
  import opened UiModel

  // ------------------------------------------------------------------ findProductForNode

  /** Every id the walk can hold: the start, `null` (""), and the source of every edge. */
  function Universe(t: UiTree, start: string): set<string>
  {
    {start, ""} + set e | e in t.edges :: e.from
  }

  lemma FewerUnvisited(u: set<string>, visited: set<string>, cur: string)
    requires cur in u && cur !in visited
    ensures |u - (visited + {cur})| < |u - visited|
  {
    assert u - visited == (u - (visited + {cur})) + {cur};
  }

  lemma ParentInUniverse(t: UiTree, start: string, cur: string)
    requires FirstEdgeTo(t.edges, cur).Some?
    ensures FirstEdgeTo(t.edges, cur).value.from in Universe(t, start)
  {
    var e := FirstEdgeTo(t.edges, cur).value;
    assert e in t.edges;
  }

  /**
   * The loop of `findProductForNode` from `cur` with the ids in `visited` already seen: it
   * stops at `null` or at a repeated id, returns the first product node it meets, and
   * otherwise moves to the source of the first edge into the current id.
   */
  function ProductWalk(t: UiTree, start: string, cur: string, visited: set<string>): Option<UiNode>
    requires cur in Universe(t, start) && visited <= Universe(t, start)
    decreases |Universe(t, start) - visited|
  {
    if cur == "" || cur in visited then None
    else
      var node := FindById(t.nodes, cur);
      if node.Some? && node.value.nodeType == "product" then node
      else match FirstEdgeTo(t.edges, cur)
        case None => None
        case Some(e) =>
          FewerUnvisited(Universe(t, start), visited, cur);
          ParentInUniverse(t, start, cur);
          ProductWalk(t, start, e.from, visited + {cur})
  }

  /** `findProductForNode(id)`. */
  function ProductOf(t: UiTree, id: string): Option<UiNode>
  {
    ProductWalk(t, id, id, {})
  }

  /** Reference definition: the ids the walk examines when no product stops it early. */
  function UpChain(t: UiTree, start: string, cur: string, visited: set<string>): seq<string>
    requires cur in Universe(t, start) && visited <= Universe(t, start)
    decreases |Universe(t, start) - visited|
  {
    if cur == "" || cur in visited then []
    else match FirstEdgeTo(t.edges, cur)
      case None => [cur]
      case Some(e) =>
        FewerUnvisited(Universe(t, start), visited, cur);
        ParentInUniverse(t, start, cur);
        [cur] + UpChain(t, start, e.from, visited + {cur})
  }

  predicate IsProduct(nodes: seq<UiNode>, id: string)
  {
    FindById(nodes, id).Some? && FindById(nodes, id).value.nodeType == "product"
  }

  /** The node of the first id in `ids` whose first node is a product. */
  function FirstProduct(nodes: seq<UiNode>, ids: seq<string>): (r: Option<UiNode>)
    ensures r.None? <==> forall k :: 0 <= k < |ids| ==> !IsProduct(nodes, ids[k])
    ensures r.Some? ==>
      exists k :: 0 <= k < |ids| && IsProduct(nodes, ids[k]) && r == FindById(nodes, ids[k]) &&
        forall j :: 0 <= j < k ==> !IsProduct(nodes, ids[j])
  {
    if ids == [] then None
    else if IsProduct(nodes, ids[0]) then FindById(nodes, ids[0])
    else
      var rest := ids[1..];
      var r := FirstProduct(nodes, rest);
      if r.Some? then
        var k :| 0 <= k < |rest| && IsProduct(nodes, rest[k]) && r == FindById(nodes, rest[k]) &&
          forall j :: 0 <= j < k ==> !IsProduct(nodes, rest[j]);
        assert ids[k + 1] == rest[k];
        assert forall j :: 0 <= j < k + 1 ==> !IsProduct(nodes, ids[j]) by {
          forall j | 0 < j < k + 1
            ensures !IsProduct(nodes, ids[j])
          {
            assert ids[j] == rest[j - 1];
          }
        }
        r
      else
        assert forall j :: 0 <= j < |ids| ==> !IsProduct(nodes, ids[j]) by {
          forall j | 0 < j < |ids|
            ensures !IsProduct(nodes, ids[j])
          {
            assert ids[j] == rest[j - 1];
          }
        }
        r
  }

  /** The walk answers with the first product on the chain of parents. */
  lemma {:induction false} ProductWalkIsFirstProduct(t: UiTree, start: string, cur: string, visited: set<string>)
    requires cur in Universe(t, start) && visited <= Universe(t, start)
    ensures ProductWalk(t, start, cur, visited) == FirstProduct(t.nodes, UpChain(t, start, cur, visited))
    decreases |Universe(t, start) - visited|
  {
    if cur != "" && cur !in visited && !IsProduct(t.nodes, cur) {
      match FirstEdgeTo(t.edges, cur)
      case None =>
      case Some(e) =>
        FewerUnvisited(Universe(t, start), visited, cur);
        ParentInUniverse(t, start, cur);
        ProductWalkIsFirstProduct(t, start, e.from, visited + {cur});
        var c := UpChain(t, start, e.from, visited + {cur});
        assert ([cur] + c)[1..] == c;
    }
  }

  /** The chain is empty exactly when the walk stops at once, and otherwise starts at `cur`. */
  lemma UpChainStart(t: UiTree, start: string, cur: string, visited: set<string>)
    requires cur in Universe(t, start) && visited <= Universe(t, start)
    ensures var c := UpChain(t, start, cur, visited);
      (c == [] <==> cur == "" || cur in visited) && (c != [] ==> c[0] == cur)
  {
  }

  predicate Fresh(c: seq<string>, visited: set<string>)
  {
    forall k :: 0 <= k < |c| ==> c[k] != "" && c[k] !in visited
  }

  predicate Distinct(c: seq<string>)
  {
    forall j, k :: 0 <= j < k < |c| ==> c[j] != c[k]
  }

  /** The chain never holds `null` or an id seen before it started. */
  lemma {:induction false} UpChainFresh(t: UiTree, start: string, cur: string, visited: set<string>)
    requires cur in Universe(t, start) && visited <= Universe(t, start)
    ensures Fresh(UpChain(t, start, cur, visited), visited)
    decreases |Universe(t, start) - visited|
  {
    if cur != "" && cur !in visited {
      match FirstEdgeTo(t.edges, cur)
      case None =>
      case Some(e) =>
        FewerUnvisited(Universe(t, start), visited, cur);
        ParentInUniverse(t, start, cur);
        UpChainFresh(t, start, e.from, visited + {cur});
        var d := UpChain(t, start, e.from, visited + {cur});
        var c := [cur] + d;
        assert UpChain(t, start, cur, visited) == c;
        forall k | 0 <= k < |c|
          ensures c[k] != "" && c[k] !in visited
        {
          if k > 0 {
            assert c[k] == d[k - 1];
            assert d[k - 1] != "" && d[k - 1] !in visited + {cur};
          }
        }
    }
  }

  /** No id occurs twice on the chain, so the walk visits each id at most once. */
  lemma {:induction false} UpChainDistinct(t: UiTree, start: string, cur: string, visited: set<string>)
    requires cur in Universe(t, start) && visited <= Universe(t, start)
    ensures Distinct(UpChain(t, start, cur, visited))
    decreases |Universe(t, start) - visited|
  {
    if cur != "" && cur !in visited {
      match FirstEdgeTo(t.edges, cur)
      case None =>
      case Some(e) =>
        FewerUnvisited(Universe(t, start), visited, cur);
        ParentInUniverse(t, start, cur);
        UpChainDistinct(t, start, e.from, visited + {cur});
        UpChainFresh(t, start, e.from, visited + {cur});
        var d := UpChain(t, start, e.from, visited + {cur});
        assert UpChain(t, start, cur, visited) == [cur] + d;
        DistinctCons(cur, d, visited + {cur});
    }
  }

  lemma DistinctCons(x: string, d: seq<string>, seen: set<string>)
    requires Distinct(d) && Fresh(d, seen) && x in seen
    ensures Distinct([x] + d)
  {
    var c := [x] + d;
    forall j, k | 0 <= j < k < |c|
      ensures c[j] != c[k]
    {
      assert c[k] == d[k - 1];
      if j > 0 {
        assert c[j] == d[j - 1];
      } else {
        assert d[k - 1] !in seen;
      }
    }
  }

  /** Each id after the first is the source of the first edge into the id before it. */
  lemma {:induction false} UpChainLinks(t: UiTree, start: string, cur: string, visited: set<string>)
    requires cur in Universe(t, start) && visited <= Universe(t, start)
    ensures var c := UpChain(t, start, cur, visited);
      forall k :: 0 <= k < |c| - 1 ==>
        FirstEdgeTo(t.edges, c[k]).Some? && FirstEdgeTo(t.edges, c[k]).value.from == c[k + 1]
    decreases |Universe(t, start) - visited|
  {
    if cur != "" && cur !in visited {
      match FirstEdgeTo(t.edges, cur)
      case None =>
      case Some(e) =>
        FewerUnvisited(Universe(t, start), visited, cur);
        ParentInUniverse(t, start, cur);
        UpChainLinks(t, start, e.from, visited + {cur});
        UpChainStart(t, start, e.from, visited + {cur});
        var d := UpChain(t, start, e.from, visited + {cur});
        var c := [cur] + d;
        forall k | 0 <= k < |c| - 1
          ensures FirstEdgeTo(t.edges, c[k]).Some? && FirstEdgeTo(t.edges, c[k]).value.from == c[k + 1]
        {
          assert c[k + 1] == d[k];
          if k > 0 {
            assert c[k] == d[k - 1];
          }
        }
    }
  }

  /** The chain ends where the parent edge is missing or leads to `null` or to an id already seen. */
  lemma {:induction false} UpChainEnd(t: UiTree, start: string, cur: string, visited: set<string>)
    requires cur in Universe(t, start) && visited <= Universe(t, start)
    ensures var c := UpChain(t, start, cur, visited);
      c != [] ==>
        var parent := FirstEdgeTo(t.edges, c[|c| - 1]);
        parent.None? || parent.value.from == "" || parent.value.from in visited || parent.value.from in c
    decreases |Universe(t, start) - visited|
  {
    if cur != "" && cur !in visited {
      match FirstEdgeTo(t.edges, cur)
      case None =>
      case Some(e) =>
        FewerUnvisited(Universe(t, start), visited, cur);
        ParentInUniverse(t, start, cur);
        UpChainEnd(t, start, e.from, visited + {cur});
        var d := UpChain(t, start, e.from, visited + {cur});
        assert UpChain(t, start, cur, visited) == [cur] + d;
        if d != [] {
          ConsLast(cur, d);
        }
    }
  }

  lemma ConsLast(x: string, d: seq<string>)
    requires d != []
    ensures ([x] + d)[|d|] == d[|d| - 1]
    ensures forall y :: y in d ==> y in [x] + d
  {
  }

  /** `findProductForNode(nodeId)`: the loop with its `visited` set. */
  method FindProductForNode(t: UiTree, nodeId: string) returns (r: Option<UiNode>)
    ensures r == ProductOf(t, nodeId)
  {
    ghost var u := Universe(t, nodeId);
    var cur := nodeId;
    var visited: set<string> := {};
    while cur != "" && cur !in visited
      invariant cur in u && visited <= u
      invariant ProductWalk(t, nodeId, cur, visited) == ProductOf(t, nodeId)
      decreases |u - visited|
    {
      FewerUnvisited(u, visited, cur);
      ghost var seen := visited;
      visited := visited + {cur};
      var node := FindById(t.nodes, cur);
      if node.Some? && node.value.nodeType == "product" {
        return node;
      }
      var parentEdge := FirstEdgeTo(t.edges, cur);
      if parentEdge.Some? {
        ParentInUniverse(t, nodeId, cur);
        assert ProductWalk(t, nodeId, cur, seen) == ProductWalk(t, nodeId, parentEdge.value.from, visited);
        cur := parentEdge.value.from;
      } else {
        cur := "";
      }
    }
    return None;
  }

  // ------------------------------------------------------------------ rows

  /** `mapToJiraType`: the lookup table, with `'Story'` for any other type. */
  function JiraType(nodeType: string): string
  {
    var table := map["product" := "Initiative", "goal" := "Initiative", "job" := "Epic",
                     "work_item" := "Story", "work" := "Story"];
    if nodeType in table then table[nodeType] else "Story"
  }

  lemma JiraTypeSpec(nodeType: string)
    ensures JiraType(nodeType) == "Initiative" <==> nodeType == "product" || nodeType == "goal"
    ensures JiraType(nodeType) == "Epic" <==> nodeType == "job"
    ensures JiraType(nodeType) == "Story" <==> nodeType != "product" && nodeType != "goal" && nodeType != "job"
  {
  }

  const Header: seq<string> := [
    "Issue Type", "Summary", "Description", "Priority", "Status", "Assignee", "Reporter",
    "Labels", "Components", "Story Points", "Created", "Updated"]

  /** `s.split(c)[0]`: the text before the first `c`, or all of `s`. */
  function BeforeFirst(s: string, c: char): (r: string)
    ensures |r| <= |s| && r == s[..|r|]
    ensures forall i :: 0 <= i < |r| ==> r[i] != c
    ensures |r| < |s| ==> s[|r|] == c
  {
    if s == [] || s[0] == c then [] else [s[0]] + BeforeFirst(s[1..], c)
  }

  /**
   * `created_at ? new Date(created_at).toISOString().split('T')[0] : ''`; `iso` is the
   * `Date` round trip, `None` where `toISOString` throws for an invalid date.
   */
  function DateCell(stamp: string, iso: string -> Option<string>): Option<string>
  {
    if stamp == "" then Some("")
    else match iso(stamp)
      case None => None
      case Some(s) => Some(BeforeFirst(s, 'T'))
  }

  /** `labels.join(',')` with `labels = [node.type]` plus the product's title when there is one. */
  function Labels(n: UiNode, product: Option<UiNode>): string
  {
    Join([n.nodeType] + (if product.Some? then [product.value.title] else []), ",")
  }

  /** The twelve cells of a node's row before escaping, given its two date cells. */
  function JiraRow(n: UiNode, product: Option<UiNode>, created: string, updated: string): seq<string>
  {
    [JiraType(n.nodeType), n.title,
     if n.description != "" then n.description else n.summary,
     n.priority, ReplaceFirst(n.status, '_', " "), n.ownerEmail, "admin",
     Labels(n, product), n.team,
     if n.jobData.Some? then n.jobData.value.effortEstimate else "",
     created, updated]
  }

  /** A node's row, or `None` where one of its dates throws. */
  function JiraCells(n: UiNode, product: Option<UiNode>, iso: string -> Option<string>): Option<seq<string>>
  {
    var created := DateCell(n.createdAt, iso);
    var updated := DateCell(n.updatedAt, iso);
    if created.Some? && updated.Some? then Some(JiraRow(n, product, created.value, updated.value)) else None
  }

  /** The row of node `k`, with the product `findProductForNode` finds for it. */
  function NodeRow(t: UiTree, k: nat, iso: string -> Option<string>): Option<seq<string>>
    requires k < |t.nodes|
  {
    JiraCells(t.nodes[k], ProductOf(t, t.nodes[k].id), iso)
  }

  /** Every node's row, in node order. */
  function NodeRows(t: UiTree, iso: string -> Option<string>): (r: seq<Option<seq<string>>>)
    ensures |r| == |t.nodes|
  {
    seq(|t.nodes|, k requires 0 <= k < |t.nodes| => NodeRow(t, k, iso))
  }

  /** The escaped lines of all nodes, or `None` when one of them throws. */
  function JiraLines(t: UiTree, iso: string -> Option<string>): Option<seq<string>>
  {
    var rows := Collect(NodeRows(t, iso));
    if rows.None? then None else Some(Lines(Minimal, rows.value))
  }

  /** The document `generateJiraCSV` returns: the header line, then one line per node. */
  function JiraCsv(t: UiTree, iso: string -> Option<string>): Option<string>
  {
    var lines := JiraLines(t, iso);
    if lines.None? then None else Some(Join([Join(Header, ",")] + lines.value, "\n"))
  }

  /** The export fails exactly when some node's row fails, that is, when one of its dates throws. */
  lemma JiraCsvFails(t: UiTree, iso: string -> Option<string>)
    ensures JiraCsv(t, iso).None? <==> exists k :: 0 <= k < |t.nodes| && NodeRow(t, k, iso).None?
  {
    var os := NodeRows(t, iso);
    CollectNone(os);
    assert forall k :: 0 <= k < |t.nodes| ==> os[k] == NodeRow(t, k, iso);
  }

  lemma JiraCellsSpec(n: UiNode, product: Option<UiNode>, iso: string -> Option<string>)
    ensures JiraCells(n, product, iso).None? <==>
      (n.createdAt != "" && iso(n.createdAt).None?) || (n.updatedAt != "" && iso(n.updatedAt).None?)
    ensures JiraCells(n, product, iso).Some? ==>
      var row := JiraCells(n, product, iso).value;
      && |row| == |Header|
      && row[0] == JiraType(n.nodeType)
      && row[6] == "admin"
      && row[7] == (if product.Some? then n.nodeType + "," + product.value.title else n.nodeType)
      && (forall k :: 10 <= k < 12 ==> forall i :: 0 <= i < |row[k]| ==> row[k][i] != 'T')
  {
    if product.Some? {
      var parts := [n.nodeType] + [product.value.title];
      assert parts[1..] == [product.value.title];
      assert Join(parts, ",") == n.nodeType + "," + Join([product.value.title], ",");
    }
  }

  /**
   * Read back with a CSV reader, the document is the header followed by one row per node, in
   * node order, each row holding exactly that node's twelve cells.
   */
  lemma JiraCsvReadsBack(t: UiTree, iso: string -> Option<string>)
    requires JiraCsv(t, iso).Some?
    ensures var rows := Collect(NodeRows(t, iso));
      && rows.Some? && |rows.value| == |t.nodes|
      && (forall k :: 0 <= k < |t.nodes| ==> NodeRow(t, k, iso) == Some(rows.value[k]))
      && ReadDocument(JiraCsv(t, iso).value) == [Header] + rows.value
  {
    var os := NodeRows(t, iso);
    CollectSome(os);
    var rows := Collect(os).value;
    forall k | 0 <= k < |rows|
      ensures |rows[k]| >= 1 && NodeRow(t, k, iso) == Some(rows[k])
    {
      assert os[k] == NodeRow(t, k, iso);
      JiraCellsSpec(t.nodes[k], ProductOf(t, t.nodes[k].id), iso);
    }
    HeaderIsPlain();
    ReadHeadedDocument(Header, Minimal, rows);
  }

  lemma HeaderIsPlain()
    ensures PlainCells(Header)
  {
    assert PlainText("Issue Type");
    assert PlainText("Summary");
    assert PlainText("Description");
    assert PlainText("Priority");
    assert PlainText("Status");
    assert PlainText("Assignee");
    assert PlainText("Reporter");
    assert PlainText("Labels");
    assert PlainText("Components");
    assert PlainText("Story Points");
    assert PlainText("Created");
    assert PlainText("Updated");
  }

  lemma LinesSnoc(q: Quoting, rows: seq<seq<string>>, row: seq<string>)
    ensures Lines(q, rows + [row]) == Lines(q, rows) + [Line(q, row)]
  {
  }

  /** The body of the `forEach` in `generateJiraCSV`, up to the row's cells. */
  method NodeCells(t: UiTree, i: nat, iso: string -> Option<string>) returns (cells: Option<seq<string>>)
    requires i < |t.nodes|
    ensures cells == NodeRow(t, i, iso)
  {
    var node := t.nodes[i];
    var product := FindProductForNode(t, node.id);
    cells := JiraCells(node, product, iso);
  }

  /** `generateJiraCSV()`; `None` stands for the `RangeError` an invalid date raises. */
  method GenerateJiraCsv(t: UiTree, iso: string -> Option<string>) returns (r: Option<string>)
    ensures r == JiraCsv(t, iso)
  {
    var rows := EmitRows(t, iso, Join(Header, ","));
    if rows.None? {
      return None;
    }
    return Some(Join(rows.value, "\n"));
  }

  /** The `forEach` of `generateJiraCSV`, pushing one line per node after the header line. */
  method EmitRows(t: UiTree, iso: string -> Option<string>, header: string) returns (r: Option<seq<string>>)
    ensures r == Prepend([header], JiraLines(t, iso))
  {
    ghost var os := NodeRows(t, iso);
    var rows := [header];
    ghost var done: seq<seq<string>> := [];
    CollectStart(os);
    var i := 0;
    while i < |t.nodes|
      invariant 0 <= i <= |t.nodes|
      invariant rows == [header] + Lines(Minimal, done)
      invariant Collect(os) == Prepend(done, Collect(os[i..]))
    {
      var cells := NodeCells(t, i, iso);
      CollectStep(os, i, done, cells);
      if cells.None? {
        return None;
      }
      LinesSnoc(Minimal, done, cells.value);
      rows := rows + [Join(EncodeAll(Minimal, cells.value), ",")];
      done := done + [cells.value];
      i := i + 1;
    }
    CollectEnd(os, done);
    return Some(rows);
  }
}
