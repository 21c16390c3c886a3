/**
 * The read-only diagnostics of web/app.js (web-ai/app.js shares the debug part verbatim):
 * root and orphan nodes, high-dependency nodes, the children-per-parent ratio and duplicate
 * titles, over the flat node/edge lists.
 */
module FlatAnalysis {
  import opened Wrappers
  import opened Seqs
  import opened FlatModel

  /** `nodes.filter(node => !edges.some(edge => edge.to === node.id))`. */
  function Roots(t: FlatTree, nodes: seq<FlatNode>): (r: seq<FlatNode>)
    ensures |r| <= |nodes|
    ensures forall n :: n in r <==> n in nodes && !HasIncoming(t, n.id)
  {
    if nodes == [] then []
    else (if HasIncoming(t, nodes[0].id) then [] else [nodes[0]]) + Roots(t, nodes[1..])
  }

  /** `findGaps`: nodes with neither an outgoing nor an incoming edge. */
  function Orphans(t: FlatTree, nodes: seq<FlatNode>): (r: seq<FlatNode>)
    ensures |r| <= |nodes|
    ensures forall n :: n in r <==> n in nodes && !HasOutgoing(t, n.id) && !HasIncoming(t, n.id)
  {
    if nodes == [] then []
    else
      var orphan := !HasOutgoing(t, nodes[0].id) && !HasIncoming(t, nodes[0].id);
      (if orphan then [nodes[0]] else []) + Orphans(t, nodes[1..])
  }

  /** Both lists keep node order, so the orphans are a sub-list of the roots. */
  lemma {:induction false} OrphansAreRoots(t: FlatTree, nodes: seq<FlatNode>)
    ensures |Orphans(t, nodes)| <= |Roots(t, nodes)|
    ensures forall n :: n in Orphans(t, nodes) ==> n in Roots(t, nodes)
  {
    if nodes != [] {
      OrphansAreRoots(t, nodes[1..]);
    }
  }

  /** `edges.filter(edge => edge.to === id).length`. */
  function InCount(edges: seq<FlatEdge>, id: Option<string>): (r: nat)
    ensures r <= |edges|
    ensures r > 0 <==> exists e :: e in edges && e.to == id
  {
    if edges == [] then 0
    else
      assert forall e :: e in edges <==> e == edges[0] || e in edges[1..];
      (if edges[0].to == id then 1 else 0) + InCount(edges[1..], id)
  }

  /** `edges.filter(edge => edge.from === id).length`. */
  function OutCount(edges: seq<FlatEdge>, id: Option<string>): (r: nat)
    ensures r <= |edges|
    ensures r > 0 <==> exists e :: e in edges && e.from == id
  {
    if edges == [] then 0
    else
      assert forall e :: e in edges <==> e == edges[0] || e in edges[1..];
      (if edges[0].from == id then 1 else 0) + OutCount(edges[1..], id)
  }

  predicate HighDependency(t: FlatTree, n: FlatNode)
  {
    InCount(t.edges, n.id) > 2 || OutCount(t.edges, n.id) > 5
  }

  /** `analyzeDependencies`: every node with more than two incoming or five outgoing edges, with both counts. */
  function Dependencies(t: FlatTree, nodes: seq<FlatNode>): (r: seq<(FlatNode, nat, nat)>)
    ensures forall n, i, o :: (n, i, o) in r <==>
      n in nodes && HighDependency(t, n) && i == InCount(t.edges, n.id) && o == OutCount(t.edges, n.id)
  {
    if nodes == [] then []
    else
      var n := nodes[0];
      (if HighDependency(t, n) then [(n, InCount(t.edges, n.id), OutCount(t.edges, n.id))] else [])
        + Dependencies(t, nodes[1..])
  }

  /** `nodes.filter(node => edges.some(edge => edge.from === node.id))`. */
  function Parents(t: FlatTree, nodes: seq<FlatNode>): (r: seq<FlatNode>)
    ensures |r| <= |nodes|
    ensures forall n :: n in r <==> n in nodes && HasOutgoing(t, n.id)
  {
    if nodes == [] then []
    else (if HasOutgoing(t, nodes[0].id) then [nodes[0]] else []) + Parents(t, nodes[1..])
  }

  /** The `reduce` of `calculateAverageChildren`: outgoing edges summed over the given nodes. */
  function ChildSum(edges: seq<FlatEdge>, nodes: seq<FlatNode>): nat
  {
    if nodes == [] then 0 else OutCount(edges, nodes[0].id) + ChildSum(edges, nodes[1..])
  }

  /**
   * `calculateAverageChildren` as the numerator and denominator of its division: edges leaving
   * the nodes that have children, and the number of such nodes. With no such node the source
   * returns `0`, here `(0, 0)`.
   */
  function AverageChildren(t: FlatTree): (nat, nat)
  {
    var ps := Parents(t, t.nodes);
    if |ps| == 0 then (0, 0) else (ChildSum(t.edges, ps), |ps|)
  }

  /** The edges whose `from` is one of `ids`. */
  function CountFrom(edges: seq<FlatEdge>, ids: set<Option<string>>): nat
  {
    if edges == [] then 0 else (if edges[0].from in ids then 1 else 0) + CountFrom(edges[1..], ids)
  }

  lemma {:induction false} CountFromSplit(edges: seq<FlatEdge>, x: Option<string>, ids: set<Option<string>>)
    requires x !in ids
    ensures CountFrom(edges, {x} + ids) == OutCount(edges, x) + CountFrom(edges, ids)
  {
    if edges != [] {
      CountFromSplit(edges[1..], x, ids);
    }
  }

  lemma {:induction false} CountFromNone(edges: seq<FlatEdge>)
    ensures CountFrom(edges, {}) == 0
  {
    if edges != [] {
      CountFromNone(edges[1..]);
    }
  }

  predicate DistinctIds(nodes: seq<FlatNode>)
  {
    forall i, j :: 0 <= i < j < |nodes| ==> nodes[i].id != nodes[j].id
  }

  /** Over nodes with distinct ids, the sum of outgoing edges counts every edge leaving one of them once. */
  lemma {:induction false} ChildSumCountsEdges(edges: seq<FlatEdge>, nodes: seq<FlatNode>)
    requires DistinctIds(nodes)
    ensures ChildSum(edges, nodes) == CountFrom(edges, IdsOf(nodes))
  {
    if nodes == [] {
      assert IdsOf(nodes) == {};
      CountFromNone(edges);
    } else {
      var rest := nodes[1..];
      ChildSumCountsEdges(edges, rest);
      assert IdsOf(nodes) == {nodes[0].id} + IdsOf(rest) by {
        assert forall n :: n in nodes <==> n == nodes[0] || n in rest;
      }
      assert nodes[0].id !in IdsOf(rest);
      CountFromSplit(edges, nodes[0].id, IdsOf(rest));
    }
  }

  lemma {:induction false} ChildSumAtLeast(edges: seq<FlatEdge>, nodes: seq<FlatNode>)
    requires forall n :: n in nodes ==> OutCount(edges, n.id) > 0
    ensures ChildSum(edges, nodes) >= |nodes|
  {
    if nodes != [] {
      ChildSumAtLeast(edges, nodes[1..]);
    }
  }

  lemma {:induction false} ParentsKeepDistinct(t: FlatTree, nodes: seq<FlatNode>)
    requires DistinctIds(nodes)
    ensures DistinctIds(Parents(t, nodes))
  {
    if nodes != [] {
      ParentsKeepDistinct(t, nodes[1..]);
      var rest := Parents(t, nodes[1..]);
      forall n | n in rest
        ensures n.id != nodes[0].id
      {
        var k :| 0 <= k < |nodes[1..]| && nodes[1..][k] == n;
        assert nodes[k + 1] == n;
      }
    }
  }

  /**
   * The ratio is `0/0` exactly when no node has an outgoing edge; otherwise the average is at
   * least one, and over nodes with distinct ids the numerator is the number of edges leaving
   * some node.
   */
  lemma AverageChildrenSpec(t: FlatTree)
    ensures AverageChildren(t).1 == 0 <==> forall n :: n in t.nodes ==> !HasOutgoing(t, n.id)
    ensures AverageChildren(t).1 == 0 ==> AverageChildren(t).0 == 0
    ensures AverageChildren(t).0 >= AverageChildren(t).1
    ensures DistinctIds(t.nodes) ==> AverageChildren(t).0 == CountFrom(t.edges, IdsOf(t.nodes))
  {
    var ps := Parents(t, t.nodes);
    if ps == [] {
      assert forall n :: n in t.nodes ==> !HasOutgoing(t, n.id);
      if DistinctIds(t.nodes) {
        ChildSumCountsEdges(t.edges, t.nodes);
        NoParentsNoChildren(t, t.nodes);
      }
    } else {
      assert ps[0] in ps;
      ChildSumAtLeast(t.edges, ps);
      if DistinctIds(t.nodes) {
        ParentsKeepDistinct(t, t.nodes);
        ChildSumCountsEdges(t.edges, ps);
        ChildSumCountsEdges(t.edges, t.nodes);
        SameChildSum(t, t.nodes);
      }
    }
  }

  lemma {:induction false} NoParentsNoChildren(t: FlatTree, nodes: seq<FlatNode>)
    requires forall n :: n in nodes ==> !HasOutgoing(t, n.id)
    ensures ChildSum(t.edges, nodes) == 0
  {
    if nodes != [] {
      assert nodes[0] in nodes;
      NoParentsNoChildren(t, nodes[1..]);
    }
  }

  /** Nodes without children add nothing, so summing over the parents alone changes nothing. */
  lemma {:induction false} SameChildSum(t: FlatTree, nodes: seq<FlatNode>)
    ensures ChildSum(t.edges, Parents(t, nodes)) == ChildSum(t.edges, nodes)
  {
    if nodes != [] {
      SameChildSum(t, nodes[1..]);
      if !HasOutgoing(t, nodes[0].id) {
        assert Parents(t, nodes) == Parents(t, nodes[1..]);
      } else {
        assert Parents(t, nodes) == [nodes[0]] + Parents(t, nodes[1..]);
        assert ([nodes[0]] + Parents(t, nodes[1..]))[1..] == Parents(t, nodes[1..]);
      }
    }
  }

  // ---------------------------------------------------------------- duplicate titles

  function Titles(nodes: seq<FlatNode>): (r: seq<string>)
    ensures |r| == |nodes| && forall k :: 0 <= k < |nodes| ==> r[k] == nodes[k].title
  {
    seq(|nodes|, k requires 0 <= k < |nodes| => nodes[k].title)
  }

  /** `titles.filter((title, index) => titles.indexOf(title) !== index)`, from position `i` on. */
  function Repeats(titles: seq<string>, i: nat): (r: seq<string>)
    requires i <= |titles|
    ensures forall x :: x in r <==> exists k :: i <= k < |titles| && titles[k] == x && IndexOf(titles, x) != k
    decreases |titles| - i
  {
    if i == |titles| then []
    else
      var rest := Repeats(titles, i + 1);
      (if IndexOf(titles, titles[i]) != i then [titles[i]] else []) + rest
  }

  /** Two different nodes carry the title `x`. */
  predicate Repeated(t: FlatTree, x: string)
  {
    exists i, j :: 0 <= i < j < |t.nodes| && t.nodes[i].title == x && t.nodes[j].title == x
  }

  /** The duplicate titles, each once, in the order of their second occurrence. */
  function DuplicateTitles(t: FlatTree): seq<string>
  {
    Dedupe(Repeats(Titles(t.nodes), 0))
  }

  /** `nodes.filter(n => n.title === title).map(n => n.id)`. */
  function IdsWithTitle(nodes: seq<FlatNode>, title: string): (r: seq<Option<string>>)
    ensures |r| <= |nodes|
    ensures forall x :: x in r <==> exists n :: n in nodes && n.title == title && n.id == x
  {
    if nodes == [] then []
    else
      assert forall n :: n in nodes <==> n == nodes[0] || n in nodes[1..];
      (if nodes[0].title == title then [nodes[0].id] else []) + IdsWithTitle(nodes[1..], title)
  }

  lemma {:induction false} TwoWithTitle(nodes: seq<FlatNode>, i: nat, j: nat)
    requires i < j < |nodes| && nodes[i].title == nodes[j].title
    ensures |IdsWithTitle(nodes, nodes[i].title)| >= 2
  {
    var title := nodes[i].title;
    if i == 0 {
      assert nodes[j] == nodes[1..][j - 1];
      assert nodes[j].id in IdsWithTitle(nodes[1..], title);
    } else {
      assert nodes[i] == nodes[1..][i - 1] && nodes[j] == nodes[1..][j - 1];
      TwoWithTitle(nodes[1..], i - 1, j - 1);
    }
  }

  /**
   * Every title carried by two or more nodes is reported once, and no other title is; each
   * reported title lists the ids of all nodes carrying it, at least two entries.
   */
  lemma DuplicateTitlesSpec(t: FlatTree)
    ensures Distinct(DuplicateTitles(t))
    ensures forall x :: x in DuplicateTitles(t) <==> Repeated(t, x)
    ensures forall x :: x in DuplicateTitles(t) ==> |IdsWithTitle(t.nodes, x)| >= 2
  {
    var ts := Titles(t.nodes);
    forall x
      ensures x in DuplicateTitles(t) <==> Repeated(t, x)
    {
      if x in DuplicateTitles(t) {
        var k :| 0 <= k < |ts| && ts[k] == x && IndexOf(ts, x) != k;
        var i := IndexOf(ts, x);
        assert i < k;
        assert t.nodes[i].title == x && t.nodes[k].title == x;
      }
      if Repeated(t, x) {
        var i, j :| 0 <= i < j < |t.nodes| && t.nodes[i].title == x && t.nodes[j].title == x;
        assert ts[i] == x && ts[j] == x;
        assert IndexOf(ts, x) <= i;
        assert x in Repeats(ts, 0);
      }
    }
    forall x | x in DuplicateTitles(t)
      ensures |IdsWithTitle(t.nodes, x)| >= 2
    {
      var i, j :| 0 <= i < j < |t.nodes| && t.nodes[i].title == x && t.nodes[j].title == x;
      TwoWithTitle(t.nodes, i, j);
    }
  }

  /** `[...new Set(titles)].sort()`. */
  function SortedTitles(t: FlatTree): seq<string>
  {
    Sort(Dedupe(Titles(t.nodes)))
  }

  /** Every title once, in code-unit order. */
  lemma SortedTitlesSpec(t: FlatTree)
    ensures Sorted(SortedTitles(t)) && Distinct(SortedTitles(t))
    ensures forall x :: x in SortedTitles(t) <==> exists n :: n in t.nodes && n.title == x
  {
    var ts := Titles(t.nodes);
    SortDistinct(Dedupe(ts));
    forall x | x in ts
      ensures exists n :: n in t.nodes && n.title == x
    {
      var k :| 0 <= k < |ts| && ts[k] == x;
      assert t.nodes[k] in t.nodes;
    }
    forall n | n in t.nodes
      ensures n.title in ts
    {
      var k :| 0 <= k < |t.nodes| && t.nodes[k] == n;
      assert ts[k] == n.title;
    }
  }
}
