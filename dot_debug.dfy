/**
 * `debug_product_tree` of dot/main.py: the parent and child lists built from the edges, the
 * root ids, the duplicate titles, the circular-reference scan and the hierarchy counts.
 */
module DotDebug {
  import opened Wrappers
  import opened Seqs
  import opened FlatModel
  import opened FlatDepth
  import opened FlatCycles
  import opened DotModel

  // ------------------------------------------------------------------ children and parents

  /** `parents[id]` once every edge has been seen: the `from` of each edge into `id`, in edge order. */
  function Sources(edges: seq<FlatEdge>, id: Id): (r: seq<Id>)
    ensures forall c :: c in r <==> exists e :: e in edges && e.to == id && e.from == c
  {
    if edges == [] then []
    else
      var r := Sources(edges[..|edges| - 1], id) + (if edges[|edges| - 1].to == id then [edges[|edges| - 1].from] else []);
      assert edges == edges[..|edges| - 1] + [edges[|edges| - 1]];
      r
  }

  lemma {:induction false} TargetsSnoc(edges: seq<FlatEdge>, e: FlatEdge)
    ensures forall id :: Targets(edges + [e], id) == Targets(edges, id) + if e.from == id then [e.to] else []
  {
    if edges != [] {
      assert (edges + [e])[1..] == edges[1..] + [e];
      TargetsSnoc(edges[1..], e);
    }
  }

  lemma TargetsInTos(edges: seq<FlatEdge>, id: Id)
    ensures forall c :: c in Targets(edges, id) ==> c in Tos(edges)
  {
  }

  lemma EndpointsSnoc(edges: seq<FlatEdge>, e: FlatEdge)
    ensures Froms(edges + [e]) == Froms(edges) + {e.from}
    ensures Tos(edges + [e]) == Tos(edges) + {e.to}
  {
    assert forall f :: f in edges + [e] <==> f in edges || f == e;
  }

  /** Appending `v` to `m.get(k, [])`, as `m.setdefault(k, []).append(v)` does. */
  function Append(m: map<Id, seq<Id>>, k: Id, v: Id): (r: map<Id, seq<Id>>)
    ensures r.Keys == m.Keys + {k}
    ensures forall x :: ListAt(r, x) == ListAt(m, x) + if x == k then [v] else []
  {
    m[k := ListAt(m, k) + [v]]
  }

  /** One more edge extends the child list of its `from` by its `to`. */
  lemma ChildrenSnoc(edges: seq<FlatEdge>, e: FlatEdge, children: map<Id, seq<Id>>)
    requires forall x :: ListAt(children, x) == Targets(edges, x)
    ensures forall x :: ListAt(Append(children, e.from, e.to), x) == Targets(edges + [e], x)
  {
    TargetsSnoc(edges, e);
  }

  /** One more edge extends the parent list of its `to` by its `from`. */
  lemma ParentsSnoc(edges: seq<FlatEdge>, e: FlatEdge, parents: map<Id, seq<Id>>)
    requires forall x :: ListAt(parents, x) == Sources(edges, x)
    ensures forall x :: ListAt(Append(parents, e.to, e.from), x) == Sources(edges + [e], x)
  {
    assert (edges + [e])[..|edges|] == edges;
  }

  /** The first loop of `debug_product_tree`: every edge appends its `to` to `children[from]` and its `from` to `parents[to]`. */
  method BuildLinks(edges: seq<FlatEdge>) returns (children: map<Id, seq<Id>>, parents: map<Id, seq<Id>>)
    ensures children.Keys == Froms(edges) && parents.Keys == Tos(edges)
    ensures forall x :: ListAt(children, x) == Targets(edges, x)
    ensures forall x :: ListAt(parents, x) == Sources(edges, x)
  {
    children, parents := map[], map[];
    for i := 0 to |edges|
      invariant children.Keys == Froms(edges[..i]) && parents.Keys == Tos(edges[..i])
      invariant forall x :: ListAt(children, x) == Targets(edges[..i], x)
      invariant forall x :: ListAt(parents, x) == Sources(edges[..i], x)
    {
      var edge := edges[i];
      assert edges[..i + 1] == edges[..i] + [edge];
      EndpointsSnoc(edges[..i], edge);
      ChildrenSnoc(edges[..i], edge, children);
      ParentsSnoc(edges[..i], edge, parents);
      children := Append(children, edge.from, edge.to);
      parents := Append(parents, edge.to, edge.from);
    }
    assert edges[..|edges|] == edges;
  }

  // ------------------------------------------------------------------ roots

  /** `[node['id'] for node in nodes if node['id'] not in parents]`: the ids no edge leads to, in node order. */
  function RootIds(nodes: seq<DotNode>, edges: seq<FlatEdge>): (r: seq<Id>)
    ensures |r| <= |nodes|
    ensures forall x :: x in r <==> exists n :: n in nodes && n.id == x && x !in Tos(edges)
  {
    if nodes == [] then []
    else
      var r := (if nodes[0].id in Tos(edges) then [] else [nodes[0].id]) + RootIds(nodes[1..], edges);
      assert forall n :: n in nodes <==> n == nodes[0] || n in nodes[1..];
      r
  }

  // ------------------------------------------------------------------ duplicate titles

  /** `node.get('title', '')`. */
  function Title(n: DotNode): string
  {
    n.title.GetOr("")
  }

  function TitleSeq(nodes: seq<DotNode>): (r: seq<string>)
    ensures |r| == |nodes| && forall k :: 0 <= k < |nodes| ==> r[k] == Title(nodes[k])
  {
    seq(|nodes|, k requires 0 <= k < |nodes| => Title(nodes[k]))
  }

  /**
   * The `duplicates` list: every node whose title an earlier node already carries adds one
   * entry pairing the first such node's id with its own.
   */
  function DuplicateEntries(nodes: seq<DotNode>): seq<(string, seq<Id>)>
  {
    if nodes == [] then []
    else
      var init := nodes[..|nodes| - 1];
      var n := nodes[|nodes| - 1];
      var ts := TitleSeq(init);
      DuplicateEntries(init) + if Title(n) in ts then [(Title(n), [init[IndexOf(ts, Title(n))].id, n.id])] else []
  }

  lemma TitleSeqSnoc(nodes: seq<DotNode>)
    requires nodes != []
    ensures TitleSeq(nodes) == TitleSeq(nodes[..|nodes| - 1]) + [Title(nodes[|nodes| - 1])]
    ensures TitleSeq(nodes)[..|nodes| - 1] == TitleSeq(nodes[..|nodes| - 1])
  {
  }

  /**
   * Every node is either the first with its title, and then its title is listed once in
   * `node_titles`, or a later one, and then it adds exactly one duplicate entry.
   */
  lemma {:induction false} DuplicatesAccountForEveryNode(nodes: seq<DotNode>)
    ensures |DuplicateEntries(nodes)| + |Dedupe(TitleSeq(nodes))| == |nodes|
  {
    if nodes != [] {
      var init := nodes[..|nodes| - 1];
      TitleSeqSnoc(nodes);
      DuplicatesAccountForEveryNode(init);
    }
  }

  /** Entry `d` pairs the first node `i` carrying its title with a later node `j` carrying it. */
  ghost predicate PairsAt(nodes: seq<DotNode>, d: (string, seq<Id>), i: int, j: int)
  {
    0 <= i < j < |nodes| && i == IndexOf(TitleSeq(nodes), d.0) &&
    Title(nodes[i]) == d.0 && Title(nodes[j]) == d.0 && d.1 == [nodes[i].id, nodes[j].id]
  }

  /**
   * Each duplicate entry names a title and the ids of two nodes carrying it: the first node
   * with that title and a later one.
   */
  lemma {:induction false} DuplicateEntryPairsFirstAndLater(nodes: seq<DotNode>, d: (string, seq<Id>))
    requires d in DuplicateEntries(nodes)
    ensures exists i, j :: PairsAt(nodes, d, i, j)
  {
    var init := nodes[..|nodes| - 1];
    var n := nodes[|nodes| - 1];
    var ts := TitleSeq(init);
    if d in DuplicateEntries(init) {
      DuplicateEntryPairsFirstAndLater(init, d);
      var i, j :| PairsAt(init, d, i, j);
      PairsLift(nodes, d, i, j);
    } else {
      assert d == (Title(n), [init[IndexOf(ts, Title(n))].id, n.id]);
      PairsLast(nodes, d);
    }
  }

  /** A pair among all nodes but the last is still one once the last is appended. */
  lemma PairsLift(nodes: seq<DotNode>, d: (string, seq<Id>), i: int, j: int)
    requires nodes != [] && PairsAt(nodes[..|nodes| - 1], d, i, j)
    ensures PairsAt(nodes, d, i, j)
  {
    var init := nodes[..|nodes| - 1];
    TitleSeqSnoc(nodes);
    assert TitleSeq(init)[i] == d.0;
    PrefixIndexOf(TitleSeq(nodes), d.0);
    assert init[i] == nodes[i] && init[j] == nodes[j];
  }

  /** The entry the last node adds pairs the first node with its title and the last node. */
  lemma PairsLast(nodes: seq<DotNode>, d: (string, seq<Id>))
    requires nodes != []
    requires var init, n := nodes[..|nodes| - 1], nodes[|nodes| - 1];
      Title(n) in TitleSeq(init) && d == (Title(n), [init[IndexOf(TitleSeq(init), Title(n))].id, n.id])
    ensures PairsAt(nodes, d, IndexOf(TitleSeq(nodes[..|nodes| - 1]), d.0), |nodes| - 1)
  {
    var init := nodes[..|nodes| - 1];
    TitleSeqSnoc(nodes);
    PrefixIndexOf(TitleSeq(nodes), d.0);
    assert init[IndexOf(TitleSeq(init), d.0)] == nodes[IndexOf(TitleSeq(init), d.0)];
  }

  /** The title loop: `node_titles` maps each title to its first node's id; later nodes with it are duplicates. */
  method ScanTitles(nodes: seq<DotNode>) returns (duplicates: seq<(string, seq<Id>)>, titles: seq<string>)
    ensures duplicates == DuplicateEntries(nodes)
    ensures titles == Dedupe(TitleSeq(nodes))
  {
    var seen: map<string, Id> := map[];
    duplicates, titles := [], [];
    for i := 0 to |nodes|
      invariant forall x :: x in seen <==> x in TitleSeq(nodes[..i])
      invariant forall x :: x in seen ==> IndexOf(TitleSeq(nodes[..i]), x) < i && seen[x] == nodes[IndexOf(TitleSeq(nodes[..i]), x)].id
      invariant titles == Dedupe(TitleSeq(nodes[..i]))
      invariant duplicates == DuplicateEntries(nodes[..i])
    {
      var node := nodes[i];
      var title := Title(node);
      ghost var ts := TitleSeq(nodes[..i]);
      ghost var ts' := TitleSeq(nodes[..i + 1]);
      assert nodes[..i + 1][..i] == nodes[..i];
      TitleSeqSnoc(nodes[..i + 1]);
      assert ts' == ts + [title];
      forall x | x in ts
        ensures IndexOf(ts', x) == IndexOf(ts, x)
      {
        PrefixIndexOf(ts', x);
      }
      if title in seen {
        assert nodes[..i][IndexOf(ts, title)] == nodes[IndexOf(ts, title)];
        duplicates := duplicates + [(title, [seen[title], node.id])];
      } else {
        assert IndexOf(ts', title) == i;
        seen := seen[title := node.id];
        titles := titles + [title];
      }
    }
    assert nodes[..|nodes|] == nodes;
  }

  // ------------------------------------------------------------------ the circular-reference scan

  /** The ids a scan from `start` can push: the start and every edge target. */
  function ScanUniverse(edges: seq<FlatEdge>, start: Id): set<Id>
  {
    {start} + Tos(edges)
  }

  predicate Within(edges: seq<FlatEdge>, u: set<Id>, visited: set<Id>, stack: seq<Id>)
  {
    Tos(edges) <= u && visited <= u && forall x :: x in stack ==> x in u
  }

  /**
   * The scan as written, from a state of its `while stack` loop: pop the last id; an id already
   * visited ends the scan with a report, any other is visited and its children are pushed.
   */
  function RevisitScan(edges: seq<FlatEdge>, u: set<Id>, visited: set<Id>, stack: seq<Id>): bool
    requires Within(edges, u, visited, stack)
    decreases |u - visited|
  {
    if stack == [] then false
    else
      var current := stack[|stack| - 1];
      if current in visited then true
      else
        FewerUnvisited(u, visited, visited + {current}, current);
        TargetsInTos(edges, current);
        RevisitScan(edges, u, visited + {current}, stack[..|stack| - 1] + Targets(edges, current))
  }

  /**
   * The scan reporting only a return to the start: an id popped a second time is skipped
   * unless it is the start itself.
   */
  function CycleScan(edges: seq<FlatEdge>, u: set<Id>, start: Id, visited: set<Id>, stack: seq<Id>): bool
    requires Within(edges, u, visited, stack)
    decreases |u - visited|, |stack|
  {
    if stack == [] then false
    else
      var current := stack[|stack| - 1];
      if current in visited then current == start || CycleScan(edges, u, start, visited, stack[..|stack| - 1])
      else
        FewerUnvisited(u, visited, visited + {current}, current);
        TargetsInTos(edges, current);
        CycleScan(edges, u, start, visited + {current}, stack[..|stack| - 1] + Targets(edges, current))
  }

  /** A walk of one or more edges leads from `x` to `y`. */
  ghost predicate Reaches(edges: seq<FlatEdge>, x: Id, y: Id)
  {
    exists p :: |p| >= 2 && IsWalk(Graph(edges), p) && p[0] == x && p[|p| - 1] == y
  }

  /** `x` lies on a cycle: a walk of one or more edges leads from `x` back to `x`. */
  ghost predicate OnCycle(edges: seq<FlatEdge>, x: Id)
  {
    Reaches(edges, x, x)
  }

  lemma EdgeIsTarget(edges: seq<FlatEdge>, a: Id, b: Id)
    ensures Edge(Graph(edges), a, b) <==> b in Targets(edges, a)
  {
  }

  lemma ReachStep(edges: seq<FlatEdge>, a: Id, b: Id, c: Id)
    requires Reaches(edges, a, b) && c in Targets(edges, b)
    ensures Reaches(edges, a, c)
  {
    var p :| |p| >= 2 && IsWalk(Graph(edges), p) && p[0] == a && p[|p| - 1] == b;
    EdgeIsTarget(edges, b, c);
    WalkExtend(Graph(edges), p, c);
    var q := p + [c];
    assert q[0] == a && q[|q| - 1] == c;
  }

  lemma FirstStep(edges: seq<FlatEdge>, a: Id, c: Id)
    requires c in Targets(edges, a)
    ensures Reaches(edges, a, c)
  {
    var p := [a, c];
    EdgeIsTarget(edges, a, c);
    assert IsWalk(Graph(edges), p);
  }

  /** Everything on the stack is reachable from the start, so popping the start again closes a cycle. */
  lemma {:induction false} CycleScanSound(edges: seq<FlatEdge>, u: set<Id>, start: Id, visited: set<Id>, stack: seq<Id>)
    requires Within(edges, u, visited, stack)
    requires forall x :: x in stack ==> Reaches(edges, start, x)
    requires CycleScan(edges, u, start, visited, stack)
    ensures OnCycle(edges, start)
    decreases |u - visited|, |stack|
  {
    var current := stack[|stack| - 1];
    var rest := stack[..|stack| - 1];
    assert current in stack;
    if current in visited {
      if current != start {
        CycleScanSound(edges, u, start, visited, rest);
      }
    } else {
      FewerUnvisited(u, visited, visited + {current}, current);
      TargetsInTos(edges, current);
      var next := rest + Targets(edges, current);
      forall x | x in next
        ensures Reaches(edges, start, x)
      {
        if x !in rest {
          ReachStep(edges, start, current, x);
        }
      }
      CycleScanSound(edges, u, start, visited + {current}, next);
    }
  }

  /**
   * The state of a scan from `start` that has not reported yet: the start is visited, every
   * child of a visited id is visited or on the stack, and an edge from a visited id back to the
   * start leaves the start on the stack.
   */
  predicate Closure(edges: seq<FlatEdge>, start: Id, visited: set<Id>, stack: seq<Id>)
  {
    && start in visited
    && (forall v, c :: v in visited && c in Targets(edges, v) ==> c in visited || c in stack)
    && (forall v :: v in visited && start in Targets(edges, v) ==> start in stack)
  }

  /** With an empty stack the visited ids are closed under edges, so a walk from a visited id stays inside. */
  lemma {:induction false} WalkStaysIn(edges: seq<FlatEdge>, visited: set<Id>, p: seq<Id>, k: nat)
    requires forall v, c :: v in visited && c in Targets(edges, v) ==> c in visited
    requires IsWalk(Graph(edges), p) && k < |p| && p[0] in visited
    ensures p[k] in visited
  {
    if k > 0 {
      WalkStaysIn(edges, visited, p, k - 1);
      assert Edge(Graph(edges), p[k - 1], p[k]);
      EdgeIsTarget(edges, p[k - 1], p[k]);
    }
  }

  /** Skipping a visited id other than the start keeps the closure. */
  lemma ClosureSkip(edges: seq<FlatEdge>, start: Id, visited: set<Id>, stack: seq<Id>)
    requires Closure(edges, start, visited, stack) && stack != []
    requires stack[|stack| - 1] in visited && stack[|stack| - 1] != start
    ensures Closure(edges, start, visited, stack[..|stack| - 1])
  {
    var rest := stack[..|stack| - 1];
    assert forall x :: x in stack ==> x in rest || x == stack[|stack| - 1];
  }

  /** Visiting a new id and pushing its children keeps the closure. */
  lemma ClosureVisit(edges: seq<FlatEdge>, start: Id, visited: set<Id>, stack: seq<Id>)
    requires Closure(edges, start, visited, stack) && stack != [] && stack[|stack| - 1] !in visited
    ensures Closure(edges, start, visited + {stack[|stack| - 1]}, stack[..|stack| - 1] + Targets(edges, stack[|stack| - 1]))
  {
    var current := stack[|stack| - 1];
    var next := stack[..|stack| - 1] + Targets(edges, current);
    assert forall x :: x in stack ==> x in next || x == current;
  }

  /** A finished scan that never popped the start again leaves no edge back to the start. */
  lemma EmptyStackNoCycle(edges: seq<FlatEdge>, start: Id, visited: set<Id>)
    requires Closure(edges, start, visited, [])
    ensures !OnCycle(edges, start)
  {
    if OnCycle(edges, start) {
      var p :| |p| >= 2 && IsWalk(Graph(edges), p) && p[0] == start && p[|p| - 1] == start;
      WalkStaysIn(edges, visited, p, |p| - 2);
      assert Edge(Graph(edges), p[|p| - 2], p[|p| - 1]);
      EdgeIsTarget(edges, p[|p| - 2], start);
    }
  }

  lemma {:induction false} CycleScanComplete(edges: seq<FlatEdge>, u: set<Id>, start: Id, visited: set<Id>, stack: seq<Id>)
    requires Within(edges, u, visited, stack) && Closure(edges, start, visited, stack)
    requires !CycleScan(edges, u, start, visited, stack)
    ensures !OnCycle(edges, start)
    decreases |u - visited|, |stack|
  {
    if stack == [] {
      EmptyStackNoCycle(edges, start, visited);
    } else {
      var current := stack[|stack| - 1];
      var rest := stack[..|stack| - 1];
      if current in visited {
        ClosureSkip(edges, start, visited, stack);
        CycleScanComplete(edges, u, start, visited, rest);
      } else {
        FewerUnvisited(u, visited, visited + {current}, current);
        TargetsInTos(edges, current);
        ClosureVisit(edges, start, visited, stack);
        CycleScanComplete(edges, u, start, visited + {current}, rest + Targets(edges, current));
      }
    }
  }

  /** The scan from `start` reports it exactly when `start` lies on a cycle. */
  lemma CycleScanIff(edges: seq<FlatEdge>, start: Id)
    ensures CycleScan(edges, ScanUniverse(edges, start), start, {}, [start]) <==> OnCycle(edges, start)
  {
    var u := ScanUniverse(edges, start);
    TargetsInTos(edges, start);
    var first := Targets(edges, start);
    assert [start][..0] + first == first;
    assert {} + {start} == {start};
    assert CycleScan(edges, u, start, {}, [start]) == CycleScan(edges, u, start, {start}, first);
    if CycleScan(edges, u, start, {start}, first) {
      forall x | x in first
        ensures Reaches(edges, start, x)
      {
        FirstStep(edges, start, x);
      }
      CycleScanSound(edges, u, start, {start}, first);
    } else {
      CycleScanComplete(edges, u, start, {start}, first);
    }
  }

  /** Whatever the corrected scan reports, the scan as written reports too. */
  lemma {:induction false} RevisitCoversCycleScan(edges: seq<FlatEdge>, u: set<Id>, start: Id, visited: set<Id>, stack: seq<Id>)
    requires Within(edges, u, visited, stack)
    requires CycleScan(edges, u, start, visited, stack)
    ensures RevisitScan(edges, u, visited, stack)
    decreases |u - visited|, |stack|
  {
    var current := stack[|stack| - 1];
    if current !in visited {
      FewerUnvisited(u, visited, visited + {current}, current);
      TargetsInTos(edges, current);
      RevisitCoversCycleScan(edges, u, start, visited + {current}, stack[..|stack| - 1] + Targets(edges, current));
    }
  }

  /** The scan as written reports every node that lies on a cycle. */
  lemma RevisitScanFindsCycles(edges: seq<FlatEdge>, start: Id)
    requires OnCycle(edges, start)
    ensures RevisitScan(edges, ScanUniverse(edges, start), {}, [start])
  {
    CycleScanIff(edges, start);
    RevisitCoversCycleScan(edges, ScanUniverse(edges, start), start, {}, [start]);
  }

  /** Along a walk over ranked edges the rank falls, so no walk returns to where it began. */
  lemma {:induction false} RankFallsAlongWalk(edges: seq<FlatEdge>, rank: Id -> nat, p: seq<Id>, k: nat)
    requires Ranked(Graph(edges), rank) && IsWalk(Graph(edges), p) && 0 < k < |p|
    ensures rank(p[0]) > rank(p[k])
  {
    assert Edge(Graph(edges), p[k - 1], p[k]);
    var e :| e in edges && e.from == p[k - 1] && e.to == p[k];
    if k > 1 {
      RankFallsAlongWalk(edges, rank, p, k - 1);
    }
  }

  lemma RankedHasNoCycle(edges: seq<FlatEdge>, rank: Id -> nat, x: Id)
    requires Ranked(Graph(edges), rank)
    ensures !OnCycle(edges, x)
  {
    if OnCycle(edges, x) {
      var p :| |p| >= 2 && IsWalk(Graph(edges), p) && p[0] == x && p[|p| - 1] == x;
      RankFallsAlongWalk(edges, rank, p, |p| - 1);
    }
  }

  /** Two paths from `a` meet again at `d`: a→b→d and a→c→d. */
  const Diamond: seq<FlatEdge> := [FlatEdge(Some("a"), Some("b"), ""), FlatEdge(Some("a"), Some("c"), ""),
                                   FlatEdge(Some("b"), Some("d"), ""), FlatEdge(Some("c"), Some("d"), "")]

  function DiamondRank(x: Id): nat
  {
    if x == Some("a") then 3 else if x == Some("b") || x == Some("c") then 2 else if x == Some("d") then 1 else 0
  }

  lemma DiamondTargets()
    ensures Targets(Diamond, Some("a")) == [Some("b"), Some("c")]
    ensures Targets(Diamond, Some("b")) == [Some("d")]
    ensures Targets(Diamond, Some("c")) == [Some("d")]
    ensures Targets(Diamond, Some("d")) == []
  {
    var d := Diamond;
    assert d[1..][1..][1..][1..] == [];
  }

  lemma DiamondAcyclic()
    ensures Ranked(Graph(Diamond), DiamondRank)
    ensures forall x :: !OnCycle(Diamond, x)
  {
    forall x
      ensures !OnCycle(Diamond, x)
    {
      RankedHasNoCycle(Diamond, DiamondRank, x);
    }
  }

  lemma DiamondUniverse()
    ensures ScanUniverse(Diamond, Some("a")) == {Some("a"), Some("b"), Some("c"), Some("d")}
  {
    var d := Diamond;
    assert forall e :: e in d <==> e == d[0] || e == d[1] || e == d[2] || e == d[3];
    assert Tos(d) == {Some("b"), Some("c"), Some("d")};
  }

  /** One pop of an id not yet visited. */
  lemma RevisitStep(edges: seq<FlatEdge>, u: set<Id>, visited: set<Id>, stack: seq<Id>, visited': set<Id>, stack': seq<Id>)
    requires Within(edges, u, visited, stack) && stack != [] && stack[|stack| - 1] !in visited
    requires visited' == visited + {stack[|stack| - 1]}
    requires stack' == stack[..|stack| - 1] + Targets(edges, stack[|stack| - 1])
    ensures Within(edges, u, visited', stack')
    ensures RevisitScan(edges, u, visited, stack) == RevisitScan(edges, u, visited', stack')
  {
    TargetsInTos(edges, stack[|stack| - 1]);
  }

  /** With `a` and `c` visited, `d` is popped and pushes nothing. */
  lemma DiamondRevisitEnd()
    ensures Within(Diamond, ScanUniverse(Diamond, Some("a")), {Some("a"), Some("c")}, [Some("b"), Some("d")])
    ensures RevisitScan(Diamond, ScanUniverse(Diamond, Some("a")), {Some("a"), Some("c")}, [Some("b"), Some("d")])
  {
    var a, b, c, d := Some("a"), Some("b"), Some("c"), Some("d");
    var u := ScanUniverse(Diamond, a);
    DiamondUniverse();
    DiamondTargets();
    assert [b, d][..1] + Targets(Diamond, d) == [b];
    RevisitStep(Diamond, u, {a, c}, [b, d], {a, c, d}, [b]);
    DiamondRevisitLast();
  }

  /** `b` is popped and pushes `d`, which is already visited. */
  lemma DiamondRevisitLast()
    ensures Within(Diamond, ScanUniverse(Diamond, Some("a")), {Some("a"), Some("c"), Some("d")}, [Some("b")])
    ensures RevisitScan(Diamond, ScanUniverse(Diamond, Some("a")), {Some("a"), Some("c"), Some("d")}, [Some("b")])
  {
    var a, b, c, d := Some("a"), Some("b"), Some("c"), Some("d");
    var u := ScanUniverse(Diamond, a);
    DiamondUniverse();
    DiamondTargets();
    assert [b][..0] + Targets(Diamond, b) == [d];
    RevisitStep(Diamond, u, {a, c, d}, [b], {a, b, c, d}, [d]);
    RevisitHit(Diamond, u, {a, b, c, d}, [d]);
  }

  /** Popping an id already visited ends the scan as written with a report. */
  lemma RevisitHit(edges: seq<FlatEdge>, u: set<Id>, visited: set<Id>, stack: seq<Id>)
    requires Within(edges, u, visited, stack) && stack != [] && stack[|stack| - 1] in visited
    ensures RevisitScan(edges, u, visited, stack)
  {
  }

  /** The walk from `a` as written: a, c, d, b, then `d` a second time. */
  lemma DiamondRevisit()
    ensures RevisitScan(Diamond, ScanUniverse(Diamond, Some("a")), {}, [Some("a")])
  {
    var a, b, c, d := Some("a"), Some("b"), Some("c"), Some("d");
    var u := ScanUniverse(Diamond, a);
    DiamondUniverse();
    DiamondTargets();
    assert Within(Diamond, u, {}, [a]);
    assert [a][..0] + Targets(Diamond, a) == [b, c];
    RevisitStep(Diamond, u, {}, [a], {a}, [b, c]);
    DiamondRevisitMiddle();
  }

  /** After `a`: `c` is popped and `d` pushed above `b`. */
  lemma DiamondRevisitMiddle()
    ensures Within(Diamond, ScanUniverse(Diamond, Some("a")), {Some("a")}, [Some("b"), Some("c")])
    ensures RevisitScan(Diamond, ScanUniverse(Diamond, Some("a")), {Some("a")}, [Some("b"), Some("c")])
  {
    var a, b, c, d := Some("a"), Some("b"), Some("c"), Some("d");
    var u := ScanUniverse(Diamond, a);
    DiamondUniverse();
    DiamondTargets();
    assert [b, c][..1] + Targets(Diamond, c) == [b, d];
    RevisitStep(Diamond, u, {a}, [b, c], {a, c}, [b, d]);
    DiamondRevisitEnd();
  }

  /**
   * The scan as written flags `a` in the diamond, where no id lies on a cycle: `d` is popped
   * once below `c` and again below `b`. The corrected scan does not flag it.
   */
  lemma DiamondFlagged()
    ensures Ranked(Graph(Diamond), DiamondRank)
    ensures forall x :: !OnCycle(Diamond, x)
    ensures RevisitScan(Diamond, ScanUniverse(Diamond, Some("a")), {}, [Some("a")])
    ensures !CycleScan(Diamond, ScanUniverse(Diamond, Some("a")), Some("a"), {}, [Some("a")])
  {
    DiamondAcyclic();
    CycleScanIff(Diamond, Some("a"));
    DiamondRevisit();
  }

  /** The `while stack` loop as written for one start node: it reports as soon as an id is popped twice. */
  method RevisitScanFrom(edges: seq<FlatEdge>, children: map<Id, seq<Id>>, start: Id) returns (circular: bool)
    requires forall x :: ListAt(children, x) == Targets(edges, x)
    ensures circular == RevisitScan(edges, ScanUniverse(edges, start), {}, [start])
  {
    ghost var u := ScanUniverse(edges, start);
    var visited: set<Id> := {};
    var stack := [start];
    while stack != []
      invariant Within(edges, u, visited, stack)
      invariant RevisitScan(edges, u, visited, stack) == RevisitScan(edges, u, {}, [start])
      decreases |u - visited|
    {
      var current := stack[|stack| - 1];
      ghost var before := stack;
      stack := stack[..|stack| - 1];
      if current in visited {
        return true;
      }
      FewerUnvisited(u, visited, visited + {current}, current);
      TargetsInTos(edges, current);
      visited := visited + {current};
      stack := stack + ListAt(children, current);
    }
    return false;
  }

  /** The corrected loop for one start node: popping a visited id other than the start is skipped. */
  method CycleScanFrom(edges: seq<FlatEdge>, children: map<Id, seq<Id>>, start: Id) returns (circular: bool)
    requires forall x :: ListAt(children, x) == Targets(edges, x)
    ensures circular == CycleScan(edges, ScanUniverse(edges, start), start, {}, [start])
  {
    ghost var u := ScanUniverse(edges, start);
    var visited: set<Id> := {};
    var stack := [start];
    while stack != []
      invariant Within(edges, u, visited, stack)
      invariant CycleScan(edges, u, start, visited, stack) == CycleScan(edges, u, start, {}, [start])
      decreases |u - visited|, |stack|
    {
      var current := stack[|stack| - 1];
      ghost var before := stack;
      stack := stack[..|stack| - 1];
      if current in visited {
        if current == start {
          return true;
        }
      } else {
        FewerUnvisited(u, visited, visited + {current}, current);
        TargetsInTos(edges, current);
        visited := visited + {current};
        stack := stack + ListAt(children, current);
      }
    }
    return false;
  }

  /** The ids, in node order, of the nodes whose walk as written pops some id twice. */
  function RevisitIds(nodes: seq<DotNode>, edges: seq<FlatEdge>): (r: seq<Id>)
    ensures forall x :: x in r <==>
      exists n :: n in nodes && n.id == x && RevisitScan(edges, ScanUniverse(edges, x), {}, [x])
  {
    if nodes == [] then []
    else
      var init, n := nodes[..|nodes| - 1], nodes[|nodes| - 1];
      assert forall m :: m in nodes <==> m in init || m == n;
      RevisitIds(init, edges) + if RevisitScan(edges, ScanUniverse(edges, n.id), {}, [n.id]) then [n.id] else []
  }

  /** The `for node in nodes` loop around the scan as written. */
  method RevisitReferences(nodes: seq<DotNode>, edges: seq<FlatEdge>, children: map<Id, seq<Id>>) returns (refs: seq<Id>)
    requires forall x :: ListAt(children, x) == Targets(edges, x)
    ensures refs == RevisitIds(nodes, edges)
  {
    refs := [];
    for i := 0 to |nodes|
      invariant refs == RevisitIds(nodes[..i], edges)
    {
      var nodeId := nodes[i].id;
      var circular := RevisitScanFrom(edges, children, nodeId);
      assert nodes[..i + 1][..i] == nodes[..i];
      if circular {
        refs := refs + [nodeId];
      }
    }
    assert nodes[..|nodes|] == nodes;
  }

  /** Every node on a cycle is reported by the scan as written; the diamond shows the converse fails. */
  lemma CycleIdsReported(nodes: seq<DotNode>, edges: seq<FlatEdge>)
    ensures forall x :: x in CycleIds(nodes, edges) ==> x in RevisitIds(nodes, edges)
  {
    forall x | x in CycleIds(nodes, edges)
      ensures x in RevisitIds(nodes, edges)
    {
      RevisitScanFindsCycles(edges, x);
    }
  }

  /** The ids, in node order, of the nodes that lie on a cycle. */
  ghost function CycleIds(nodes: seq<DotNode>, edges: seq<FlatEdge>): (r: seq<Id>)
    ensures forall x :: x in r <==> exists n :: n in nodes && n.id == x && OnCycle(edges, x)
  {
    if nodes == [] then []
    else
      var init, n := nodes[..|nodes| - 1], nodes[|nodes| - 1];
      assert forall m :: m in nodes <==> m in init || m == n;
      CycleIds(init, edges) + if OnCycle(edges, n.id) then [n.id] else []
  }

  /** The `for node in nodes` loop around the scan, with the corrected scan. */
  method CircularReferences(nodes: seq<DotNode>, edges: seq<FlatEdge>, children: map<Id, seq<Id>>) returns (refs: seq<Id>)
    requires forall x :: ListAt(children, x) == Targets(edges, x)
    ensures refs == CycleIds(nodes, edges)
  {
    refs := [];
    for i := 0 to |nodes|
      invariant refs == CycleIds(nodes[..i], edges)
    {
      var nodeId := nodes[i].id;
      var circular := CycleScanFrom(edges, children, nodeId);
      CycleScanIff(edges, nodeId);
      assert nodes[..i + 1][..i] == nodes[..i];
      if circular {
        refs := refs + [nodeId];
      }
    }
    assert nodes[..|nodes|] == nodes;
  }

  // ------------------------------------------------------------------ hierarchy summary

  /** `leaf_nodes`: the nodes whose id has no child list, or an empty one. */
  function LeafCount(nodes: seq<DotNode>, withChildren: set<Id>): (r: nat)
    ensures r <= |nodes|
  {
    if nodes == [] then 0 else (if nodes[0].id in withChildren then 0 else 1) + LeafCount(nodes[1..], withChildren)
  }

  predicate DistinctIds(nodes: seq<DotNode>)
  {
    forall i, j :: 0 <= i < j < |nodes| ==> nodes[i].id != nodes[j].id
  }

  lemma {:induction false} LeafCountSplit(nodes: seq<DotNode>, withChildren: set<Id>)
    requires DistinctIds(nodes)
    ensures LeafCount(nodes, withChildren) + |withChildren * NodeIds(nodes)| == |nodes|
  {
    if nodes == [] {
      assert NodeIds(nodes) == {};
    } else {
      var x, rest := nodes[0].id, nodes[1..];
      assert NodeIds(nodes) == {x} + NodeIds(rest);
      forall k | 0 <= k < |rest|
        ensures rest[k].id != x
      {
        assert rest[k] == nodes[k + 1];
      }
      assert x !in NodeIds(rest);
      LeafCountSplit(rest, withChildren);
      if x in withChildren {
        assert withChildren * NodeIds(nodes) == {x} + withChildren * NodeIds(rest);
      } else {
        assert withChildren * NodeIds(nodes) == withChildren * NodeIds(rest);
      }
    }
  }

  /**
   * With distinct node ids and every edge leaving a node, the leaves and the nodes with
   * children split the nodes: `leaf_nodes + nodes_with_children == total_nodes`.
   */
  lemma HierarchyBalance(t: DotTree)
    requires DistinctIds(t.nodes) && Froms(t.edges) <= NodeIds(t.nodes)
    ensures LeafCount(t.nodes, Froms(t.edges)) + |Froms(t.edges)| == |t.nodes|
  {
    LeafCountSplit(t.nodes, Froms(t.edges));
    assert Froms(t.edges) * NodeIds(t.nodes) == Froms(t.edges);
  }

  // ------------------------------------------------------------------ the endpoint

  datatype DebugReport = DebugReport(totalNodes: nat, totalEdges: nat, rootNodes: seq<Id>,
                                     duplicates: seq<(string, seq<Id>)>, circularReferences: seq<Id>,
                                     nodeTitles: seq<string>, nodesWithChildren: nat, leafNodes: nat)

  /**
   * `debug_product_tree()` on the stored tree: the error reply without a tree, the `KeyError`
   * message when a node has no id, and otherwise the report. The circular references come
   * from the scan as written: they hold every node on a cycle, and may hold more.
   */
  method DebugProductTree(tree: Option<DotTree>) returns (r: Result<DebugReport, string>)
    ensures tree.None? ==> r == Err("No product tree loaded")
    ensures tree.Some? && !AllIds(tree.value.nodes) ==> r == Err("'id'")
    ensures tree.Some? && AllIds(tree.value.nodes) ==>
      var t := tree.value;
      && r.Ok?
      && r.value.totalNodes == |t.nodes| && r.value.totalEdges == |t.edges|
      && r.value.rootNodes == RootIds(t.nodes, t.edges)
      && r.value.duplicates == DuplicateEntries(t.nodes)
      && r.value.nodeTitles == Dedupe(TitleSeq(t.nodes))
      && r.value.circularReferences == RevisitIds(t.nodes, t.edges)
      && (forall x :: x in CycleIds(t.nodes, t.edges) ==> x in r.value.circularReferences)
      && r.value.nodesWithChildren == |Froms(t.edges)|
      && r.value.leafNodes == LeafCount(t.nodes, Froms(t.edges))
  {
    if tree.None? {
      return Err("No product tree loaded");
    }
    var nodes, edges := tree.value.nodes, tree.value.edges;
    var children, parents := BuildLinks(edges);
    if exists n :: n in nodes && n.id.None? {
      return Err("'id'");
    }
    var rootNodes := RootIds(nodes, edges);
    var duplicates, titles := ScanTitles(nodes);
    var circularRefs := RevisitReferences(nodes, edges, children);
    CycleIdsReported(nodes, edges);
    var withChildren := set x | x in children.Keys && children[x] != [];
    forall x | x in children.Keys
      ensures children[x] != []
    {
      var e :| e in edges && e.from == x;
      assert ListAt(children, x) == Targets(edges, x);
      assert e.to in Targets(edges, x);
    }
    assert withChildren == Froms(edges);
    r := Ok(DebugReport(|nodes|, |edges|, rootNodes, duplicates, circularRefs, titles,
                        |withChildren|, LeafCount(nodes, withChildren)));
  }
}
