/**
 * `findCircularReferences` of web/app.js and web-ai/app.js: a depth-first search from every
 * node not yet visited, keeping the ids on the current path in `recursionStack`; reaching an
 * id that is on the stack records the path followed by that id. The closure's three
 * mutable locals are threaded through the recursive method as in- and out-parameters.
 */
module FlatCycles {
  import opened Wrappers
  import opened FlatModel
  import opened FlatDepth

  type Id = Option<string>

  /** Every id the search can reach: node ids and edge targets. */
  function Universe(t: FlatTree): set<Id>
  {
    (set n | n in t.nodes :: n.id) + (set e | e in t.edges :: e.to)
  }

  predicate Edge(t: FlatTree, a: Id, b: Id)
  {
    exists e :: e in t.edges && e.from == a && e.to == b
  }

  /** Consecutive ids are joined by an edge. */
  predicate IsWalk(t: FlatTree, p: seq<Id>)
  {
    forall k :: 0 <= k < |p| - 1 ==> Edge(t, p[k], p[k + 1])
  }

  /** A walk whose last id occurs earlier in it, so that it closes a cycle. */
  predicate IsCycle(t: FlatTree, r: seq<Id>)
  {
    |r| >= 2 && IsWalk(t, r) && r[|r| - 1] in r[..|r| - 1]
  }

  function Elements(p: seq<Id>): set<Id>
  {
    set x | x in p
  }

  lemma WalkExtend(t: FlatTree, p: seq<Id>, c: Id)
    requires IsWalk(t, p) && p != [] && Edge(t, p[|p| - 1], c)
    ensures IsWalk(t, p + [c])
  {
    var q := p + [c];
    forall k | 0 <= k < |q| - 1
      ensures Edge(t, q[k], q[k + 1])
    {
      if k < |p| - 1 {
        assert q[k] == p[k] && q[k + 1] == p[k + 1];
      }
    }
  }

  lemma RankFalls(t: FlatTree, rank: Id -> nat, path: seq<Id>, nodeId: Id, c: Id)
    requires Ranked(t, rank) && Edge(t, nodeId, c)
    requires forall x :: x in path ==> rank(x) > rank(nodeId)
    ensures forall x :: x in path + [nodeId] ==> rank(x) > rank(c)
  {
    var e :| e in t.edges && e.from == nodeId && e.to == c;
  }

  lemma FewerUnvisited(u: set<Id>, a: set<Id>, b: set<Id>, x: Id)
    requires a <= b <= u && x in b && x !in a
    ensures |u - b| < |u - a|
  {
    var d := (u - a) - (u - b);
    assert x in d;
    assert u - a == (u - b) + d;
    assert (u - b) * d == {};
  }

  /**
   * `dfs(nodeId, path)`. The stack holds exactly the ids of `path`, and `path + [nodeId]` is a
   * walk; every recorded path closes a cycle, the stack comes back as it was, and on ranked
   * (acyclic) edges nothing is recorded. Each call visits `nodeId` unless it was visited, so
   * the number of unvisited ids falls and the search ends.
   */
  method Dfs(t: FlatTree, ghost rank: Id -> nat, nodeId: Id, path: seq<Id>,
             visited0: set<Id>, stack0: set<Id>, refs0: seq<seq<Id>>)
    returns (visited: set<Id>, stack: set<Id>, refs: seq<seq<Id>>)
    requires nodeId in Universe(t) && visited0 <= Universe(t)
    requires stack0 == Elements(path) && stack0 <= visited0
    requires IsWalk(t, path + [nodeId])
    requires Ranked(t, rank) ==> forall x :: x in path ==> rank(x) > rank(nodeId)
    requires forall r :: r in refs0 ==> IsCycle(t, r)
    ensures visited0 <= visited <= Universe(t) && nodeId in visited
    ensures stack == stack0
    ensures refs0 <= refs && forall r :: r in refs ==> IsCycle(t, r)
    ensures Ranked(t, rank) ==> refs == refs0
    decreases |Universe(t) - visited0|
  {
    if nodeId in stack0 {
      var r := path + [nodeId];
      assert r[..|path|] == path;
      return visited0, stack0, refs0 + [r];
    }
    if nodeId in visited0 {
      return visited0, stack0, refs0;
    }
    visited := visited0 + {nodeId};
    stack := stack0 + {nodeId};
    refs := refs0;
    var here := path + [nodeId];
    assert Elements(here) == stack;
    var children := Targets(t.edges, nodeId);
    for i := 0 to |children|
      invariant visited0 + {nodeId} <= visited <= Universe(t)
      invariant stack == stack0 + {nodeId}
      invariant refs0 <= refs && forall r :: r in refs ==> IsCycle(t, r)
      invariant Ranked(t, rank) ==> refs == refs0
    {
      var c := children[i];
      assert c in children;
      var e :| e in t.edges && e.from == nodeId && e.to == c;
      WalkExtend(t, here, c);
      if Ranked(t, rank) {
        RankFalls(t, rank, path, nodeId, c);
      }
      FewerUnvisited(Universe(t), visited0, visited, nodeId);
      visited, stack, refs := Dfs(t, rank, c, here, visited, stack, refs);
    }
    stack := stack - {nodeId};
  }

  /**
   * `findCircularReferences()`: every recorded path is a walk along edges that ends at an id it
   * has already passed, and edges that admit a rank (no cycle) yield no record.
   */
  method FindCircularReferences(t: FlatTree, ghost rank: Id -> nat) returns (circularRefs: seq<seq<Id>>)
    ensures forall r :: r in circularRefs ==> IsCycle(t, r)
    ensures Ranked(t, rank) ==> circularRefs == []
  {
    circularRefs := [];
    var visited: set<Id> := {};
    var recursionStack: set<Id> := {};
    for i := 0 to |t.nodes|
      invariant visited <= Universe(t) && recursionStack == {}
      invariant forall k :: 0 <= k < i ==> t.nodes[k].id in visited
      invariant forall r :: r in circularRefs ==> IsCycle(t, r)
      invariant Ranked(t, rank) ==> circularRefs == []
    {
      var id := t.nodes[i].id;
      if id !in visited {
        assert Elements([]) == {};
        visited, recursionStack, circularRefs := Dfs(t, rank, id, [], visited, recursionStack, circularRefs);
      }
    }
  }
}
