/**
 * The two reports web/app.js builds from the analyses: `performDebugAnalysis` (shared verbatim
 * with web-ai/app.js) and the keyword-routed `performBrowserAnalysis`. The routed analyses'
 * chat texts are formatting around the values modelled here.
 */
module FlatDebug {
  import opened Wrappers
  import opened Strings
  import opened Seqs
  import opened Routing
  import opened FlatModel
  import opened FlatAnalysis
  import opened FlatDepth
  import opened FlatCycles

  datatype DebugInfo = DebugInfo(totalNodes: nat, totalEdges: nat, rootNodes: seq<string>,
                                 duplicates: seq<(string, seq<Id>)>, circularReferences: seq<seq<Id>>,
                                 nodeTitles: seq<string>)

  /** `uniqueDuplicates.map(title => ({title, nodes: ids of the nodes with that title}))`. */
  function DuplicateGroups(t: FlatTree): (r: seq<(string, seq<Id>)>)
    ensures |r| == |DuplicateTitles(t)|
    ensures forall k :: 0 <= k < |r| ==> r[k] == (DuplicateTitles(t)[k], IdsWithTitle(t.nodes, DuplicateTitles(t)[k]))
  {
    var d := DuplicateTitles(t);
    seq(|d|, k requires 0 <= k < |d| => (d[k], IdsWithTitle(t.nodes, d[k])))
  }

  /** Every group's title is carried by two or more nodes, and no title has two groups. */
  lemma DuplicateGroupTitles(t: FlatTree)
    ensures forall k :: 0 <= k < |DuplicateGroups(t)| ==> Repeated(t, DuplicateGroups(t)[k].0)
    ensures forall i, j :: 0 <= i < j < |DuplicateGroups(t)| ==> DuplicateGroups(t)[i].0 != DuplicateGroups(t)[j].0
  {
    DuplicateTitlesSpec(t);
    var groups := DuplicateGroups(t);
    var d := DuplicateTitles(t);
    forall k | 0 <= k < |groups|
      ensures Repeated(t, groups[k].0)
    {
      assert d[k] in d;
    }
    forall i, j | 0 <= i < j < |groups|
      ensures groups[i].0 != groups[j].0
    {
      assert groups[i].0 == d[i] && groups[j].0 == d[j];
    }
  }

  /** Every title carried by two or more nodes has a group. */
  lemma RepeatedTitleGrouped(t: FlatTree, x: string)
    requires Repeated(t, x)
    ensures exists k :: 0 <= k < |DuplicateGroups(t)| && DuplicateGroups(t)[k].0 == x
  {
    DuplicateTitlesSpec(t);
    var d := DuplicateTitles(t);
    var k :| 0 <= k < |d| && d[k] == x;
    assert DuplicateGroups(t)[k].0 == x;
  }

  /** Each group lists the id of every node with its title, at least two of them. */
  lemma DuplicateGroupIds(t: FlatTree, k: nat)
    requires k < |DuplicateGroups(t)|
    ensures |DuplicateGroups(t)[k].1| >= 2
    ensures forall y :: y in DuplicateGroups(t)[k].1 <==>
      exists n :: n in t.nodes && n.title == DuplicateGroups(t)[k].0 && n.id == y
  {
    DuplicateTitlesSpec(t);
    var d := DuplicateTitles(t);
    assert d[k] in d;
  }

  /** The root titles are exactly the titles of the nodes without an incoming edge. */
  lemma RootTitlesSpec(t: FlatTree)
    ensures forall x :: x in Titles(Roots(t, t.nodes)) <==> exists n :: n in t.nodes && !HasIncoming(t, n.id) && n.title == x
  {
    var rootNodes := Roots(t, t.nodes);
    var rootTitles := Titles(rootNodes);
    forall x | x in rootTitles
      ensures exists n :: n in t.nodes && !HasIncoming(t, n.id) && n.title == x
    {
      var k :| 0 <= k < |rootTitles| && rootTitles[k] == x;
      assert rootNodes[k] in rootNodes;
    }
    forall n | n in t.nodes && !HasIncoming(t, n.id)
      ensures n.title in rootTitles
    {
      var k :| 0 <= k < |rootNodes| && rootNodes[k] == n;
      assert rootTitles[k] == n.title;
    }
  }

  /**
   * `performDebugAnalysis()`: the counts, the root titles, the duplicate groups, the cycle
   * search's records (none on acyclic edges) and the sorted distinct titles.
   */
  method PerformDebugAnalysis(t: FlatTree, ghost rank: Id -> nat) returns (info: DebugInfo)
    ensures info.totalNodes == |t.nodes| && info.totalEdges == |t.edges|
    ensures info.rootNodes == Titles(Roots(t, t.nodes))
    ensures info.duplicates == DuplicateGroups(t)
    ensures forall r :: r in info.circularReferences ==> IsCycle(t, r)
    ensures Ranked(t, rank) ==> info.circularReferences == []
    ensures info.nodeTitles == SortedTitles(t)
  {
    var rootNodes := Roots(t, t.nodes);
    var circularRefs := FindCircularReferences(t, rank);
    info := DebugInfo(|t.nodes|, |t.edges|, Titles(rootNodes), DuplicateGroups(t), circularRefs, SortedTitles(t));
  }

  // ---------------------------------------------------------------- performBrowserAnalysis

  datatype BrowserAnalysis = FindDuplicates | AnalyzeHierarchy | FindGaps | AnalyzeDependencies | GeneralAnalysis

  /** The `if` chain of `performBrowserAnalysis` on the lower-cased question. */
  function Route(question: string): BrowserAnalysis
  {
    var q := Lower(question);
    if Contains(q, "duplicate") then FindDuplicates
    else if Contains(q, "hierarchy") || Contains(q, "structure") then AnalyzeHierarchy
    else if Contains(q, "gap") || Contains(q, "missing") then FindGaps
    else if Contains(q, "dependency") || Contains(q, "relationship") then AnalyzeDependencies
    else GeneralAnalysis
  }

  const BrowserRoutes: seq<(seq<string>, BrowserAnalysis)> :=
    [(["duplicate"], FindDuplicates), (["hierarchy", "structure"], AnalyzeHierarchy),
     (["gap", "missing"], FindGaps), (["dependency", "relationship"], AnalyzeDependencies)]

  /** The chain is the first route, in the listed order, with a keyword in the question. */
  lemma RouteIsFirstMatch(question: string)
    ensures Route(question) == FirstRoute(Lower(question), BrowserRoutes, GeneralAnalysis)
  {
    var q := Lower(question);
    var rs := BrowserRoutes;
    MentionsOne(q, rs[0].0[0]);
    MentionsTwo(q, rs[1].0[0], rs[1].0[1]);
    MentionsTwo(q, rs[2].0[0], rs[2].0[1]);
    MentionsTwo(q, rs[3].0[0], rs[3].0[1]);
    assert rs[0].0 == [rs[0].0[0]] && rs[1].0 == [rs[1].0[0], rs[1].0[1]];
    assert rs[2].0 == [rs[2].0[0], rs[2].0[1]] && rs[3].0 == [rs[3].0[0], rs[3].0[1]];
  }

  datatype Report =
    | DuplicateReport(titles: seq<string>)
    | HierarchyReport(roots: nat, maxDepth: nat, averageChildren: (nat, nat))
    | GapReport(orphans: seq<FlatNode>)
    | DependencyReport(flagged: seq<(FlatNode, nat, nat)>)
    | GeneralReport(totalNodes: nat, totalEdges: nat, nodeTypes: seq<string>)

  function NodeTypes(nodes: seq<FlatNode>): (r: seq<string>)
    ensures |r| == |nodes| && forall k :: 0 <= k < |nodes| ==> r[k] == nodes[k].nodeType
  {
    seq(|nodes|, k requires 0 <= k < |nodes| => nodes[k].nodeType)
  }

  /**
   * `performBrowserAnalysis(question)`: the routed analysis's values. Only the hierarchy
   * analysis walks the edges without a visited set, so only it needs acyclic edges.
   */
  method PerformBrowserAnalysis(t: FlatTree, ghost rank: Id -> nat, question: string) returns (report: Report)
    requires Route(question) == AnalyzeHierarchy ==> Ranked(t, rank)
    ensures Route(question) == FindDuplicates ==> report == DuplicateReport(DuplicateTitles(t))
    ensures Route(question) == AnalyzeHierarchy ==>
      report.HierarchyReport? && report.roots == |Roots(t, t.nodes)| && report.averageChildren == AverageChildren(t) &&
      (forall n :: n in Roots(t, t.nodes) ==> report.maxDepth >= Height(t, rank, n.id)) &&
      (Roots(t, t.nodes) == [] ==> report.maxDepth == 0) &&
      (Roots(t, t.nodes) != [] ==> exists n :: n in Roots(t, t.nodes) && report.maxDepth == Height(t, rank, n.id))
    ensures Route(question) == FindGaps ==> report == GapReport(Orphans(t, t.nodes))
    ensures Route(question) == AnalyzeDependencies ==> report == DependencyReport(Dependencies(t, t.nodes))
    ensures Route(question) == GeneralAnalysis ==>
      report == GeneralReport(|t.nodes|, |t.edges|, Dedupe(NodeTypes(t.nodes)))
  {
    match Route(question)
    case FindDuplicates =>
      report := DuplicateReport(DuplicateTitles(t));
    case AnalyzeHierarchy =>
      var maxDepth := CalculateMaxDepth(t, rank);
      report := HierarchyReport(|Roots(t, t.nodes)|, maxDepth, AverageChildren(t));
    case FindGaps =>
      report := GapReport(Orphans(t, t.nodes));
    case AnalyzeDependencies =>
      report := DependencyReport(Dependencies(t, t.nodes));
    case GeneralAnalysis =>
      report := GeneralReport(|t.nodes|, |t.edges|, Dedupe(NodeTypes(t.nodes)));
  }
}
