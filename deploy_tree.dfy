/**
 * The nested tree of web-deploy/public/app.js: `parseXMLToTree` turns the document into one
 * object per element, each holding its children, instead of node and edge arrays. Ids come
 * from the `id` attribute or from `generateId` (the lower-cased tag, suffixed with the
 * element's position among its parent's element children). The lookups `findNodeById`,
 * `findParent` and `countNodes` walk the tree recursively.
 */
module DeployTree {
  import opened Wrappers
  import opened Strings
  import opened Xml
  import UiImport

  datatype TreeNode = TreeNode(
    id: string, title: string, nodeType: string, status: string, priority: string,
    description: string, summary: string, jobContent: string, team: string, effort: string,
    start: string, end: string, quarter: string, year: string, children: seq<TreeNode>)

  // ---------------------------------------------------------------- pre-order views

  /** The nodes of the tree in pre-order, the root first. */
  function Nodes(n: TreeNode): seq<TreeNode>
    decreases n, 1
  {
    [n] + Forest(n.children)
  }

  /** The nodes of a list of trees in pre-order. */
  function Forest(cs: seq<TreeNode>): seq<TreeNode>
    decreases cs, 0
  {
    if cs == [] then [] else Nodes(cs[0]) + Forest(cs[1..])
  }

  function Ids(s: seq<TreeNode>): set<string>
  {
    set m | m in s :: m.id
  }

  lemma IdsAppend(a: seq<TreeNode>, b: seq<TreeNode>)
    ensures Ids(a + b) == Ids(a) + Ids(b)
  {
  }

  /** `Forest(cs[i..])` splits into the tree of `cs[i]` and the rest. */
  lemma ForestAt(cs: seq<TreeNode>, i: nat)
    requires i < |cs|
    ensures Forest(cs[i..]) == Nodes(cs[i]) + Forest(cs[i + 1..])
  {
    assert cs[i..][1..] == cs[i + 1..];
  }

  lemma {:induction false} ForestAppend(a: seq<TreeNode>, b: seq<TreeNode>)
    ensures Forest(a + b) == Forest(a) + Forest(b)
  {
    if a == [] {
      assert a + b == b;
    } else {
      assert (a + b)[0] == a[0] && (a + b)[1..] == a[1..] + b;
      ForestAppend(a[1..], b);
      Assoc(Nodes(a[0]), Forest(a[1..]), Forest(b));
    }
  }

  // ---------------------------------------------------------------- countNodes

  /** `countNodes(node)`: one for the node plus the counts of its children's subtrees. */
  method CountNodes(node: TreeNode) returns (count: nat)
    ensures count == |Nodes(node)|
    decreases node
  {
    count := 1;
    var cs := node.children;
    for i := 0 to |cs|
      invariant count + |Forest(cs[i..])| == |Nodes(node)|
    {
      ForestAt(cs, i);
      var sub := CountNodes(cs[i]);
      count := count + sub;
    }
  }

  // ---------------------------------------------------------------- findNodeById

  /** The first node of `s` with the given id. */
  function FirstWithId(s: seq<TreeNode>, id: string): Option<TreeNode>
  {
    if s == [] then None else if s[0].id == id then Some(s[0]) else FirstWithId(s[1..], id)
  }

  lemma {:induction false} FirstWithIdAppend(a: seq<TreeNode>, b: seq<TreeNode>, id: string)
    ensures FirstWithId(a + b, id) == if FirstWithId(a, id).Some? then FirstWithId(a, id) else FirstWithId(b, id)
  {
    if a == [] {
      assert a + b == b;
    } else {
      assert (a + b)[0] == a[0] && (a + b)[1..] == a[1..] + b;
      FirstWithIdAppend(a[1..], b, id);
    }
  }

  /**
   * The first-match search finds nothing exactly when no node carries the id; otherwise it
   * finds a node with the id at some position, and none before it carries the id.
   */
  lemma {:induction false} FirstWithIdSpec(s: seq<TreeNode>, id: string)
    ensures FirstWithId(s, id).None? <==> forall k :: 0 <= k < |s| ==> s[k].id != id
    ensures FirstWithId(s, id).Some? ==>
      exists k :: 0 <= k < |s| && s[k] == FirstWithId(s, id).value && s[k].id == id &&
        forall j :: 0 <= j < k ==> s[j].id != id
  {
    if s != [] && s[0].id != id {
      FirstWithIdSpec(s[1..], id);
      assert forall k :: 1 <= k < |s| ==> s[k] == s[1..][k - 1];
      if FirstWithId(s, id).Some? {
        var k :| 0 <= k < |s[1..]| && s[1..][k] == FirstWithId(s, id).value && s[1..][k].id == id &&
          forall j :: 0 <= j < k ==> s[1..][j].id != id;
        assert s[k + 1] == s[1..][k];
      }
    }
  }

  /**
   * `findNodeById(node, id)`: `null` for a missing tree, otherwise the first node in pre-order
   * whose id is `id`, or `null` when there is none.
   */
  method FindNodeById(node: Option<TreeNode>, id: string) returns (found: Option<TreeNode>)
    ensures node.None? ==> found.None?
    ensures node.Some? ==> found == FirstWithId(Nodes(node.value), id)
  {
    if node.None? {
      return None;
    }
    found := FindInTree(node.value, id);
  }

  /** The recursion of `findNodeById` once the node is known to be there. */
  method FindInTree(n: TreeNode, id: string) returns (found: Option<TreeNode>)
    ensures found == FirstWithId(Nodes(n), id)
    decreases n
  {
    if n.id == id {
      return Some(n);
    }
    var cs := n.children;
    for i := 0 to |cs|
      invariant FirstWithId(Forest(cs[i..]), id) == FirstWithId(Nodes(n), id)
    {
      ForestAt(cs, i);
      FirstWithIdAppend(Nodes(cs[i]), Forest(cs[i + 1..]), id);
      found := FindInTree(cs[i], id);
      if found.Some? {
        return found;
      }
    }
    return None;
  }

  // ---------------------------------------------------------------- findParent

  /** Every (parent, child) pair of the tree, in the order `findParent` meets the children. */
  function ParentLinks(n: TreeNode): seq<(TreeNode, TreeNode)>
    decreases n, 1
  {
    LinksBelow(n, n.children)
  }

  function LinksBelow(p: TreeNode, cs: seq<TreeNode>): seq<(TreeNode, TreeNode)>
    decreases cs, 0
  {
    if cs == [] then [] else [(p, cs[0])] + ParentLinks(cs[0]) + LinksBelow(p, cs[1..])
  }

  /** The parent in the first pair whose child carries `id`. */
  function FirstParentOf(links: seq<(TreeNode, TreeNode)>, id: string): Option<TreeNode>
  {
    if links == [] then None
    else if links[0].1.id == id then Some(links[0].0)
    else FirstParentOf(links[1..], id)
  }

  lemma {:induction false} FirstParentOfAppend(a: seq<(TreeNode, TreeNode)>, b: seq<(TreeNode, TreeNode)>, id: string)
    ensures FirstParentOf(a + b, id) == if FirstParentOf(a, id).Some? then FirstParentOf(a, id) else FirstParentOf(b, id)
  {
    if a == [] {
      assert a + b == b;
    } else {
      assert (a + b)[0] == a[0] && (a + b)[1..] == a[1..] + b;
      FirstParentOfAppend(a[1..], b, id);
    }
  }

  lemma LinksAt(p: TreeNode, cs: seq<TreeNode>, i: nat)
    requires i < |cs|
    ensures LinksBelow(p, cs[i..]) == [(p, cs[i])] + ParentLinks(cs[i]) + LinksBelow(p, cs[i + 1..])
  {
    assert cs[i..][1..] == cs[i + 1..];
  }

  /**
   * `findParent(node, targetId)`: for each child in turn, the node itself when the child has
   * the id, else whatever the search below that child finds; `null` when nothing matches.
   */
  method FindParent(node: TreeNode, targetId: string) returns (parent: Option<TreeNode>)
    ensures parent == FirstParentOf(ParentLinks(node), targetId)
    decreases node
  {
    var cs := node.children;
    for i := 0 to |cs|
      invariant FirstParentOf(LinksBelow(node, cs[i..]), targetId) == FirstParentOf(ParentLinks(node), targetId)
    {
      LinksAt(node, cs, i);
      FirstParentOfAppend([(node, cs[i])] + ParentLinks(cs[i]), LinksBelow(node, cs[i + 1..]), targetId);
      FirstParentOfAppend([(node, cs[i])], ParentLinks(cs[i]), targetId);
      if cs[i].id == targetId {
        return Some(node);
      }
      var found := FindParent(cs[i], targetId);
      if found.Some? {
        return found;
      }
    }
    return None;
  }

  /** The children of the pairs, in order, are the proper descendants in pre-order. */
  function Children(links: seq<(TreeNode, TreeNode)>): (r: seq<TreeNode>)
    ensures |r| == |links| && forall k :: 0 <= k < |links| ==> r[k] == links[k].1
  {
    if links == [] then [] else [links[0].1] + Children(links[1..])
  }

  lemma {:induction false} ChildrenAppend(a: seq<(TreeNode, TreeNode)>, b: seq<(TreeNode, TreeNode)>)
    ensures Children(a + b) == Children(a) + Children(b)
  {
    if a == [] {
      assert a + b == b;
    } else {
      assert (a + b)[1..] == a[1..] + b;
      ChildrenAppend(a[1..], b);
    }
  }

  lemma {:induction false} LinkChildrenAreDescendants(n: TreeNode)
    ensures Children(ParentLinks(n)) == Forest(n.children)
    decreases n, 1
  {
    LinksBelowChildren(n, n.children);
  }

  lemma {:induction false} LinksBelowChildren(p: TreeNode, cs: seq<TreeNode>)
    ensures Children(LinksBelow(p, cs)) == Forest(cs)
    decreases cs, 0
  {
    if cs != [] {
      var rest := LinksBelow(p, cs[1..]);
      ChildrenAppend([(p, cs[0])] + ParentLinks(cs[0]), rest);
      ChildrenAppend([(p, cs[0])], ParentLinks(cs[0]));
      LinkChildrenAreDescendants(cs[0]);
      LinksBelowChildren(p, cs[1..]);
    }
  }

  /** In every pair the child is one of the parent's children and the parent is in the tree. */
  lemma {:induction false} LinksJoinParentAndChild(n: TreeNode)
    ensures forall l :: l in ParentLinks(n) ==> l.1 in l.0.children && l.0 in Nodes(n)
    decreases n, 1
  {
    LinksBelowJoin(n, n.children, n.children);
  }

  lemma {:induction false} LinksBelowJoin(p: TreeNode, cs: seq<TreeNode>, all: seq<TreeNode>)
    requires all == p.children && forall c :: c in cs ==> c in all
    ensures forall l :: l in LinksBelow(p, cs) ==> l.1 in l.0.children && l.0 in Nodes(p)
    decreases cs, 0
  {
    if cs != [] {
      LinksJoinParentAndChild(cs[0]);
      LinksBelowJoin(p, cs[1..], all);
      assert cs[0] in all;
      ForestMember(all, cs[0]);
    }
  }

  /** A subtree's nodes belong to any list of trees that holds it. */
  lemma {:induction false} ForestMember(cs: seq<TreeNode>, c: TreeNode)
    requires c in cs
    ensures forall m :: m in Nodes(c) ==> m in Forest(cs)
    decreases cs
  {
    if cs[0] != c {
      ForestMember(cs[1..], c);
    }
  }

  /**
   * `findParent` finds nothing exactly when no proper descendant carries the id; what it finds
   * is a node of the tree with a child that carries the id.
   */
  lemma FindParentSpec(n: TreeNode, id: string)
    ensures FirstParentOf(ParentLinks(n), id).None? <==> forall m :: m in Forest(n.children) ==> m.id != id
    ensures FirstParentOf(ParentLinks(n), id).Some? ==>
      var p := FirstParentOf(ParentLinks(n), id).value;
      p in Nodes(n) && exists c :: c in p.children && c.id == id
  {
    var links := ParentLinks(n);
    FirstParentOfSpec(links, id);
    LinkChildrenAreDescendants(n);
    LinksJoinParentAndChild(n);
    if FirstParentOf(links, id).None? {
      forall m | m in Forest(n.children)
        ensures m.id != id
      {
        var k :| 0 <= k < |Forest(n.children)| && Forest(n.children)[k] == m;
        assert links[k].1 == m;
      }
    } else {
      var k :| 0 <= k < |links| && links[k].0 == FirstParentOf(links, id).value && links[k].1.id == id;
      assert links[k] in links;
      assert Children(links)[k] in Forest(n.children);
    }
  }

  lemma {:induction false} FirstParentOfSpec(links: seq<(TreeNode, TreeNode)>, id: string)
    ensures FirstParentOf(links, id).None? <==> forall k :: 0 <= k < |links| ==> links[k].1.id != id
    ensures FirstParentOf(links, id).Some? ==>
      exists k :: 0 <= k < |links| && links[k].0 == FirstParentOf(links, id).value && links[k].1.id == id
  {
    if links != [] && links[0].1.id != id {
      FirstParentOfSpec(links[1..], id);
      assert forall k :: 1 <= k < |links| ==> links[k] == links[1..][k - 1];
      if FirstParentOf(links, id).Some? {
        var k :| 0 <= k < |links[1..]| && links[1..][k].0 == FirstParentOf(links, id).value && links[1..][k].1.id == id;
        assert links[k + 1] == links[1..][k];
      }
    }
  }

  // ---------------------------------------------------------------- parseXMLToTree

  /** `generateId(element)`: the lower-cased tag for the document element, `tag_index` below it. */
  function GenerateId(tag: string, index: Option<nat>): string
  {
    match index
    case None => Lower(tag)
    case Some(i) => Lower(tag) + "_" + NatToString(i)
  }

  /** Siblings with the same tag get different ids. */
  lemma SiblingIdsDiffer(tag: string, i: nat, j: nat)
    requires i != j
    ensures GenerateId(tag, Some(i)) != GenerateId(tag, Some(j))
  {
    var p := Lower(tag) + "_";
    if GenerateId(tag, Some(i)) == GenerateId(tag, Some(j)) {
      Assoc(Lower(tag), "_", NatToString(i));
      Assoc(Lower(tag), "_", NatToString(j));
      assert (p + NatToString(i))[|p|..] == NatToString(i);
      assert (p + NatToString(j))[|p|..] == NatToString(j);
      NatToStringInjective(i, j);
    }
  }

  /** The tags `parseElement` refuses to turn into a node of their own. */
  predicate TextTag(tag: string)
  {
    tag == "title" || tag == "summary" || tag == "description"
  }

  /** `getTextContent(e, 'title') || getAttribute('title') || tagName`. */
  function TitleOf(e: Element): string
  {
    if TextOf(e, "title") != "" then TextOf(e, "title") else AttrOr(e, "title", e.tag)
  }

  /** The object literal `parseElement` builds for `e`, given its parsed children. */
  function MakeNode(e: Element, index: Option<nat>, children: seq<TreeNode>): TreeNode
  {
    TreeNode(
      AttrOr(e, "id", GenerateId(e.tag, index)), TitleOf(e), Lower(e.tag),
      AttrOr(e, "status", "active"), AttrOr(e, "priority", "P2"),
      TextOf(e, "description"), TextOf(e, "summary"), TextOf(e, "job_content"),
      AttrOr(e, "team", ""), AttrOr(e, "effort", ""), AttrOr(e, "start", ""), AttrOr(e, "end", ""),
      AttrOr(e, "quarter", ""), AttrOr(e, "year", ""), children)
  }

  /** What `parseElement(e)` returns for an element at position `index` of its parent. */
  function Parsed(e: Element, index: Option<nat>): TreeNode
    decreases e, 1
  {
    MakeNode(e, index, ParsedUpTo(e.children, |e.children|))
  }

  /** The parsed children among the first `n`; text-holding children are skipped. */
  function ParsedUpTo(cs: seq<Element>, n: nat): seq<TreeNode>
    requires n <= |cs|
    decreases cs, 0, n
  {
    if n == 0 then [] else ParsedUpTo(cs, n - 1) + ParsedAt(cs, n - 1)
  }

  /** The node the child at position `i` contributes: none for a text-holding child. */
  function ParsedAt(cs: seq<Element>, i: nat): seq<TreeNode>
    requires i < |cs|
    decreases cs, 0, 0
  {
    if UiImport.Reserved(cs[i].tag) then [] else [Parsed(cs[i], Some(i))]
  }

  /**
   * `parseElement(element)`: the node with the children parsed one by one. The children are
   * the element children other than `title`, `summary`, `description` and `job_content`, and
   * each is numbered by its position among all element children of its parent.
   */
  method ParseElement(e: Element, index: Option<nat>) returns (node: TreeNode)
    ensures node == Parsed(e, index)
    decreases e, 1
  {
    var children := ParseChildren(e.children);
    node := MakeNode(e, index, children);
  }

  /** The `forEach` of `parseElement` over the element children, pushing each parsed one. */
  method ParseChildren(cs: seq<Element>) returns (children: seq<TreeNode>)
    ensures children == ParsedUpTo(cs, |cs|)
    decreases cs, 0
  {
    children := [];
    for i := 0 to |cs|
      invariant children == ParsedUpTo(cs, i)
    {
      if !UiImport.Reserved(cs[i].tag) {
        var child := ParseElement(cs[i], Some(i));
        KeptChild(cs, i, child);
        children := children + [child];
      } else {
        SkippedChild(cs, i);
      }
    }
  }

  lemma KeptChild(cs: seq<Element>, i: nat, child: TreeNode)
    requires i < |cs| && !UiImport.Reserved(cs[i].tag) && child == Parsed(cs[i], Some(i))
    ensures ParsedUpTo(cs, i + 1) == ParsedUpTo(cs, i) + [child]
  {
  }

  lemma SkippedChild(cs: seq<Element>, i: nat)
    requires i < |cs| && UiImport.Reserved(cs[i].tag)
    ensures ParsedUpTo(cs, i + 1) == ParsedUpTo(cs, i)
  {
  }

  /** `parseXMLToTree(doc)`: `null` when the document element is itself a text tag. */
  method ParseXmlToTree(root: Element) returns (tree: Option<TreeNode>)
    ensures TextTag(root.tag) <==> tree.None?
    ensures tree.Some? ==> tree.value == Parsed(root, None)
  {
    if TextTag(root.tag) {
      return None;
    }
    var node := ParseElement(root, None);
    return Some(node);
  }

  /**
   * The import defaults: the id attribute unless absent or empty, else the generated id; the
   * title from the `title` child, then the attribute, then the tag; the lower-cased tag as type;
   * status `active` and priority `P2` unless given.
   */
  lemma ParsedDefaults(e: Element, index: Option<nat>)
    ensures var n := Parsed(e, index);
      && n.id == (if GetAttribute(e, "id").GetOr("") == "" then GenerateId(e.tag, index) else e.attrs["id"])
      && (TextOf(e, "title") != "" ==> n.title == TextOf(e, "title"))
      && (TextOf(e, "title") == "" && GetAttribute(e, "title").GetOr("") != "" ==> n.title == e.attrs["title"])
      && (TextOf(e, "title") == "" && GetAttribute(e, "title").GetOr("") == "" ==> n.title == e.tag)
      && n.nodeType == Lower(e.tag)
      && n.status == (if GetAttribute(e, "status").GetOr("") == "" then "active" else e.attrs["status"])
      && n.priority == (if GetAttribute(e, "priority").GetOr("") == "" then "P2" else e.attrs["priority"])
  {
  }

  /**
   * The nested import makes one node per element outside the text-holding children, exactly
   * as many as the flat import of ui/app.js makes for the same document.
   */
  lemma ParsedCount(e: Element, index: Option<nat>)
    ensures |Nodes(Parsed(e, index))| == UiImport.Count(e)
    decreases e, 1
  {
    ParsedUpToCount(e.children, |e.children|);
  }

  lemma {:induction false} ParsedUpToCount(cs: seq<Element>, n: nat)
    requires n <= |cs|
    ensures |Forest(ParsedUpTo(cs, n))| + UiImport.CountFrom(cs, n) == UiImport.CountFrom(cs, 0)
    decreases cs, 0, n
  {
    if n > 0 {
      ParsedUpToCount(cs, n - 1);
      ParsedAtCount(cs, n - 1);
      ForestAppend(ParsedUpTo(cs, n - 1), ParsedAt(cs, n - 1));
    }
  }

  lemma ParsedAtCount(cs: seq<Element>, i: nat)
    requires i < |cs|
    ensures UiImport.CountFrom(cs, i) == |Forest(ParsedAt(cs, i))| + UiImport.CountFrom(cs, i + 1)
    decreases cs, 0, 0
  {
    if !UiImport.Reserved(cs[i].tag) {
      ParsedCount(cs[i], Some(i));
      assert Forest(ParsedAt(cs, i)) == Nodes(Parsed(cs[i], Some(i))) + Forest([]);
    }
  }

  /** The first parsed child is the first element child, when that one is not a text tag. */
  lemma {:induction false} FirstParsedChild(cs: seq<Element>, n: nat)
    requires 0 < n <= |cs| && !UiImport.Reserved(cs[0].tag)
    ensures ParsedUpTo(cs, n) != [] && ParsedUpTo(cs, n)[0] == Parsed(cs[0], Some(0))
    decreases n
  {
    if n > 1 {
      FirstParsedChild(cs, n - 1);
    }
  }

  /**
   * Generated ids are not unique across the tree: the first children of two different parents
   * get the same id whenever they share a tag and carry no `id` attribute.
   */
  lemma CousinIdsCollide(a: Element, b: Element, ia: Option<nat>, ib: Option<nat>)
    requires a.children != [] && b.children != []
    requires a.children[0].tag == b.children[0].tag && !UiImport.Reserved(a.children[0].tag)
    requires "id" !in a.children[0].attrs && "id" !in b.children[0].attrs
    ensures Parsed(a, ia).children != [] && Parsed(b, ib).children != []
    ensures Parsed(a, ia).children[0].id == Parsed(b, ib).children[0].id == GenerateId(a.children[0].tag, Some(0))
  {
    FirstParsedChild(a.children, |a.children|);
    FirstParsedChild(b.children, |b.children|);
  }

  // ---------------------------------------------------------------- matchesSearch, getNodeTypeDisplay

  /**
   * `matchesSearch(node)` with the already lower-cased search term: every node matches the
   * empty term, otherwise the lower-cased title, id, description and summary, joined by
   * spaces, must contain the term.
   */
  predicate Matches(term: string, n: TreeNode)
  {
    term == "" || Contains(Lower(Join([n.title, n.id, n.description, n.summary], " ")), term)
  }

  /** A term found in any one of the four fields, lower-cased, makes the node match. */
  lemma MatchesAnyField(term: string, n: TreeNode)
    ensures (Contains(Lower(n.title), term) || Contains(Lower(n.id), term) ||
             Contains(Lower(n.description), term) || Contains(Lower(n.summary), term)) ==> Matches(term, n)
  {
    var s := " ";
    var j3 := n.description + s + n.summary;
    var j2 := n.id + s + j3;
    var j1 := n.title + s + j2;
    assert Join([n.summary], s) == n.summary;
    assert Join([n.description, n.summary], s) == j3;
    assert Join([n.id, n.description, n.summary], s) == j2;
    assert Join([n.title, n.id, n.description, n.summary], s) == j1;
    LowerAppend(n.title + s, j2);
    LowerAppend(n.title, s);
    LowerAppend(n.id + s, j3);
    LowerAppend(n.id, s);
    LowerAppend(n.description + s, n.summary);
    LowerAppend(n.description, s);
    ContainsAppend(Lower(n.description), Lower(s), term);
    ContainsAppend(Lower(n.description + s), Lower(n.summary), term);
    ContainsAppend(Lower(n.id), Lower(s), term);
    ContainsAppend(Lower(n.id + s), Lower(j3), term);
    ContainsAppend(Lower(n.title), Lower(s), term);
    ContainsAppend(Lower(n.title + s), Lower(j2), term);
  }

  /** `getNodeTypeDisplay(type)`: a fixed table, else the upper-cased type. */
  function TypeDisplay(nodeType: string): string
  {
    if nodeType == "product" then "PRODUCT"
    else if nodeType == "goal" then "GOAL"
    else if nodeType == "job" then "JOB"
    else if nodeType == "work_item" then "WORK ITEM"
    else if nodeType == "work" then "WORK"
    else Upper(nodeType)
  }

  /** The table only departs from upper-casing for `work_item`, which reads `WORK ITEM`. */
  lemma TypeDisplayIsUpper(nodeType: string)
    ensures nodeType != "work_item" ==> TypeDisplay(nodeType) == Upper(nodeType)
    ensures nodeType == "work_item" ==> TypeDisplay(nodeType) == "WORK ITEM"
  {
  }
}
