# Product tree: a verified model of its importers, exporters, diagnostics and tree state

The product tree tool keeps a hierarchy of products, goals, jobs and work items as a list of
nodes and a list of parent→child edges. This project models the part of it that turns one
representation into another and answers questions about the tree:

- the XML importers of the four browser front ends:
  - the standalone app (`ui/app.js`);
  - the flat viewers (`web/app.js`, `web-ai/app.js`);
  - the nested viewer (`web-deploy/public/app.js`);
- the XML and Jira CSV exporters and the escaping they rely on;
- the browser-side analyses and debug scans;
- the tree state the front ends keep: expanded ids, selection, adding and deleting nodes, the
  per-type counts;
- the Python service (`dot/main.py`):
  - its debug scan and XML export;
  - the context prompt it builds for the language model;
  - the keyword routing of chat messages and the improvement suggestions;
  - the records `create_node` and `update_node` build.

The model follows the source's own form:

- Code that walks a list step by step is a `method` with a loop, proved equal to a reference
  function. Properties are then proved about that function: round trips through a CSV reader or
  an XML unescaper, first-match characterisations, counting identities, acyclicity.
- Pure helpers are functions.
- The front ends' managers are classes whose fields the methods update.
- XML documents are an abstract element tree (`Xml.Element`); parsing the text is not modelled.

Modules:

| module | models |
|---|---|
| `Wrappers`, `Strings`, `Seqs` | options, string helpers (`toLowerCase`, `join`, `includes`, `trim`), first-occurrence dedupe and order |
| `Xml` | the element tree, `getAttribute(..) \|\| default`, `querySelector`, `getElementsByTagName` |
| `Escaping`, `Csv` | the XML escape chain and its inverse, the CSV cell quoting of each exporter, and a reference CSV reader |
| `Expansion`, `Routing` | the expanded-id toggle, first-keyword routing |
| `UiModel`, `UiImport`, `UiExport`, `UiCsv`, `UiState` | `ui/app.js` |
| `FlatModel`, `FlatExport`, `FlatCsv`, `FlatView`, `FlatAnalysis`, `FlatDepth`, `FlatDebug`, `FlatCycles` | `web/app.js` and `web-ai/app.js` |
| `DeployTree`, `DeployState` | `web-deploy/public/app.js` |
| `DotModel`, `DotDebug`, `DotXml`, `DotChat` | `dot/main.py` |

## Model

| member | source | states |
|---|---|---|
| Escaping.EscapeXmlGuarded | ui/app.js:608-615 | a falsy (empty) argument yields '' before any replacement runs |
| Escaping.EscapeXmlIsCharwise | web/app.js:609-616 | the five chained global replacements escape every character independently, as one left-to-right pass would |
| Escaping.EscapeXmlHasNoMarkup | web/app.js:609-616 | escaped text holds no raw `<`, `>`, `"` or `'` |
| Escaping.EscapeXmlRoundTrip | web/app.js:609-616 | decoding the five entities in the escaped text gives the input back, because `&` is replaced first |
| Escaping.EscapeCsvSpec | ui/app.js:617-624 | '' for ''; the value itself when it holds no comma, quote or newline; otherwise the value in quotes with its quotes doubled |
| Csv.EscapeCsvReadsBack | ui/app.js:617-624 | reading a field written by `escapeCSV` back with the CSV reader yields the value, the empty value included |
| Csv.QuoteCellReadsBack | web/app.js:563 | an always-quoted cell with doubled quotes reads back as the cell |
| Csv.ReadDocumentRoundTrip | web/app.js:562-564 | rows written cell by cell with `,` and `\n` read back as exactly those rows |
| Csv.ReadHeadedDocument | ui/app.js:546-574 | a header joined with a bare `join(',')`, followed by escaped rows, reads back as the header followed by the rows |
| Xml.QuerySelectorIsFirstDescendant | ui/app.js:167-170 | `querySelector(tag)` is `null` exactly when no proper descendant has the tag, otherwise the first one in document order |
| Xml.AttrOr | web-deploy/public/app.js:517-530 | `getAttribute(name) \|\| d`: the default replaces an absent and an empty attribute, otherwise the attribute's value |
| Xml.DocumentElementsByTag | web/app.js:109-110 | `getElementsByTagName` yields exactly the elements of the document (the document element and its descendants) that carry the tag |
| Xml.DocumentElementsByTagOrder | web/app.js:109-110 | the matches come in tree order: the document element first when it carries the tag, then each child's subtree in turn |
| Expansion.Toggled | ui/app.js:403-410 | the toggled id's membership flips and no other id's changes |
| Expansion.ToggleTwice | ui/app.js:403-410 | toggling the same id twice restores the set |
| Routing.FirstRoute | dot/main.py:73-105 | the target of the first route whose keywords the text mentions; the default when none matches |
| UiModel.FindById | ui/app.js:949-952 | `nodes.find`: `None` exactly when no node has the id, otherwise the first node that has it |
| UiModel.FirstEdgeTo | ui/app.js:600-602 | `edges.find(e => e.to === id)`: `None` exactly when no edge enters the id, otherwise the first one that does |
| UiImport.MakeNodeDefaults | ui/app.js:105-134 | the node built for an element: id `node_k`; status `not_started` and priority `P2` when the attribute is absent or empty; team and owner '' when absent; title, description and summary from the first descendant with that tag; `job_data` present exactly for a `job` element |
| UiImport.ImportStructure | ui/app.js:93-165 | node `node_{j+1}` is the node built from the `j`-th non-reserved element of the pre-order walk from the document element (distinct ids, the document element first); every edge is `contains`, and edge `edge_{j+1}` enters node `j+2` from the earlier node built for an element that has node `j+2`'s element among its children, so there is one edge fewer than nodes |
| UiImport.Importer.constructor | ui/app.js:100-101 | the counter starts at 1 with no nodes and no edges |
| UiImport.Importer.ParseNode | ui/app.js:104-157 | the recursive `parseNode`: the node returned and the new state are exactly one step of the pre-order walk from the old state |
| UiImport.ParseXmlToTree | ui/app.js:93-165 | the tree returned is the walk's result from the document element |
| UiExport.RootNodes | ui/app.js:477-479 | a node is a root exactly when no edge enters it |
| UiExport.LastById | ui/app.js:466-469 | `nodeMap.get(id)`: `None` exactly when no node has the id; otherwise a node with that id (the last one) |
| UiExport.ChildIds | ui/app.js:471-475 | the child list of an id holds exactly the targets of the edges leaving it |
| UiExport.AttrPairsSpec | ui/app.js:485-501 | an attribute is written exactly when its field is non-empty, except that `effort`, `start` and `end` also need a `job` node with job data; it carries the field's value |
| UiExport.TextElementEscaped | ui/app.js:506-510 | a text child is `<tag>payload</tag>` where the payload has no raw markup character and unescapes to the field |
| UiExport.BuildNodeMap | ui/app.js:466-469 | after the first loop both maps have exactly the node ids as keys, `nodeMap` holds the last node with each id and every child list is empty |
| UiExport.FillChildren | ui/app.js:471-475 | after the edge loop every key's list is the targets of its outgoing edges in edge order; no key is added |
| UiExport.EmitNode | ui/app.js:483-529 | `generateNodeXML` appends exactly the element text of the node and its descendants |
| UiExport.EmitChildren | ui/app.js:513-516 | the child loop appends the elements of the child ids that name a node, in order, and skips the others |
| UiExport.EmitRoots | ui/app.js:531-533 | every root is written at depth 1, in node order |
| UiExport.GenerateXml | ui/app.js:461-537 | the document is the declaration, `<product_tree>`, the roots' elements and `</product_tree>` |
| UiCsv.FirstProduct | ui/app.js:597-599 | the first id on a chain whose node is a `product`: `None` exactly when there is none |
| UiCsv.ProductWalkIsFirstProduct | ui/app.js:588-606 | the upward walk answers with the first product on the chain of first parents |
| UiCsv.UpChainStart | ui/app.js:593-595 | the chain is empty exactly when the walk stops at once (null or visited id), otherwise it starts at the given id |
| UiCsv.UpChainFresh | ui/app.js:593-596 | the chain never holds `null` or an id visited before it started |
| UiCsv.UpChainDistinct | ui/app.js:593-596 | no id occurs twice on the chain, so the `visited` set stops every cycle |
| UiCsv.UpChainLinks | ui/app.js:600-602 | each id after the first is the source of the first edge into the id before it |
| UiCsv.UpChainEnd | ui/app.js:593-602 | the chain ends where the parent edge is missing or leads to `null` or to an id already seen |
| UiCsv.FindProductForNode | ui/app.js:588-606 | the loop with its `visited` set returns the product the reference walk finds |
| UiCsv.JiraTypeSpec | ui/app.js:577-586 | `product` and `goal` map to Initiative, `job` to Epic, every other type to Story |
| UiCsv.BeforeFirst | ui/app.js:565-566 | `split('T')[0]` is the longest prefix without a `T`, which is followed by a `T` when shorter than the text |
| UiCsv.JiraCsvFails | ui/app.js:565-566 | the export throws exactly when some node's non-empty date is not a valid date |
| UiCsv.JiraCellsSpec | ui/app.js:553-567 | twelve cells per node; the mapped type first; reporter `admin`; labels are the type, and the product's title after a comma when there is one; the date cells hold no `T` |
| UiCsv.JiraCsvReadsBack | ui/app.js:539-575 | when no date throws, reading the export back gives the header and then one row per node, in node order, each holding exactly that node's cells |
| UiCsv.HeaderIsPlain | ui/app.js:540-544 | no header cell needs quoting, so the bare `join(',')` of the header reads back |
| UiCsv.NodeCells | ui/app.js:553-568 | the cells built for one node, or the date error |
| UiCsv.EmitRows | ui/app.js:551-571 | the `forEach` pushes the header line, then one line per node in order, and stops with the error of the first failing node |
| UiCsv.GenerateJiraCsv | ui/app.js:539-575 | the document is the lines joined with `\n`, or the error |
| UiState.WithoutNode | ui/app.js:1111 | a node survives exactly when its id differs |
| UiState.WithoutEdgesAt | ui/app.js:1112 | an edge survives exactly when neither end is the id |
| UiState.WithoutAbsentNode | ui/app.js:1111 | deleting an id no node carries leaves the nodes as they were |
| UiState.CountsSpec | ui/app.js:438-445 | the five initial keys stay; a key is present exactly when initial or counted; every key other than `total` counts the nodes whose type plus `s` is the key; `total` counts every node |
| UiState.KeyCountIsTypeCount | ui/app.js:441-442 | the plural key of a type counts exactly the nodes of that type |
| UiState.WorkItemsNotCounted | ui/app.js:429-445 | see Findings: a `work_item` node is counted under `work_items`, leaving `workItems` at 0 |
| UiState.FixedCountsWorkItems | ui/app.js:429-445 | corrected counting: `workItems` counts the `work_item` nodes and `products` the products |
| UiState.ProductTreeManager.constructor | ui/app.js:3-12 | no tree, no expanded id, no selection, nothing edited |
| UiState.ProductTreeManager.FindNodeById | ui/app.js:949-952 | `null` without a tree; otherwise a node of the tree with that id, `null` only when no node has it |
| UiState.ProductTreeManager.ToggleNode | ui/app.js:403-410 | the expanded set becomes the toggled set; nothing else changes |
| UiState.ProductTreeManager.ExpandAll | ui/app.js:412-417 | every node id is added; without a tree reading `nodes` throws and nothing changes |
| UiState.ProductTreeManager.CollapseAll | ui/app.js:419-422 | the expanded set is emptied; nothing else changes |
| UiState.ProductTreeManager.GetNodeCounts | ui/app.js:438-445 | the counts object after visiting every node in order; the throw without a tree |
| UiState.ProductTreeManager.SelectNode | ui/app.js:885-889 | the id becomes the selection; nothing else changes |
| UiState.ProductTreeManager.EditNode | ui/app.js:954-960 | only an id that names a node becomes the edited one |
| UiState.ProductTreeManager.AddChildNode | ui/app.js:1065-1101 | nothing happens without the parent; otherwise one new node `node_<stamp>` and one edge parent→new are appended, and the new node is selected and edited |
| UiState.ProductTreeManager.DeleteNodeConfirm | ui/app.js:1103-1119 | after confirmation and a successful delete, the node and every edge touching it are dropped and the selection cleared; otherwise nothing changes |
| UiState.AddedChildIsLinked | ui/app.js:1065-1101 | after adding a child with a fresh id, that id finds the new node, the only edge into it leaves the parent, and there is one more node and one more edge |
| UiState.DeleteLeavesNoTrace | ui/app.js:1111-1112 | after a delete no node has the id and no edge touches it, and every other node and edge remains |
| FlatModel.OrDefault | web/app.js:113-118 | `x \|\| d` on a string: the default exactly for the empty string |
| FlatModel.FlatDefaults | web/app.js:111-129 | a node's status is `active` when missing or empty, its id absent exactly when the attribute is, its title the first `title` descendant's text or ''; an edge's type is `contains` when missing or empty |
| FlatModel.ParseXmlToTree | web/app.js:104-134 | one node per `<node>` element and one edge per `<edge>` element, each in document order |
| FlatModel.Targets | web/app.js:466-468 | the targets of an id's outgoing edges, and nothing else |
| FlatModel.FindNode | web/app.js:195 | `nodes.find`: `undefined` exactly when no node has the id, otherwise the first one that has it |
| FlatModel.IdsOf | web/app.js:279 | the ids of the node list, and nothing else |
| FlatExport.EmitNode | web/app.js:523-535 | the node block appends exactly the node's element text |
| FlatExport.EmitEdge | web/app.js:540-542 | the edge block appends exactly the one-line edge element |
| FlatExport.EmitNodes | web/app.js:522-536 | the node loop appends every node's element in order |
| FlatExport.EmitEdges | web/app.js:539-543 | the edge loop appends every edge's element in order |
| FlatExport.GenerateXml | web/app.js:518-547 | the document is the reference export text of the tree |
| FlatExport.ReadFlatXmlRoundTrip | web/app.js:518-547 | reading the export back gives every node and edge in order with the same fields, as long as no attribute value holds a `"` |
| FlatExport.ReadFlatXmlIdentity | web/app.js:518-547 | with every id, `from` and `to` present and no `"` in attribute values, the export reads back as the tree itself |
| FlatCsv.MapIssueTypeSpec | web/app.js:567-576 | `Product` and `Goal` map to Initiative, `Job` to Epic, `Work Item` to Story, anything else to Task |
| FlatCsv.ProductEdge | web/app.js:582-585 | `edges.find`: `undefined` exactly when no edge into the node leaves a `Product` node, otherwise the first such edge |
| FlatCsv.NodeLabelsSpec | web/app.js:578-595 | the labels are the type alone without a product edge, else the type, a comma and the title of the product the first such edge leaves |
| FlatCsv.NodeRows | web/app.js:553-560 | one four-cell row per node, in node order |
| FlatCsv.CollectRows | web/app.js:550-560 | the rows are the header followed by the node rows |
| FlatCsv.GenerateJiraCsv | web/app.js:549-565 | the sheet is the reference CSV text of the rows |
| FlatCsv.JiraCsvReadsBack | web/app.js:549-565 | read back with a CSV reader the sheet is the header and one row per node, every cell as it was |
| FlatView.TopLevel | web/app.js:143-152 | the top level is the nodes that match the search and have no incoming edge |
| FlatView.Lookups | web/app.js:195 | each target is looked up with `find`, in edge order |
| FlatView.KeepFound | web-ai/app.js:271-273 | the filter keeps exactly the found children that match the search |
| FlatView.ShownChildrenSpec | web-ai/app.js:268-273 | a node is shown under an id exactly when it matches and `find` returns it for a target of the id; with an empty term and no dangling edge there is one child per edge |
| FlatView.KeepMatching | web/app.js:196-198 | on found children the web filter keeps exactly those that match |
| FlatView.WebShownChildrenSpec | web/app.js:193-198 | see Findings: the web filter throws exactly when an outgoing edge is dangling, and otherwise shows what web-ai shows |
| FlatView.DanglingEdgeThrows | web/app.js:193-198 | see Findings: one edge to a missing id makes web/app.js throw where web-ai/app.js draws nothing |
| FlatView.ProductTreeManager.constructor | web/app.js:3-6 | no tree, nothing expanded, an empty search |
| FlatView.ProductTreeManager.SetSearchTerm | web/app.js:47-50 | the search term becomes the lower-cased input; nothing else changes |
| FlatView.ProductTreeManager.ToggleNode | web/app.js:269-276 | the id's membership flips; nothing else changes |
| FlatView.ProductTreeManager.ExpandAll | web/app.js:278-281 | every node id is added; without a tree reading `nodes` throws and nothing changes |
| FlatView.ProductTreeManager.CollapseAll | web/app.js:283-286 | nothing stays expanded; nothing else changes |
| FlatAnalysis.Roots | web/app.js:402-404 | the nodes without an incoming edge |
| FlatAnalysis.Orphans | web/app.js:412-416 | the nodes with neither an outgoing nor an incoming edge |
| FlatAnalysis.OrphansAreRoots | web/app.js:412-416 | every orphan is a root, and there are no more orphans than roots |
| FlatAnalysis.InCount | web/app.js:427 | the incoming edge count is positive exactly when some edge enters the id |
| FlatAnalysis.OutCount | web/app.js:428 | the outgoing edge count is positive exactly when some edge leaves the id |
| FlatAnalysis.Dependencies | web/app.js:425-441 | the nodes with more than two incoming or more than five outgoing edges, each with both counts |
| FlatAnalysis.Parents | web/app.js:482-484 | the nodes with an outgoing edge |
| FlatAnalysis.AverageChildrenSpec | web/app.js:481-493 | the ratio is `0` exactly when no node has an outgoing edge; otherwise it is at least one, and over distinct ids its numerator counts the edges leaving a node |
| FlatAnalysis.ChildSumCountsEdges | web/app.js:488-490 | over nodes with distinct ids the sum of outgoing counts counts each edge leaving one of them once |
| FlatAnalysis.SameChildSum | web/app.js:488-490 | summing outgoing edges over the parents equals summing over all nodes |
| FlatAnalysis.Repeats | web/app.js:391 | a title is kept at a position exactly when an earlier position holds it |
| FlatAnalysis.IdsWithTitle | web/app.js:654 | the ids of the nodes carrying the title |
| FlatAnalysis.DuplicateTitlesSpec | web/app.js:389-399 | every title carried by two or more nodes is reported once and no other is; each has at least two ids |
| FlatAnalysis.SortedTitlesSpec | web/app.js:646-657 | `[...new Set(titles)].sort()`: every title once, in code-unit order |
| FlatDepth.HeightSpec | web/app.js:465-479 | the height is 0 exactly without outgoing edges; otherwise one more than some child's and at least one more than every child's |
| FlatDepth.GetNodeDepth | web/app.js:465-479 | the recursion returns the current depth plus the height below the id |
| FlatDepth.DeepestOf | web/app.js:456-462 | the fold of `Math.max` gives the largest height of the given roots, 0 for none |
| FlatDepth.CalculateMaxDepth | web/app.js:451-463 | the largest height of a root, 0 without roots |
| FlatDebug.DuplicateGroups | web/app.js:652-655 | one group per duplicate title, with the ids of the nodes carrying it |
| FlatDebug.DuplicateGroupTitles | web/app.js:639-655 | every group's title is repeated, and no title has two groups |
| FlatDebug.RepeatedTitleGrouped | web/app.js:639-655 | every repeated title has a group |
| FlatDebug.DuplicateGroupIds | web/app.js:654 | a group lists every node carrying its title, at least two |
| FlatDebug.RootTitlesSpec | web/app.js:633-651 | the root titles are the titles of the nodes without an incoming edge |
| FlatDebug.PerformDebugAnalysis | web/app.js:628-659 | the counts, the root titles, the duplicate groups, circular records that are all cycles (none on acyclic edges) and the sorted titles |
| FlatDebug.RouteIsFirstMatch | web/app.js:366-387 | the analysis chosen is the first route, in the listed order, whose keyword the lower-cased question contains |
| FlatDebug.PerformBrowserAnalysis | web/app.js:366-449 | the chosen analysis's values: the duplicate titles, the root count with the maximum depth and average children, the orphans, the high-dependency nodes, or the totals and distinct types |
| FlatCycles.Dfs | web/app.js:666-686 | the stack comes back as it was, every record closes a cycle, and on acyclic edges nothing is recorded |
| FlatCycles.FindCircularReferences | web/app.js:661-695 | every recorded path is a walk ending at an id it already passed; acyclic edges give no record |
| DeployTree.CountNodes | web-deploy/public/app.js:567-575 | the count is the number of nodes of the subtree |
| DeployTree.FirstWithIdSpec | web-deploy/public/app.js:279-289 | the pre-order search finds nothing exactly when no node carries the id, otherwise the first one that does |
| DeployTree.FindNodeById | web-deploy/public/app.js:279-289 | `null` without a tree, otherwise the first node in pre-order with the id |
| DeployTree.FindInTree | web-deploy/public/app.js:281-288 | the recursion over a present node: the first node in pre-order with the id |
| DeployTree.FindParent | web-deploy/public/app.js:733-744 | each child in turn: the node when the child has the id, else what the search below the child finds |
| DeployTree.FindParentSpec | web-deploy/public/app.js:733-744 | nothing is found exactly when no proper descendant has the id; what is found is a node of the tree with a child carrying the id |
| DeployTree.FirstParentOfSpec | web-deploy/public/app.js:736-741 | the first parent–child pair whose child has the id: none exactly when no pair has it |
| DeployTree.LinkChildrenAreDescendants | web-deploy/public/app.js:733-744 | the children visited by the search are the proper descendants in pre-order |
| DeployTree.SiblingIdsDiffer | web-deploy/public/app.js:557-565 | siblings with the same tag get different generated ids |
| DeployTree.ParseElement | web-deploy/public/app.js:507-547 | the node built is the reference parse of the element |
| DeployTree.ParseChildren | web-deploy/public/app.js:535-544 | the child loop keeps, in order, the parse of every element child that is not a text tag |
| DeployTree.ParseXmlToTree | web-deploy/public/app.js:504-550 | `null` exactly when the document element is a text tag, otherwise its parse |
| DeployTree.ParsedDefaults | web-deploy/public/app.js:516-532 | id from the attribute or generated; title from the `title` child, else from a non-empty `title` attribute, else the tag; type the lower-cased tag; status `active` and priority `P2` unless given |
| DeployTree.ParsedCount | web-deploy/public/app.js:504-550 | the nested import makes as many nodes as the flat import of ui/app.js makes for the same document |
| DeployTree.CousinIdsCollide | web-deploy/public/app.js:557-565 | the first children of two parents get the same generated id when they share a tag and carry no id |
| DeployTree.MatchesAnyField | web-deploy/public/app.js:226-237 | a term found in the lower-cased title, id, description or summary makes the node match |
| DeployTree.TypeDisplayIsUpper | web-deploy/public/app.js:577-586 | the display name is the upper-cased type, except `WORK ITEM` for `work_item` |
| DeployState.WithinIsNodes | web-deploy/public/app.js:476-494 | the depth-limited walk keeps only nodes of the tree, and all of them on a shallow enough tree |
| DeployState.Capped | web-deploy/public/app.js:668-720 | the first `cap` entries in order, then one note `... and N more` exactly when some were left out, with N the number left out |
| DeployState.Siblings | web-deploy/public/app.js:703-704 | the parent's other children |
| DeployState.ProductTreeManager.constructor | web-deploy/public/app.js:1-7 | no tree, no selection, an empty search, nothing expanded |
| DeployState.ProductTreeManager.SetSearchTerm | web-deploy/public/app.js:68-71 | the search term becomes the lower-cased input; nothing else changes |
| DeployState.ProductTreeManager.ToggleNode | web-deploy/public/app.js:239-246 | the id's membership flips; nothing else changes |
| DeployState.ProductTreeManager.ExpandAll | web-deploy/public/app.js:248-261 | nothing without a tree, else every id of the tree is added |
| DeployState.ProductTreeManager.ExpandNode | web-deploy/public/app.js:251-256 | the node's id and every id below it are added |
| DeployState.ProductTreeManager.CollapseAll | web-deploy/public/app.js:263-267 | nothing stays expanded |
| DeployState.ProductTreeManager.SelectItem | web-deploy/public/app.js:269-277 | the first node with the id becomes the selection; nothing changes without one |
| DeployState.ProductTreeManager.ClearCache | web-deploy/public/app.js:846-852 | no tree, no selection, nothing expanded |
| DeployState.ProductTreeManager.LoadTree | web-deploy/public/app.js:470-494 | the parsed tree replaces the old one, and the three levels below the root are expanded |
| DeployState.ProductTreeManager.ExpandFirstLevels | web-deploy/public/app.js:476-494 | the children, grandchildren and great-grandchildren of the root are added |
| DeployState.ProductTreeManager.ExpandChild | web-deploy/public/app.js:478-492 | a child's id and the ids two levels below it are added |
| DeployState.ProductTreeManager.ExpandGrandchild | web-deploy/public/app.js:481-490 | a grandchild's id and its children's ids are added |
| DeployState.ProductTreeManager.BuildDetailedContext | web-deploy/public/app.js:645-725 | `No item selected` without a selection; the throw without a tree; otherwise the selection with its first five children and its parent with three siblings |
| DotDebug.Sources | dot/main.py:707-709 | `parents[id]`: the sources of the edges into the id |
| DotDebug.BuildLinks | dot/main.py:699-709 | the keys are the edges' sources and targets; every child list holds the targets and every parent list the sources, in edge order |
| DotDebug.RootIds | dot/main.py:712 | the ids of nodes that no edge leads to |
| DotDebug.ScanTitles | dot/main.py:715-725 | the duplicates are the reference entries, and `node_titles` keeps each title once in first-seen order |
| DotDebug.DuplicatesAccountForEveryNode | dot/main.py:715-725 | every node either lists a new title or adds one duplicate entry |
| DotDebug.DuplicateEntryPairsFirstAndLater | dot/main.py:719-723 | every entry pairs the first node with its title and a later one |
| DotDebug.RevisitScanFrom | dot/main.py:729-739 | see Findings: the loop as written reports a start as soon as any id is popped twice |
| DotDebug.RevisitScanFindsCycles | dot/main.py:729-739 | the loop as written reports every node on a cycle |
| DotDebug.RevisitCoversCycleScan | dot/main.py:729-739 | from any reachable scan state, whatever the corrected loop reports the loop as written reports too |
| DotDebug.RankedHasNoCycle | dot/main.py:728-739 | on edges with a rank that falls along each edge no id lies on a cycle, so the corrected scan reports nothing |
| DotDebug.DiamondFlagged | dot/main.py:729-739 | see Findings: on an acyclic diamond the loop as written reports a node, the corrected one does not |
| DotDebug.CycleScanFrom | dot/main.py:729-739 | the corrected loop returns the reference scan |
| DotDebug.CycleScanIff | dot/main.py:729-739 | the corrected scan reports a start exactly when it lies on a cycle |
| DotDebug.CycleIds | dot/main.py:728-739 | the ids, in node order, of the nodes on a cycle |
| DotDebug.CircularReferences | dot/main.py:728-739 | the corrected loop over all nodes reports exactly the nodes on a cycle, in node order |
| DotDebug.LeafCount | dot/main.py:750 | at most the number of nodes |
| DotDebug.HierarchyBalance | dot/main.py:748-751 | with distinct ids and every edge leaving a node, leaves plus nodes with children is the node count |
| DotDebug.DebugProductTree | dot/main.py:685-757 | the error without a tree, the `KeyError` text without ids, and otherwise every field of the report; the circular references are those of the scan as written and include every node on a cycle |
| DotDebug.RevisitIds | dot/main.py:728-739 | see Findings: an id is listed exactly when a node carries it and the scan as written reports it |
| DotDebug.RevisitReferences | dot/main.py:728-739 | the loop over all nodes with the scan as written yields the reported ids in node order |
| DotDebug.CycleIdsReported | dot/main.py:728-739 | every node on a cycle is among the ids the scan as written reports |
| DotXml.LastWithId | dot/main.py:767 | `node_map[id]`: absent exactly for an id no node carries, otherwise a node with the id |
| DotXml.KeyOrder | dot/main.py:767 | the keys are the node ids, each once |
| DotXml.BuildNodeMap | dot/main.py:767 | the map's keys are the node ids in first-seen order and each maps to the last node with the id |
| DotXml.LinkedChildren | dot/main.py:776-784 | the targets of the edges from the id whose both ends name nodes |
| DotXml.FillLinks | dot/main.py:772-784 | every node id keeps a child list, of its linked targets in edge order; the parents are the targets of linked edges |
| DotXml.RootsOf | dot/main.py:787 | the keys without a parent, each once |
| DotXml.RootsSpec | dot/main.py:767-787 | the roots are the node ids no linked edge reaches, each once |
| DotXml.AttrWritten | dot/main.py:795-807 | an attribute is written exactly when its value is truthy, with that value |
| DotXml.AttrOrder | dot/main.py:795-805 | the attributes come as status, priority, team, owner, effort |
| DotXml.BuildXmlNode | dot/main.py:789-832 | the recursion returns the reference element text of the node and its linked descendants |
| DotXml.BuildChildren | dot/main.py:820-821 | each child's element, appended in edge order |
| DotXml.BuildRoots | dot/main.py:838-839 | each root's element at depth 1 |
| DotXml.GetProductTreeXml | dot/main.py:759-852 | the prolog, every root's element at depth 1, and the closing tag |
| DotChat.TallySpec | dot/main.py:515-522 | a counted dict has each value once in first-seen order with its number of occurrences, and the counts add up to the number of values |
| DotChat.CountNodeFields | dot/main.py:515-522 | the three counters hold the counts of the nodes' types, statuses and priorities |
| DotChat.SummaryAccounts | dot/main.py:504-538 | each distribution accounts for every node once; the sample is the first five nodes at most, and the `more` count is the rest |
| DotChat.SampleBlock | dot/main.py:532-538 | the heading, one line per sampled node, then the count of the others |
| DotChat.SummaryBlock | dot/main.py:504-538 | the header, the three distributions and the sample |
| DotChat.SectionIff | dot/main.py:500-504 | the guidelines come with any tree, the summary only with a tree that has nodes |
| DotChat.PromptQuotesMessage | dot/main.py:494-498 | the prompt quotes the user's message verbatim |
| DotChat.BuildContextPrompt | dot/main.py:491-572 | the introduction, the section the context calls for, and the response format |
| DotChat.TreeKeywordSuffices | dot/main.py:79 | mentioning `product tree` or `tree` is mentioning `tree` |
| DotChat.RouteIsFirstMatch | dot/main.py:73-105 | a message with `tree` goes to the first tree handler whose keyword it holds, any other to the first topic handler |
| DotChat.TreeBranchIsFirstMatch | dot/main.py:79-87 | inside the tree branch: analyze or analysis first, then suggest or recommend, then status, else the general tree reply |
| DotChat.TopicBranchIsFirstMatch | dot/main.py:89-105 | outside it: goal, then job or epic, then work item or story, then priority, then team, else the general reply |
| DotChat.ParagraphsEmptyIff | dot/main.py:163-189 | no paragraph is written exactly when every node passes every check |
| DotChat.SuggestImprovementsReport | dot/main.py:153-191 | the request to import without a tree; otherwise the heading, each failed check's paragraph in order, and the closing note exactly when nothing failed |
| DotChat.Put | dot/main.py:886-890 | a known key keeps its place and takes the value, a new key is appended, every other key is unchanged |
| DotChat.MergeSpec | dot/main.py:886-890 | `{**base, **updates}`: the base's keys then the new keys; a key of the updates reads its value there, any other the base's |
| DotChat.CreateNodeSpec | dot/main.py:855-878 | eleven distinct keys; status and priority never empty (`Not Started` and `Medium` by default); the other fields the request's, `null` when left out |
| DotChat.UpdateNodeSpec | dot/main.py:881-896 | `id` and `updated_at` first unless the updates carry them, then the updates' keys; each key reads the updates' value when it has one |

## Left out

- The DOM, HTML rendering, modals, event wiring, downloads and the markdown renderer are presentation only.
- The browser's XML parser is not modelled; the importers take the element tree `Xml.Element`.
- Network calls are left out. This covers the fetch-based CRUD and chat of the front ends, and `call_local_model` and the chat endpoint of the service.
- The Express and axios proxies, the process launcher and the pm2 configuration are plumbing and are left out.
- Floating point is not modelled. The average-children ratio is kept as an integer numerator and denominator (`FlatAnalysis.AverageChildren`), and the percentages and `toFixed` strings of the analysis texts are left out.
- Clocks are parameters. `toISOString` is a function argument that returns nothing where JavaScript throws a RangeError, and `Date.now()`/`datetime.now()` stamps are string arguments.
- The `_analyze_*` and `_general_response` reply texts of the service are left out. Their routing is modelled (`DotChat.Route`), and `_suggest_improvements` is modelled.
- The reply texts of the browser analyses are left out. `FlatDebug.PerformBrowserAnalysis` returns the values the text is built from.
- `JSON.stringify` of the detailed context is not modelled. `DeployState.ProductTreeManager.BuildDetailedContext` returns the structured context.
- The HTTP wrappers of the service are not modelled. These are the `{"success": True, ...}` envelopes and the `HTTPException` paths.
- The `Response` of `get_product_tree_xml` is not modelled. The name is never imported in dot/main.py, so the endpoint in fact answers with an error reply; only the text it builds is modelled.
- DotXml.GetProductTreeXml: requires `Keyed` (every node carries `id`, `type` and `title`) and `Acyclic` (a rank that falls along every linked edge, which rules out every cycle among linked edges). Both demand more than the source needs. Python raises KeyError for a node without `id` (dot/main.py:767), but for a missing `type` or `title` only on a node that `build_xml_node` reaches. The recursion overflows with a RecursionError only on a cycle that a root reaches; nodes `a`, `b` with edges a→b and b→a have no root and give the prolog followed by `</product_tree>`. Both errors are caught into the error reply, which is not modelled. Trees outside `Keyed` or `Acyclic` are outside the model.
- DotXml.GetProductTreeXml: without a stored tree the endpoint answers `{"error": "No product tree loaded"}`. That check is not part of this member.
- UiExport.GenerateXml: requires a rank that falls along every edge between node ids (`UiExport.Ranked`), which rules out every cycle among the nodes. On a cycle that a root reaches, `generateNodeXML` recurses until the stack overflows and JavaScript throws a RangeError; a tree whose only cycle no root reaches exports normally in the source but is outside the model.
- FlatDepth.GetNodeDepth: requires a rank that falls along every edge (`FlatDepth.Ranked`), which rules out every cycle. On a cycle that it reaches, `getNodeDepth` recurses until the stack overflows and JavaScript throws a RangeError. A cycle it does not reach is harmless in the source, so a tree such as root `r` with edges a→b and b→a, where `calculateMaxDepth` returns 0, is outside the model. The same holds for FlatDepth.CalculateMaxDepth and FlatDebug.PerformBrowserAnalysis on its hierarchy route.
- FlatCycles.FindCircularReferences: only soundness is proved. Every record is a cycle, and acyclic edges give none. That every cycle is found is not proved, since the shared `visited` set makes the search report only some of them.
- DeployTree.MatchesAnyField: only the "if" direction is stated. The fields are joined with a space, so a term can also match across two fields.
- DeployTree.Matches: the `node.name` fallback after an empty title is not modelled, because imported nodes have no `name` field.
- Letter case and white space are ASCII only. `toLowerCase`, `toUpperCase`, `lower()` and `trim` leave non-ASCII characters as they are.
- JavaScript strings are compared as sequences of characters. UTF-16 surrogate pairs are not modelled separately, so `sort()` is the code-unit order of the characters.
- In the service, JSON values are strings or absent. A JSON `null` is treated as an absent key, and numbers or lists stored in node fields are not modelled.
- DotChat.BuildContextPrompt: a `productTree` stored as `{}` is falsy in Python and gives no tree section. The model cannot tell `{}` from a tree with no nodes, so it adds the guidelines.
- DotChat.SuggestImprovementsReport: a `productTree` key that holds JSON `null` makes Python raise an AttributeError. The model reads the null as an absent key, so it answers with the request to import a tree.
- DotChat.BuildContextPrompt: the fixed paragraphs are a parameter. The service's wording is `DotChat.PromptWording`.
- DotChat.SuggestImprovementsReport: the fixed paragraphs are a parameter. The service's wording is `DotChat.SuggestionsWording`.
- DotDebug.DebugProductTree: `if not current_product_tree` is modelled as "no tree stored". A stored `{}` is treated as an empty tree rather than as missing.
- DotDebug.DebugProductTree: the circular references come from the scan as written (see Findings), so the top of an acyclic diamond (a→b, a→c, b→d, c→d) is reported. `DotDebug.CircularReferences` is the corrected loop and is not used by the endpoint.
- The type tables of the exporters are object literals, so a type that names an `Object.prototype` member (`constructor`, `toString`, `__proto__`) finds an inherited value there. The models look types up in the table's own keys only:
- UiCsv.JiraType: for such a type ui/app.js:585 returns the inherited value, and `escapeCSV` writes its text (`function Object() { [native code] }` for `constructor`); the model gives Story.
- UiCsv.JiraTypeSpec: states the mapping over the table's own keys only; a prototype-named type is mapped to Story rather than to the inherited value.
- FlatCsv.MapIssueType: for such a type web/app.js:575 returns the inherited value, and the model gives Task.
- FlatCsv.MapIssueTypeSpec: states the mapping over the table's own keys only; a prototype-named type is mapped to Task rather than to the inherited value.
- FlatCsv.GenerateJiraCsv: never fails, while in web/app.js:563 (and web-ai/app.js) `cell.replace` throws a TypeError on the inherited value of a prototype-named type.
- DeployTree.TypeDisplay: for such a type web-deploy/public/app.js:585 returns the inherited value, which the page shows as text; the model gives the upper-cased type.
- DeployTree.TypeDisplayIsUpper: states the display over the table's own keys only; a prototype-named type is upper-cased rather than shown as the inherited value.
- UiState.ProductTreeManager.GetNodeCounts: models the counting as written (see Findings). `UiState.FixedCounts` is the corrected count.
- The `workItems`-style keys of `getNodeCounts` are kept in a map from strings, so JavaScript prototype keys such as `constructor` are not modelled.

## Findings

| source | as written | input that shows it | evidently intended | confidence | as-written member | corrected member |
|---|---|---|---|---|---|---|
| ui/app.js:429-445 | `getNodeCounts` counts a node under `type + 's'`, so a `work_item` node lands under `work_items`, while the summary reads `counts.workItems` | a tree with one node of type `work_item`: `workItems` stays 0 | the summary's `workItems` counts the work items | not executed | UiState.WorkItemsNotCounted | UiState.FixedCountsWorkItems |
| web/app.js:193-198 | the child filter `child && term === '' \|\| child.title…` reads `child.title` when `find` returned `undefined` | one expanded node `a` with an edge `a → b` and no node `b`: rendering throws a TypeError | `child && (term === '' \|\| …)`, as web-ai/app.js:271-273 writes it, skipping the missing child | not executed | FlatView.DanglingEdgeThrows | FlatView.ShownChildrenSpec |
| dot/main.py:729-739 | the scan reports a start node as soon as any id is popped a second time | edges a→b, a→c, b→d, c→d: `d` is popped twice from `a`, so `a` is reported though no id lies on a cycle | a start is reported exactly when it lies on a cycle | not executed | DotDebug.DiamondFlagged | DotDebug.CycleScanIff |
