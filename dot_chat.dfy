/**
 * The chat side of the Python service (dot/main.py): the prompt `build_context_prompt` sends to
 * a local model, the keyword router of the internal engine (`InternalAIModel.generate_response`),
 * its `_suggest_improvements` report, and the node records the CRUD endpoints answer with.
 */
module DotChat {
  import opened Wrappers
  import opened Strings
  import opened Seqs
  import opened Routing
  import opened DotModel

  /** The chat request's `context` object; `productTree` is `None` when the key is absent. */
  datatype ChatContext = ChatContext(productTree: Option<DotTree>)

  /** The nodes of the context's tree, when the context carries one. */
  predicate HasTree(context: Option<ChatContext>)
  {
    context.Some? && context.value.productTree.Some?
  }

  // ------------------------------------------------------------------ counting dictionaries

  function Occurrences(vals: seq<string>, x: string): nat
  {
    multiset(vals)[x]
  }

  /** A Python dict of counters: its keys in insertion order and the count of each. */
  datatype Counter = Counter(order: seq<string>, counts: map<string, nat>)

  /** `d[k] = d.get(k, 0) + 1`: a new key goes to the end, a known key keeps its place. */
  function Inc(d: Counter, k: string): Counter
  {
    Counter(if k in d.counts then d.order else d.order + [k],
            d.counts[k := (if k in d.counts then d.counts[k] else 0) + 1])
  }

  /** `d` counts `vals`: one key per distinct value, first-seen order, each with its number of occurrences. */
  ghost predicate Counts(d: Counter, vals: seq<string>)
  {
    && d.order == Dedupe(vals)
    && (forall x :: x in d.counts <==> x in vals)
    && (forall x :: x in d.counts ==> d.counts[x] == Occurrences(vals, x))
  }

  lemma IncCounts(d: Counter, vals: seq<string>, v: string)
    requires Counts(d, vals)
    ensures Counts(Inc(d, v), vals + [v])
  {
    var w, e := vals + [v], Inc(d, v);
    assert w[..|vals|] == vals;
    assert e.order == Dedupe(w);
    forall x
      ensures x in e.counts <==> x in w
    {
      assert x in w <==> x in vals || x == v;
    }
    forall x | x in e.counts
      ensures e.counts[x] == Occurrences(w, x)
    {
      assert multiset(w) == multiset(vals) + multiset{v};
    }
  }

  /** Counting the values one by one keeps `Counts` for the prefix counted so far. */
  lemma CountStep(d: Counter, vals: seq<string>, i: nat)
    requires i < |vals| && Counts(d, vals[..i])
    ensures Counts(Inc(d, vals[i]), vals[..i + 1])
  {
    assert vals[..i + 1] == vals[..i] + [vals[i]];
    IncCounts(d, vals[..i], vals[i]);
  }

  /** The `(value, count)` pairs a counter of `vals` holds, in key order. */
  function TallyOf(vals: seq<string>): seq<(string, nat)>
  {
    var keys := Dedupe(vals);
    seq(|keys|, i requires 0 <= i < |keys| => (keys[i], Occurrences(vals, keys[i])))
  }

  /** `d.items()`. */
  function Items(d: Counter): seq<(string, nat)>
  {
    seq(|d.order|, i requires 0 <= i < |d.order| => (d.order[i], if d.order[i] in d.counts then d.counts[d.order[i]] else 0))
  }

  lemma CountsItems(d: Counter, vals: seq<string>)
    requires Counts(d, vals)
    ensures Items(d) == TallyOf(vals)
  {
  }

  function Sum(t: seq<(string, nat)>): nat
  {
    if t == [] then 0 else Sum(t[..|t| - 1]) + t[|t| - 1].1
  }

  /** The pairs for the keys `keys`, counted over `vals`. */
  function TallyFor(keys: seq<string>, vals: seq<string>): seq<(string, nat)>
  {
    seq(|keys|, i requires 0 <= i < |keys| => (keys[i], Occurrences(vals, keys[i])))
  }

  lemma SumTallySnocKey(keys: seq<string>, k: string, vals: seq<string>)
    ensures Sum(TallyFor(keys + [k], vals)) == Sum(TallyFor(keys, vals)) + Occurrences(vals, k)
  {
    var t := TallyFor(keys + [k], vals);
    assert t[..|t| - 1] == TallyFor(keys, vals);
  }

  /** One more value adds one to the total of the distinct keys that contain it, and nothing otherwise. */
  lemma {:induction false} SumTallySnocValue(keys: seq<string>, vals: seq<string>, v: string)
    requires Distinct(keys)
    ensures Sum(TallyFor(keys, vals + [v])) == Sum(TallyFor(keys, vals)) + if v in keys then 1 else 0
  {
    if keys != [] {
      var front, last := keys[..|keys| - 1], keys[|keys| - 1];
      assert keys == front + [last];
      assert Distinct(front);
      SumTallySnocValue(front, vals, v);
      SumTallySnocKey(front, last, vals);
      SumTallySnocKey(front, last, vals + [v]);
      assert multiset(vals + [v]) == multiset(vals) + multiset{v};
      assert v in keys <==> v in front || v == last;
      assert v == last ==> v !in front;
    }
  }

  /** The counts of a counter add up to the number of values counted. */
  lemma {:induction false} TallyTotal(vals: seq<string>)
    ensures Sum(TallyOf(vals)) == |vals|
    decreases |vals|
  {
    if vals != [] {
      var front, v := vals[..|vals| - 1], vals[|vals| - 1];
      assert vals == front + [v];
      var d := Dedupe(front);
      TallyTotal(front);
      assert TallyOf(front) == TallyFor(d, front);
      SumTallySnocValue(d, front, v);
      if v in d {
        assert Dedupe(vals) == d;
        assert TallyOf(vals) == TallyFor(d, vals);
      } else {
        assert Dedupe(vals) == d + [v];
        assert TallyOf(vals) == TallyFor(d + [v], vals);
        SumTallySnocKey(d, v, vals);
        assert Occurrences(vals, v) == 1;
      }
    }
  }

  /**
   * A counter of `vals` has each distinct value once, in first-seen order, with its number of
   * occurrences (at least one), and the counts add up to `|vals|`.
   */
  lemma TallySpec(vals: seq<string>)
    ensures forall x :: (exists i :: 0 <= i < |TallyOf(vals)| && TallyOf(vals)[i].0 == x) <==> x in vals
    ensures forall i :: 0 <= i < |TallyOf(vals)| ==> TallyOf(vals)[i].1 == Occurrences(vals, TallyOf(vals)[i].0) >= 1
    ensures forall i, j :: 0 <= i < j < |TallyOf(vals)| ==> IndexOf(vals, TallyOf(vals)[i].0) < IndexOf(vals, TallyOf(vals)[j].0)
    ensures Sum(TallyOf(vals)) == |vals|
  {
    var t, keys := TallyOf(vals), Dedupe(vals);
    forall x | x in vals
      ensures exists i :: 0 <= i < |t| && t[i].0 == x
    {
      var i := IndexOf(keys, x);
      assert t[i].0 == x;
    }
    forall i | 0 <= i < |t|
      ensures t[i].1 >= 1
    {
      assert keys[i] in keys;
    }
    forall i, j | 0 <= i < j < |t|
      ensures IndexOf(vals, t[i].0) < IndexOf(vals, t[j].0)
    {
      DedupeOrder(vals, i, j);
    }
    TallyTotal(vals);
  }

  // ------------------------------------------------------------------ build_context_prompt

  function TypeValues(nodes: seq<DotNode>): (r: seq<string>)
    ensures |r| == |nodes|
  {
    seq(|nodes|, i requires 0 <= i < |nodes| => nodes[i].nodeType.GetOr("unknown"))
  }

  function StatusValues(nodes: seq<DotNode>): (r: seq<string>)
    ensures |r| == |nodes|
  {
    seq(|nodes|, i requires 0 <= i < |nodes| => nodes[i].status.GetOr("unknown"))
  }

  function PriorityValues(nodes: seq<DotNode>): (r: seq<string>)
    ensures |r| == |nodes|
  {
    seq(|nodes|, i requires 0 <= i < |nodes| => nodes[i].priority.GetOr("unknown"))
  }

  /** What the prompt says about a non-empty tree. */
  datatype TreeSummary = TreeSummary(total: nat, types: seq<(string, nat)>, statuses: seq<(string, nat)>,
                                     priorities: seq<(string, nat)>, sample: seq<DotNode>, more: nat)

  /** `nodes[:5]`. */
  function Sample(nodes: seq<DotNode>): seq<DotNode>
  {
    if |nodes| <= 5 then nodes else nodes[..5]
  }

  /** The `N` of "... and N more nodes", zero when the line is left out. */
  function More(nodes: seq<DotNode>): nat
  {
    if |nodes| > 5 then |nodes| - 5 else 0
  }

  function Summarize(nodes: seq<DotNode>): TreeSummary
  {
    TreeSummary(|nodes|, TallyOf(TypeValues(nodes)), TallyOf(StatusValues(nodes)), TallyOf(PriorityValues(nodes)),
                Sample(nodes), More(nodes))
  }

  /**
   * Every distribution accounts for every node once; the sample is the first nodes, at most
   * five, and the "more" count is exactly the nodes left out of it.
   */
  lemma SummaryAccounts(nodes: seq<DotNode>)
    ensures var s := Summarize(nodes);
      && Sum(s.types) == |nodes| && Sum(s.statuses) == |nodes| && Sum(s.priorities) == |nodes|
      && |s.sample| <= 5 && s.sample <= nodes && |s.sample| + s.more == |nodes|
      && (s.more > 0 <==> |nodes| > 5)
  {
    TallyTotal(TypeValues(nodes));
    TallyTotal(StatusValues(nodes));
    TallyTotal(PriorityValues(nodes));
  }

  /** The tree part of the prompt: nothing, the guidelines only, or the summary and the guidelines. */
  datatype TreeSection = NoTree | GuidelinesOnly | Summary(summary: TreeSummary)

  function Section(context: Option<ChatContext>): TreeSection
  {
    if !HasTree(context) then NoTree
    else if context.value.productTree.value.nodes == [] then GuidelinesOnly
    else Summary(Summarize(context.value.productTree.value.nodes))
  }

  /**
   * The fixed wording of the prompt: the introduction up to the question, the analysis and
   * CRUD guidelines, and the response format. The prompt is built and proved for any wording;
   * `PromptWording` is the service's own.
   */
  datatype Wording = Wording(introLead: string, guidelines: string, responseFormat: string)

  const IntroLead := "You are an expert product management assistant specializing in product tree analysis and strategic insights. You help teams understand their product hierarchy, identify issues, and suggest improvements.\n\nUSER QUESTION: "

  const Guidelines := "\nANALYSIS GUIDELINES:\n1. Provide specific insights based on the actual data provided\n2. Identify patterns, issues, or opportunities in the product tree\n3. Suggest concrete improvements or next steps\n4. Be data-driven and reference specific nodes when relevant\n5. Keep responses concise but actionable\n6. Use Futurematic terminology (products, goals, jobs, work items)\n\nCRUD OPERATIONS:\nYou can help users manage their product tree by:\n- Creating new nodes (products, goals, jobs, work items)\n- Updating existing nodes (status, priority, team, owner, etc.)\n- Deleting nodes that are no longer needed\n- Viewing detailed information about any node\n\nWhen users ask to create, update, or delete nodes, provide specific guidance on:\n- What type of node to create\n- What fields to populate\n- How to structure the hierarchy\n- Best practices for product tree management\n\n"

  const ResponseFormat := "RESPONSE FORMAT:\n- Start with a direct answer to the user's question\n- Provide specific insights based on the data\n- Include actionable recommendations if appropriate\n- Keep the response under 200 words unless more detail is specifically requested\n\nPlease provide a helpful, data-driven response:"

  const PromptWording := Wording(IntroLead, Guidelines, ResponseFormat)

  const SampleHeading := "SAMPLE NODES:\n"

  function Intro(w: Wording, message: string): string
  {
    w.introLead + message + "\n\n"
  }

  function ContextHeader(total: nat): string
  {
    "PRODUCT TREE CONTEXT:\nYou have access to a product tree with " + NatToString(total) + " nodes. Here's the structure:\n\n"
  }

  /** `', '.join(f'{k}: {v}' for k, v in d.items())`. */
  function Distribution(t: seq<(string, nat)>): string
  {
    Join(seq(|t|, i requires 0 <= i < |t| => t[i].0 + ": " + NatToString(t[i].1)), ", ")
  }

  function StructureText(types: seq<(string, nat)>, statuses: seq<(string, nat)>, priorities: seq<(string, nat)>): string
  {
    "TREE STRUCTURE:\n- Node Types: " + Distribution(types) + "\n- Status Distribution: " + Distribution(statuses) +
    "\n- Priority Distribution: " + Distribution(priorities) + "\n\n"
  }

  function SampleLine(n: DotNode): string
  {
    "- " + n.nodeType.GetOr("unknown") + ": " + n.title.GetOr("Untitled") + " (Status: " + n.status.GetOr("unknown") +
    ", Priority: " + n.priority.GetOr("unknown") + ")\n"
  }

  function SampleLines(sample: seq<DotNode>): string
  {
    if sample == [] then "" else SampleLines(sample[..|sample| - 1]) + SampleLine(sample[|sample| - 1])
  }

  lemma SampleLinesSnoc(sample: seq<DotNode>, i: nat)
    requires i < |sample|
    ensures SampleLines(sample[..i + 1]) == SampleLines(sample[..i]) + SampleLine(sample[i])
  {
    assert sample[..i + 1][..i] == sample[..i];
  }

  function MoreText(more: nat): string
  {
    if more > 0 then "... and " + NatToString(more) + " more nodes\n" else ""
  }

  function SummaryText(s: TreeSummary): string
  {
    ContextHeader(s.total) + StructureText(s.types, s.statuses, s.priorities) + (SampleHeading + SampleLines(s.sample) + MoreText(s.more))
  }

  function SectionText(w: Wording, section: TreeSection): string
  {
    match section
    case NoTree => ""
    case GuidelinesOnly => w.guidelines
    case Summary(s) => SummaryText(s) + w.guidelines
  }

  /** The prompt for `message` with the given tree section. */
  function PromptText(w: Wording, message: string, section: TreeSection): string
  {
    Intro(w, message) + SectionText(w, section) + w.responseFormat
  }

  /** The guidelines come with any tree, the summary only with a tree that has nodes. */
  lemma SectionIff(context: Option<ChatContext>)
    ensures Section(context) != NoTree <==> HasTree(context)
    ensures Section(context).Summary? <==> HasTree(context) && context.value.productTree.value.nodes != []
    ensures Section(context).Summary? ==> Section(context).summary.total == |context.value.productTree.value.nodes|
  {
  }

  /** Whatever the context, the prompt quotes the user's message verbatim. */
  lemma PromptQuotesMessage(w: Wording, message: string, section: TreeSection)
    ensures Contains(PromptText(w, message, section), message)
  {
    assert IsPrefix(message, message);
    ContainsAppend(w.introLead, message, message);
    ContainsAppend(w.introLead + message, "\n\n", message);
    ContainsAppend(Intro(w, message), SectionText(w, section), message);
    ContainsAppend(Intro(w, message) + SectionText(w, section), w.responseFormat, message);
  }

  /** The `for node in nodes` loop filling `node_types`, `status_counts` and `priority_counts`. */
  method CountNodeFields(nodes: seq<DotNode>) returns (types: Counter, statuses: Counter, priorities: Counter)
    ensures Counts(types, TypeValues(nodes)) && Counts(statuses, StatusValues(nodes)) && Counts(priorities, PriorityValues(nodes))
  {
    types, statuses, priorities := Counter([], map[]), Counter([], map[]), Counter([], map[]);
    for i := 0 to |nodes|
      invariant Counts(types, TypeValues(nodes)[..i])
      invariant Counts(statuses, StatusValues(nodes)[..i])
      invariant Counts(priorities, PriorityValues(nodes)[..i])
    {
      var node := nodes[i];
      var nodeType, status, priority := node.nodeType.GetOr("unknown"), node.status.GetOr("unknown"), node.priority.GetOr("unknown");
      CountStep(types, TypeValues(nodes), i);
      CountStep(statuses, StatusValues(nodes), i);
      CountStep(priorities, PriorityValues(nodes), i);
      types, statuses, priorities := Inc(types, nodeType), Inc(statuses, status), Inc(priorities, priority);
    }
    TakeAll(TypeValues(nodes));
    TakeAll(StatusValues(nodes));
    TakeAll(PriorityValues(nodes));
  }

  /** `SAMPLE NODES:`, one line for each of the first five nodes, then the count of the others. */
  method SampleBlock(nodes: seq<DotNode>) returns (text: string)
    ensures text == SampleHeading + SampleLines(Sample(nodes)) + MoreText(More(nodes))
  {
    var sample := if |nodes| <= 5 then nodes else nodes[..5];
    text := SampleHeading;
    for i := 0 to |sample|
      invariant text == SampleHeading + SampleLines(sample[..i])
    {
      SampleLinesSnoc(sample, i);
      Assoc(SampleHeading, SampleLines(sample[..i]), SampleLine(sample[i]));
      text := text + SampleLine(sample[i]);
    }
    TakeAll(sample);
    if |nodes| > 5 {
      var more := "... and " + NatToString(|nodes| - 5) + " more nodes\n";
      assert more == MoreText(More(nodes));
      text := text + more;
    }
  }

  /** The text added for a tree with nodes: the header, the three distributions and the sample. */
  method SummaryBlock(nodes: seq<DotNode>) returns (text: string)
    ensures text == SummaryText(Summarize(nodes))
  {
    var types, statuses, priorities := CountNodeFields(nodes);
    CountsItems(types, TypeValues(nodes));
    CountsItems(statuses, StatusValues(nodes));
    CountsItems(priorities, PriorityValues(nodes));
    var sample := SampleBlock(nodes);
    text := ContextHeader(|nodes|) + StructureText(Items(types), Items(statuses), Items(priorities)) + sample;
  }

  /**
   * `build_context_prompt(user_message, context)` with the fixed paragraphs `w` (the service's
   * are `PromptWording`): the introduction quoting the question, the tree section the context
   * calls for, and the response format.
   */
  method BuildContextPrompt(w: Wording, message: string, context: Option<ChatContext>) returns (prompt: string)
    ensures prompt == PromptText(w, message, Section(context))
  {
    prompt := Intro(w, message);
    ghost var section := Section(context);
    if HasTree(context) {
      var nodes := context.value.productTree.value.nodes;
      if nodes != [] {
        var summary := SummaryBlock(nodes);
        assert section == Summary(Summarize(nodes));
        Assoc(prompt, summary, w.guidelines);
        prompt := prompt + summary;
      } else {
        assert section == GuidelinesOnly;
      }
      prompt := prompt + w.guidelines;
    } else {
      assert section == NoTree;
      AppendEmpty(prompt);
    }
    assert prompt == Intro(w, message) + SectionText(w, section);
    prompt := prompt + w.responseFormat;
  }

  // ------------------------------------------------------------------ generate_response

  /** The handlers of the internal engine. */
  datatype Reply =
    | AnalyzeProductTree | SuggestImprovements | AnalyzeStatus | GeneralTreeResponse
    | AnalyzeGoals | AnalyzeJobs | AnalyzeWorkItems | AnalyzePriorities | AnalyzeTeams | GeneralResponse

  /** The keyword chain of `generate_response` on the lower-cased message. */
  function Route(message: string): Reply
  {
    var q := Lower(message);
    if Contains(q, "product tree") || Contains(q, "tree") then
      if Contains(q, "analyze") || Contains(q, "analysis") then AnalyzeProductTree
      else if Contains(q, "suggest") || Contains(q, "recommend") then SuggestImprovements
      else if Contains(q, "status") then AnalyzeStatus
      else GeneralTreeResponse
    else if Contains(q, "goal") then AnalyzeGoals
    else if Contains(q, "job") || Contains(q, "epic") then AnalyzeJobs
    else if Contains(q, "work item") || Contains(q, "story") then AnalyzeWorkItems
    else if Contains(q, "priority") then AnalyzePriorities
    else if Contains(q, "team") then AnalyzeTeams
    else GeneralResponse
  }

  const TreeRoutes: seq<(seq<string>, Reply)> :=
    [(["analyze", "analysis"], AnalyzeProductTree), (["suggest", "recommend"], SuggestImprovements), (["status"], AnalyzeStatus)]

  const TopicRoutes: seq<(seq<string>, Reply)> :=
    [(["goal"], AnalyzeGoals), (["job", "epic"], AnalyzeJobs), (["work item", "story"], AnalyzeWorkItems),
     (["priority"], AnalyzePriorities), (["team"], AnalyzeTeams)]

  /** "product tree" contains "tree", so the tree branch is taken exactly when "tree" occurs. */
  lemma TreeKeywordSuffices(q: string)
    ensures Contains(q, "product tree") || Contains(q, "tree") <==> Contains(q, "tree")
  {
    if Contains(q, "product tree") {
      assert "product " + "tree" == "product tree";
      ContainsSuffix(q, "product ", "tree");
    }
  }

  lemma TreeBranchIsFirstMatch(q: string)
    requires Contains(q, "product tree") || Contains(q, "tree")
    ensures FirstRoute(q, TreeRoutes, GeneralTreeResponse) ==
      if Contains(q, "analyze") || Contains(q, "analysis") then AnalyzeProductTree
      else if Contains(q, "suggest") || Contains(q, "recommend") then SuggestImprovements
      else if Contains(q, "status") then AnalyzeStatus
      else GeneralTreeResponse
  {
    var r0 := TreeRoutes;
    var r1, r2 := r0[1..], r0[2..];
    assert r1[1..] == r2 && r2[1..] == [];
    FirstRouteHead(q, r0, GeneralTreeResponse);
    FirstRouteHead(q, r1, GeneralTreeResponse);
    FirstRouteHead(q, r2, GeneralTreeResponse);
    MentionsTwo(q, "analyze", "analysis");
    MentionsTwo(q, "suggest", "recommend");
    MentionsOne(q, "status");
  }

  lemma TopicBranchIsFirstMatch(q: string)
    ensures FirstRoute(q, TopicRoutes, GeneralResponse) ==
      if Contains(q, "goal") then AnalyzeGoals
      else if Contains(q, "job") || Contains(q, "epic") then AnalyzeJobs
      else if Contains(q, "work item") || Contains(q, "story") then AnalyzeWorkItems
      else if Contains(q, "priority") then AnalyzePriorities
      else if Contains(q, "team") then AnalyzeTeams
      else GeneralResponse
  {
    var r0 := TopicRoutes;
    var r1, r2, r3, r4 := r0[1..], r0[2..], r0[3..], r0[4..];
    assert r1[1..] == r2 && r2[1..] == r3 && r3[1..] == r4 && r4[1..] == [];
    FirstRouteHead(q, r0, GeneralResponse);
    FirstRouteHead(q, r1, GeneralResponse);
    FirstRouteHead(q, r2, GeneralResponse);
    FirstRouteHead(q, r3, GeneralResponse);
    FirstRouteHead(q, r4, GeneralResponse);
    MentionsOne(q, "goal");
    MentionsTwo(q, "job", "epic");
    MentionsTwo(q, "work item", "story");
    MentionsOne(q, "priority");
    MentionsOne(q, "team");
  }

  /**
   * A message mentioning "tree" goes to the first tree handler whose keyword it contains; any
   * other message to the first topic handler whose keyword it contains, in the listed order.
   */
  lemma RouteIsFirstMatch(message: string)
    ensures Contains(Lower(message), "tree") ==> Route(message) == FirstRoute(Lower(message), TreeRoutes, GeneralTreeResponse)
    ensures !Contains(Lower(message), "tree") ==> Route(message) == FirstRoute(Lower(message), TopicRoutes, GeneralResponse)
  {
    var q := Lower(message);
    TreeKeywordSuffices(q);
    if Contains(q, "tree") {
      TreeBranchIsFirstMatch(q);
    } else {
      TopicBranchIsFirstMatch(q);
    }
  }

  // ------------------------------------------------------------------ _suggest_improvements

  /** The five checks of the report, in report order. */
  datatype Check = NoDescription | NoPriority | NoTeam | Blocked | InProgress

  predicate Flagged(n: DotNode, c: Check)
  {
    match c
    case NoDescription => !Truthy(n.description)
    case NoPriority => !Truthy(n.priority)
    case NoTeam => !Truthy(n.team)
    case Blocked => n.status == Some("blocked")
    case InProgress => n.status == Some("in_progress") || n.status == Some("active")
  }

  /** `len([node for node in nodes if ...])` for the check `c`. */
  function CountFlagged(nodes: seq<DotNode>, c: Check): nat
  {
    if nodes == [] then 0 else (if Flagged(nodes[0], c) then 1 else 0) + CountFlagged(nodes[1..], c)
  }

  lemma {:induction false} NoneFlagged(nodes: seq<DotNode>, c: Check)
    ensures CountFlagged(nodes, c) == 0 <==> forall n :: n in nodes ==> !Flagged(n, c)
  {
    if nodes != [] {
      NoneFlagged(nodes[1..], c);
      assert forall n :: n in nodes <==> n == nodes[0] || n in nodes[1..];
    }
  }

  /** A paragraph's wording: the text before the count and the text after it. */
  datatype Phrase = Phrase(lead: string, rest: string)

  /**
   * The fixed wording of the report: the reply without a tree, the heading, the closing note,
   * and one phrase per check. The report is built and proved for any wording;
   * `SuggestionsWording` is the service's own.
   */
  datatype ReportWording = ReportWording(importFirst: string, heading: string, greatJob: string,
                                         descriptions: Phrase, priorities: Phrase, teams: Phrase,
                                         blockers: Phrase, progress: Phrase)

  const SuggestionsWording := ReportWording(
    "To provide improvement suggestions, please import a Product Tree XML file first.",
    "## Improvement Suggestions\n\n",
    "**\U{2705} Great job!** Your product tree looks well-structured. Consider regular reviews to keep it updated and aligned with your goals.",
    Phrase("**\U{1F4DD} Add Descriptions:** ", " nodes are missing descriptions. Adding clear descriptions helps team members understand the purpose and scope of each item.\n\n"),
    Phrase("**\U{26A1} Set Priorities:** ", " nodes don't have priority levels. Consider setting P0 (critical), P1 (high), P2 (medium), or P3 (low) priorities.\n\n"),
    Phrase("**\U{1F465} Assign Teams:** ", " nodes don't have assigned teams. Assigning teams helps with accountability and resource planning.\n\n"),
    Phrase("**\U{1F6AB} Address Blockers:** ", " items are currently blocked. Review these items and identify actions to unblock them.\n\n"),
    Phrase("**\U{1F504} Monitor Progress:** ", " items are currently in progress. Regular status updates help keep stakeholders informed.\n\n"))

  function PhraseOf(w: ReportWording, c: Check): Phrase
  {
    match c
    case NoDescription => w.descriptions
    case NoPriority => w.priorities
    case NoTeam => w.teams
    case Blocked => w.blockers
    case InProgress => w.progress
  }

  /** The paragraph of check `c` when some node fails it, nothing otherwise. */
  function Paragraph(w: ReportWording, nodes: seq<DotNode>, c: Check): string
  {
    var count := CountFlagged(nodes, c);
    if count > 0 then PhraseOf(w, c).lead + NatToString(count) + PhraseOf(w, c).rest else ""
  }

  function Paragraphs(w: ReportWording, nodes: seq<DotNode>): string
  {
    Paragraph(w, nodes, NoDescription) + Paragraph(w, nodes, NoPriority) + Paragraph(w, nodes, NoTeam) +
    Paragraph(w, nodes, Blocked) + Paragraph(w, nodes, InProgress)
  }

  /** No node fails any check: described, prioritised, assigned, neither blocked nor in progress. */
  predicate WellKept(nodes: seq<DotNode>)
  {
    forall n :: n in nodes ==>
      Truthy(n.description) && Truthy(n.priority) && Truthy(n.team) &&
      n.status != Some("blocked") && n.status != Some("in_progress") && n.status != Some("active")
  }

  lemma ParagraphEmpty(w: ReportWording, nodes: seq<DotNode>, c: Check)
    ensures Paragraph(w, nodes, c) == "" <==> forall n :: n in nodes ==> !Flagged(n, c)
  {
    NoneFlagged(nodes, c);
  }

  /** The report has no paragraph exactly when every node passes every check. */
  lemma ParagraphsEmptyIff(w: ReportWording, nodes: seq<DotNode>)
    ensures Paragraphs(w, nodes) == "" <==> WellKept(nodes)
  {
    ParagraphEmpty(w, nodes, NoDescription);
    ParagraphEmpty(w, nodes, NoPriority);
    ParagraphEmpty(w, nodes, NoTeam);
    ParagraphEmpty(w, nodes, Blocked);
    ParagraphEmpty(w, nodes, InProgress);
  }

  /**
   * `_suggest_improvements(context)` with the wording `w`: without a tree, the request to import
   * one; otherwise the heading, the paragraph of every failed check in order, and the closing
   * note exactly when every node passes every check.
   */
  method SuggestImprovementsReport(w: ReportWording, context: Option<ChatContext>) returns (suggestions: string)
    ensures !HasTree(context) ==> suggestions == w.importFirst
    ensures HasTree(context) ==>
      var nodes := context.value.productTree.value.nodes;
      suggestions == w.heading + Paragraphs(w, nodes) + if WellKept(nodes) then w.greatJob else ""
  {
    if !HasTree(context) {
      return w.importFirst;
    }
    var nodes := context.value.productTree.value.nodes;
    suggestions := w.heading;
    suggestions := suggestions + Paragraph(w, nodes, NoDescription);
    suggestions := suggestions + Paragraph(w, nodes, NoPriority);
    suggestions := suggestions + Paragraph(w, nodes, NoTeam);
    suggestions := suggestions + Paragraph(w, nodes, Blocked);
    suggestions := suggestions + Paragraph(w, nodes, InProgress);
    assert suggestions == w.heading + Paragraphs(w, nodes);
    ParagraphsEmptyIff(w, nodes);
    if |suggestions| == |w.heading| {
      suggestions := suggestions + w.greatJob;
    }
  }

  // ------------------------------------------------------------------ create_node / update_node

  /** A JSON value of a node record: `null`, a string, or any other value as its JSON text. */
  datatype Value = Null | Text(s: string) | Other(json: string)

  /** An insertion-ordered dict. */
  type Record = seq<(string, Value)>

  function Keys(r: Record): (keys: seq<string>)
    ensures |keys| == |r| && forall i :: 0 <= i < |r| ==> keys[i] == r[i].0
  {
    seq(|r|, i requires 0 <= i < |r| => r[i].0)
  }

  /** `r.get(k)`: the value at the first entry with key `k`. */
  function Lookup(r: Record, k: string): Option<Value>
  {
    if r == [] then None else if r[0].0 == k then Some(r[0].1) else Lookup(r[1..], k)
  }

  /** `r[k] = v`: a known key keeps its place and takes the new value, a new key is appended. */
  function Put(r: Record, k: string, v: Value): (r': Record)
    ensures Keys(r') == if k in Keys(r) then Keys(r) else Keys(r) + [k]
    ensures Lookup(r', k) == Some(v)
    ensures forall x :: x != k ==> Lookup(r', x) == Lookup(r, x)
  {
    if r == [] then [(k, v)]
    else if r[0].0 == k then [(k, v)] + r[1..]
    else
      assert Keys(r) == [r[0].0] + Keys(r[1..]);
      [r[0]] + Put(r[1..], k, v)
  }

  /** `{**base, **updates}`: the entries of `updates` put into `base` one after another. */
  function Merge(base: Record, updates: Record): Record
  {
    if updates == [] then base
    else Put(Merge(base, updates[..|updates| - 1]), updates[|updates| - 1].0, updates[|updates| - 1].1)
  }

  lemma {:induction false} DedupeOfDistinct(xs: seq<string>)
    requires Distinct(xs)
    ensures Dedupe(xs) == xs
  {
    if xs != [] {
      var front := xs[..|xs| - 1];
      assert Distinct(front);
      DedupeOfDistinct(front);
      assert xs == front + [xs[|xs| - 1]];
    }
  }

  lemma LookupSnoc(r: Record, k: string, v: Value, x: string)
    requires k !in Keys(r) || x != k
    ensures Lookup(r + [(k, v)], x) == if x == k then Some(v) else Lookup(r, x)
  {
    if r != [] {
      assert (r + [(k, v)])[1..] == r[1..] + [(k, v)];
      assert Keys(r) == [r[0].0] + Keys(r[1..]);
      LookupSnoc(r[1..], k, v, x);
    }
  }

  /**
   * A merged dict has the base's keys, then the new keys of `updates` in their order; a key of
   * `updates` reads its value there, any other key reads the base's.
   */
  lemma {:induction false} MergeSpec(base: Record, updates: Record)
    requires Distinct(Keys(base)) && Distinct(Keys(updates))
    ensures Keys(Merge(base, updates)) == Dedupe(Keys(base) + Keys(updates))
    ensures forall x :: Lookup(Merge(base, updates), x) == if x in Keys(updates) then Lookup(updates, x) else Lookup(base, x)
  {
    if updates == [] {
      assert Keys(base) + Keys(updates) == Keys(base);
      DedupeOfDistinct(Keys(base));
    } else {
      var front, last := updates[..|updates| - 1], updates[|updates| - 1];
      assert updates == front + [last];
      assert Keys(updates) == Keys(front) + [last.0];
      assert Distinct(Keys(front));
      assert last.0 !in Keys(front);
      MergeSpec(base, front);
      MergeStepKeys(base, front, last);
      forall x
        ensures Lookup(Merge(base, updates), x) == if x in Keys(updates) then Lookup(updates, x) else Lookup(base, x)
      {
        MergeStepLookup(base, front, last, x);
      }
    }
  }

  lemma MergeStepKeys(base: Record, front: Record, last: (string, Value))
    requires Keys(Merge(base, front)) == Dedupe(Keys(base) + Keys(front))
    ensures Keys(Merge(base, front + [last])) == Dedupe(Keys(base) + Keys(front + [last]))
  {
    var updates := front + [last];
    assert updates[..|updates| - 1] == front;
    assert Merge(base, updates) == Put(Merge(base, front), last.0, last.1);
    KeysSnoc(front, last);
    var before := Keys(base) + Keys(front);
    assert Keys(base) + Keys(updates) == before + [last.0];
    DedupeSnoc(before, last.0);
  }

  lemma KeysSnoc(r: Record, p: (string, Value))
    ensures Keys(r + [p]) == Keys(r) + [p.0]
  {
  }

  lemma MergeStepLookup(base: Record, front: Record, last: (string, Value), x: string)
    requires last.0 !in Keys(front)
    requires Lookup(Merge(base, front), x) == if x in Keys(front) then Lookup(front, x) else Lookup(base, x)
    ensures Lookup(Merge(base, front + [last]), x)
         == if x in Keys(front + [last]) then Lookup(front + [last], x) else Lookup(base, x)
  {
    var updates := front + [last];
    assert updates[..|updates| - 1] == front;
    assert Keys(updates) == Keys(front) + [last.0];
    LookupSnoc(front, last.0, last.1, x);
  }

  /** The `NodeRequest` body of `POST /product-tree/nodes`. */
  datatype NodeRequest = NodeRequest(nodeId: string, title: string, nodeType: string, description: Field,
                                     status: Field, priority: Field, team: Field, owner: Field, effort: Field,
                                     parentId: Field)

  function Json(f: Field): Value
  {
    if f.Some? then Text(f.value) else Null
  }

  /** Python's `value or default` on an optional string. */
  function OrElse(f: Field, default: string): string
  {
    if Truthy(f) then f.value else default
  }

  const CreatedKeys := ["id", "title", "type", "description", "status", "priority", "team", "owner", "effort", "parent_id", "created_at"]

  /** `create_node`: the record answered for a request; `createdAt` stands for `datetime.now().isoformat()`. */
  function CreateNode(request: NodeRequest, createdAt: string): Record
  {
    [("id", Text(request.nodeId)), ("title", Text(request.title)), ("type", Text(request.nodeType)),
     ("description", Json(request.description)), ("status", Text(OrElse(request.status, "Not Started"))),
     ("priority", Text(OrElse(request.priority, "Medium"))), ("team", Json(request.team)),
     ("owner", Json(request.owner)), ("effort", Json(request.effort)), ("parent_id", Json(request.parentId)),
     ("created_at", Text(createdAt))]
  }

  /** The key of entry `i`, when no earlier entry has it, reads that entry's value. */
  lemma {:induction false} LookupEntry(r: Record, i: nat)
    requires i < |r| && forall j :: 0 <= j < i ==> r[j].0 != r[i].0
    ensures Lookup(r, r[i].0) == Some(r[i].1)
  {
    if i > 0 {
      assert r[0].0 != r[i].0;
      LookupEntry(r[1..], i - 1);
    }
  }

  lemma CreatedKeysDistinct()
    ensures Distinct(CreatedKeys)
  {
  }

  /**
   * A created record has the eleven keys once each; its status and priority are never empty
   * (the request's when given, else "Not Started" and "Medium"), and the other fields are the
   * request's, `null` where it left them out.
   */
  lemma CreateNodeSpec(request: NodeRequest, createdAt: string)
    ensures var r := CreateNode(request, createdAt);
      && Keys(r) == CreatedKeys && Distinct(Keys(r))
      && Lookup(r, "status").Some? && Lookup(r, "status").value.Text? && Lookup(r, "status").value.s != ""
      && Lookup(r, "priority").Some? && Lookup(r, "priority").value.Text? && Lookup(r, "priority").value.s != ""
      && (Truthy(request.status) ==> Lookup(r, "status") == Some(Text(request.status.value)))
      && (!Truthy(request.status) ==> Lookup(r, "status") == Some(Text("Not Started")))
      && (Truthy(request.priority) ==> Lookup(r, "priority") == Some(Text(request.priority.value)))
      && (!Truthy(request.priority) ==> Lookup(r, "priority") == Some(Text("Medium")))
      && Lookup(r, "id") == Some(Text(request.nodeId)) && Lookup(r, "description") == Some(Json(request.description))
      && Lookup(r, "team") == Some(Json(request.team)) && Lookup(r, "parent_id") == Some(Json(request.parentId))
  {
    var r := CreateNode(request, createdAt);
    assert Keys(r) == CreatedKeys;
    CreatedKeysDistinct();
    LookupEntry(r, 0);
    LookupEntry(r, 3);
    LookupEntry(r, 4);
    LookupEntry(r, 5);
    LookupEntry(r, 6);
    LookupEntry(r, 9);
  }

  /**
   * `update_node`: `{"id": node_id, "updated_at": now, **updates}`. `updates` may itself carry
   * `id` or `updated_at`, which then win over the path's id and the time.
   */
  function UpdateNode(nodeId: string, updates: Record, updatedAt: string): Record
  {
    Merge([("id", Text(nodeId)), ("updated_at", Text(updatedAt))], updates)
  }

  lemma UpdateNodeSpec(nodeId: string, updates: Record, updatedAt: string)
    requires Distinct(Keys(updates))
    ensures Keys(UpdateNode(nodeId, updates, updatedAt)) == Dedupe(["id", "updated_at"] + Keys(updates))
    ensures Lookup(UpdateNode(nodeId, updates, updatedAt), "id") ==
      if "id" in Keys(updates) then Lookup(updates, "id") else Some(Text(nodeId))
    ensures Lookup(UpdateNode(nodeId, updates, updatedAt), "updated_at") ==
      if "updated_at" in Keys(updates) then Lookup(updates, "updated_at") else Some(Text(updatedAt))
    ensures forall x :: x != "id" && x != "updated_at" ==> Lookup(UpdateNode(nodeId, updates, updatedAt), x) == Lookup(updates, x)
  {
    MergeOntoPair("id", Text(nodeId), "updated_at", Text(updatedAt), updates);
  }

  /** `{k1: v1, k2: v2, **updates}` for two distinct keys. */
  lemma MergeOntoPair(k1: string, v1: Value, k2: string, v2: Value, updates: Record)
    requires k1 != k2 && Distinct(Keys(updates))
    ensures Keys(Merge([(k1, v1), (k2, v2)], updates)) == Dedupe([k1, k2] + Keys(updates))
    ensures Lookup(Merge([(k1, v1), (k2, v2)], updates), k1) == if k1 in Keys(updates) then Lookup(updates, k1) else Some(v1)
    ensures Lookup(Merge([(k1, v1), (k2, v2)], updates), k2) == if k2 in Keys(updates) then Lookup(updates, k2) else Some(v2)
    ensures forall x :: x != k1 && x != k2 ==> Lookup(Merge([(k1, v1), (k2, v2)], updates), x) == Lookup(updates, x)
  {
    var base := [(k1, v1), (k2, v2)];
    assert Keys(base) == [k1, k2];
    MergeSpec(base, updates);
    LookupEntry(base, 0);
    LookupEntry(base, 1);
    forall x | x != k1 && x != k2
      ensures Lookup(Merge(base, updates), x) == Lookup(updates, x)
    {
      if x !in Keys(updates) {
        LookupAbsent(updates, x);
        LookupAbsent(base, x);
      }
    }
  }

  lemma LookupAbsent(r: Record, x: string)
    requires x !in Keys(r)
    ensures Lookup(r, x) == None
  {
    if r != [] {
      assert Keys(r) == [r[0].0] + Keys(r[1..]);
      LookupAbsent(r[1..], x);
    }
  }
}
