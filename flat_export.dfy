/**
 * `generateXML` of web/app.js and web-ai/app.js: a `<nodes>` list, one `<node>` block per node,
 * then an `<edges>` list, one `<edge/>` line per edge, both in input order. Text children are
 * escaped; the attribute values (`id`, `from`, `to`, `type`) are written as they are, and a
 * `null` id prints as `null`. A reader for exactly this layout recovers the tree, which is
 * what shows that every node and edge is written once, in order, with its content intact.
 */
module FlatExport {
  import opened Wrappers
  import opened Strings
  import opened Escaping
  import opened FlatModel

  /** A template literal `${x}` of a value that may be `null`. */
  function IdText(id: Option<string>): string
  {
    match id
    case None => "null"
    case Some(v) => v
  }

  function Open(tag: string): string
  {
    "      <" + tag + ">"
  }

  function Close(tag: string): string
  {
    "</" + tag + ">\n"
  }

  /** `      <tag>${escapeXml(v)}</tag>` on its own line. */
  function TextElem(tag: string, v: string): string
  {
    Open(tag) + (EscapeXml(v) + Close(tag))
  }

  /** An element written only when its field is non-empty. */
  function OptElem(tag: string, v: string): string
  {
    if v == "" then "" else TextElem(tag, v)
  }

  const NodeOpen := "    <node id=\""
  const NodeClose := "    </node>\n"
  const EdgeOpen := "    <edge from=\""
  const Prolog := "<?xml version=\"1.0\" encoding=\"UTF-8\"?>\n<product_tree>\n"
  const NodesStart := "  <nodes>\n"
  const NodesEnd := "  </nodes>\n"
  const EdgesStart := "  <edges>\n"
  const EdgesEnd := "  </edges>\n"
  const TreeEnd := "</product_tree>"
  const Head := Prolog + NodesStart
  const Middle := NodesEnd + EdgesStart
  const Tail := EdgesEnd + TreeEnd

  /** The opening line of a node block, `<node id="...">`. */
  function NodeLine(n: FlatNode): string
  {
    NodeOpen + IdText(n.id) + "\">\n"
  }

  /** A node block, line by line. */
  function NodeXml(n: FlatNode): string
  {
    NodeLine(n) + (TextElem("title", n.title) + (TextElem("type", n.nodeType) + (TextElem("status", n.status) +
    (OptElem("description", n.description) + (OptElem("job_content", n.jobContent) + NodeClose)))))
  }

  function EdgeXml(e: FlatEdge): string
  {
    EdgeOpen + (IdText(e.from) + ("\" to=\"" + (IdText(e.to) + ("\" type=\"" + (e.kind + "\"/>\n")))))
  }

  function NodesXml(ns: seq<FlatNode>): string
  {
    if ns == [] then "" else NodeXml(ns[0]) + NodesXml(ns[1..])
  }

  function EdgesXml(es: seq<FlatEdge>): string
  {
    if es == [] then "" else EdgeXml(es[0]) + EdgesXml(es[1..])
  }

  /** The whole document `generateXML` returns. */
  function FlatXml(t: FlatTree): string
  {
    Head + (NodesXml(t.nodes) + (Middle + (EdgesXml(t.edges) + Tail)))
  }

  lemma {:induction false} NodesXmlSnoc(ns: seq<FlatNode>, n: FlatNode)
    ensures NodesXml(ns + [n]) == NodesXml(ns) + NodeXml(n)
  {
    if ns == [] {
      assert [n][1..] == [];
      AppendEmpty(NodeXml(n));
    } else {
      DropSnoc(ns, n);
      NodesXmlSnoc(ns[1..], n);
      Assoc(NodeXml(ns[0]), NodesXml(ns[1..]), NodeXml(n));
    }
  }

  lemma {:induction false} EdgesXmlSnoc(es: seq<FlatEdge>, e: FlatEdge)
    ensures EdgesXml(es + [e]) == EdgesXml(es) + EdgeXml(e)
  {
    if es == [] {
      assert [e][1..] == [];
      AppendEmpty(EdgeXml(e));
    } else {
      DropSnoc(es, e);
      EdgesXmlSnoc(es[1..], e);
      Assoc(EdgeXml(es[0]), EdgesXml(es[1..]), EdgeXml(e));
    }
  }

  // ------------------------------------------------------------------ the writer

  /** The body of the node `forEach`: one `+=` per line of the block. */
  method EmitNode(xml: string, n: FlatNode) returns (out: string)
    ensures out == xml + NodeXml(n)
  {
    var title, ty, status := TextElem("title", n.title), TextElem("type", n.nodeType), TextElem("status", n.status);
    var desc, job := OptElem("description", n.description), OptElem("job_content", n.jobContent);
    out := xml + NodeLine(n);
    out := out + title;
    out := out + ty;
    out := out + status;
    if n.description != "" {
      out := out + desc;
    } else {
      AppendEmpty(out);
    }
    if n.jobContent != "" {
      out := out + job;
    } else {
      AppendEmpty(out);
    }
    out := out + NodeClose;
    ghost var l := NodeLine(n);
    calc {
      out;
      xml + l + title + ty + status + desc + job + NodeClose;
      { Assoc(xml, l, title); }
      xml + (l + title) + ty + status + desc + job + NodeClose;
      { Assoc(xml, l + title, ty); }
      xml + (l + title + ty) + status + desc + job + NodeClose;
      { Assoc(xml, l + title + ty, status); }
      xml + (l + title + ty + status) + desc + job + NodeClose;
      { Assoc(xml, l + title + ty + status, desc); }
      xml + (l + title + ty + status + desc) + job + NodeClose;
      { Assoc(xml, l + title + ty + status + desc, job); }
      xml + (l + title + ty + status + desc + job) + NodeClose;
      { Assoc(xml, l + title + ty + status + desc + job, NodeClose); }
      xml + (l + title + ty + status + desc + job + NodeClose);
      { NodeBlockAssoc(l, title, ty, status, desc, job, NodeClose); }
      xml + NodeXml(n);
    }
  }

  lemma NodeBlockAssoc(a: string, b: string, c: string, d: string, e: string, f: string, g: string)
    ensures a + b + c + d + e + f + g == a + (b + (c + (d + (e + (f + g)))))
  {
  }

  /** The body of the edge `forEach`: the one-line `<edge/>` element. */
  method EmitEdge(xml: string, e: FlatEdge) returns (out: string)
    ensures out == xml + EdgeXml(e)
  {
    var from, to := IdText(e.from), IdText(e.to);
    out := xml + (EdgeOpen + (from + ("\" to=\"" + (to + ("\" type=\"" + (e.kind + "\"/>\n"))))));
    Assoc(xml, EdgeOpen, from + ("\" to=\"" + (to + ("\" type=\"" + (e.kind + "\"/>\n")))));
  }

  /** The node `forEach` of `generateXML`. */
  method EmitNodes(xml: string, ns: seq<FlatNode>) returns (out: string)
    ensures out == xml + NodesXml(ns)
  {
    out := xml;
    for i := 0 to |ns|
      invariant out == xml + NodesXml(ns[..i])
    {
      NodesXmlSnoc(ns[..i], ns[i]);
      TakeSnoc(ns, i);
      Assoc(xml, NodesXml(ns[..i]), NodeXml(ns[i]));
      out := EmitNode(out, ns[i]);
    }
    TakeAll(ns);
  }

  /** The edge `forEach` of `generateXML`. */
  method EmitEdges(xml: string, es: seq<FlatEdge>) returns (out: string)
    ensures out == xml + EdgesXml(es)
  {
    out := xml;
    for i := 0 to |es|
      invariant out == xml + EdgesXml(es[..i])
    {
      EdgesXmlSnoc(es[..i], es[i]);
      TakeSnoc(es, i);
      Assoc(xml, EdgesXml(es[..i]), EdgeXml(es[i]));
      out := EmitEdge(out, es[i]);
    }
    TakeAll(es);
  }

  method GenerateXml(t: FlatTree) returns (xml: string)
    ensures xml == FlatXml(t)
  {
    xml := Prolog;
    xml := xml + NodesStart;
    xml := EmitNodes(xml, t.nodes);
    ghost var nodes := xml;
    xml := xml + NodesEnd;
    xml := xml + EdgesStart;
    Assoc(nodes, NodesEnd, EdgesStart);
    xml := EmitEdges(xml, t.edges);
    ghost var edges := xml;
    xml := xml + EdgesEnd;
    xml := xml + TreeEnd;
    Assoc(edges, EdgesEnd, TreeEnd);
    ghost var ns, es := NodesXml(t.nodes), EdgesXml(t.edges);
    Assoc(Head, ns, Middle);
    Assoc(Head + ns + Middle, es, Tail);
    Assoc(Head, ns + Middle, es + Tail);
    Assoc(ns, Middle, es + Tail);
  }

  // ------------------------------------------------------------------ a reader for the layout

  function Expect(p: string, s: string): (r: Option<string>)
    ensures r.Some? ==> |r.value| == |s| - |p|
  {
    if IsPrefix(p, s) then Some(s[|p|..]) else None
  }

  /** The text before the first `c`, and the rest starting at that `c`. */
  function ReadUntil(s: string, c: char): (r: (string, string))
    ensures r.0 + r.1 == s
  {
    if s == [] || s[0] == c then ([], s)
    else
      var (a, b) := ReadUntil(s[1..], c);
      ([s[0]] + a, b)
  }

  /** A text element: its tag, then the escaped text up to the next `<`, then the closing tag. */
  function ReadTextElem(tag: string, s: string): (r: Option<(string, string)>)
    ensures r.Some? ==> |r.value.1| < |s|
  {
    var s1 :- Expect(Open(tag), s);
    var (raw, s2) := ReadUntil(s1, '<');
    var s3 :- Expect(Close(tag), s2);
    Some((UnescapeXml(raw), s3))
  }

  function ReadOptElem(tag: string, s: string): (r: Option<(string, string)>)
    ensures r.Some? ==> |r.value.1| <= |s|
  {
    if IsPrefix(Open(tag), s) then ReadTextElem(tag, s) else Some(("", s))
  }

  function ReadNode(s: string): (r: Option<(FlatNode, string)>)
    ensures r.Some? ==> |r.value.1| < |s|
  {
    var s1 :- Expect(NodeOpen, s);
    var (id, s2) := ReadUntil(s1, '"');
    var s3 :- Expect("\">\n", s2);
    var title :- ReadTextElem("title", s3);
    var ty :- ReadTextElem("type", title.1);
    var status :- ReadTextElem("status", ty.1);
    var desc :- ReadOptElem("description", status.1);
    var job :- ReadOptElem("job_content", desc.1);
    var s4 :- Expect(NodeClose, job.1);
    Some((FlatNode(Some(id), title.0, ty.0, desc.0, job.0, status.0), s4))
  }

  function ReadNodes(s: string): Option<(seq<FlatNode>, string)>
    decreases |s|
  {
    if IsPrefix(NodeOpen, s) then
      var a :- ReadNode(s);
      var b :- ReadNodes(a.1);
      Some(([a.0] + b.0, b.1))
    else Some(([], s))
  }

  function ReadEdge(s: string): (r: Option<(FlatEdge, string)>)
    ensures r.Some? ==> |r.value.1| < |s|
  {
    var s1 :- Expect(EdgeOpen, s);
    var (from, s2) := ReadUntil(s1, '"');
    var s3 :- Expect("\" to=\"", s2);
    var (to, s4) := ReadUntil(s3, '"');
    var s5 :- Expect("\" type=\"", s4);
    var (kind, s6) := ReadUntil(s5, '"');
    var s7 :- Expect("\"/>\n", s6);
    Some((FlatEdge(Some(from), Some(to), kind), s7))
  }

  function ReadEdges(s: string): Option<(seq<FlatEdge>, string)>
    decreases |s|
  {
    if IsPrefix(EdgeOpen, s) then
      var a :- ReadEdge(s);
      var b :- ReadEdges(a.1);
      Some(([a.0] + b.0, b.1))
    else Some(([], s))
  }

  function ReadFlatXml(s: string): Option<FlatTree>
  {
    var s1 :- Expect(Head, s);
    var a :- ReadNodes(s1);
    var s2 :- Expect(Middle, a.1);
    var b :- ReadEdges(s2);
    var s3 :- Expect(Tail, b.1);
    if s3 == [] then Some(FlatTree(a.0, b.0)) else None
  }

  // ------------------------------------------------------------------ reading back what was written

  /** What the reader sees of a node: a `null` id has become the text `null`. */
  function NodeReadBack(n: FlatNode): FlatNode
  {
    n.(id := Some(IdText(n.id)))
  }

  function EdgeReadBack(e: FlatEdge): FlatEdge
  {
    e.(from := Some(IdText(e.from)), to := Some(IdText(e.to)))
  }

  function NodesReadBack(ns: seq<FlatNode>): (r: seq<FlatNode>)
    ensures |r| == |ns| && forall k :: 0 <= k < |ns| ==> r[k] == NodeReadBack(ns[k])
  {
    if ns == [] then [] else [NodeReadBack(ns[0])] + NodesReadBack(ns[1..])
  }

  function EdgesReadBack(es: seq<FlatEdge>): (r: seq<FlatEdge>)
    ensures |r| == |es| && forall k :: 0 <= k < |es| ==> r[k] == EdgeReadBack(es[k])
  {
    if es == [] then [] else [EdgeReadBack(es[0])] + EdgesReadBack(es[1..])
  }

  /** Attribute values the layout can carry: no `"`, which would end the attribute early. */
  predicate AttrSafe(v: string)
  {
    !ContainsChar(v, '"')
  }

  predicate NodesSafe(ns: seq<FlatNode>)
  {
    forall k :: 0 <= k < |ns| ==> AttrSafe(IdText(ns[k].id))
  }

  predicate EdgesSafe(es: seq<FlatEdge>)
  {
    forall k :: 0 <= k < |es| ==> AttrSafe(IdText(es[k].from)) && AttrSafe(IdText(es[k].to)) && AttrSafe(es[k].kind)
  }

  lemma ExpectAppend(p: string, t: string)
    ensures Expect(p, p + t) == Some(t)
  {
    PrefixOfAppend(p, t);
  }

  lemma {:induction false} ReadUntilAppend(v: string, c: char, rest: string)
    requires !ContainsChar(v, c) && |rest| > 0 && rest[0] == c
    ensures ReadUntil(v + rest, c) == (v, rest)
  {
    if v == [] {
      assert v + rest == rest;
    } else {
      assert (v + rest)[0] == v[0];
      assert (v + rest)[1..] == v[1..] + rest;
      assert !ContainsChar(v[1..], c) by {
        forall i | 0 <= i < |v[1..]| ensures v[1..][i] != c {
          assert v[1..][i] == v[i + 1];
        }
      }
      ReadUntilAppend(v[1..], c, rest);
      assert v == [v[0]] + v[1..];
    }
  }

  lemma CloseStartsTag(tag: string, rest: string)
    ensures (Close(tag) + rest)[0] == '<'
  {
  }

  lemma ReadTextElemBack(tag: string, v: string, rest: string)
    ensures IsPrefix(Open(tag), TextElem(tag, v) + rest)
    ensures ReadTextElem(tag, TextElem(tag, v) + rest) == Some((v, rest))
  {
    var e := EscapeXml(v);
    Assoc(Open(tag), e + Close(tag), rest);
    Assoc(e, Close(tag), rest);
    ExpectAppend(Open(tag), e + (Close(tag) + rest));
    PrefixOfAppend(Open(tag), e + (Close(tag) + rest));
    EscapeXmlHasNoMarkup(v);
    assert !ContainsChar(e, '<') by {
      forall i | 0 <= i < |e| ensures e[i] != '<' {
        assert !IsMarkupChar(e[i]);
      }
    }
    CloseStartsTag(tag, rest);
    ReadUntilAppend(e, '<', Close(tag) + rest);
    ExpectAppend(Close(tag), rest);
    EscapeXmlRoundTrip(v);
  }

  /** An optional element is read back whether or not it was written, given what may follow it. */
  lemma ReadOptElemBack(tag: string, v: string, rest: string)
    requires v == "" ==> !IsPrefix(Open(tag), rest)
    ensures ReadOptElem(tag, OptElem(tag, v) + rest) == Some((v, rest))
  {
    if v == "" {
      AppendEmpty(rest);
    } else {
      ReadTextElemBack(tag, v, rest);
    }
  }

  lemma JobBeforeClose(rest: string)
    ensures !IsPrefix(Open("job_content"), NodeClose + rest)
    ensures !IsPrefix(Open("description"), NodeClose + rest)
  {
    NotPrefixAt(Open("job_content"), NodeClose + rest, 4);
    NotPrefixAt(Open("description"), NodeClose + rest, 4);
  }

  lemma JobNotDescription(job: string, rest: string)
    ensures !IsPrefix(Open("description"), TextElem("job_content", job) + rest)
  {
    var s := TextElem("job_content", job) + rest;
    Assoc(Open("job_content"), EscapeXml(job) + Close("job_content"), rest);
    assert s[7] == 'j';
    NotPrefixAt(Open("description"), s, 7);
  }

  /** The job element, if any, then the closing line. */
  lemma ReadNodeEnd(job: string, rest: string)
    ensures ReadOptElem("job_content", OptElem("job_content", job) + (NodeClose + rest)) == Some((job, NodeClose + rest))
    ensures !IsPrefix(Open("description"), OptElem("job_content", job) + (NodeClose + rest))
  {
    JobBeforeClose(rest);
    if job == "" {
      AppendEmpty(NodeClose + rest);
    } else {
      JobNotDescription(job, NodeClose + rest);
    }
    ReadOptElemBack("job_content", job, NodeClose + rest);
  }

  lemma PushRest(a: string, b: string, c: string, d: string, e: string, f: string, g: string, rest: string)
    ensures (a + (b + (c + (d + (e + (f + g)))))) + rest == a + (b + (c + (d + (e + (f + (g + rest))))))
  {
  }

  lemma ReadNodeBack(n: FlatNode, rest: string)
    requires AttrSafe(IdText(n.id))
    ensures IsPrefix(NodeOpen, NodeXml(n) + rest)
    ensures ReadNode(NodeXml(n) + rest) == Some((NodeReadBack(n), rest))
  {
    var id := IdText(n.id);
    var title, ty, status := TextElem("title", n.title), TextElem("type", n.nodeType), TextElem("status", n.status);
    var desc, job := OptElem("description", n.description), OptElem("job_content", n.jobContent);
    var r5 := NodeClose + rest;
    var r4 := job + r5;
    var r3 := desc + r4;
    var r2 := status + r3;
    var r1 := ty + r2;
    var r0 := title + r1;
    PushRest(NodeLine(n), title, ty, status, desc, job, NodeClose, rest);
    Assoc(NodeOpen + id, "\">\n", r0);
    Assoc(NodeOpen, id, "\">\n" + r0);
    assert NodeXml(n) + rest == NodeOpen + (id + ("\">\n" + r0));
    ExpectAppend(NodeOpen, id + ("\">\n" + r0));
    PrefixOfAppend(NodeOpen, id + ("\">\n" + r0));
    ReadUntilAppend(id, '"', "\">\n" + r0);
    ExpectAppend("\">\n", r0);
    ReadTextElemBack("title", n.title, r1);
    ReadTextElemBack("type", n.nodeType, r2);
    ReadTextElemBack("status", n.status, r3);
    ReadNodeEnd(n.jobContent, rest);
    ReadOptElemBack("description", n.description, r4);
    ExpectAppend(NodeClose, rest);
  }

  lemma {:induction false} ReadNodesBack(ns: seq<FlatNode>, rest: string)
    requires NodesSafe(ns) && !IsPrefix(NodeOpen, rest)
    ensures ReadNodes(NodesXml(ns) + rest) == Some((NodesReadBack(ns), rest))
  {
    if ns == [] {
      AppendEmpty(rest);
    } else {
      var tail := NodesXml(ns[1..]) + rest;
      Assoc(NodeXml(ns[0]), NodesXml(ns[1..]), rest);
      ReadNodeBack(ns[0], tail);
      assert NodesSafe(ns[1..]) by {
        forall k | 0 <= k < |ns[1..]| ensures AttrSafe(IdText(ns[1..][k].id)) {
          assert ns[1..][k] == ns[k + 1];
        }
      }
      ReadNodesBack(ns[1..], rest);
    }
  }

  lemma ReadEdgeBack(e: FlatEdge, rest: string)
    requires AttrSafe(IdText(e.from)) && AttrSafe(IdText(e.to)) && AttrSafe(e.kind)
    ensures IsPrefix(EdgeOpen, EdgeXml(e) + rest)
    ensures ReadEdge(EdgeXml(e) + rest) == Some((EdgeReadBack(e), rest))
  {
    var f := IdText(e.from);
    var t := IdText(e.to);
    var r2 := "\"/>\n" + rest;
    var r1 := "\" type=\"" + (e.kind + r2);
    var r0 := "\" to=\"" + (t + r1);
    PushRest(EdgeOpen, f, "\" to=\"", t, "\" type=\"", e.kind, "\"/>\n", rest);
    ExpectAppend(EdgeOpen, f + r0);
    PrefixOfAppend(EdgeOpen, f + r0);
    ReadUntilAppend(f, '"', r0);
    ExpectAppend("\" to=\"", t + r1);
    ReadUntilAppend(t, '"', r1);
    ExpectAppend("\" type=\"", e.kind + r2);
    ReadUntilAppend(e.kind, '"', r2);
    ExpectAppend("\"/>\n", rest);
  }

  lemma {:induction false} ReadEdgesBack(es: seq<FlatEdge>, rest: string)
    requires EdgesSafe(es) && !IsPrefix(EdgeOpen, rest)
    ensures ReadEdges(EdgesXml(es) + rest) == Some((EdgesReadBack(es), rest))
  {
    if es == [] {
      AppendEmpty(rest);
    } else {
      var tail := EdgesXml(es[1..]) + rest;
      Assoc(EdgeXml(es[0]), EdgesXml(es[1..]), rest);
      ReadEdgeBack(es[0], tail);
      assert EdgesSafe(es[1..]) by {
        forall k | 0 <= k < |es[1..]|
          ensures AttrSafe(IdText(es[1..][k].from)) && AttrSafe(IdText(es[1..][k].to)) && AttrSafe(es[1..][k].kind)
        {
          assert es[1..][k] == es[k + 1];
        }
      }
      ReadEdgesBack(es[1..], rest);
    }
  }

  /**
   * Reading the exported document gives back every node and every edge, in order and with
   * the same fields, as long as no attribute value holds a `"`.
   */
  lemma ReadFlatXmlRoundTrip(t: FlatTree)
    requires NodesSafe(t.nodes) && EdgesSafe(t.edges)
    ensures ReadFlatXml(FlatXml(t)) == Some(FlatTree(NodesReadBack(t.nodes), EdgesReadBack(t.edges)))
  {
    var ex := EdgesXml(t.edges) + Tail;
    var nx := NodesXml(t.nodes) + (Middle + ex);
    ExpectAppend(Head, nx);
    SectionsDiffer(ex);
    ReadNodesBack(t.nodes, Middle + ex);
    ExpectAppend(Middle, ex);
    ReadEdgesBack(t.edges, Tail);
    AppendEmpty(Tail);
    ExpectAppend(Tail, "");
  }

  lemma SectionsDiffer(ex: string)
    ensures !IsPrefix(NodeOpen, Middle + ex) && !IsPrefix(EdgeOpen, Tail)
  {
    NotPrefixAt(NodeOpen, Middle + ex, 2);
    NotPrefixAt(EdgeOpen, Tail, 2);
  }

  lemma NodesReadBackIdentity(ns: seq<FlatNode>)
    requires forall k :: 0 <= k < |ns| ==> ns[k].id.Some?
    ensures NodesReadBack(ns) == ns
  {
  }

  lemma EdgesReadBackIdentity(es: seq<FlatEdge>)
    requires forall k :: 0 <= k < |es| ==> es[k].from.Some? && es[k].to.Some?
    ensures EdgesReadBack(es) == es
  {
  }

  /** With every id present, the read-back tree is the tree itself. */
  lemma ReadFlatXmlIdentity(t: FlatTree)
    requires NodesSafe(t.nodes) && EdgesSafe(t.edges)
    requires forall k :: 0 <= k < |t.nodes| ==> t.nodes[k].id.Some?
    requires forall k :: 0 <= k < |t.edges| ==> t.edges[k].from.Some? && t.edges[k].to.Some?
    ensures ReadFlatXml(FlatXml(t)) == Some(t)
  {
    ReadFlatXmlRoundTrip(t);
    NodesReadBackIdentity(t.nodes);
    EdgesReadBackIdentity(t.edges);
  }
}
