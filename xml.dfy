/**
 * An already-parsed XML document, as the browser's DOMParser hands it to the importers.
 * `text` stands for the element's `textContent` (all descendant text, concatenated by the
 * parser); the text parser itself is outside the model.
 */
module Xml {
  import opened Wrappers
  import opened Strings

  datatype Element = Element(tag: string, attrs: map<string, string>, children: seq<Element>, text: string)

  /** `getAttribute(name)`: `null` when the attribute is absent. */
  function GetAttribute(e: Element, name: string): Option<string>
  {
    if name in e.attrs then Some(e.attrs[name]) else None
  }

  /** `getAttribute(name) || d`: the default also replaces an empty attribute value. */
  function AttrOr(e: Element, name: string, d: string): (r: string)
    ensures r == d <== (name !in e.attrs || e.attrs[name] == "")
    ensures name in e.attrs && e.attrs[name] != "" ==> r == e.attrs[name]
  {
    if name in e.attrs && e.attrs[name] != "" then e.attrs[name] else d
  }

  /** Pre-order list of the elements of a forest, each tree root before its descendants. */
  function Preorder(cs: seq<Element>): seq<Element>
  {
    if cs == [] then [] else [cs[0]] + Preorder(cs[0].children) + Preorder(cs[1..])
  }

  /** The proper descendants of `e` in document order. */
  function Descendants(e: Element): seq<Element>
  {
    Preorder(e.children)
  }

  /** The first element of `s` with the given tag. */
  function FirstWithTag(s: seq<Element>, tag: string): Option<Element>
  {
    if s == [] then None else if s[0].tag == tag then Some(s[0]) else FirstWithTag(s[1..], tag)
  }

  /** Depth-first search of a forest for the first element with `tag`. */
  function SearchForest(cs: seq<Element>, tag: string): Option<Element>
  {
    if cs == [] then None
    else if cs[0].tag == tag then Some(cs[0])
    else
      match SearchForest(cs[0].children, tag)
      case Some(d) => Some(d)
      case None => SearchForest(cs[1..], tag)
  }

  /** `e.querySelector(tag)`: the first proper descendant with that tag, or `null`. */
  function QuerySelector(e: Element, tag: string): Option<Element>
  {
    SearchForest(e.children, tag)
  }

  lemma {:induction false} FirstWithTagAppend(a: seq<Element>, b: seq<Element>, tag: string)
    ensures FirstWithTag(a + b, tag) == if FirstWithTag(a, tag).Some? then FirstWithTag(a, tag) else FirstWithTag(b, tag)
  {
    if a != [] {
      assert (a + b)[0] == a[0];
      assert (a + b)[1..] == a[1..] + b;
      FirstWithTagAppend(a[1..], b, tag);
    } else {
      assert a + b == b;
    }
  }

  lemma {:induction false} SearchForestIsFirstInPreorder(cs: seq<Element>, tag: string)
    ensures SearchForest(cs, tag) == FirstWithTag(Preorder(cs), tag)
  {
    if cs != [] {
      var p := Preorder(cs);
      assert p == [cs[0]] + (Preorder(cs[0].children) + Preorder(cs[1..]));
      FirstWithTagAppend([cs[0]], Preorder(cs[0].children) + Preorder(cs[1..]), tag);
      FirstWithTagAppend(Preorder(cs[0].children), Preorder(cs[1..]), tag);
      SearchForestIsFirstInPreorder(cs[0].children, tag);
      SearchForestIsFirstInPreorder(cs[1..], tag);
    }
  }

  lemma {:induction false} FirstWithTagSpec(s: seq<Element>, tag: string)
    ensures FirstWithTag(s, tag).None? <==> forall i :: 0 <= i < |s| ==> s[i].tag != tag
    ensures FirstWithTag(s, tag).Some? ==>
      exists i :: 0 <= i < |s| && s[i] == FirstWithTag(s, tag).value && s[i].tag == tag &&
        forall j :: 0 <= j < i ==> s[j].tag != tag
  {
    if s != [] && s[0].tag != tag {
      FirstWithTagSpec(s[1..], tag);
      if FirstWithTag(s, tag).Some? {
        var i :| 0 <= i < |s[1..]| && s[1..][i] == FirstWithTag(s, tag).value && s[1..][i].tag == tag &&
          forall j :: 0 <= j < i ==> s[1..][j].tag != tag;
        assert s[i + 1] == s[1..][i];
        assert forall j :: 1 <= j < i + 1 ==> s[j] == s[1..][j - 1];
      } else {
        assert forall i :: 1 <= i < |s| ==> s[i] == s[1..][i - 1];
      }
    }
  }

  /**
   * `querySelector` finds the first match in document order among the proper descendants:
   * `null` exactly when no descendant carries the tag, otherwise the first one that does.
   */
  lemma QuerySelectorIsFirstDescendant(e: Element, tag: string)
    ensures QuerySelector(e, tag).None? <==>
      forall i :: 0 <= i < |Descendants(e)| ==> Descendants(e)[i].tag != tag
    ensures QuerySelector(e, tag).Some? ==>
      exists i :: 0 <= i < |Descendants(e)| && Descendants(e)[i] == QuerySelector(e, tag).value &&
        Descendants(e)[i].tag == tag && forall j :: 0 <= j < i ==> Descendants(e)[j].tag != tag
  {
    SearchForestIsFirstInPreorder(e.children, tag);
    FirstWithTagSpec(Descendants(e), tag);
  }

  /** `getTextContent(e, tag)`: the trimmed text of the first descendant with `tag`, or ''. */
  function TextOf(e: Element, tag: string): string
  {
    match QuerySelector(e, tag)
    case Some(d) => Trim(d.text)
    case None => ""
  }

  /** `e.getElementsByTagName(tag)[0]?.textContent || ''`: as above, without trimming. */
  function RawTextOf(e: Element, tag: string): string
  {
    match QuerySelector(e, tag)
    case Some(d) => d.text
    case None => ""
  }

  /**
   * `xmlDoc.getElementsByTagName(tag)`: exactly the elements of the document (the document
   * element and its descendants) that carry `tag`.
   */
  function DocumentElementsByTag(root: Element, tag: string): (r: seq<Element>)
    ensures |r| <= 1 + |Descendants(root)|
    ensures forall i :: 0 <= i < |r| ==> r[i].tag == tag
    ensures forall x :: x in r <==> (x == root || x in Descendants(root)) && x.tag == tag
  {
    FilterTag([root] + Descendants(root), tag)
  }

  /** The elements of `s` that carry `tag`, in the order of `s`. */
  function FilterTag(s: seq<Element>, tag: string): (r: seq<Element>)
    ensures |r| <= |s|
    ensures forall i :: 0 <= i < |r| ==> r[i].tag == tag
    ensures forall x :: x in r <==> x in s && x.tag == tag
  {
    if s == [] then [] else (if s[0].tag == tag then [s[0]] else []) + FilterTag(s[1..], tag)
  }

  /** Filtering a concatenation filters each part and keeps the parts in order. */
  lemma {:induction false} FilterTagAppend(a: seq<Element>, b: seq<Element>, tag: string)
    ensures FilterTag(a + b, tag) == FilterTag(a, tag) + FilterTag(b, tag)
  {
    if a == [] {
      assert a + b == b;
    } else {
      assert (a + b)[1..] == a[1..] + b;
      FilterTagAppend(a[1..], b, tag);
    }
  }

  /** Tree order: the elements of a forest that carry `tag`, each before its descendants and its later siblings. */
  function TaggedInForest(cs: seq<Element>, tag: string): seq<Element>
  {
    if cs == [] then []
    else (if cs[0].tag == tag then [cs[0]] else []) + TaggedInForest(cs[0].children, tag) + TaggedInForest(cs[1..], tag)
  }

  /** Filtering the pre-order listing of a forest walks it in tree order. */
  lemma {:induction false} TaggedInForestFilters(cs: seq<Element>, tag: string)
    ensures TaggedInForest(cs, tag) == FilterTag(Preorder(cs), tag)
  {
    if cs != [] {
      TaggedInForestFilters(cs[0].children, tag);
      TaggedInForestFilters(cs[1..], tag);
      FilterTagAppend([cs[0]], Preorder(cs[0].children), tag);
      FilterTagAppend([cs[0]] + Preorder(cs[0].children), Preorder(cs[1..]), tag);
    }
  }

  /**
   * The matches come in tree order, as the DOM lists them: the document element first when it
   * carries `tag`, then the matches in each child's subtree, child by child.
   */
  lemma DocumentElementsByTagOrder(root: Element, tag: string)
    ensures DocumentElementsByTag(root, tag) ==
      (if root.tag == tag then [root] else []) + TaggedInForest(root.children, tag)
  {
    TaggedInForestFilters(root.children, tag);
    FilterTagAppend([root], Descendants(root), tag);
  }
}
