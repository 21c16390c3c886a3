/**
 * Escaping used by the exporters: `escapeXML` / `escapeXml` (the same five entity
 * replacements in ui/app.js, web/app.js and web-ai/app.js), `escapeCSV` of ui/app.js (quote
 * only when needed) and the always-quoted CSV cell of web/app.js and web-ai/app.js.
 */
module Escaping {
  import opened Strings

  // ---------------------------------------------------------------- XML text

  /**
   * The chain of global replacements, in the source's order: `&` first, so that the
   * ampersands introduced by the later entities are not escaped again.
   */
  function EscapeXml(s: string): string
  {
    ReplaceAll(ReplaceAll(ReplaceAll(ReplaceAll(ReplaceAll(s, '&', "&amp;"), '<', "&lt;"), '>', "&gt;"), '"', "&quot;"), '\'', "&#39;")
  }

  /** `escapeXML(str)` of ui/app.js returns '' for a falsy argument before running the chain. */
  function EscapeXmlGuarded(s: string): (r: string)
    ensures s == "" ==> r == ""
  {
    if s == "" then "" else EscapeXml(s)
  }

  function EntityFor(c: char): string
  {
    match c
    case '&' => "&amp;"
    case '<' => "&lt;"
    case '>' => "&gt;"
    case '"' => "&quot;"
    case '\'' => "&#39;"
    case _ => [c]
  }

  /** Reference definition: every character replaced by its entity in a single pass. */
  function EscapeEach(s: string): string
  {
    if s == [] then [] else EntityFor(s[0]) + EscapeEach(s[1..])
  }

  lemma {:induction false} ReplaceAllAppend(a: string, b: string, c: char, rep: string)
    ensures ReplaceAll(a + b, c, rep) == ReplaceAll(a, c, rep) + ReplaceAll(b, c, rep)
  {
    if a != [] {
      assert (a + b)[0] == a[0];
      assert (a + b)[1..] == a[1..] + b;
      ReplaceAllAppend(a[1..], b, c, rep);
    } else {
      assert a + b == b;
    }
  }

  lemma ReplaceAllAbsent(s: string, c: char, rep: string)
    requires forall i :: 0 <= i < |s| ==> s[i] != c
    ensures ReplaceAll(s, c, rep) == s
  {
  }

  lemma ReplaceAllSingle(x: char, c: char, rep: string)
    ensures ReplaceAll([x], c, rep) == if x == c then rep else [x]
  {
    assert [x][1..] == [];
  }

  lemma EscapeXmlOneChar(c: char)
    ensures EscapeXml([c]) == EntityFor(c)
  {
    ReplaceAllSingle(c, '&', "&amp;");
    var s1 := ReplaceAll([c], '&', "&amp;");
    if c == '&' { ReplaceAllAbsent(s1, '<', "&lt;"); } else { ReplaceAllSingle(c, '<', "&lt;"); }
    var s2 := ReplaceAll(s1, '<', "&lt;");
    if c == '&' || c == '<' { ReplaceAllAbsent(s2, '>', "&gt;"); } else { ReplaceAllSingle(c, '>', "&gt;"); }
    var s3 := ReplaceAll(s2, '>', "&gt;");
    if c == '&' || c == '<' || c == '>' { ReplaceAllAbsent(s3, '"', "&quot;"); } else { ReplaceAllSingle(c, '"', "&quot;"); }
    var s4 := ReplaceAll(s3, '"', "&quot;");
    if c == '&' || c == '<' || c == '>' || c == '"' { ReplaceAllAbsent(s4, '\'', "&#39;"); } else { ReplaceAllSingle(c, '\'', "&#39;"); }
  }

  lemma EscapeXmlAppend(a: string, b: string)
    ensures EscapeXml(a + b) == EscapeXml(a) + EscapeXml(b)
  {
    var r1 := ReplaceAll(a, '&', "&amp;");
    var q1 := ReplaceAll(b, '&', "&amp;");
    ReplaceAllAppend(a, b, '&', "&amp;");
    var r2 := ReplaceAll(r1, '<', "&lt;");
    var q2 := ReplaceAll(q1, '<', "&lt;");
    ReplaceAllAppend(r1, q1, '<', "&lt;");
    var r3 := ReplaceAll(r2, '>', "&gt;");
    var q3 := ReplaceAll(q2, '>', "&gt;");
    ReplaceAllAppend(r2, q2, '>', "&gt;");
    var r4 := ReplaceAll(r3, '"', "&quot;");
    var q4 := ReplaceAll(q3, '"', "&quot;");
    ReplaceAllAppend(r3, q3, '"', "&quot;");
    ReplaceAllAppend(r4, q4, '\'', "&#39;");
  }

  /** The chained replacements escape each character independently, as a single pass would. */
  lemma {:induction false} EscapeXmlIsCharwise(s: string)
    ensures EscapeXml(s) == EscapeEach(s)
  {
    if s != [] {
      assert s == [s[0]] + s[1..];
      EscapeXmlAppend([s[0]], s[1..]);
      EscapeXmlOneChar(s[0]);
      EscapeXmlIsCharwise(s[1..]);
    }
  }

  predicate IsMarkupChar(c: char)
  {
    c == '<' || c == '>' || c == '"' || c == '\''
  }

  lemma {:induction false} EscapeEachHasNoMarkup(s: string)
    ensures forall i :: 0 <= i < |EscapeEach(s)| ==> !IsMarkupChar(EscapeEach(s)[i])
  {
    if s != [] {
      EscapeEachHasNoMarkup(s[1..]);
      var h := EntityFor(s[0]);
      assert forall i :: 0 <= i < |h| ==> !IsMarkupChar(h[i]);
      var t := EscapeEach(s[1..]);
      assert EscapeEach(s) == h + t;
      assert forall i :: |h| <= i < |h + t| ==> (h + t)[i] == t[i - |h|];
    }
  }

  /** Escaped text contains no raw `<`, `>`, `"` or `'`. */
  lemma EscapeXmlHasNoMarkup(s: string)
    ensures forall i :: 0 <= i < |EscapeXml(s)| ==> !IsMarkupChar(EscapeXml(s)[i])
  {
    EscapeXmlIsCharwise(s);
    EscapeEachHasNoMarkup(s);
  }

  /** Decoding of the five entities, the inverse of the escaping. */
  function UnescapeXml(s: string): string
    decreases |s|
  {
    if s == [] then []
    else if IsPrefix("&amp;", s) then "&" + UnescapeXml(s[5..])
    else if IsPrefix("&lt;", s) then "<" + UnescapeXml(s[4..])
    else if IsPrefix("&gt;", s) then ">" + UnescapeXml(s[4..])
    else if IsPrefix("&quot;", s) then "\"" + UnescapeXml(s[6..])
    else if IsPrefix("&#39;", s) then "'" + UnescapeXml(s[5..])
    else [s[0]] + UnescapeXml(s[1..])
  }

  lemma NotPrefixAt(p: string, s: string, k: nat)
    requires k < |p| && k < |s| && s[k] != p[k]
    ensures !IsPrefix(p, s)
  {
    if |p| <= |s| {
      assert s[..|p|][k] == s[k];
    }
  }

  lemma PrefixOfAppend(p: string, t: string)
    ensures IsPrefix(p, p + t) && (p + t)[|p|..] == t
  {
    assert (p + t)[..|p|] == p;
  }

  /** Decoding one entity (or one plain character) in front of any text. */
  lemma UnescapeEntity(c: char, t: string)
    ensures UnescapeXml(EntityFor(c) + t) == [c] + UnescapeXml(t)
  {
    var h := EntityFor(c);
    var s := h + t;
    PrefixOfAppend(h, t);
    if c == '&' {
    } else if c == '<' {
      NotPrefixAt("&amp;", s, 1);
    } else if c == '>' {
      NotPrefixAt("&amp;", s, 1);
      NotPrefixAt("&lt;", s, 1);
    } else if c == '"' {
      NotPrefixAt("&amp;", s, 1);
      NotPrefixAt("&lt;", s, 1);
      NotPrefixAt("&gt;", s, 1);
    } else if c == '\'' {
      NotPrefixAt("&amp;", s, 1);
      NotPrefixAt("&lt;", s, 1);
      NotPrefixAt("&gt;", s, 1);
      NotPrefixAt("&quot;", s, 1);
    } else {
      assert s[0] == c;
      NotPrefixAt("&amp;", s, 0);
      NotPrefixAt("&lt;", s, 0);
      NotPrefixAt("&gt;", s, 0);
      NotPrefixAt("&quot;", s, 0);
      NotPrefixAt("&#39;", s, 0);
    }
  }

  lemma {:induction false} UnescapeEscapeEach(s: string)
    ensures UnescapeXml(EscapeEach(s)) == s
  {
    if s != [] {
      UnescapeEntity(s[0], EscapeEach(s[1..]));
      UnescapeEscapeEach(s[1..]);
      assert s == [s[0]] + s[1..];
    }
  }

  /** Because `&` is replaced first, decoding the escaped text gives back the input. */
  lemma EscapeXmlRoundTrip(s: string)
    ensures UnescapeXml(EscapeXml(s)) == s
  {
    EscapeXmlIsCharwise(s);
    UnescapeEscapeEach(s);
  }

  // ---------------------------------------------------------------- CSV fields

  /** Doubling of every quote, `s.replace(/"/g, '""')`. */
  function DoubleQuotes(s: string): string
  {
    ReplaceAll(s, '"', "\"\"")
  }

  predicate NeedsQuoting(s: string)
  {
    ContainsChar(s, ',') || ContainsChar(s, '"') || ContainsChar(s, '\n')
  }

  /** `escapeCSV` of ui/app.js. */
  function EscapeCsv(value: string): string
  {
    if value == "" then ""
    else if NeedsQuoting(value) then "\"" + DoubleQuotes(value) + "\""
    else value
  }

  /** The always-quoted cell of the web and web-ai exporters: `"${cell.replace(/"/g, '""')}"`. */
  function QuoteCell(cell: string): string
  {
    "\"" + DoubleQuotes(cell) + "\""
  }

  /**
   * `escapeCSV` returns '' for '' and the value itself when it holds no comma, quote or
   * newline; otherwise it wraps the value in quotes and doubles its quotes.
   */
  lemma EscapeCsvSpec(value: string)
    ensures value == "" ==> EscapeCsv(value) == ""
    ensures !NeedsQuoting(value) ==> EscapeCsv(value) == value
    ensures value != "" && NeedsQuoting(value) ==> EscapeCsv(value) == "\"" + DoubleQuotes(value) + "\""
  {
  }
}
