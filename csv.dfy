/**
 * CSV documents as the exporters write them: cells joined by `,`, rows joined by `\n`,
 * each cell passed through the exporter's quoting. A reference reader in the style of
 * RFC 4180 (quoted fields may hold commas, quotes doubled, and newlines) reads such a
 * document back; the lemmas show that it recovers every row and cell exactly.
 */
module Csv {
  import opened Strings
  import opened Escaping

  /** `Minimal` is ui's `escapeCSV`; `Always` is the web exporters' always-quoted cell. */
  datatype Quoting = Minimal | Always

  function Encode(q: Quoting, v: string): string
  {
    match q
    case Minimal => EscapeCsv(v)
    case Always => QuoteCell(v)
  }

  function EncodeAll(q: Quoting, cells: seq<string>): (r: seq<string>)
    ensures |r| == |cells|
    ensures forall i :: 0 <= i < |cells| ==> r[i] == Encode(q, cells[i])
  {
    if cells == [] then [] else [Encode(q, cells[0])] + EncodeAll(q, cells[1..])
  }

  /** One line: `row.map(quote).join(',')`. */
  function Line(q: Quoting, cells: seq<string>): string
  {
    Join(EncodeAll(q, cells), ",")
  }

  function Lines(q: Quoting, rows: seq<seq<string>>): (r: seq<string>)
    ensures |r| == |rows|
    ensures forall i :: 0 <= i < |rows| ==> r[i] == Line(q, rows[i])
  {
    if rows == [] then [] else [Line(q, rows[0])] + Lines(q, rows[1..])
  }

  /** The whole document: `lines.join('\n')`. */
  function Document(q: Quoting, rows: seq<seq<string>>): string
  {
    Join(Lines(q, rows), "\n")
  }

  // The reference reader.

  /** The inside of a quoted field up to its closing quote; `""` stands for one quote. */
  function ReadQuoted(s: string): (r: (string, string))
    ensures |r.1| <= |s|
    decreases |s|
  {
    if s == [] then ("", [])
    else if s[0] == '"' then
      if |s| >= 2 && s[1] == '"' then
        var (v, rest) := ReadQuoted(s[2..]);
        ("\"" + v, rest)
      else ("", s[1..])
    else
      var (v, rest) := ReadQuoted(s[1..]);
      ([s[0]] + v, rest)
  }

  /** An unquoted field: everything up to the next comma or newline. */
  function ReadBare(s: string): (r: (string, string))
    ensures |r.1| <= |s|
    ensures r.0 + r.1 == s
    decreases |s|
  {
    if s == [] || s[0] == ',' || s[0] == '\n' then ("", s)
    else
      var (v, rest) := ReadBare(s[1..]);
      ([s[0]] + v, rest)
  }

  function ReadField(s: string): (r: (string, string))
    ensures |r.1| <= |s|
  {
    if |s| > 0 && s[0] == '"' then ReadQuoted(s[1..]) else ReadBare(s)
  }

  /** The fields of one record, and the input left after it. */
  function ReadRecord(s: string): (r: (seq<string>, string))
    ensures |r.0| >= 1 && |r.1| <= |s|
    decreases |s|
  {
    var (f, rest) := ReadField(s);
    if |rest| > 0 && rest[0] == ',' then
      var (fs, rest2) := ReadRecord(rest[1..]);
      ([f] + fs, rest2)
    else ([f], rest)
  }

  function ReadDocument(s: string): (r: seq<seq<string>>)
    ensures |r| >= 1
    decreases |s|
  {
    var (rec, rest) := ReadRecord(s);
    if |rest| > 0 && rest[0] == '\n' then [rec] + ReadDocument(rest[1..]) else [rec]
  }

  // Reading back what the writers produce.

  predicate FieldEnd(rest: string)
  {
    rest == [] || rest[0] == ',' || rest[0] == '\n'
  }

  predicate RecordEnd(rest: string)
  {
    rest == [] || rest[0] == '\n'
  }

  lemma {:induction false} ReadQuotedDoubled(v: string, rest: string)
    requires FieldEnd(rest)
    ensures ReadQuoted(DoubleQuotes(v) + "\"" + rest) == (v, rest)
  {
    var s := DoubleQuotes(v) + "\"" + rest;
    if v == [] {
      assert s == "\"" + rest;
      assert s[1..] == rest;
    } else {
      var h := if v[0] == '"' then "\"\"" else [v[0]];
      var t := DoubleQuotes(v[1..]) + "\"" + rest;
      assert DoubleQuotes(v) == h + DoubleQuotes(v[1..]);
      assert s == h + t;
      assert s[|h|..] == t;
      assert s[0] == h[0];
      if v[0] == '"' {
        assert s[1] == '"';
      }
      ReadQuotedDoubled(v[1..], rest);
      assert v == [v[0]] + v[1..];
    }
  }

  lemma {:induction false} ReadBarePlain(v: string, rest: string)
    requires forall i :: 0 <= i < |v| ==> v[i] != ',' && v[i] != '\n'
    requires FieldEnd(rest)
    ensures ReadBare(v + rest) == (v, rest)
  {
    if v == [] {
      assert v + rest == rest;
    } else {
      assert (v + rest)[0] == v[0];
      assert (v + rest)[1..] == v[1..] + rest;
      ReadBarePlain(v[1..], rest);
      assert v == [v[0]] + v[1..];
    }
  }

  /** A cell the minimal quoting leaves alone holds no comma, quote or newline. */
  lemma PlainCell(v: string)
    requires !NeedsQuoting(v)
    ensures forall i :: 0 <= i < |v| ==> v[i] != ',' && v[i] != '\n' && v[i] != '"'
  {
  }

  lemma ReadFieldEncoded(q: Quoting, v: string, rest: string)
    requires FieldEnd(rest)
    ensures ReadField(Encode(q, v) + rest) == (v, rest)
  {
    var e := Encode(q, v);
    if e == "\"" + DoubleQuotes(v) + "\"" {
      assert e + rest == "\"" + (DoubleQuotes(v) + "\"" + rest);
      assert (e + rest)[1..] == DoubleQuotes(v) + "\"" + rest;
      ReadQuotedDoubled(v, rest);
    } else {
      assert e == v && !NeedsQuoting(v);
      PlainCell(v);
      ReadBarePlain(v, rest);
    }
  }

  /** Reading back a cell written by `escapeCSV` yields the value, the empty value included. */
  lemma EscapeCsvReadsBack(value: string)
    ensures ReadField(EscapeCsv(value)) == (value, "")
  {
    ReadFieldEncoded(Minimal, value, "");
    assert Encode(Minimal, value) + "" == EscapeCsv(value);
  }

  /** Reading back an always-quoted cell with doubled quotes yields the cell. */
  lemma QuoteCellReadsBack(cell: string)
    ensures ReadField(QuoteCell(cell)) == (cell, "")
  {
    ReadFieldEncoded(Always, cell, "");
    assert Encode(Always, cell) + "" == QuoteCell(cell);
  }

  lemma LineCons(q: Quoting, cells: seq<string>, rest: string)
    requires |cells| >= 2
    ensures Line(q, cells) + rest == Encode(q, cells[0]) + ("," + (Line(q, cells[1..]) + rest))
  {
    assert EncodeAll(q, cells)[1..] == EncodeAll(q, cells[1..]);
    assert Line(q, cells) == Encode(q, cells[0]) + "," + Line(q, cells[1..]);
  }

  lemma {:induction false} ReadRecordEncoded(q: Quoting, cells: seq<string>, rest: string)
    requires |cells| >= 1 && RecordEnd(rest)
    ensures ReadRecord(Line(q, cells) + rest) == (cells, rest)
  {
    var e := Encode(q, cells[0]);
    if |cells| == 1 {
      assert Line(q, cells) == e;
      ReadFieldEncoded(q, cells[0], rest);
      ReadRecordLast(e + rest, cells[0], rest);
      assert cells == [cells[0]];
    } else {
      var tail := Line(q, cells[1..]) + rest;
      LineCons(q, cells, rest);
      ReadFieldEncoded(q, cells[0], "," + tail);
      ReadRecordCons(e + ("," + tail), cells[0], tail);
      ReadRecordEncoded(q, cells[1..], rest);
      assert cells == [cells[0]] + cells[1..];
    }
  }

  /** A field followed by a comma: the record goes on after it. */
  lemma ReadRecordCons(s: string, f: string, tail: string)
    requires ReadField(s) == (f, "," + tail)
    ensures ReadRecord(s) == ([f] + ReadRecord(tail).0, ReadRecord(tail).1)
  {
    assert ("," + tail)[1..] == tail;
  }

  /** A field followed by the end of the record. */
  lemma ReadRecordLast(s: string, f: string, rest: string)
    requires ReadField(s) == (f, rest) && RecordEnd(rest)
    ensures ReadRecord(s) == ([f], rest)
  {
  }

  /** Every row of at least one cell comes back unchanged, cell by cell. */
  lemma {:induction false} ReadDocumentRoundTrip(q: Quoting, rows: seq<seq<string>>)
    requires |rows| >= 1 && forall i :: 0 <= i < |rows| ==> |rows[i]| >= 1
    ensures ReadDocument(Document(q, rows)) == rows
  {
    var l := Line(q, rows[0]);
    if |rows| == 1 {
      assert Document(q, rows) == l;
      assert l + "" == l;
      ReadRecordEncoded(q, rows[0], "");
    } else {
      var tail := Document(q, rows[1..]);
      assert Lines(q, rows)[1..] == Lines(q, rows[1..]);
      assert Document(q, rows) == l + "\n" + tail;
      assert l + "\n" + tail == l + ("\n" + tail);
      ReadRecordEncoded(q, rows[0], "\n" + tail);
      assert ("\n" + tail)[1..] == tail;
      ReadDocumentRoundTrip(q, rows[1..]);
      assert rows == [rows[0]] + rows[1..];
    }
  }

  /** Text with no comma, quote or newline, which a writer may emit without quoting. */
  predicate PlainText(v: string)
  {
    forall i :: 0 <= i < |v| ==> v[i] != ',' && v[i] != '"' && v[i] != '\n'
  }

  predicate PlainCells(cells: seq<string>)
  {
    forall k :: 0 <= k < |cells| ==> PlainText(cells[k])
  }

  lemma ReadPlainField(v: string, rest: string)
    requires PlainText(v) && FieldEnd(rest)
    ensures ReadField(v + rest) == (v, rest)
  {
    if v != [] {
      assert (v + rest)[0] == v[0];
    } else {
      assert v + rest == rest;
    }
    ReadBarePlain(v, rest);
  }

  lemma {:induction false} ReadPlainRecord(cells: seq<string>, rest: string)
    requires |cells| >= 1 && PlainCells(cells) && RecordEnd(rest)
    ensures ReadRecord(Join(cells, ",") + rest) == (cells, rest)
  {
    var c := cells[0];
    if |cells| == 1 {
      ReadPlainField(c, rest);
      assert cells == [c];
    } else {
      var tail := Join(cells[1..], ",") + rest;
      assert Join(cells, ",") + rest == c + ("," + tail);
      ReadPlainField(c, "," + tail);
      assert ("," + tail)[1..] == tail;
      assert PlainCells(cells[1..]) by {
        forall k | 0 <= k < |cells[1..]|
          ensures PlainText(cells[1..][k])
        {
          assert cells[1..][k] == cells[k + 1];
        }
      }
      ReadPlainRecord(cells[1..], rest);
      assert cells == [c] + cells[1..];
    }
  }

  /** A plain header line, written with a bare `join`, and the rows written after it read back. */
  lemma ReadHeadedDocument(header: seq<string>, q: Quoting, rows: seq<seq<string>>)
    requires |header| >= 1 && PlainCells(header)
    requires forall i :: 0 <= i < |rows| ==> |rows[i]| >= 1
    ensures ReadDocument(Join([Join(header, ",")] + Lines(q, rows), "\n")) == [header] + rows
  {
    var h := Join(header, ",");
    if rows == [] {
      assert [h] + Lines(q, rows) == [h];
      assert h + "" == h;
      ReadPlainRecord(header, "");
    } else {
      var tail := Document(q, rows);
      assert ([h] + Lines(q, rows))[1..] == Lines(q, rows);
      assert Join([h] + Lines(q, rows), "\n") == h + ("\n" + tail);
      ReadPlainRecord(header, "\n" + tail);
      assert ("\n" + tail)[1..] == tail;
      ReadDocumentRoundTrip(q, rows);
    }
  }
}
