// Comma-separated values as section 2 of RFC 4180 defines them: a record is
// fields separated by commas; a field may be enclosed in double quotes, and
// inside such a field a double quote is written twice (rule 7).

module Csv {
  import opened Seqs
  import Text

  /** One character as it is written inside a quoted field. */
  function EscapeChar(c: char): string
  {
    if c == '"' then "\"\"" else [c]
  }

  /** Doubles every double quote. */
  function Escape(t: string): (r: string)
    ensures |r| >= |t|
  {
    if t == [] then [] else EscapeChar(t[0]) + Escape(t[1..])
  }

  /** Reads an escaped text back, turning each doubled quote into one. */
  function Unescape(u: string): string
  {
    if u == [] then []
    else if |u| >= 2 && u[0] == '"' && u[1] == '"' then "\"" + Unescape(u[2..])
    else [u[0]] + Unescape(u[1..])
  }

  lemma {:induction false} UnescapeEscape(t: string)
    ensures Unescape(Escape(t)) == t
  {
    if t != [] {
      UnescapeEscape(t[1..]);
      assert [t[0]] + t[1..] == t;
      if t[0] == '"' {
        assert Escape(t) == "\"\"" + Escape(t[1..]);
        assert Escape(t)[2..] == Escape(t[1..]);
      } else {
        assert Escape(t) == [t[0]] + Escape(t[1..]);
        assert Escape(t)[1..] == Escape(t[1..]);
      }
    }
  }

  /** Escaping adds no character other than the double quote. */
  lemma {:induction false} EscapeFree(t: string, c: char)
    requires c != '"' && c !in t
    ensures c !in Escape(t)
  {
    if t != [] {
      EscapeFree(t[1..], c);
    }
  }

  /** Encloses a text in double quotes, doubling the quotes inside it. */
  function SafeText(t: string): (r: string)
    ensures |r| >= 2 && r[0] == '"' && r[|r| - 1] == '"'
    ensures Unescape(r[1..|r| - 1]) == t
  {
    UnescapeEscape(t);
    var r := "\"" + Escape(t) + "\"";
    assert r[1..|r| - 1] == Escape(t);
    r
  }

  /** A field as written to a line: enclosed in quotes, or bare. */
  datatype Cell = Quoted(text: string) | Bare(text: string)

  function CellText(c: Cell): string { c.text }

  function RenderCell(c: Cell): string
  {
    match c
    case Quoted(t) => SafeText(t)
    case Bare(t) => t
  }

  /** A cell reads back as its text: a bare one must hold no comma and no quote. */
  predicate Readable(c: Cell)
  {
    c.Quoted? || (',' !in c.text && '"' !in c.text)
  }

  /** The cells of one line, separated by commas. */
  function RenderRecord(cells: seq<Cell>): string
  {
    Text.Join(Map(RenderCell, cells), ",")
  }

  /** Reads the inside of a quoted field: the text up to the closing quote, and what follows it. */
  function ReadQuoted(s: string): (r: (string, string))
    ensures |r.1| <= |s|
  {
    if s == [] then ("", "")
    else if s[0] == '"' then
      if |s| >= 2 && s[1] == '"' then
        var p := ReadQuoted(s[2..]);
        ("\"" + p.0, p.1)
      else ("", s[1..])
    else
      var p := ReadQuoted(s[1..]);
      ([s[0]] + p.0, p.1)
  }

  /** Reads a bare field: everything up to the next comma. */
  function ReadBare(s: string): (r: (string, string))
    ensures |r.1| <= |s|
    ensures r.1 == [] || r.1[0] == ','
  {
    if s == [] || s[0] == ',' then ("", s)
    else
      var p := ReadBare(s[1..]);
      ([s[0]] + p.0, p.1)
  }

  /** Reads one field; what is left is empty or starts with the comma before the next field.
      Characters between a closing quote and the next comma are dropped. */
  function ReadField(s: string): (r: (string, string))
    ensures |r.1| <= |s|
    ensures r.1 == [] || r.1[0] == ','
  {
    if s != [] && s[0] == '"' then
      var q := ReadQuoted(s[1..]);
      var b := ReadBare(q.1);
      (q.0, b.1)
    else ReadBare(s)
  }

  /** The fields of one line. */
  function ParseRecord(s: string): (r: seq<string>)
    ensures |r| >= 1
    decreases |s|
  {
    var f := ReadField(s);
    if f.1 == [] then [f.0] else [f.0] + ParseRecord(f.1[1..])
  }

  /** An escaped character inside a quoted field reads back as the character. */
  lemma ReadQuotedChar(c: char, u: string)
    ensures ReadQuoted(EscapeChar(c) + u) == ([c] + ReadQuoted(u).0, ReadQuoted(u).1)
  {
    if c == '"' {
      assert ("\"\"" + u)[2..] == u;
    } else {
      assert ([c] + u)[1..] == u;
    }
  }

  lemma {:induction false} ReadQuotedEscape(t: string, rest: string)
    requires rest == [] || rest[0] == ','
    ensures ReadQuoted(Escape(t) + "\"" + rest) == (t, rest)
  {
    if t == [] {
      assert Escape(t) + "\"" + rest == "\"" + rest;
    } else {
      var tail := Escape(t[1..]) + "\"" + rest;
      EscapeThenQuote(t, rest);
      ReadQuotedEscape(t[1..], rest);
      ReadQuotedChar(t[0], tail);
      HeadTail(t);
    }
  }

  lemma EscapeThenQuote(t: string, rest: string)
    requires t != []
    ensures Escape(t) + "\"" + rest == EscapeChar(t[0]) + (Escape(t[1..]) + "\"" + rest)
  {
    AppendAssoc(EscapeChar(t[0]), Escape(t[1..]), "\"");
    AppendAssoc(EscapeChar(t[0]), Escape(t[1..]) + "\"", rest);
  }

  lemma {:induction false} ReadBareText(t: string, rest: string)
    requires ',' !in t
    requires rest == [] || rest[0] == ','
    ensures ReadBare(t + rest) == (t, rest)
  {
    if t == [] {
      assert t + rest == rest;
    } else {
      ReadBareText(t[1..], rest);
      assert (t + rest)[1..] == t[1..] + rest;
      assert [t[0]] + t[1..] == t;
    }
  }

  /** A readable cell reads back as its text, leaving what follows it. */
  lemma ReadFieldCell(c: Cell, rest: string)
    requires Readable(c)
    requires rest == [] || rest[0] == ','
    ensures ReadField(RenderCell(c) + rest) == (c.text, rest)
  {
    match c
    case Quoted(t) =>
      var s := SafeText(t) + rest;
      assert s == "\"" + (Escape(t) + "\"" + rest);
      assert s[1..] == Escape(t) + "\"" + rest;
      ReadQuotedEscape(t, rest);
      ReadBareText("", rest);
      assert "" + rest == rest;
    case Bare(t) =>
      ReadBareText(t, rest);
      if t != [] {
        assert (t + rest)[0] == t[0];
      }
  }

  /** Reading a rendered line gives back the texts of its cells, one field per cell. */
  lemma {:induction false} RecordRoundTrip(cells: seq<Cell>)
    requires |cells| >= 1
    requires forall k :: 0 <= k < |cells| ==> Readable(cells[k])
    ensures ParseRecord(RenderRecord(cells)) == Map(CellText, cells)
  {
    var c := cells[0];
    MapCons(CellText, cells);
    if |cells| == 1 {
      assert RenderRecord(cells) == RenderCell(c) + "";
      ReadFieldCell(c, "");
    } else {
      var cs := cells[1..];
      RecordRoundTrip(cs);
      var tail := "," + RenderRecord(cs);
      RenderRecordCons(cells);
      ReadFieldCell(c, tail);
      assert tail[1..] == RenderRecord(cs);
    }
  }

  /** A line of two or more cells is the first cell, a comma and the rest of the line. */
  lemma RenderRecordCons(cells: seq<Cell>)
    requires |cells| >= 2
    ensures RenderRecord(cells) == RenderCell(cells[0]) + ("," + RenderRecord(cells[1..]))
  {
    MapCons(RenderCell, cells);
    Text.JoinCons(RenderCell(cells[0]), Map(RenderCell, cells[1..]), ",");
  }

  /** A character other than the quote and the comma that is in no cell's text is not in
      the rendered line. */
  lemma RecordFree(cells: seq<Cell>, c: char)
    requires c != '"' && c != ','
    requires forall k :: 0 <= k < |cells| ==> c !in cells[k].text
    ensures c !in RenderRecord(cells)
  {
    var texts := Map(RenderCell, cells);
    forall k | 0 <= k < |cells| ensures c !in texts[k] {
      EscapeFree(cells[k].text, c);
    }
    Text.JoinFree(texts, ",", c);
  }

  /** Cutting a bare cell at a comma does not change the rendered line. */
  lemma RenderSplitBare(xs: seq<Cell>, a: string, b: string, ys: seq<Cell>)
    ensures RenderRecord(xs + [Bare(a + "," + b)] + ys) == RenderRecord(xs + [Bare(a), Bare(b)] + ys)
  {
    assert Map(RenderCell, xs + [Bare(a + "," + b)] + ys)
        == Map(RenderCell, xs) + [a + "," + b] + Map(RenderCell, ys);
    assert Map(RenderCell, xs + [Bare(a), Bare(b)] + ys)
        == Map(RenderCell, xs) + [a, b] + Map(RenderCell, ys);
    Text.JoinSplitPiece(Map(RenderCell, xs), a, b, Map(RenderCell, ys), ",");
  }
}
