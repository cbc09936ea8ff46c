/** The CSV quoting both exporters use, and a reader for one CSV line that
    follows the field rules of section 2 of RFC 4180 (a field is either free
    of commas and quotes, or enclosed in quotes with inner quotes doubled). */
module Csv {
  import opened JsValue

  /** `s.replace(/"/g, '""')` */
  function DoubleQuotes(s: string): (r: string)
    ensures |r| >= |s|
    ensures '"' !in s ==> r == s
  {
    if |s| == 0 then ""
    else (if s[0] == '"' then "\"\"" else [s[0]]) + DoubleQuotes(s[1..])
  }

  /** `"${s.replace(/"/g, '""')}"` */
  function Quoted(s: string): string
  {
    "\"" + DoubleQuotes(s) + "\""
  }

  /** A field that may be written without quotes. */
  predicate Plain(s: string)
  {
    ',' !in s && '"' !in s
  }

  /** The rule of the background exporter for a string: quoted when it holds
      a comma or a quote, written as it is otherwise. */
  function EncodeText(s: string): (r: string)
    ensures Plain(s) ==> r == s
    ensures !Plain(s) ==> r == Quoted(s)
  {
    if ',' in s || '"' in s then Quoted(s) else s
  }

  // ---------------------------------------------------------------------
  // Reading a line back

  /** The inside of a quoted field, read up to its closing quote: the
      content with doubled quotes undone, and what follows the closing quote.
      None when the closing quote is missing. */
  function ReadQuoted(t: string): (r: Option<(string, string)>)
    ensures r.Some? ==> |r.value.1| < |t|
    decreases |t|
  {
    if |t| == 0 then None
    else if t[0] == '"' then
      if |t| > 1 && t[1] == '"' then
        match ReadQuoted(t[2..])
        case None => None
        case Some(p) => Some(("\"" + p.0, p.1))
      else Some(("", t[1..]))
    else
      match ReadQuoted(t[1..])
      case None => None
      case Some(p) => Some(([t[0]] + p.0, p.1))
  }

  /** The fields of one line.  A malformed quoted field is kept whole. */
  function ParseFields(s: string): (r: seq<string>)
    ensures |r| >= 1
    decreases |s|
  {
    if |s| > 0 && s[0] == '"' then
      match ReadQuoted(s[1..])
      case None => [s]
      case Some(p) =>
        if |p.1| == 0 then [p.0]
        else if p.1[0] == ',' then [p.0] + ParseFields(p.1[1..])
        else [s]
    else
      var k := FirstIndexOf(s, ',');
      if k == |s| then [s] else [s[..k]] + ParseFields(s[k + 1..])
  }

  lemma {:induction false} ReadQuotedOfDoubled(s: string, rest: string)
    requires |rest| == 0 || rest[0] != '"'
    ensures ReadQuoted(DoubleQuotes(s) + "\"" + rest) == Some((s, rest))
    decreases |s|
  {
    var t := DoubleQuotes(s) + "\"" + rest;
    if |s| == 0 {
      assert t == "\"" + rest;
      assert t[1..] == rest;
    } else {
      var u := DoubleQuotes(s[1..]) + "\"" + rest;
      ReadQuotedOfDoubled(s[1..], rest);
      if s[0] == '"' {
        assert t == "\"\"" + u;
        ReadQuotedDoubledQuote(u, s[1..], rest);
        assert "\"" + s[1..] == s;
      } else {
        assert t == [s[0]] + u;
        ReadQuotedOther(s[0], u, s[1..], rest);
        assert [s[0]] + s[1..] == s;
      }
    }
  }

  lemma ReadQuotedDoubledQuote(u: string, text: string, rest: string)
    requires ReadQuoted(u) == Some((text, rest))
    ensures ReadQuoted("\"\"" + u) == Some(("\"" + text, rest))
  {
    assert ("\"\"" + u)[2..] == u;
  }

  lemma ReadQuotedOther(c: char, u: string, text: string, rest: string)
    requires c != '"' && ReadQuoted(u) == Some((text, rest))
    ensures ReadQuoted([c] + u) == Some(([c] + text, rest))
  {
    assert ([c] + u)[1..] == u;
  }

  /** A quoted field is read back as the text it quotes. */
  lemma QuotedFieldRoundTrip(c: string, rest: string)
    ensures ParseFields(Quoted(c)) == [c]
    ensures ParseFields(Quoted(c) + "," + rest) == [c] + ParseFields(rest)
  {
    ReadQuotedOfDoubled(c, "");
    assert Quoted(c)[1..] == DoubleQuotes(c) + "\"" + "";
    var s := Quoted(c) + "," + rest;
    ReadQuotedOfDoubled(c, "," + rest);
    assert s[1..] == DoubleQuotes(c) + "\"" + ("," + rest);
    assert ("," + rest)[1..] == rest;
  }

  /** A plain field is read back as it is. */
  lemma PlainFieldRoundTrip(c: string, rest: string)
    requires Plain(c)
    ensures ParseFields(c) == [c]
    ensures ParseFields(c + "," + rest) == [c] + ParseFields(rest)
  {
    assert forall i :: 0 <= i < |c| ==> c[i] != ',';
    var s := c + "," + rest;
    FirstIndexAfterPrefix(c, ',', rest);
    assert s == c + [','] + rest;
    assert s[..|c|] == c && s[|c| + 1..] == rest;
    if |c| > 0 {
      assert c[0] != '"';
    }
  }

  /** One written field: enclosed in quotes, or as it is. */
  datatype Cell = QuotedCell(text: string) | RawCell(text: string)

  function Render(c: Cell): string
  {
    match c
    case QuotedCell(t) => Quoted(t)
    case RawCell(t) => t
  }

  /** A field a reader can take back: an unquoted one holds no comma and no
      quote. */
  predicate Readable(c: Cell)
  {
    c.RawCell? ==> Plain(c.text)
  }

  function RenderAll(cells: seq<Cell>): (r: seq<string>)
    ensures |r| == |cells|
    ensures forall k :: 0 <= k < |r| ==> r[k] == Render(cells[k])
  {
    if |cells| == 0 then [] else [Render(cells[0])] + RenderAll(cells[1..])
  }

  function Texts(cells: seq<Cell>): (r: seq<string>)
    ensures |r| == |cells|
    ensures forall k :: 0 <= k < |r| ==> r[k] == cells[k].text
  {
    if |cells| == 0 then [] else [cells[0].text] + Texts(cells[1..])
  }

  lemma CellRoundTrip(c: Cell, rest: string)
    requires Readable(c)
    ensures ParseFields(Render(c)) == [c.text]
    ensures ParseFields(Render(c) + "," + rest) == [c.text] + ParseFields(rest)
  {
    if c.RawCell? { PlainFieldRoundTrip(c.text, rest); } else { QuotedFieldRoundTrip(c.text, rest); }
  }

  lemma JoinCons(x: string, t: seq<string>, sep: string)
    requires |t| > 0
    ensures Join([x] + t, sep) == x + sep + Join(t, sep)
  {
    assert ([x] + t)[1..] == t;
  }

  /** A line of readable fields reads back as the texts of its fields. */
  lemma {:induction false} CellsRoundTrip(cells: seq<Cell>)
    requires |cells| >= 1
    requires forall k :: 0 <= k < |cells| ==> Readable(cells[k])
    ensures ParseFields(Join(RenderAll(cells), ",")) == Texts(cells)
    decreases |cells|
  {
    var c := cells[0];
    var e := RenderAll(cells);
    if |cells| == 1 {
      assert Join(e, ",") == Render(c);
      CellRoundTrip(c, "");
      assert Texts(cells) == [c.text];
    } else {
      var tail := RenderAll(cells[1..]);
      assert e == [Render(c)] + tail;
      JoinCons(Render(c), tail, ",");
      CellRoundTrip(c, Join(tail, ","));
      CellsRoundTrip(cells[1..]);
      assert Texts(cells) == [c.text] + Texts(cells[1..]);
    }
  }

  /** A line of fields none of which holds a comma or a quote reads back as
      those fields. */
  lemma PlainLineRoundTrip(xs: seq<string>)
    requires |xs| >= 1
    requires forall k :: 0 <= k < |xs| ==> Plain(xs[k])
    ensures ParseFields(Join(xs, ",")) == xs
  {
    var cells := seq(|xs|, k requires 0 <= k < |xs| => RawCell(xs[k]));
    assert RenderAll(cells) == xs;
    CellsRoundTrip(cells);
    assert Texts(cells) == xs;
  }

  /** The background exporter's rule as a field. */
  function TextCell(s: string): (c: Cell)
    ensures Readable(c) && c.text == s && Render(c) == EncodeText(s)
  {
    if Plain(s) then RawCell(s) else QuotedCell(s)
  }

  function EncodeAll(cells: seq<string>): (r: seq<string>)
    ensures |r| == |cells|
    ensures forall k :: 0 <= k < |r| ==> r[k] == EncodeText(cells[k])
  {
    if |cells| == 0 then [] else [EncodeText(cells[0])] + EncodeAll(cells[1..])
  }

  /** Any row of texts written with the background exporter's rule reads
      back as the same texts. */
  lemma LineRoundTrip(cells: seq<string>)
    requires |cells| >= 1
    ensures ParseFields(Join(EncodeAll(cells), ",")) == cells
  {
    var cs := TextCells(cells);
    CellsRoundTrip(cs);
  }

  /** The cells the background exporter's rule makes of a row of texts. */
  lemma TextCells(cells: seq<string>) returns (cs: seq<Cell>)
    ensures |cs| == |cells|
    ensures forall k :: 0 <= k < |cs| ==> Readable(cs[k])
    ensures RenderAll(cs) == EncodeAll(cells) && Texts(cs) == cells
  {
    cs := seq(|cells|, k requires 0 <= k < |cells| => TextCell(cells[k]));
    var rendered := RenderAll(cs);
    forall k | 0 <= k < |cells|
      ensures rendered[k] == EncodeAll(cells)[k] && Texts(cs)[k] == cells[k] && Readable(cs[k])
    {
      assert cs[k] == TextCell(cells[k]);
    }
    assert rendered == EncodeAll(cells);
    assert Texts(cs) == cells;
  }

  /** `s.replace(/"/g, '""')` keeps every other character. */
  lemma {:induction false} DoubleQuotesKeeps(s: string, c: char)
    requires c != '"' && c in s
    ensures c in DoubleQuotes(s)
    decreases |s|
  {
    if s[0] != c {
      assert c in s[1..];
      DoubleQuotesKeeps(s[1..], c);
    }
  }

  /** The background exporter quotes a text holding a line break only when
      it also holds a comma or a quote, unlike what RFC 4180 asks of every
      field holding a line break; either way the line break stays in the
      output. */
  lemma LineBreakIsNotQuoted(s: string)
    requires '\n' in s
    ensures Plain(s) ==> EncodeText(s) == s
    ensures IsPrefix("\"", EncodeText(s)) <==> !Plain(s)
    ensures '\n' in EncodeText(s)
  {
    if !Plain(s) {
      DoubleQuotesKeeps(s, '\n');
    } else if |s| > 0 {
      assert s[0] in s;
    }
  }

  // ---------------------------------------------------------------------
  // Splitting a text into lines

  /** The lines of a text, split at each line break. */
  function SplitLines(s: string): (r: seq<string>)
    ensures |r| >= 1
    decreases |s|
  {
    var k := FirstIndexOf(s, '\n');
    if k == |s| then [s] else [s[..k]] + SplitLines(s[k + 1..])
  }

  lemma SplitLinesCons(x: string, rest: string)
    requires '\n' !in x
    ensures SplitLines(x) == [x]
    ensures SplitLines(x + "\n" + rest) == [x] + SplitLines(rest)
  {
    assert forall i :: 0 <= i < |x| ==> x[i] != '\n';
    var s := x + "\n" + rest;
    FirstIndexAfterPrefix(x, '\n', rest);
    assert s == x + ['\n'] + rest;
    assert s[..|x|] == x && s[|x| + 1..] == rest;
  }

  /** Lines without line breaks joined with line breaks split back into
      those lines. */
  lemma {:induction false} SplitJoin(xs: seq<string>)
    requires |xs| >= 1
    requires forall k :: 0 <= k < |xs| ==> '\n' !in xs[k]
    ensures SplitLines(Join(xs, "\n")) == xs
    decreases |xs|
  {
    if |xs| == 1 {
      SplitLinesCons(xs[0], "");
    } else {
      JoinCons(xs[0], xs[1..], "\n");
      SplitLinesCons(xs[0], Join(xs[1..], "\n"));
      SplitJoin(xs[1..]);
      assert [xs[0]] + xs[1..] == xs;
    }
  }

  /** A text holding a line break spans several lines. */
  lemma LineBreakSplits(s: string)
    requires '\n' in s
    ensures |SplitLines(s)| >= 2
  {
    var k :| 0 <= k < |s| && s[k] == '\n';
    assert FirstIndexOf(s, '\n') <= k;
  }

  /** A line without a line break followed by such lines. */
  lemma HeadThenLines(head: string, tail: seq<string>)
    requires '\n' !in head
    requires forall k :: 0 <= k < |tail| ==> '\n' !in tail[k]
    ensures forall k :: 0 <= k < |[head] + tail| ==> '\n' !in ([head] + tail)[k]
  {
    forall k | 0 <= k < |[head] + tail|
      ensures '\n' !in ([head] + tail)[k]
    {
      if k > 0 {
        assert ([head] + tail)[k] == tail[k - 1];
      }
    }
  }

  lemma {:induction false} JoinWithoutLineBreak(xs: seq<string>, sep: string)
    requires '\n' !in sep
    requires forall k :: 0 <= k < |xs| ==> '\n' !in xs[k]
    ensures '\n' !in Join(xs, sep)
    decreases |xs|
  {
    if |xs| > 1 {
      JoinWithoutLineBreak(xs[1..], sep);
      JoinCons(xs[0], xs[1..], sep);
    }
  }
}
