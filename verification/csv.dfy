/** The spreadsheet format of the report: `q` quoting, `;`-separated cells,
    `\r\n`-separated lines, and a reader for that format that recovers every
    cell the writer quoted. */
module Csv {
  import opened Wrappers
  import Text

  /** `v.replace(/"/g, '""')`: every double quote doubled. */
  function Escape(s: string): (r: string)
    ensures |r| >= |s|
  {
    if |s| == 0 then ""
    else if s[0] == '"' then "\"\"" + Escape(s[1..])
    else [s[0]] + Escape(s[1..])
  }

  /** `q(v)`: `""` for a missing value, otherwise the value between double
      quotes with its own double quotes doubled. */
  function Q(v: Option<string>): (r: string)
    ensures |r| >= 2 && r[0] == '"' && r[|r| - 1] == '"'
  {
    match v
    case None => "\"\""
    case Some(s) => "\"" + Escape(s) + "\""
  }

  /** Reads the inside of a quoted cell, after its opening quote: a doubled quote
      stands for one quote and a single quote closes the cell. Gives the cell's
      text and what follows the closing quote. */
  function ReadQuoted(t: string): (r: Option<(string, string)>)
    ensures r.Some? ==> |r.value.1| < |t|
  {
    if |t| == 0 then None
    else if t[0] == '"' then
      if |t| >= 2 && t[1] == '"' then
        match ReadQuoted(t[2..])
        case None => None
        case Some((c, rest)) => Some(("\"" + c, rest))
      else Some(("", t[1..]))
    else
      match ReadQuoted(t[1..])
      case None => None
      case Some((c, rest)) => Some(([t[0]] + c, rest))
  }

  /** Reading back an escaped text and its closing quote gives the text, as long
      as no quote follows the closing one. */
  lemma {:induction false} ReadQuotedEscape(s: string, rest: string)
    requires |rest| == 0 || rest[0] != '"'
    ensures ReadQuoted(Escape(s) + "\"" + rest) == Some((s, rest))
  {
    var t := Escape(s) + "\"" + rest;
    if |s| == 0 {
      assert t == "\"" + rest;
      assert t[1..] == rest;
    } else if s[0] == '"' {
      ReadQuotedEscape(s[1..], rest);
      assert t == "\"\"" + (Escape(s[1..]) + "\"" + rest);
      assert t[2..] == Escape(s[1..]) + "\"" + rest;
      assert "\"" + s[1..] == s;
    } else {
      ReadQuotedEscape(s[1..], rest);
      assert t == [s[0]] + (Escape(s[1..]) + "\"" + rest);
      assert t[1..] == Escape(s[1..]) + "\"" + rest;
      assert [s[0]] + s[1..] == s;
    }
  }

  /** The text a quoted cell holds, or `None` when `t` is not exactly one quoted cell. */
  function Unquote(t: string): Option<string> {
    if |t| == 0 || t[0] != '"' then None
    else match ReadQuoted(t[1..])
      case Some((c, rest)) => if rest == "" then Some(c) else None
      case None => None
  }

  /** `q` loses nothing: unquoting gives back the value, and a missing value
      reads as the empty text. */
  lemma {:induction false} UnquoteQ(v: Option<string>)
    ensures Unquote(Q(v)) == Some(v.GetOr(""))
  {
    var s := v.GetOr("");
    ReadQuotedEscape(s, "");
    assert Q(v) == "\"" + (Escape(s) + "\"" + "");
    assert Q(v)[1..] == Escape(s) + "\"" + "";
  }

  /** One cell of a line: quoted by `q`, or written as is. */
  datatype Cell = Quoted(text: string) | Bare(text: string)

  function RenderCell(c: Cell): string {
    match c
    case Quoted(s) => Q(Some(s))
    case Bare(s) => s
  }

  /** A bare cell reads back only if it holds no separator, no line break and
      no quote. */
  predicate ReadableCell(c: Cell) {
    c.Quoted? || forall i :: 0 <= i < |c.text| ==> c.text[i] != ';' && c.text[i] != '\r' && c.text[i] != '"'
  }

  /** `cells.join(';')`. */
  function RenderLine(cs: seq<Cell>): string {
    if |cs| == 0 then ""
    else if |cs| == 1 then RenderCell(cs[0])
    else RenderCell(cs[0]) + ";" + RenderLine(cs[1..])
  }

  /** `lines.join('\r\n')`. */
  function RenderLines(ls: seq<seq<Cell>>): string {
    if |ls| == 0 then ""
    else if |ls| == 1 then RenderLine(ls[0])
    else RenderLine(ls[0]) + "\r\n" + RenderLines(ls[1..])
  }

  /** The byte-order mark the file starts with. */
  const Bom: char := '\U{FEFF}'

  /** The file: the byte-order mark, then the lines. */
  function RenderFile(ls: seq<seq<Cell>>): string {
    [Bom] + RenderLines(ls)
  }

  /** The characters up to the next separator, line break or the end. */
  function ReadBare(t: string): (r: (string, string))
    ensures |r.0| + |r.1| == |t| && t == r.0 + r.1
  {
    if |t| == 0 || t[0] == ';' || t[0] == '\r' then ("", t)
    else
      var (c, rest) := ReadBare(t[1..]);
      ([t[0]] + c, rest)
  }

  /** One cell: a quoted one when it starts with a quote, a bare one otherwise. */
  function ReadCell(t: string): (r: Option<(Cell, string)>)
    ensures r.Some? ==> |r.value.1| <= |t|
  {
    if |t| > 0 && t[0] == '"' then
      match ReadQuoted(t[1..])
      case None => None
      case Some((c, rest)) => Some((Quoted(c), rest))
    else
      var (c, rest) := ReadBare(t);
      Some((Bare(c), rest))
  }

  predicate EndsLine(t: string) {
    |t| == 0 || (|t| >= 2 && t[0] == '\r' && t[1] == '\n')
  }

  /** The cells of one line, and what follows it (the line break or nothing). */
  function ReadLine(t: string): (r: Option<(seq<Cell>, string)>)
    ensures r.Some? ==> |r.value.1| <= |t| && EndsLine(r.value.1)
    decreases |t|
  {
    match ReadCell(t)
    case None => None
    case Some((c, rest)) =>
      if |rest| > 0 && rest[0] == ';' then
        match ReadLine(rest[1..])
        case None => None
        case Some((cs, after)) => Some(([c] + cs, after))
      else if EndsLine(rest) then Some(([c], rest))
      else None
  }

  /** All the lines of a text. */
  function ReadLines(t: string): Option<seq<seq<Cell>>>
    decreases |t|
  {
    match ReadLine(t)
    case None => None
    case Some((cs, rest)) =>
      if |rest| == 0 then Some([cs])
      else match ReadLines(rest[2..])
        case None => None
        case Some(ls) => Some([cs] + ls)
  }

  /** A file: the byte-order mark, then its lines. */
  function ReadFile(t: string): Option<seq<seq<Cell>>> {
    if |t| == 0 || t[0] != Bom then None else ReadLines(t[1..])
  }

  predicate StartsLine(rest: string) {
    |rest| == 0 || rest[0] == ';' || rest[0] == '\r'
  }

  lemma {:induction false} ReadBareText(s: string, rest: string)
    requires forall i :: 0 <= i < |s| ==> s[i] != ';' && s[i] != '\r'
    requires StartsLine(rest)
    ensures ReadBare(s + rest) == (s, rest)
  {
    if |s| > 0 {
      ReadBareText(s[1..], rest);
      assert (s + rest)[1..] == s[1..] + rest;
      assert (s + rest)[0] == s[0];
      assert [s[0]] + s[1..] == s;
    } else {
      assert s + rest == rest;
    }
  }

  /** A quoted cell reads back whatever follows it, as long as no quote does. */
  lemma {:induction false} ReadQuotedCell(s: string, rest: string)
    requires StartsLine(rest)
    ensures ReadCell(Q(Some(s)) + rest) == Some((Quoted(s), rest))
  {
    var t := Q(Some(s)) + rest;
    ReadQuotedEscape(s, rest);
    assert t == "\"" + (Escape(s) + "\"" + rest);
    assert t[1..] == Escape(s) + "\"" + rest;
  }

  /** A bare cell without separators, line breaks or quotes reads back. */
  lemma {:induction false} ReadBareCell(s: string, rest: string)
    requires forall i :: 0 <= i < |s| ==> s[i] != ';' && s[i] != '\r' && s[i] != '"'
    requires StartsLine(rest)
    ensures ReadCell(s + rest) == Some((Bare(s), rest))
  {
    ReadBareText(s, rest);
    if |s| > 0 {
      assert (s + rest)[0] == s[0];
    } else if |rest| > 0 {
      assert (s + rest)[0] == rest[0];
    }
  }

  /** A readable cell followed by a separator, a line break or the end reads back. */
  lemma {:induction false} ReadCellRender(c: Cell, rest: string)
    requires ReadableCell(c) && StartsLine(rest)
    ensures ReadCell(RenderCell(c) + rest) == Some((c, rest))
  {
    match c
    case Quoted(s) => ReadQuotedCell(s, rest);
    case Bare(s) => ReadBareCell(s, rest);
  }

  predicate ReadableLine(cs: seq<Cell>) {
    |cs| > 0 && forall i :: 0 <= i < |cs| ==> ReadableCell(cs[i])
  }

  /** A cell followed by a separator starts a longer line. */
  lemma {:induction false} ReadLineMore(t: string, c: Cell, tail: string, cs: seq<Cell>, after: string)
    requires ReadCell(t) == Some((c, ";" + tail)) && ReadLine(tail) == Some((cs, after))
    ensures ReadLine(t) == Some(([c] + cs, after))
  {
    assert (";" + tail)[1..] == tail;
  }

  /** A cell followed by a line break or the end is the last of its line. */
  lemma {:induction false} ReadLineLast(t: string, c: Cell, rest: string)
    requires ReadCell(t) == Some((c, rest)) && EndsLine(rest)
    ensures ReadLine(t) == Some(([c], rest))
  {
  }

  lemma {:induction false} RenderLinesCons(ls: seq<seq<Cell>>)
    requires |ls| > 1
    ensures RenderLines(ls) == RenderLine(ls[0]) + ("\r\n" + RenderLines(ls[1..]))
  {
    Text.Regroup(RenderLine(ls[0]), "\r\n", RenderLines(ls[1..]), "");
    assert RenderLines(ls[1..]) + "" == RenderLines(ls[1..]);
  }

  lemma {:induction false} RenderLineCons(cs: seq<Cell>, rest: string)
    requires |cs| > 1
    ensures RenderLine(cs) + rest == RenderCell(cs[0]) + (";" + (RenderLine(cs[1..]) + rest))
  {
    Text.Regroup(RenderCell(cs[0]), ";", RenderLine(cs[1..]), rest);
  }

  lemma {:induction false} ReadableLineTail(cs: seq<Cell>)
    requires |cs| > 1 && ReadableLine(cs)
    ensures ReadableCell(cs[0]) && ReadableLine(cs[1..])
  {
    assert forall i :: 0 <= i < |cs[1..]| ==> cs[1..][i] == cs[i + 1];
  }

  /** A single readable cell is a line that reads back. */
  lemma {:induction false} ReadLineOne(cs: seq<Cell>, rest: string)
    requires |cs| == 1 && ReadableCell(cs[0]) && EndsLine(rest)
    ensures ReadLine(RenderLine(cs) + rest) == Some((cs, rest))
  {
    ReadCellRender(cs[0], rest);
    ReadLineLast(RenderCell(cs[0]) + rest, cs[0], rest);
    assert RenderLine(cs) == RenderCell(cs[0]);
    assert [cs[0]] == cs;
  }

  /** A readable first cell followed by cells that read back reads back. */
  lemma {:induction false} ReadLineStep(cs: seq<Cell>, rest: string)
    requires |cs| > 1 && ReadableCell(cs[0])
    requires ReadLine(RenderLine(cs[1..]) + rest) == Some((cs[1..], rest))
    ensures ReadLine(RenderLine(cs) + rest) == Some((cs, rest))
  {
    var tail := RenderLine(cs[1..]) + rest;
    ReadCellRender(cs[0], ";" + tail);
    RenderLineCons(cs, rest);
    ReadLineMore(RenderCell(cs[0]) + (";" + tail), cs[0], tail, cs[1..], rest);
    assert [cs[0]] + cs[1..] == cs;
  }

  /** A line of readable cells reads back as those cells. */
  lemma {:induction false} ReadLineRender(cs: seq<Cell>, rest: string)
    requires ReadableLine(cs) && EndsLine(rest)
    ensures ReadLine(RenderLine(cs) + rest) == Some((cs, rest))
  {
    if |cs| == 1 {
      ReadLineOne(cs, rest);
    } else {
      ReadableLineTail(cs);
      ReadLineRender(cs[1..], rest);
      ReadLineStep(cs, rest);
    }
  }

  /** A line followed by a line break starts a longer text. */
  lemma {:induction false} ReadLinesMore(t: string, cs: seq<Cell>, tail: string, ls: seq<seq<Cell>>)
    requires ReadLine(t) == Some((cs, "\r\n" + tail)) && ReadLines(tail) == Some(ls)
    ensures ReadLines(t) == Some([cs] + ls)
  {
    assert ("\r\n" + tail)[2..] == tail;
  }

  /** Every line holds readable cells. */
  predicate ReadableLines(ls: seq<seq<Cell>>) {
    forall i :: 0 <= i < |ls| ==> ReadableLine(ls[i])
  }

  lemma {:induction false} ReadableLinesTail(ls: seq<seq<Cell>>)
    requires |ls| > 0 && ReadableLines(ls)
    ensures ReadableLine(ls[0]) && ReadableLines(ls[1..])
  {
    assert forall i :: 0 <= i < |ls[1..]| ==> ls[1..][i] == ls[i + 1];
  }

  /** A line that ends the text is its only line. */
  lemma {:induction false} ReadLinesLast(t: string, cs: seq<Cell>)
    requires ReadLine(t) == Some((cs, ""))
    ensures ReadLines(t) == Some([cs])
  {
  }

  /** A single readable line reads back as itself. */
  lemma {:induction false} ReadLinesOne(ls: seq<seq<Cell>>)
    requires |ls| == 1 && ReadableLine(ls[0])
    ensures ReadLines(RenderLines(ls)) == Some(ls)
  {
    ReadLineRender(ls[0], "");
    assert RenderLine(ls[0]) + "" == RenderLines(ls);
    ReadLinesLast(RenderLines(ls), ls[0]);
    assert [ls[0]] == ls;
  }

  /** A readable first line followed by lines that read back reads back. */
  lemma {:induction false} ReadLinesStep(ls: seq<seq<Cell>>)
    requires |ls| > 1 && ReadableLine(ls[0])
    requires ReadLines(RenderLines(ls[1..])) == Some(ls[1..])
    ensures ReadLines(RenderLines(ls)) == Some(ls)
  {
    var tail := RenderLines(ls[1..]);
    ReadLineRender(ls[0], "\r\n" + tail);
    RenderLinesCons(ls);
    ReadLinesMore(RenderLines(ls), ls[0], tail, ls[1..]);
    assert [ls[0]] + ls[1..] == ls;
  }

  /** Lines of readable cells read back as those lines, whatever the quoted
      cells hold: separators, quotes and line breaks included. */
  lemma {:induction false} ReadLinesRender(ls: seq<seq<Cell>>)
    requires |ls| > 0 && ReadableLines(ls)
    ensures ReadLines(RenderLines(ls)) == Some(ls)
  {
    ReadableLinesTail(ls);
    if |ls| == 1 {
      ReadLinesOne(ls);
    } else {
      ReadLinesRender(ls[1..]);
      ReadLinesStep(ls);
    }
  }

  /** The file reads back as the lines that were written. */
  lemma {:induction false} ReadFileRender(ls: seq<seq<Cell>>)
    requires |ls| > 0 && ReadableLines(ls)
    ensures ReadFile(RenderFile(ls)) == Some(ls)
  {
    ReadLinesRender(ls);
    assert RenderFile(ls)[1..] == RenderLines(ls);
  }
}
