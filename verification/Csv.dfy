/** The CSV reader, and the text forms of section 2 of RFC 4180 that it must read back. */
module Csv {
  const QUOTE := '"'
  // ---------------------------------------------------------------- the reader as a function

  datatype State = State(rows: seq<seq<string>>, row: seq<string>, field: string, inQuotes: bool)

  const START := State([], [], "", false)

  function EndField(st: State): State {
    st.(row := st.row + [st.field], field := "")
  }

  function EndRow(st: State): State {
    State(st.rows + [st.row + [st.field]], [], "", st.inQuotes)
  }

  /** Reading all of `s` with the given delimiter. */
  function Scan(s: string, d: char, st: State): State
    decreases |s|
  {
    if s == [] then st
    else if st.inQuotes then
      if s[0] != QUOTE then Scan(s[1..], d, st.(field := st.field + [s[0]]))
      else if |s| >= 2 && s[1] == QUOTE then Scan(s[2..], d, st.(field := st.field + [QUOTE]))
      else Scan(s[1..], d, st.(inQuotes := false))
    else if s[0] == QUOTE then Scan(s[1..], d, st.(inQuotes := true))
    else if s[0] == d then Scan(s[1..], d, EndField(st))
    else if s[0] == '\n' || s[0] == '\r' then
      Scan(if s[0] == '\r' && |s| >= 2 && s[1] == '\n' then s[2..] else s[1..], d, EndRow(st))
    else Scan(s[1..], d, st.(field := st.field + [s[0]]))
  }

  function Finish(st: State): seq<seq<string>> {
    if st.field != "" || st.row != [] then st.rows + [st.row + [st.field]] else st.rows
  }

  function Parse(content: string, d: char): seq<seq<string>> {
    Finish(Scan(content, d, START))
  }

  /** The reader's loop. */
  method ParseCsvRows(content: string, delimiter: char) returns (rows: seq<seq<string>>)
    ensures rows == Parse(content, delimiter)
  {
    rows := [];
    var row: seq<string> := [];
    var field: string := "";
    var inQuotes := false;
    var i := 0;
    while i < |content|
      invariant i <= |content|
      invariant Scan(content, delimiter, START) == Scan(content[i..], delimiter, State(rows, row, field, inQuotes))
    {
      ghost var rest := content[i..];
      assert rest[1..] == content[i + 1..] && (i + 2 <= |content| ==> rest[2..] == content[i + 2..]);
      var ch := content[i];
      if inQuotes {
        if ch == QUOTE {
          if i + 1 < |content| && content[i + 1] == QUOTE {
            field := field + [QUOTE];
            i := i + 1;
          } else {
            inQuotes := false;
          }
        } else {
          field := field + [ch];
        }
      } else if ch == QUOTE {
        inQuotes := true;
      } else if ch == delimiter {
        row, field := row + [field], "";
      } else if ch == '\n' || ch == '\r' {
        if ch == '\r' && i + 1 < |content| && content[i + 1] == '\n' {
          i := i + 1;
        }
        rows := rows + [row + [field]];
        row, field := [], "";
      } else {
        field := field + [ch];
      }
      i := i + 1;
    }
    if field != "" || row != [] {
      rows := rows + [row + [field]];
    }
  }

  // ---------------------------------------------------------------- text forms

  /** A field and whether it is written between quotes. */
  datatype Cell = Cell(text: string, quoted: bool)

  /** A row and whether it ends in CRLF or in a lone LF. */
  datatype Line = Line(cells: seq<Cell>, crlf: bool)

  function Doubled(text: string): string {
    if text == [] then []
    else (if text[0] == QUOTE then [QUOTE, QUOTE] else [text[0]]) + Doubled(text[1..])
  }

  function PrintCell(c: Cell): string {
    if c.quoted then [QUOTE] + Doubled(c.text) + [QUOTE] else c.text
  }

  function PrintCells(cells: seq<Cell>, d: char): string
    requires cells != []
  {
    if |cells| == 1 then PrintCell(cells[0]) else PrintCell(cells[0]) + [d] + PrintCells(cells[1..], d)
  }

  function Ending(crlf: bool): string {
    if crlf then "\r\n" else "\n"
  }

  function PrintLines(lines: seq<Line>, d: char): string
    requires forall l :: l in lines ==> l.cells != []
  {
    if lines == [] then []
    else PrintCells(lines[0].cells, d) + Ending(lines[0].crlf) + PrintLines(lines[1..], d)
  }

  predicate IsDelimiter(d: char) {
    d != QUOTE && d != '\r' && d != '\n'
  }

  /** Text that may stand without quotes. */
  predicate Plain(text: string, d: char) {
    forall i :: 0 <= i < |text| ==> text[i] != QUOTE && text[i] != d && text[i] != '\r' && text[i] != '\n'
  }

  predicate CellsOk(cells: seq<Cell>, d: char) {
    forall i :: 0 <= i < |cells| ==> cells[i].quoted || Plain(cells[i].text, d)
  }

  ghost predicate LinesOk(lines: seq<Line>, d: char) {
    forall l :: l in lines ==> l.cells != [] && CellsOk(l.cells, d)
  }

  function Texts(cells: seq<Cell>): (r: seq<string>)
    ensures |r| == |cells|
  {
    if cells == [] then [] else [cells[0].text] + Texts(cells[1..])
  }

  function Rows(lines: seq<Line>): (r: seq<seq<string>>)
    ensures |r| == |lines| && forall i :: 0 <= i < |lines| ==> |r[i]| == |lines[i].cells|
  {
    if lines == [] then [] else [Texts(lines[0].cells)] + Rows(lines[1..])
  }

  // ---------------------------------------------------------------- reading one cell

  lemma {:induction false} ScanDoubled(text: string, rest: string, d: char, st: State)
    requires st.inQuotes && (rest == [] || rest[0] != QUOTE)
    ensures Scan(Doubled(text) + [QUOTE] + rest, d, st) ==
      Scan(rest, d, st.(field := st.field + text, inQuotes := false))
    decreases |text|
  {
    var s := Doubled(text) + [QUOTE] + rest;
    if text == [] {
      assert s[1..] == rest && st.field + text == st.field;
    } else {
      var s' := Doubled(text[1..]) + [QUOTE] + rest;
      ScanDoubled(text[1..], rest, d, st.(field := st.field + [text[0]]));
      assert st.field + [text[0]] + text[1..] == st.field + text;
      if text[0] == QUOTE {
        assert s[2..] == s';
      } else {
        assert s[1..] == s';
      }
    }
  }

  lemma {:induction false} ScanPlain(text: string, rest: string, d: char, st: State)
    requires !st.inQuotes && Plain(text, d)
    ensures Scan(text + rest, d, st) == Scan(rest, d, st.(field := st.field + text))
    decreases |text|
  {
    if text == [] {
      assert text + rest == rest && st.field + text == st.field;
    } else {
      ScanPlain(text[1..], rest, d, st.(field := st.field + [text[0]]));
      assert (text + rest)[1..] == text[1..] + rest;
      assert st.field + [text[0]] + text[1..] == st.field + text;
    }
  }

  lemma {:induction false} ScanCell(c: Cell, rest: string, d: char, st: State)
    requires !st.inQuotes && (c.quoted || Plain(c.text, d)) && (rest == [] || rest[0] != QUOTE)
    ensures Scan(PrintCell(c) + rest, d, st) == Scan(rest, d, st.(field := st.field + c.text))
  {
    if c.quoted {
      assert (PrintCell(c) + rest)[1..] == Doubled(c.text) + [QUOTE] + rest;
      ScanDoubled(c.text, rest, d, st.(inQuotes := true));
    } else {
      ScanPlain(c.text, rest, d, st);
    }
  }

  // ---------------------------------------------------------------- reading rows

  lemma {:induction false} CellsText(cells: seq<Cell>, rest: string, d: char)
    requires |cells| > 1
    ensures PrintCells(cells, d) + rest == PrintCell(cells[0]) + ([d] + (PrintCells(cells[1..], d) + rest))
  {
  }

  /** A cell and the delimiter behind it end one field. */
  lemma {:induction false} ScanField(c: Cell, rest: string, d: char, st: State)
    requires !st.inQuotes && st.field == "" && IsDelimiter(d) && (c.quoted || Plain(c.text, d))
    ensures Scan(PrintCell(c) + ([d] + rest), d, st) == Scan(rest, d, st.(row := st.row + [c.text]))
  {
    ScanCell(c, [d] + rest, d, st);
    assert st.field + c.text == c.text;
    assert ([d] + rest)[1..] == rest;
  }

  lemma NextOpen(st: State, cells: seq<Cell>)
    requires cells != [] && st.field == ""
    ensures |cells| == 1 ==> LastOpen(st, cells) == st.(field := st.field + cells[0].text)
    ensures |cells| > 1 ==> LastOpen(st, cells) == LastOpen(st.(row := st.row + [cells[0].text]), cells[1..])
  {
    if |cells| == 1 {
      assert st.row + Texts(cells)[..0] == st.row && st.field + cells[0].text == cells[0].text;
    } else {
      assert st.row + [cells[0].text] + Texts(cells[1..])[..|cells| - 2] == st.row + Texts(cells)[..|cells| - 1];
    }
  }

  lemma {:induction false} ScanCells(cells: seq<Cell>, rest: string, d: char, st: State)
    requires !st.inQuotes && st.field == "" && IsDelimiter(d) && (rest == [] || rest[0] != QUOTE)
    requires cells != [] && CellsOk(cells, d)
    ensures Scan(PrintCells(cells, d) + rest, d, st) == Scan(rest, d, LastOpen(st, cells))
    decreases |cells|
  {
    NextOpen(st, cells);
    if |cells| == 1 {
      ScanCell(cells[0], rest, d, st);
    } else {
      CellsText(cells, rest, d);
      ScanField(cells[0], PrintCells(cells[1..], d) + rest, d, st);
      ScanCells(cells[1..], rest, d, st.(row := st.row + [cells[0].text]));
    }
  }

  /** The state in which all but the last of `cells` are in the row and the last is the current field. */
  function LastOpen(st: State, cells: seq<Cell>): State
    requires cells != []
  {
    st.(row := st.row + Texts(cells)[..|cells| - 1], field := cells[|cells| - 1].text)
  }

  lemma {:induction false} ScanEnding(crlf: bool, rest: string, d: char, st: State)
    requires !st.inQuotes && IsDelimiter(d)
    ensures Scan(Ending(crlf) + rest, d, st) == Scan(rest, d, EndRow(st))
  {
    var s := Ending(crlf) + rest;
    if crlf {
      assert s[2..] == rest;
    } else {
      assert s[1..] == rest;
    }
  }

  lemma {:induction false} LinesText(lines: seq<Line>, rest: string, d: char)
    requires lines != [] && forall l :: l in lines ==> l.cells != []
    ensures PrintLines(lines, d) + rest ==
      PrintCells(lines[0].cells, d) + (Ending(lines[0].crlf) + (PrintLines(lines[1..], d) + rest))
  {
  }

  lemma {:induction false} ScanLine(line: Line, rest: string, d: char, st: State)
    requires !st.inQuotes && st.field == "" && st.row == [] && IsDelimiter(d)
    requires line.cells != [] && CellsOk(line.cells, d)
    ensures Scan(PrintCells(line.cells, d) + (Ending(line.crlf) + rest), d, st) ==
      Scan(rest, d, st.(rows := st.rows + [Texts(line.cells)]))
  {
    ScanCells(line.cells, Ending(line.crlf) + rest, d, st);
    ScanEnding(line.crlf, rest, d, LastOpen(st, line.cells));
    LastText(line.cells);
    assert [] + Texts(line.cells)[..|line.cells| - 1] == Texts(line.cells)[..|line.cells| - 1];
  }

  lemma {:induction false} MoreRows(st: State, lines: seq<Line>)
    ensures lines == [] ==> st.(rows := st.rows + Rows(lines)) == st
    ensures lines != [] ==>
      var first := st.(rows := st.rows + [Texts(lines[0].cells)]);
      st.(rows := st.rows + Rows(lines)) == first.(rows := first.rows + Rows(lines[1..]))
  {
  }

  lemma {:induction false} ScanLines(lines: seq<Line>, rest: string, d: char, st: State)
    requires !st.inQuotes && st.field == "" && st.row == [] && IsDelimiter(d) && LinesOk(lines, d)
    ensures Scan(PrintLines(lines, d) + rest, d, st) == Scan(rest, d, st.(rows := st.rows + Rows(lines)))
    decreases |lines|
  {
    MoreRows(st, lines);
    if lines == [] {
      assert PrintLines(lines, d) + rest == rest;
    } else {
      LinesText(lines, rest, d);
      ScanLine(lines[0], PrintLines(lines[1..], d) + rest, d, st);
      ScanLines(lines[1..], rest, d, st.(rows := st.rows + [Texts(lines[0].cells)]));
    }
  }

  lemma {:induction false} LastText(cells: seq<Cell>)
    requires cells != []
    ensures Texts(cells)[..|cells| - 1] + [cells[|cells| - 1].text] == Texts(cells)
  {
    if |cells| > 1 {
      LastText(cells[1..]);
    }
  }

  /** Rows written in any mix of quoted and plain fields and of row endings are read back as they were. */
  lemma {:induction false} RoundTrip(lines: seq<Line>, d: char)
    requires IsDelimiter(d) && LinesOk(lines, d)
    ensures Parse(PrintLines(lines, d), d) == Rows(lines)
  {
    ScanLines(lines, "", d, START);
    assert PrintLines(lines, d) + "" == PrintLines(lines, d);
    assert [] + Rows(lines) == Rows(lines);
  }

  /** The last row may lack its ending. It is then lost exactly when it is one empty field. */
  lemma {:induction false} RoundTripOpenEnd(lines: seq<Line>, last: seq<Cell>, d: char)
    requires IsDelimiter(d) && LinesOk(lines, d) && last != [] && CellsOk(last, d)
    ensures Parse(PrintLines(lines, d) + PrintCells(last, d), d) ==
      if |last| == 1 && last[0].text == "" then Rows(lines) else Rows(lines) + [Texts(last)]
  {
    ScanLines(lines, PrintCells(last, d), d, START);
    assert [] + Rows(lines) == Rows(lines);
    ScanCells(last, "", d, START.(rows := Rows(lines)));
    assert PrintCells(last, d) + "" == PrintCells(last, d);
    assert [] + Texts(last)[..|last| - 1] == Texts(last)[..|last| - 1];
    LastText(last);
  }
}
