/** The delimiter detection of the CSV reader, and exactly when what it finds gives written rows back. */
module CsvDetection {
  import opened Csv
  import opened Slices

  const CANDIDATES: seq<char> := [',', ';', '\t', '|']

  predicate IsCandidate(c: char) {
    c == ',' || c == ';' || c == '\t' || c == '|'
  }

  // ---------------------------------------------------------------- finding the delimiter

  /** The part of `s` outside quotes up to the first line end outside quotes. */
  function Header(s: string, inQuotes: bool): string {
    if s == [] then []
    else if s[0] == QUOTE then Header(s[1..], !inQuotes)
    else if inQuotes then Header(s[1..], inQuotes)
    else if s[0] == '\n' || s[0] == '\r' then []
    else [s[0]] + Header(s[1..], inQuotes)
  }

  function Count(s: string, c: char): nat {
    if s == [] then 0 else (if s[0] == c then 1 else 0) + Count(s[1..], c)
  }

  /** `c` is the first of the candidates that occur most often in `header`. */
  ghost predicate IsFirstMost(header: string, c: char) {
    exists k :: 0 <= k < |CANDIDATES| && c == CANDIDATES[k]
      && (forall i :: 0 <= i < k ==> Count(header, CANDIDATES[i]) < Count(header, c))
      && (forall i :: k < i < |CANDIDATES| ==> Count(header, CANDIDATES[i]) <= Count(header, c))
  }

  ghost predicate IsDetected(content: string, c: char) {
    IsFirstMost(Header(content, false), c)
  }

  /** The number of occurrences of each candidate in the header. */
  ghost predicate Tallied(counts: map<char, nat>, header: string) {
    counts.Keys == {',', ';', '\t', '|'} && forall c :: c in counts ==> counts[c] == Count(header, c)
  }

  /** The counts so far; `rest` of the header is still to be read. */
  ghost predicate Tallying(counts: map<char, nat>, header: string, rest: string) {
    counts.Keys == {',', ';', '\t', '|'} && forall c :: c in counts ==> counts[c] + Count(rest, c) == Count(header, c)
  }

  lemma TalliedOne(counts: map<char, nat>, header: string, rest: string)
    requires Tallying(counts, header, rest) && rest != []
    ensures var ch := rest[0];
      Tallying(if ch in counts then counts[ch := counts[ch] + 1] else counts, header, rest[1..])
  {
  }

  /** The first loop: it counts candidates outside quotes up to the end of the first row. */
  method CountCandidates(content: string) returns (counts: map<char, nat>)
    ensures Tallied(counts, Header(content, false))
  {
    ghost var header := Header(content, false);
    counts := map[',' := 0, ';' := 0, '\t' := 0, '|' := 0];
    var inQuotes := false;
    var i := 0;
    ghost var rest := header;
    while i < |content|
      invariant i <= |content|
      invariant rest == Header(content[i..], inQuotes)
      invariant Tallying(counts, header, rest)
    {
      assert content[i..][1..] == content[i + 1..];
      var ch := content[i];
      i := i + 1;
      if ch == QUOTE {
        inQuotes := !inQuotes;
        continue;
      }
      if !inQuotes && (ch == '\n' || ch == '\r') {
        break;
      }
      if !inQuotes {
        TalliedOne(counts, header, rest);
        rest := rest[1..];
        if ch in counts {
          counts := counts[ch := counts[ch] + 1];
        }
      }
    }
  }

  method DetectCsvDelimiter(content: string) returns (best: char)
    ensures IsDetected(content, best)
  {
    ghost var header := Header(content, false);
    var counts := CountCandidates(content);
    best := ',';
    var bestCount := 0;
    ghost var b := 0;
    for k := 0 to |CANDIDATES|
      invariant 0 <= b < |CANDIDATES| && best == CANDIDATES[b] && (k == 0 ==> b == 0) && (k > 0 ==> b < k)
      invariant bestCount == if k == 0 then 0 else Count(header, best)
      invariant forall j :: 0 <= j < b ==> Count(header, CANDIDATES[j]) < Count(header, best)
      invariant forall j :: b < j < k ==> Count(header, CANDIDATES[j]) <= Count(header, best)
    {
      var count := counts[CANDIDATES[k]];
      if count > bestCount {
        best, bestCount, b := CANDIDATES[k], count, k;
      }
    }
  }

  lemma DetectedUnique(content: string, c: char, e: char)
    requires IsDetected(content, c) && IsDetected(content, e)
    ensures c == e
  {
  }

  lemma {:induction false} HeaderSkips(text: string, rest: string, inQuotes: bool)
    requires forall i :: 0 <= i < |text| ==> text[i] != QUOTE && (inQuotes || (text[i] != '\n' && text[i] != '\r'))
    ensures Header(text + rest, inQuotes) == (if inQuotes then "" else text) + Header(rest, inQuotes)
    decreases |text|
  {
    if text == [] {
      assert text + rest == rest;
    } else {
      HeaderSkips(text[1..], rest, inQuotes);
      assert (text + rest)[1..] == text[1..] + rest;
      Regroup([text[0]], text[1..], Header(rest, inQuotes));
      assert [text[0]] + text[1..] == text;
    }
  }

  /** The header of any text, part by part: up to the first quote outside quotes everything counts, up to the next
      nothing does, and a line end of either kind outside quotes is the end. */
  lemma {:induction false} HeaderParts(outside: string, quoted: string, rest: string, end: char)
    requires forall i :: 0 <= i < |outside| ==> outside[i] != QUOTE && outside[i] != '\n' && outside[i] != '\r'
    requires QUOTE !in quoted && (end == '\n' || end == '\r')
    ensures Header(outside, false) == outside
    ensures Header(outside + ([end] + rest), false) == outside
    ensures Header(outside + ([QUOTE] + (quoted + ([QUOTE] + rest))), false) == outside + Header(rest, false)
    ensures Header(outside + ([QUOTE] + quoted), false) == outside
  {
    var open, closed := [QUOTE] + quoted, [QUOTE] + (quoted + ([QUOTE] + rest));
    HeaderSkips(outside, "", false);
    HeaderSkips(outside, [end] + rest, false);
    HeaderSkips(outside, open, false);
    HeaderSkips(outside, closed, false);
    HeaderSkips(quoted, "", true);
    HeaderSkips(quoted, [QUOTE] + rest, true);
    assert outside + "" == outside && quoted + "" == quoted;
    assert open[1..] == quoted && closed[1..] == quoted + ([QUOTE] + rest) && ([QUOTE] + rest)[1..] == rest;
  }

  // ---------------------------------------------------------------- the header of written rows

  /** The part of a cell that stands outside quotes. */
  function Visible(c: Cell): string {
    if c.quoted then "" else c.text
  }

  /** The part of a written row that stands outside quotes. */
  function Shown(cells: seq<Cell>, d: char): string
    requires cells != []
  {
    if |cells| == 1 then Visible(cells[0]) else Visible(cells[0]) + [d] + Shown(cells[1..], d)
  }

  lemma {:induction false} HeaderDoubled(text: string, rest: string)
    ensures Header(Doubled(text) + [QUOTE] + rest, true) == Header(rest, false)
    decreases |text|
  {
    var s := Doubled(text) + [QUOTE] + rest;
    if text == [] {
      assert s[1..] == rest;
    } else {
      HeaderDoubled(text[1..], rest);
      var s' := Doubled(text[1..]) + [QUOTE] + rest;
      if text[0] == QUOTE {
        assert s[1..] == [QUOTE] + s';
        assert s[1..][1..] == s';
      } else {
        assert s[1..] == s';
      }
    }
  }

  lemma {:induction false} HeaderPlain(text: string, rest: string, d: char)
    requires Plain(text, d)
    ensures Header(text + rest, false) == text + Header(rest, false)
    decreases |text|
  {
    if text == [] {
      assert text + rest == rest;
    } else {
      HeaderPlain(text[1..], rest, d);
      assert (text + rest)[1..] == text[1..] + rest;
      assert [text[0]] + (text[1..] + Header(rest, false)) == text + Header(rest, false);
    }
  }

  lemma {:induction false} HeaderCell(c: Cell, rest: string, d: char)
    requires c.quoted || Plain(c.text, d)
    ensures Header(PrintCell(c) + rest, false) == Visible(c) + Header(rest, false)
  {
    if c.quoted {
      assert (PrintCell(c) + rest)[1..] == Doubled(c.text) + [QUOTE] + rest;
      HeaderDoubled(c.text, rest);
    } else {
      HeaderPlain(c.text, rest, d);
    }
  }

  lemma {:induction false} HeaderCells(cells: seq<Cell>, crlf: bool, rest: string, d: char)
    requires cells != [] && CellsOk(cells, d) && IsDelimiter(d)
    ensures Header(PrintCells(cells, d) + (Ending(crlf) + rest), false) == Shown(cells, d)
    decreases |cells|
  {
    var tail := Ending(crlf) + rest;
    if |cells| == 1 {
      HeaderCell(cells[0], tail, d);
    } else {
      CellsText(cells, tail, d);
      var more := PrintCells(cells[1..], d) + tail;
      HeaderCell(cells[0], [d] + more, d);
      HeaderCells(cells[1..], crlf, rest, d);
      HeaderSeparator(d, more);
      Regroup(Visible(cells[0]), [d], Shown(cells[1..], d));
    }
  }

  lemma HeaderSeparator(d: char, more: string)
    requires IsDelimiter(d)
    ensures Header([d] + more, false) == [d] + Header(more, false)
  {
    assert ([d] + more)[1..] == more;
  }

  lemma {:induction false} HeaderWritten(lines: seq<Line>, d: char)
    requires lines != [] && LinesOk(lines, d) && IsDelimiter(d)
    ensures Header(PrintLines(lines, d), false) == Shown(lines[0].cells, d)
  {
    LinesText(lines, "", d);
    assert PrintLines(lines, d) + "" == PrintLines(lines, d);
    HeaderCells(lines[0].cells, lines[0].crlf, PrintLines(lines[1..], d) + "", d);
  }

  // ---------------------------------------------------------------- exactly when the delimiter is detected

  /** How often `c` occurs in the plain cells of a row. */
  function PlainCount(cells: seq<Cell>, c: char): nat {
    if cells == [] then 0 else Count(Visible(cells[0]), c) + PlainCount(cells[1..], c)
  }

  lemma {:induction false} CountJoin(s: string, t: string, c: char)
    ensures Count(s + t, c) == Count(s, c) + Count(t, c)
  {
    if s == [] {
      assert s + t == t;
    } else {
      CountJoin(s[1..], t, c);
      assert (s + t)[1..] == s[1..] + t;
    }
  }

  lemma {:induction false} CountShown(cells: seq<Cell>, d: char, c: char)
    requires cells != []
    ensures Count(Shown(cells, d), c) == PlainCount(cells, c) + if c == d then |cells| - 1 else 0
  {
    if |cells| == 1 {
      assert PlainCount(cells[1..], c) == 0;
    } else {
      var first, rest := Visible(cells[0]), Shown(cells[1..], d);
      CountShown(cells[1..], d, c);
      CountJoin(first + [d], rest, c);
      CountJoin(first, [d], c);
      assert Count([d], c) == (if d == c then 1 else 0) + Count([d][1..], c);
    }
  }

  lemma {:induction false} CountNone(s: string, c: char)
    ensures Count(s, c) == 0 <==> c !in s
  {
    if s != [] {
      CountNone(s[1..], c);
      assert s == [s[0]] + s[1..];
    }
  }

  lemma {:induction false} NoPlainDelimiter(cells: seq<Cell>, d: char)
    requires CellsOk(cells, d)
    ensures PlainCount(cells, d) == 0
  {
    if cells != [] {
      assert cells[0].quoted || Plain(cells[0].text, d);
      CountNone(Visible(cells[0]), d);
      NoPlainDelimiter(cells[1..], d);
    }
  }

  /** The separators of a row outnumber every other candidate in its plain cells: those tried before `d` strictly. */
  ghost predicate Outnumbers(cells: seq<Cell>, d: char) {
    exists k :: 0 <= k < |CANDIDATES| && d == CANDIDATES[k]
      && (forall i :: 0 <= i < k ==> PlainCount(cells, CANDIDATES[i]) < |cells| - 1)
      && (forall i :: k < i < |CANDIDATES| ==> PlainCount(cells, CANDIDATES[i]) <= |cells| - 1)
  }

  lemma Distinct(i: nat, k: nat)
    requires i < |CANDIDATES| && k < |CANDIDATES| && i != k
    ensures CANDIDATES[i] != CANDIDATES[k]
  {
  }

  lemma {:induction false} FirstMostIffOutnumbers(cells: seq<Cell>, d: char)
    requires cells != [] && CellsOk(cells, d)
    ensures IsFirstMost(Shown(cells, d), d) <==> Outnumbers(cells, d)
  {
    var header := Shown(cells, d);
    CountShown(cells, d, d);
    NoPlainDelimiter(cells, d);
    forall k: nat, i: nat | k < |CANDIDATES| && d == CANDIDATES[k] && i < |CANDIDATES| && i != k
      ensures Count(header, CANDIDATES[i]) == PlainCount(cells, CANDIDATES[i])
    {
      Distinct(i, k);
      CountShown(cells, d, CANDIDATES[i]);
    }
  }

  /** Exactly when the detector finds the delimiter with which rows were written. */
  lemma {:induction false} DetectsIff(lines: seq<Line>, d: char)
    requires IsDelimiter(d) && LinesOk(lines, d)
    ensures IsDetected(PrintLines(lines, d), d) <==> if lines == [] then d == ',' else Outnumbers(lines[0].cells, d)
  {
    if lines == [] {
      assert CANDIDATES[0] == ',';
      forall c
        ensures Count(Header(PrintLines(lines, d), false), c) == 0
      {
      }
    } else {
      HeaderWritten(lines, d);
      FirstMostIffOutnumbers(lines[0].cells, d);
    }
  }

  // ---------------------------------------------------------------- reading with another delimiter

  /** The fields ended so far and the one that is open. */
  datatype Fields = Fields(ended: seq<string>, open: string)

  function Opened(st: State, f: Fields): State {
    State(st.rows, f.ended, f.open, st.inQuotes)
  }

  function Append(f: Fields, text: string): Fields {
    f.(open := f.open + text)
  }

  /** What plain text adds when fields end at `e`. */
  function Cut(text: string, e: char, f: Fields): Fields {
    if text == [] then f
    else Cut(text[1..], e, if text[0] == e then Fields(f.ended + [f.open], "") else Append(f, [text[0]]))
  }

  function CutCell(c: Cell, e: char, f: Fields): Fields {
    if c.quoted then Append(f, c.text) else Cut(c.text, e, f)
  }

  /** What a row written with `d` adds when fields end at `e`: the separators become text. */
  function CutCells(cells: seq<Cell>, d: char, e: char, f: Fields): Fields
    requires cells != []
  {
    var first := CutCell(cells[0], e, f);
    if |cells| == 1 then first else CutCells(cells[1..], d, e, Append(first, [d]))
  }

  const NO_FIELDS := Fields([], "")

  function AllFields(f: Fields): seq<string> {
    f.ended + [f.open]
  }

  /** The fields that a row written with `d` has when it is read with `e`. */
  function Reread(cells: seq<Cell>, d: char, e: char): seq<string>
    requires cells != []
  {
    AllFields(CutCells(cells, d, e, NO_FIELDS))
  }

  function RereadRows(lines: seq<Line>, d: char, e: char): (r: seq<seq<string>>)
    requires forall l :: l in lines ==> l.cells != []
    ensures |r| == |lines| && forall i :: 0 <= i < |r| ==> r[i] == Reread(lines[i].cells, d, e)
  {
    if lines == [] then [] else [Reread(lines[0].cells, d, e)] + RereadRows(lines[1..], d, e)
  }

  lemma {:induction false} ScanCut(text: string, rest: string, d: char, e: char, st: State, f: Fields)
    requires !st.inQuotes && Plain(text, d) && IsDelimiter(e)
    ensures Scan(text + rest, e, Opened(st, f)) == Scan(rest, e, Opened(st, Cut(text, e, f)))
    decreases |text|
  {
    if text == [] {
      assert text + rest == rest;
    } else {
      assert (text + rest)[1..] == text[1..] + rest;
      ScanCut(text[1..], rest, d, e, st, if text[0] == e then Fields(f.ended + [f.open], "") else Append(f, [text[0]]));
    }
  }

  lemma {:induction false} ScanCutCell(c: Cell, rest: string, d: char, e: char, st: State, f: Fields)
    requires !st.inQuotes && (c.quoted || Plain(c.text, d)) && IsDelimiter(e) && (rest == [] || rest[0] != QUOTE)
    ensures Scan(PrintCell(c) + rest, e, Opened(st, f)) == Scan(rest, e, Opened(st, CutCell(c, e, f)))
  {
    if c.quoted {
      ScanCell(c, rest, e, Opened(st, f));
    } else {
      ScanCut(c.text, rest, d, e, st, f);
    }
  }

  lemma ScanSeparator(d: char, rest: string, e: char, st: State, f: Fields)
    requires !st.inQuotes && IsDelimiter(d) && d != e
    ensures Scan([d] + rest, e, Opened(st, f)) == Scan(rest, e, Opened(st, Append(f, [d])))
  {
    assert ([d] + rest)[1..] == rest;
  }

  lemma {:induction false} ScanCutCells(cells: seq<Cell>, rest: string, d: char, e: char, st: State, f: Fields)
    requires !st.inQuotes && IsDelimiter(d) && IsDelimiter(e) && d != e && (rest == [] || rest[0] != QUOTE)
    requires cells != [] && CellsOk(cells, d)
    ensures Scan(PrintCells(cells, d) + rest, e, Opened(st, f)) == Scan(rest, e, Opened(st, CutCells(cells, d, e, f)))
    decreases |cells|
  {
    assert cells[0].quoted || Plain(cells[0].text, d);
    if |cells| == 1 {
      ScanCutCell(cells[0], rest, d, e, st, f);
    } else {
      var first, more := CutCell(cells[0], e, f), PrintCells(cells[1..], d) + rest;
      CellsText(cells, rest, d);
      ScanCutCell(cells[0], [d] + more, d, e, st, f);
      ScanSeparator(d, more, e, st, first);
      ScanCutCells(cells[1..], rest, d, e, st, Append(first, [d]));
    }
  }

  lemma {:induction false} ScanRereadLine(line: Line, rest: string, d: char, e: char, rows: seq<seq<string>>)
    requires IsDelimiter(d) && IsDelimiter(e) && d != e && line.cells != [] && CellsOk(line.cells, d)
    ensures Scan(PrintCells(line.cells, d) + (Ending(line.crlf) + rest), e, START.(rows := rows)) ==
      Scan(rest, e, START.(rows := rows + [Reread(line.cells, d, e)]))
  {
    var st, cut := START.(rows := rows), CutCells(line.cells, d, e, NO_FIELDS);
    assert Opened(st, NO_FIELDS) == st;
    ScanCutCells(line.cells, Ending(line.crlf) + rest, d, e, st, NO_FIELDS);
    ScanEnding(line.crlf, rest, e, Opened(st, cut));
  }

  lemma {:induction false} ScanReread(lines: seq<Line>, rest: string, d: char, e: char, rows: seq<seq<string>>)
    requires IsDelimiter(d) && IsDelimiter(e) && d != e && LinesOk(lines, d)
    ensures Scan(PrintLines(lines, d) + rest, e, START.(rows := rows)) ==
      Scan(rest, e, START.(rows := rows + RereadRows(lines, d, e)))
    decreases |lines|
  {
    if lines == [] {
      assert rows + [] == rows && PrintLines(lines, d) + rest == rest;
    } else {
      var first, others := Reread(lines[0].cells, d, e), RereadRows(lines[1..], d, e);
      LinesText(lines, rest, d);
      ScanRereadLine(lines[0], PrintLines(lines[1..], d) + rest, d, e, rows);
      ScanReread(lines[1..], rest, d, e, rows + [first]);
      Regroup(rows, [first], others);
    }
  }

  /** What rows written with one delimiter are when they are read with another. */
  lemma {:induction false} ReadsOther(lines: seq<Line>, d: char, e: char)
    requires IsDelimiter(d) && IsDelimiter(e) && d != e && LinesOk(lines, d)
    ensures Parse(PrintLines(lines, d), e) == RereadRows(lines, d, e)
  {
    ScanReread(lines, "", d, e, []);
    assert PrintLines(lines, d) + "" == PrintLines(lines, d);
    assert [] + RereadRows(lines, d, e) == RereadRows(lines, d, e);
  }

  // ---------------------------------------------------------------- such a row is the same only if it is one cell

  function FirstField(f: Fields): string {
    if f.ended == [] then f.open else f.ended[0]
  }

  /** The first field is kept once it has ended; until then it only grows. */
  ghost predicate Later(f: Fields, g: Fields) {
    if f.ended == [] then f.open <= FirstField(g) else g.ended != [] && FirstField(g) == FirstField(f)
  }

  lemma LaterStill(f: Fields, g: Fields, h: Fields)
    requires Later(f, g) && Later(g, h)
    ensures Later(f, h)
  {
  }

  lemma {:induction false} CutLater(text: string, e: char, f: Fields)
    ensures Later(f, Cut(text, e, f))
    decreases |text|
  {
    if text != [] {
      var g := if text[0] == e then Fields(f.ended + [f.open], "") else Append(f, [text[0]]);
      CutLater(text[1..], e, g);
      LaterStill(f, g, Cut(text, e, f));
    }
  }

  lemma {:induction false} CutCellsLater(cells: seq<Cell>, d: char, e: char, f: Fields)
    requires cells != []
    ensures Later(f, CutCells(cells, d, e, f))
    decreases |cells|
  {
    var first := CutCell(cells[0], e, f);
    CutLater(cells[0].text, e, f);
    if |cells| > 1 {
      var g := Append(first, [d]);
      CutCellsLater(cells[1..], d, e, g);
      LaterStill(f, first, g);
      LaterStill(f, g, CutCells(cells, d, e, f));
    }
  }

  /** Text without `e` stays in the open field; otherwise the first field ends before the text does. */
  lemma {:induction false} CutWhere(text: string, e: char, f: Fields)
    requires f.ended == []
    ensures e !in text ==> Cut(text, e, f) == Append(f, text)
    ensures e in text ==> Cut(text, e, f).ended != [] && |FirstField(Cut(text, e, f))| < |f.open| + |text|
    decreases |text|
  {
    if text == [] {
      assert f.open + text == f.open;
    } else {
      assert text == [text[0]] + text[1..];
      if text[0] == e {
        assert f.ended + [f.open] == [f.open];
        CutLater(text[1..], e, Fields([f.open], ""));
      } else {
        CutWhere(text[1..], e, Append(f, [text[0]]));
        assert f.open + [text[0]] + text[1..] == f.open + text;
      }
    }
  }

  /** The first field after the first cell: the cell itself if it shows no `e`, and otherwise one that has ended
      and is shorter. */
  lemma {:induction false} FirstCell(c: Cell, e: char)
    ensures e !in Visible(c) ==> CutCell(c, e, NO_FIELDS) == Fields([], c.text)
    ensures e in Visible(c) ==>
      CutCell(c, e, NO_FIELDS).ended != [] && |FirstField(CutCell(c, e, NO_FIELDS))| < |c.text|
  {
    assert "" + c.text == c.text;
    CutWhere(c.text, e, NO_FIELDS);
  }

  lemma {:induction false} FirstDiffers(cells: seq<Cell>, d: char, e: char)
    requires |cells| > 1
    ensures FirstField(CutCells(cells, d, e, NO_FIELDS)) != cells[0].text
  {
    var first := CutCell(cells[0], e, NO_FIELDS);
    FirstCell(cells[0], e);
    CutCellsLater(cells[1..], d, e, Append(first, [d]));
  }

  lemma {:induction false} RereadIff(cells: seq<Cell>, d: char, e: char)
    requires cells != []
    ensures Reread(cells, d, e) == Texts(cells) <==> |cells| == 1 && e !in Visible(cells[0])
  {
    FirstCell(cells[0], e);
    if |cells| > 1 {
      FirstDiffers(cells, d, e);
      assert Reread(cells, d, e)[0] == FirstField(CutCells(cells, d, e, NO_FIELDS));
      assert Texts(cells)[0] == cells[0].text;
    } else {
      assert Texts(cells) == [cells[0].text];
    }
  }

  /** Every row is one cell that does not show `e`. */
  ghost predicate SingleWithout(lines: seq<Line>, e: char) {
    forall i :: 0 <= i < |lines| ==> |lines[i].cells| == 1 && e !in Visible(lines[i].cells[0])
  }

  lemma {:induction false} RowsAt(lines: seq<Line>, i: nat)
    requires i < |lines|
    ensures Rows(lines)[i] == Texts(lines[i].cells)
  {
    if i > 0 {
      RowsAt(lines[1..], i - 1);
    }
  }

  /** Exactly which rows survive being read with another delimiter than the one they were written with. */
  lemma {:induction false} WrongDelimiterIff(lines: seq<Line>, d: char, e: char)
    requires IsDelimiter(d) && IsDelimiter(e) && d != e && LinesOk(lines, d)
    ensures Parse(PrintLines(lines, d), e) == Rows(lines) <==> SingleWithout(lines, e)
  {
    ReadsOther(lines, d, e);
    forall i: nat | i < |lines|
      ensures RereadRows(lines, d, e)[i] == Rows(lines)[i] <==>
        |lines[i].cells| == 1 && e !in Visible(lines[i].cells[0])
    {
      RereadIff(lines[i].cells, d, e);
      RowsAt(lines, i);
    }
  }

  // ---------------------------------------------------------------- detection followed by reading

  /** The first row, if any, shows no candidate. */
  ghost predicate ShowsNone(lines: seq<Line>, d: char)
    requires forall l :: l in lines ==> l.cells != []
  {
    lines == [] || forall i :: 0 <= i < |CANDIDATES| ==> CANDIDATES[i] !in Shown(lines[0].cells, d)
  }

  lemma {:induction false} NothingShownMeansComma(header: string, c: char)
    requires IsFirstMost(header, c)
    ensures c !in header <==> forall i :: 0 <= i < |CANDIDATES| ==> CANDIDATES[i] !in header
    ensures c !in header ==> c == ','
  {
    CountNone(header, c);
    forall i | 0 <= i < |CANDIDATES|
      ensures Count(header, CANDIDATES[i]) == 0 <==> CANDIDATES[i] !in header
    {
      CountNone(header, CANDIDATES[i]);
    }
    assert CANDIDATES[0] == ',';
  }

  lemma {:induction false} OtherDetected(lines: seq<Line>, d: char, e: char)
    requires IsDelimiter(d) && LinesOk(lines, d) && IsDetected(PrintLines(lines, d), e)
    ensures SingleWithout(lines, e) <==> SingleWithout(lines, ',') && ShowsNone(lines, d)
  {
    if lines != [] {
      HeaderWritten(lines, d);
      NothingShownMeansComma(Shown(lines[0].cells, d), e);
    }
  }

  /** Detection followed by reading gives rows back, written in any mix of quoted and plain cells, if and only if
      the first row has more separators than any other candidate in its plain cells, or no row has a second cell and
      neither any candidate shows in the first row nor a comma in any. */
  lemma {:induction false} DetectedRoundTripIff(lines: seq<Line>, d: char, detected: char)
    requires IsDelimiter(d) && LinesOk(lines, d) && IsDetected(PrintLines(lines, d), detected)
    ensures Parse(PrintLines(lines, d), detected) == Rows(lines) <==>
      (lines != [] && Outnumbers(lines[0].cells, d)) || (SingleWithout(lines, ',') && ShowsNone(lines, d))
  {
    DetectsIff(lines, d);
    OtherDetected(lines, d, detected);
    if detected == d {
      RoundTrip(lines, d);
    } else {
      CandidatesAreDelimiters(PrintLines(lines, d), detected);
      WrongDelimiterIff(lines, d, detected);
      if IsDetected(PrintLines(lines, d), d) {
        DetectedUnique(PrintLines(lines, d), detected, d);
      }
    }
  }

  lemma CandidatesAreDelimiters(content: string, c: char)
    requires IsDetected(content, c)
    ensures IsDelimiter(c)
  {
  }

  // ---------------------------------------------------------------- a last row without an end

  /** The text of rows of which the last lacks its line end, and all the rows with it. */
  function OpenText(lines: seq<Line>, last: seq<Cell>, d: char): string
    requires LinesOk(lines, d) && last != []
  {
    PrintLines(lines, d) + PrintCells(last, d)
  }

  function WithLast(lines: seq<Line>, last: seq<Cell>): (all: seq<Line>)
    requires (forall l :: l in lines ==> l.cells != []) && last != []
    ensures all != [] && forall l :: l in all ==> l.cells != []
  {
    lines + [Line(last, false)]
  }

  /** The last row is one empty field, which the reader drops. */
  predicate IsBlank(last: seq<Cell>) {
    |last| == 1 && last[0].text == ""
  }

  lemma {:induction false} HeaderOpenCells(cells: seq<Cell>, d: char)
    requires cells != [] && CellsOk(cells, d) && IsDelimiter(d)
    ensures Header(PrintCells(cells, d), false) == Shown(cells, d)
    decreases |cells|
  {
    if |cells| == 1 {
      HeaderCell(cells[0], "", d);
      assert PrintCell(cells[0]) + "" == PrintCell(cells[0]) && Visible(cells[0]) + "" == Visible(cells[0]);
    } else {
      var more := PrintCells(cells[1..], d);
      HeaderCell(cells[0], [d] + more, d);
      HeaderOpenCells(cells[1..], d);
      HeaderSeparator(d, more);
      Regroup(PrintCell(cells[0]), [d], more);
      Regroup(Visible(cells[0]), [d], Shown(cells[1..], d));
    }
  }

  lemma {:induction false} HeaderOpen(lines: seq<Line>, last: seq<Cell>, d: char)
    requires IsDelimiter(d) && LinesOk(lines, d) && last != [] && CellsOk(last, d)
    ensures Header(OpenText(lines, last, d), false) == Shown(WithLast(lines, last)[0].cells, d)
  {
    if lines == [] {
      HeaderOpenCells(last, d);
      assert PrintLines(lines, d) + PrintCells(last, d) == PrintCells(last, d);
    } else {
      var rest := PrintLines(lines[1..], d) + PrintCells(last, d);
      LinesText(lines, PrintCells(last, d), d);
      HeaderCells(lines[0].cells, lines[0].crlf, rest, d);
    }
  }

  /** Exactly when the delimiter of such a text is detected. */
  lemma {:induction false} DetectsOpenIff(lines: seq<Line>, last: seq<Cell>, d: char)
    requires IsDelimiter(d) && LinesOk(lines, d) && last != [] && CellsOk(last, d)
    ensures IsDetected(OpenText(lines, last, d), d) <==> Outnumbers(WithLast(lines, last)[0].cells, d)
  {
    HeaderOpen(lines, last, d);
    FirstMostIffOutnumbers(WithLast(lines, last)[0].cells, d);
  }

  lemma FieldsBlank(f: Fields)
    ensures AllFields(f) == [""] <==> f == NO_FIELDS
  {
    if f.ended == [] {
      assert AllFields(f)[0] == f.open;
    } else {
      assert |AllFields(f)| > 1;
    }
  }

  /** A row comes to nothing only if it is blank. */
  lemma {:induction false} BlankIff(last: seq<Cell>, d: char, e: char)
    requires last != []
    ensures Reread(last, d, e) == [""] <==> IsBlank(last)
  {
    FieldsBlank(CutCells(last, d, e, NO_FIELDS));
    FirstCell(last[0], e);
    if |last| > 1 {
      CutCellsLater(last[1..], d, e, Append(CutCell(last[0], e, NO_FIELDS), [d]));
    }
  }

  /** What such a text is when it is read with another delimiter. */
  lemma {:induction false} ReadsOtherOpen(lines: seq<Line>, last: seq<Cell>, d: char, e: char)
    requires IsDelimiter(d) && IsDelimiter(e) && d != e && LinesOk(lines, d) && last != [] && CellsOk(last, d)
    ensures Parse(OpenText(lines, last, d), e) ==
      if Reread(last, d, e) == [""] then RereadRows(lines, d, e) else RereadRows(lines, d, e) + [Reread(last, d, e)]
  {
    var rows := RereadRows(lines, d, e);
    var st, cut := START.(rows := rows), CutCells(last, d, e, NO_FIELDS);
    ScanReread(lines, PrintCells(last, d), d, e, []);
    assert [] + rows == rows && Opened(st, NO_FIELDS) == st;
    ScanCutCells(last, "", d, e, st, NO_FIELDS);
    assert PrintCells(last, d) + "" == PrintCells(last, d);
    FieldsBlank(cut);
  }

  lemma {:induction false} RowsWithLast(lines: seq<Line>, last: seq<Cell>)
    requires (forall l :: l in lines ==> l.cells != []) && last != []
    ensures Rows(WithLast(lines, last)) == Rows(lines) + [Texts(last)]
  {
    if lines == [] {
      assert WithLast(lines, last)[1..] == [];
    } else {
      RowsWithLast(lines[1..], last);
      assert WithLast(lines, last)[1..] == WithLast(lines[1..], last);
    }
  }

  lemma {:induction false} RereadWithLast(lines: seq<Line>, last: seq<Cell>, d: char, e: char)
    requires (forall l :: l in lines ==> l.cells != []) && last != []
    ensures RereadRows(lines, d, e) + [Reread(last, d, e)] == RereadRows(WithLast(lines, last), d, e)
  {
  }

  /** Exactly which such rows survive being read with another delimiter. */
  lemma {:induction false} WrongDelimiterOpenIff(lines: seq<Line>, last: seq<Cell>, d: char, e: char)
    requires IsDelimiter(d) && IsDelimiter(e) && d != e && LinesOk(lines, d) && last != [] && CellsOk(last, d)
    ensures Parse(OpenText(lines, last, d), e) == Rows(WithLast(lines, last)) <==>
      SingleWithout(WithLast(lines, last), e) && !IsBlank(last)
  {
    ReadsOtherOpen(lines, last, d, e);
    BlankIff(last, d, e);
    if !IsBlank(last) {
      RereadWithLast(lines, last, d, e);
      WithLastOk(lines, last, d);
      ReadsOther(WithLast(lines, last), d, e);
      WrongDelimiterIff(WithLast(lines, last), d, e);
    }
  }

  lemma WithLastOk(lines: seq<Line>, last: seq<Cell>, d: char)
    requires LinesOk(lines, d) && last != [] && CellsOk(last, d)
    ensures LinesOk(WithLast(lines, last), d)
  {
  }

  lemma {:induction false} OtherDetectedOpen(lines: seq<Line>, last: seq<Cell>, d: char, e: char)
    requires IsDelimiter(d) && LinesOk(lines, d) && last != [] && CellsOk(last, d)
    requires IsDetected(OpenText(lines, last, d), e)
    ensures SingleWithout(WithLast(lines, last), e) <==>
      SingleWithout(WithLast(lines, last), ',') && ShowsNone(WithLast(lines, last), d)
  {
    HeaderOpen(lines, last, d);
    NothingShownMeansComma(Shown(WithLast(lines, last)[0].cells, d), e);
  }

  /** The same for a last row without a line end: the condition is that for all the rows, and that the last is not one
      empty field. */
  lemma {:induction false} DetectedOpenIff(lines: seq<Line>, last: seq<Cell>, d: char, detected: char)
    requires IsDelimiter(d) && LinesOk(lines, d) && last != [] && CellsOk(last, d)
    requires IsDetected(OpenText(lines, last, d), detected)
    ensures var all := WithLast(lines, last);
      Parse(OpenText(lines, last, d), detected) == Rows(all) <==>
        !IsBlank(last) && (Outnumbers(all[0].cells, d) || (SingleWithout(all, ',') && ShowsNone(all, d)))
  {
    DetectsOpenIff(lines, last, d);
    OtherDetectedOpen(lines, last, d, detected);
    RowsWithLast(lines, last);
    if detected == d {
      RoundTripOpenEnd(lines, last, d);
    } else {
      CandidatesAreDelimiters(OpenText(lines, last, d), detected);
      WrongDelimiterOpenIff(lines, last, d, detected);
      if IsDetected(OpenText(lines, last, d), d) {
        DetectedUnique(OpenText(lines, last, d), detected, d);
      }
    }
  }

  // ---------------------------------------------------------------- fully quoted rows

  ghost predicate AllQuoted(lines: seq<Line>) {
    forall l :: l in lines ==> l.cells != [] && QuotedCells(l.cells)
  }

  predicate QuotedCells(cells: seq<Cell>) {
    forall i :: 0 <= i < |cells| ==> cells[i].quoted
  }

  ghost predicate SingleCells(lines: seq<Line>) {
    forall l :: l in lines ==> |l.cells| == 1
  }

  lemma {:induction false} QuotedShowNothing(cells: seq<Cell>, c: char)
    requires QuotedCells(cells)
    ensures PlainCount(cells, c) == 0
  {
    if cells != [] {
      QuotedShowNothing(cells[1..], c);
    }
  }

  lemma {:induction false} QuotedOutnumberIff(cells: seq<Cell>, d: char)
    requires IsCandidate(d) && cells != [] && QuotedCells(cells)
    ensures Outnumbers(cells, d) <==> d == ',' || |cells| > 1
  {
    forall i | 0 <= i < |CANDIDATES|
      ensures PlainCount(cells, CANDIDATES[i]) == 0
    {
      QuotedShowNothing(cells, CANDIDATES[i]);
    }
    var k := if d == ',' then 0 else if d == ';' then 1 else if d == '\t' then 2 else 3;
    assert CANDIDATES[k] == d;
    assert CANDIDATES[0] == ',';
  }

  lemma {:induction false} QuotedSingles(lines: seq<Line>, d: char)
    requires IsDelimiter(d) && AllQuoted(lines) && LinesOk(lines, d)
    ensures SingleWithout(lines, ',') <==> SingleCells(lines)
    ensures SingleCells(lines) ==> ShowsNone(lines, d)
  {
    forall i | 0 <= i < |lines|
      ensures ',' !in Visible(lines[i].cells[0])
    {
      assert lines[i] in lines;
    }
    if SingleCells(lines) && lines != [] {
      assert lines[0] in lines;
      assert Shown(lines[0].cells, d) == "";
    }
  }

  /** For fully quoted rows: if and only if the delimiter is a comma, or the first row has two fields or more, or no
      row has. */
  lemma {:induction false} QuotedRoundTripIff(lines: seq<Line>, d: char, detected: char)
    requires IsCandidate(d) && AllQuoted(lines) && IsDetected(PrintLines(lines, d), detected)
    ensures Parse(PrintLines(lines, d), detected) == Rows(lines) <==>
      d == ',' || (lines != [] && |lines[0].cells| > 1) || SingleCells(lines)
  {
    assert LinesOk(lines, d);
    DetectedRoundTripIff(lines, d, detected);
    QuotedSingles(lines, d);
    if lines != [] {
      QuotedOutnumberIff(lines[0].cells, d);
    }
  }

  function Joined(cells: seq<Cell>, d: char): string
    requires cells != []
  {
    if |cells| == 1 then cells[0].text else cells[0].text + [d] + Joined(cells[1..], d)
  }

  lemma {:induction false} QuotedCellsJoin(cells: seq<Cell>, d: char, e: char, f: Fields)
    requires cells != [] && QuotedCells(cells)
    ensures CutCells(cells, d, e, f) == Append(f, Joined(cells, d))
    decreases |cells|
  {
    if |cells| > 1 {
      var text := cells[0].text;
      QuotedCellsJoin(cells[1..], d, e, Append(Append(f, text), [d]));
      assert f.open + text + [d] + Joined(cells[1..], d) == f.open + (text + [d] + Joined(cells[1..], d));
    }
  }

  /** Read with another delimiter, every fully quoted row comes back as one field. */
  lemma {:induction false} WrongDelimiter(lines: seq<Line>, d: char, e: char)
    requires IsDelimiter(d) && IsDelimiter(e) && d != e && AllQuoted(lines)
    ensures |Parse(PrintLines(lines, d), e)| == |lines|
    ensures forall i :: 0 <= i < |lines| ==> Parse(PrintLines(lines, d), e)[i] == [Joined(lines[i].cells, d)]
  {
    ReadsOther(lines, d, e);
    forall i | 0 <= i < |lines|
      ensures Reread(lines[i].cells, d, e) == [Joined(lines[i].cells, d)]
    {
      assert lines[i] in lines;
      QuotedCellsJoin(lines[i].cells, d, e, NO_FIELDS);
      assert "" + Joined(lines[i].cells, d) == Joined(lines[i].cells, d);
    }
  }

  const HEADING := Line([Cell("a", false)], false)
  const TWO_CELLS := Line([Cell("b", false), Cell("c", false)], false)

  lemma HeadingReread()
    ensures Reread(HEADING.cells, ';', ',') == ["a"]
    ensures Reread(TWO_CELLS.cells, ';', ',') == ["b;c"]
  {
    FirstCell(Cell("a", false), ',');
    FirstCell(Cell("b", false), ',');
    assert TWO_CELLS.cells[1..] == [Cell("c", false)];
    CutWhere("c", ',', Fields([], "b;"));
    assert Append(CutCell(Cell("b", false), ',', NO_FIELDS), ";") == Fields([], "b;");
    assert CutCells([Cell("c", false)], ';', ',', Fields([], "b;")) == Cut("c", ',', Fields([], "b;"));
    assert "b;" + "c" == "b;c";
  }

  lemma HeadingDetected(detected: char)
    requires IsDetected(PrintLines([HEADING, TWO_CELLS], ';'), detected)
    ensures detected == ','
  {
    HeaderWritten([HEADING, TWO_CELLS], ';');
    NothingShownMeansComma("a", detected);
  }

  lemma HeadingRows()
    ensures Rows([HEADING, TWO_CELLS]) == [["a"], ["b", "c"]]
  {
    RowsAt([HEADING, TWO_CELLS], 0);
    RowsAt([HEADING, TWO_CELLS], 1);
    assert HEADING.cells[1..] == [];
    TwoTexts(TWO_CELLS.cells);
    assert Rows([HEADING, TWO_CELLS])[0] == ["a"];
    assert Rows([HEADING, TWO_CELLS])[1] == ["b", "c"];
  }

  /** Rows that are not read back: a heading alone in the first row and two fields in the second, written with a
      semicolon. */
  lemma {:induction false} HeadingLosesRows(detected: char)
    requires IsDetected(PrintLines([HEADING, TWO_CELLS], ';'), detected)
    ensures Rows([HEADING, TWO_CELLS]) == [["a"], ["b", "c"]]
    ensures Parse(PrintLines([HEADING, TWO_CELLS], ';'), detected) == [["a"], ["b;c"]]
  {
    var lines := [HEADING, TWO_CELLS];
    HeadingRows();
    HeadingDetected(detected);
    HeadingReread();
    ReadsOther(lines, ';', detected);
  }

  lemma TwoTexts(cells: seq<Cell>)
    requires |cells| == 2
    ensures Texts(cells) == [cells[0].text, cells[1].text]
  {
    assert Texts(cells[1..]) == [cells[1].text];
  }
}
