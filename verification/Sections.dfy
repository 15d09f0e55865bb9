/** Cutting a document into sections at its heading lines. The Markdown, source code, DOCX and PPTX
    splitters are this loop with different tests for a heading line and different labels. */
module Sections {
  import opened Text
  import opened Tokens

  datatype Section = Section(text: string, charStart: nat, heading: string) {
    function End(): nat {
      charStart + |text|
    }
  }

  // ---------------------------------------------------------------- lines

  /** Where the line that contains `from` ends. */
  function LineEnd(s: string, from: nat): (e: nat)
    requires from <= |s|
    decreases |s| - from
    ensures from <= e <= |s| && (e == |s| || s[e] == '\n')
    ensures forall i :: from <= i < e ==> s[i] != '\n'
  {
    if from == |s| || s[from] == '\n' then from else LineEnd(s, from + 1)
  }

  predicate IsLineStart(s: string, p: int) {
    0 <= p < |s| && (p == 0 || s[p - 1] == '\n')
  }

  function LineAt(s: string, p: int): string
    requires IsLineStart(s, p)
  {
    s[p..LineEnd(s, p)]
  }

  /** The lines put back together, each with its newline. */
  function Padded(content: string): string {
    if content == "" || content[|content| - 1] == '\n' then content else content + "\n"
  }

  predicate IsHeading(content: string, starts: string -> bool, p: int) {
    IsLineStart(content, p) && starts(LineAt(content, p))
  }

  /** The label of the last heading line that begins before `upTo`; empty when there is none. */
  function LabelBefore(content: string, starts: string -> bool, labelOf: string -> string, upTo: nat): string {
    if upTo == 0 then ""
    else if IsLineStart(content, upTo - 1) && starts(LineAt(content, upTo - 1)) then labelOf(LineAt(content, upTo - 1))
    else LabelBefore(content, starts, labelOf, upTo - 1)
  }

  // ---------------------------------------------------------------- what a splitting is

  ghost predicate IsPart(doc: string, sec: Section) {
    sec.End() <= |doc| && doc[sec.charStart..sec.End()] == sec.text && Cut(doc, sec.End())
  }

  /** The sections lie end to end from the start of `doc` up to `p`, cutting no token. */
  ghost predicate Tiles(doc: string, sections: seq<Section>, p: nat)
    decreases |sections|
  {
    if sections == [] then p == 0
    else
      var n := |sections| - 1;
      IsPart(doc, sections[n]) && sections[n].End() == p && Tiles(doc, sections[..n], sections[n].charStart)
  }

  /** The sections hold all of `doc` but whitespace at its end. */
  ghost predicate Covers(doc: string, sections: seq<Section>) {
    exists p :: 0 <= p <= |doc| && Tiles(doc, sections, p) && Blank(doc[p..])
  }

  /** Every section but the first begins with a heading line. */
  ghost predicate CutAtHeadings(content: string, starts: string -> bool, sections: seq<Section>)
    decreases |sections|
  {
    |sections| <= 1 ||
    (IsHeading(content, starts, sections[|sections| - 1].charStart) &&
     CutAtHeadings(content, starts, sections[..|sections| - 1]))
  }

  /** Every section has text, and the label of the last heading line in it or before it. */
  ghost predicate AllLabelled(content: string, starts: string -> bool, labelOf: string -> string,
        sections: seq<Section>)
    decreases |sections|
  {
    sections == [] ||
    var sec := sections[|sections| - 1];
    && !Blank(sec.text)
    && sec.heading == LabelBefore(content, starts, labelOf, sec.End())
    && AllLabelled(content, starts, labelOf, sections[..|sections| - 1])
  }

  /** Only whitespace lies between `from` and `p`. */
  ghost predicate Opens(doc: string, from: nat, p: int) {
    from <= p <= |doc| && Blank(doc[from..p])
  }

  /** `p` is where some section's text begins. */
  ghost predicate OpensSome(doc: string, sections: seq<Section>, p: int)
    decreases |sections|
  {
    sections != [] &&
    (Opens(doc, sections[|sections| - 1].charStart, p) || OpensSome(doc, sections[..|sections| - 1], p))
  }

  /** The document is covered, cut only at heading lines, labelled, and every heading line with text
      opens a section. */
  ghost predicate IsSplit(content: string, starts: string -> bool, labelOf: string -> string, sections: seq<Section>) {
    && Covers(Padded(content), sections)
    && CutAtHeadings(content, starts, sections)
    && (!Blank(content) ==> AllLabelled(content, starts, labelOf, sections))
    && (forall p :: IsHeading(content, starts, p) && !Blank(LineAt(content, p)) ==>
      OpensSome(Padded(content), sections, p))
  }

  // ---------------------------------------------------------------- the loop's invariant

  /** Every heading line before `upTo` opens a finished section or the one being filled. */
  ghost predicate HeadingsOpen(content: string, doc: string, starts: string -> bool, sections: seq<Section>,
        from: nat, upTo: nat) {
    forall p :: IsHeading(content, starts, p) && p < upTo ==>
      OpensSome(doc, sections, p) || Opens(doc, from, p)
  }

  /** The next line begins at `offset`, or all lines have been read. */
  ghost predicate AtLine(content: string, doc: string, offset: nat) {
    if offset < |content| then IsLineStart(content, offset) else offset == |doc|
  }

  /** How far the loop has come: finished sections, where the one being filled begins, the next line,
      and the current label. */
  datatype Progress = Progress(sections: seq<Section>, from: nat, offset: nat, heading: string)

  ghost predicate Sound(content: string, doc: string, starts: string -> bool, labelOf: string -> string, p: Progress) {
    && Pads(content, doc) && p.from <= p.offset && AtLine(content, doc, p.offset)
    && Tiles(doc, p.sections, p.from)
    && CutAtHeadings(content, starts, p.sections)
    && (p.sections != [] ==> IsHeading(content, starts, p.from))
    && AllLabelled(content, starts, labelOf, p.sections)
    && p.heading == LabelBefore(content, starts, labelOf, p.offset)
    && HeadingsOpen(content, doc, starts, p.sections, p.from, p.offset)
  }

  /** `doc` is `content` with a newline at its end. */
  ghost predicate Pads(content: string, doc: string) {
    && |content| <= |doc| && doc[..|content|] == content
    && (content != "" ==> doc[|doc| - 1] == '\n')
    && |doc| == if content == "" || content[|content| - 1] == '\n' then |content| else |content| + 1
  }

  lemma PaddedPads(content: string)
    ensures Pads(content, Padded(content))
  {
  }

  /** A heading line closes the section being filled. */
  function Close(p: Progress, current: string): Progress {
    p.(sections := p.sections + [Section(current, p.from, p.heading)], from := p.offset)
  }

  /** A line goes into the section being filled; a heading line sets the label. */
  function Take(content: string, starts: string -> bool, labelOf: string -> string, p: Progress): Progress
    requires p.offset < |content|
  {
    var line := content[p.offset..LineEnd(content, p.offset)];
    p.(offset := p.offset + |line| + 1, heading := if starts(line) then labelOf(line) else p.heading)
  }

  lemma AtLineCuts(content: string, doc: string, offset: nat)
    requires Pads(content, doc) && AtLine(content, doc, offset)
    ensures offset <= |doc| && Cut(doc, offset)
  {
    assert 0 < offset <= |content| ==> doc[offset - 1] == doc[..|content|][offset - 1];
  }

  /** Reading the line at `offset` brings the loop to the next line. */
  lemma NextLine(content: string, doc: string, offset: nat)
    requires Pads(content, doc) && AtLine(content, doc, offset) && offset < |content|
    ensures var next := LineEnd(content, offset) + 1;
      && AtLine(content, doc, next) && next <= |doc| && (next == |doc| || next < |content|)
      && doc[offset..next] == content[offset..next - 1] + "\n"
  {
    var e := LineEnd(content, offset);
    assert e < |content| ==> doc[e] == doc[..|content|][e];
    assert doc[e] == '\n';
    PrefixSlice(doc, |content|, offset, e);
    assert doc[offset..e + 1] == doc[offset..e] + [doc[e]];
  }

  lemma PrefixSlice(doc: string, n: nat, a: nat, b: nat)
    requires a <= b <= n <= |doc|
    ensures doc[..n][a..b] == doc[a..b]
  {
  }

  lemma {:induction false} NoLineBetween(content: string, offset: nat)
    requires offset < |content|
    ensures forall p :: IsLineStart(content, p) && offset < p ==> LineEnd(content, offset) + 1 <= p
  {
  }

  ghost predicate Between(content: string, doc: string, from: nat, offset: nat, text: string) {
    from <= offset <= |doc| && text == doc[from..offset]
  }

  lemma Glue(doc: string, a: nat, b: nat, c: nat, current: string, line: string)
    requires a <= b <= c <= |doc| && doc[a..b] == current && doc[b..c] == line + "\n"
    ensures doc[a..c] == current + line + "\n"
  {
    assert doc[a..c] == doc[a..b] + doc[b..c];
  }

  lemma {:induction false} NextText(content: string, doc: string, starts: string -> bool,
        labelOf: string -> string, p: Progress, current: string)
    requires Pads(content, doc) && AtLine(content, doc, p.offset) && p.offset < |content|
    requires Between(content, doc, p.from, p.offset, current)
    ensures var next, line := Take(content, starts, labelOf, p), content[p.offset..LineEnd(content, p.offset)];
      && (next.offset == |doc| || next.offset < |content|)
      && Between(content, doc, next.from, next.offset, current + line + "\n")
  {
    NextLine(content, doc, p.offset);
    var lineEnd := LineEnd(content, p.offset);
    Glue(doc, p.from, p.offset, lineEnd + 1, current, content[p.offset..lineEnd]);
  }

  lemma {:induction false} MoreOpen(doc: string, sections: seq<Section>, sec: Section, p: int)
    requires OpensSome(doc, sections, p) || Opens(doc, sec.charStart, p)
    ensures OpensSome(doc, sections + [sec], p)
  {
    assert (sections + [sec])[..|sections|] == sections;
  }

  /** A heading line closes the section being filled and begins the next. */
  lemma Flushed(content: string, doc: string, starts: string -> bool, labelOf: string -> string, p: Progress,
        text: string)
    requires Sound(content, doc, starts, labelOf, p) && IsHeading(content, starts, p.offset)
    requires p.offset <= |doc| && text == doc[p.from..p.offset] && !Blank(text)
    ensures Sound(content, doc, starts, labelOf, Close(p, text))
    ensures Opens(doc, p.offset, p.offset)
  {
    var sec := Section(text, p.from, p.heading);
    AtLineCuts(content, doc, p.offset);
    assert (p.sections + [sec])[..|p.sections|] == p.sections;
    forall q | IsHeading(content, starts, q) && q < p.offset ensures OpensSome(doc, p.sections + [sec], q) {
      MoreOpen(doc, p.sections, sec, q);
    }
  }

  lemma {:induction false} LabelSkips(content: string, starts: string -> bool, labelOf: string -> string,
        offset: nat, upTo: nat)
    requires offset < upTo && forall p :: IsLineStart(content, p) && offset < p ==> upTo <= p
    ensures LabelBefore(content, starts, labelOf, upTo) == LabelBefore(content, starts, labelOf, offset + 1)
  {
    if upTo > offset + 1 {
      LabelSkips(content, starts, labelOf, offset, upTo - 1);
    }
  }

  lemma HeadingsTaken(content: string, doc: string, starts: string -> bool, sections: seq<Section>, from: nat,
        offset: nat)
    requires HeadingsOpen(content, doc, starts, sections, from, offset)
    requires Pads(content, doc) && AtLine(content, doc, offset) && offset < |content|
    requires starts(LineAt(content, offset)) ==> Opens(doc, from, offset)
    ensures HeadingsOpen(content, doc, starts, sections, from, LineEnd(content, offset) + 1)
  {
    NoLineBetween(content, offset);
    forall q | IsHeading(content, starts, q) && q < LineEnd(content, offset) + 1
      ensures OpensSome(doc, sections, q) || Opens(doc, from, q)
    {
      assert q <= offset;
    }
  }

  lemma LabelTaken(content: string, doc: string, starts: string -> bool, labelOf: string -> string, offset: nat)
    requires Pads(content, doc) && AtLine(content, doc, offset) && offset < |content|
    ensures var line := LineAt(content, offset);
      LabelBefore(content, starts, labelOf, LineEnd(content, offset) + 1) ==
        if starts(line) then labelOf(line) else LabelBefore(content, starts, labelOf, offset)
  {
    NoLineBetween(content, offset);
    LabelSkips(content, starts, labelOf, offset, LineEnd(content, offset) + 1);
  }

  lemma TakeMeans(content: string, starts: string -> bool, labelOf: string -> string, p: Progress)
    requires p.offset < |content|
    ensures var line := content[p.offset..LineEnd(content, p.offset)];
      Take(content, starts, labelOf, p) ==
        p.(offset := LineEnd(content, p.offset) + 1, heading := if starts(line) then labelOf(line) else p.heading)
  {
  }

  lemma SoundMoved(content: string, doc: string, starts: string -> bool, labelOf: string -> string, p: Progress,
                   next: nat, heading: string)
    requires Sound(content, doc, starts, labelOf, p) && p.offset <= next && AtLine(content, doc, next)
    requires heading == LabelBefore(content, starts, labelOf, next)
    requires HeadingsOpen(content, doc, starts, p.sections, p.from, next)
    ensures Sound(content, doc, starts, labelOf, p.(offset := next, heading := heading))
  {
  }

  lemma LineFollows(content: string, doc: string, starts: string -> bool, labelOf: string -> string,
                    sections: seq<Section>, from: nat, offset: nat)
    requires Pads(content, doc) && AtLine(content, doc, offset) && offset < |content|
    requires HeadingsOpen(content, doc, starts, sections, from, offset)
    requires starts(LineAt(content, offset)) ==> Opens(doc, from, offset)
    ensures var next := LineEnd(content, offset) + 1;
      && AtLine(content, doc, next) && HeadingsOpen(content, doc, starts, sections, from, next)
    ensures LabelBefore(content, starts, labelOf, LineEnd(content, offset) + 1) ==
      if starts(LineAt(content, offset)) then labelOf(LineAt(content, offset))
      else LabelBefore(content, starts, labelOf, offset)
  {
    NextLine(content, doc, offset);
    LabelTaken(content, doc, starts, labelOf, offset);
    HeadingsTaken(content, doc, starts, sections, from, offset);
  }

  /** Reading a line that is not a heading, or is one that opens the section being filled. */
  lemma LineTaken(content: string, doc: string, starts: string -> bool, labelOf: string -> string, p: Progress)
    requires Sound(content, doc, starts, labelOf, p) && p.offset < |content|
    requires starts(LineAt(content, p.offset)) ==> Opens(doc, p.from, p.offset)
    ensures Sound(content, doc, starts, labelOf, Take(content, starts, labelOf, p))
  {
    var line := LineAt(content, p.offset);
    LineFollows(content, doc, starts, labelOf, p.sections, p.from, p.offset);
    SoundMoved(content, doc, starts, labelOf, p, LineEnd(content, p.offset) + 1,
               if starts(line) then labelOf(line) else p.heading);
    TakeMeans(content, starts, labelOf, p);
  }

  // ---------------------------------------------------------------- the loop

  ghost predicate Going(content: string, doc: string, starts: string -> bool, labelOf: string -> string,
        p: Progress, current: string) {
    Sound(content, doc, starts, labelOf, p) && Between(content, doc, p.from, p.offset, current)
  }

  lemma CloseKeeps(content: string, doc: string, starts: string -> bool, labelOf: string -> string,
        p: Progress, current: string)
    requires Going(content, doc, starts, labelOf, p, current) && p.offset < |content|
    requires starts(LineAt(content, p.offset)) && !Blank(current)
    ensures Going(content, doc, starts, labelOf, Close(p, current), "")
    ensures Opens(doc, p.offset, p.offset)
  {
    Flushed(content, doc, starts, labelOf, p, current);
  }

  lemma {:induction false} TakeKeeps(content: string, doc: string, starts: string -> bool,
        labelOf: string -> string, p: Progress, current: string)
    requires Going(content, doc, starts, labelOf, p, current) && p.offset < |content|
    requires starts(LineAt(content, p.offset)) ==> Blank(current)
    ensures var line := content[p.offset..LineEnd(content, p.offset)];
      Going(content, doc, starts, labelOf, Take(content, starts, labelOf, p), current + line + "\n")
    ensures var next := Take(content, starts, labelOf, p).offset; next == |doc| || next < |content|
  {
    LineTaken(content, doc, starts, labelOf, p);
    NextText(content, doc, starts, labelOf, p, current);
  }

  /** Where the program's loop stands: it does not count the newline that is added to an unfinished last line. */
  predicate StandsAt(content: string, p: Progress, pos: nat) {
    pos == if p.offset <= |content| then p.offset else |content|
  }

  lemma StandMoves(content: string, starts: string -> bool, labelOf: string -> string, p: Progress, pos: nat)
    requires StandsAt(content, p, pos) && pos < |content|
    ensures p.offset == pos
    ensures var e := LineEnd(content, pos);
      && StandsAt(content, Take(content, starts, labelOf, p), if e < |content| then e + 1 else |content|)
      && Take(content, starts, labelOf, p).offset > 0
  {
    TakeMeans(content, starts, labelOf, p);
  }

  method SplitSections(content: string, starts: string -> bool, labelOf: string -> string)
    returns (sections: seq<Section>)
    ensures IsSplit(content, starts, labelOf, sections)
  {
    ghost var doc := Padded(content);
    PaddedPads(content);
    var p := Progress([], 0, 0, "");
    var current, pos, hasCurrent := "", 0, false;
    while pos < |content|
      invariant Going(content, doc, starts, labelOf, p, current)
      invariant p.offset < |content| || p.offset == |doc|
      invariant StandsAt(content, p, pos)
      invariant hasCurrent <==> p.offset > 0
      invariant p.offset == 0 ==> p.from == 0
      decreases |content| - pos
    {
      ghost var lineStart := pos;
      StandMoves(content, starts, labelOf, p, pos);
      var lineEnd := LineEnd(content, pos);
      var line := content[pos..lineEnd];
      pos := if lineEnd < |content| then lineEnd + 1 else |content|;
      var heading := starts(line);
      var trimmed := TrimCopy(current);
      if heading && hasCurrent && trimmed != "" {
        CloseKeeps(content, doc, starts, labelOf, p, current);
        p, current := Close(p, current), "";
      } else if !hasCurrent {
        p := p.(from := p.offset);
        hasCurrent := true;
      }
      StandMoves(content, starts, labelOf, p, lineStart);
      TakeKeeps(content, doc, starts, labelOf, p, current);
      current := current + line + "\n";
      p := Take(content, starts, labelOf, p);
    }
    sections := Finish(content, doc, starts, labelOf, p, current);
  }

  /** Behind the loop: a section being filled that is not blank is kept, and a document without sections
      is kept whole. */
  method Finish(content: string, ghost doc: string, ghost starts: string -> bool,
        ghost labelOf: string -> string, p: Progress, current: string)
    returns (sections: seq<Section>)
    requires doc == Padded(content) && Sound(content, doc, starts, labelOf, p) && p.offset == |doc|
    requires current == doc[p.from..p.offset]
    ensures IsSplit(content, starts, labelOf, sections)
  {
    sections := p.sections;
    var rest := TrimCopy(current);
    if rest != "" {
      FinishKept(content, doc, starts, labelOf, p, current);
      sections := sections + [Section(current, p.from, p.heading)];
    } else if sections != [] {
      FinishBlank(content, doc, starts, labelOf, p);
    }
    if sections == [] {
      NothingKept(content, doc, starts, labelOf, p);
      FinishEmpty(content, doc, starts, labelOf);
      sections := [Section(content, 0, "")];
    }
  }

  lemma NothingKept(content: string, doc: string, starts: string -> bool, labelOf: string -> string, p: Progress)
    requires Sound(content, doc, starts, labelOf, p) && p.sections == []
    ensures p.from == 0 && (p.offset <= |doc| ==> doc[p.from..p.offset] == doc[..p.offset])
  {
  }

  /** Behind the last line: a section being filled that has text is kept. */
  lemma FinishKept(content: string, doc: string, starts: string -> bool, labelOf: string -> string,
        p: Progress, text: string)
    requires doc == Padded(content) && Sound(content, doc, starts, labelOf, p) && p.offset == |doc|
    requires text == doc[p.from..p.offset] && !Blank(text)
    ensures IsSplit(content, starts, labelOf, p.sections + [Section(text, p.from, p.heading)])
  {
    var sec := Section(text, p.from, p.heading);
    var all := p.sections + [sec];
    assert all[..|p.sections|] == p.sections;
    assert Tiles(doc, all, p.offset) && Blank(doc[p.offset..]);
    forall q | IsHeading(content, starts, q) ensures OpensSome(doc, all, q) {
      MoreOpen(doc, p.sections, sec, q);
    }
  }

  /** Behind the last line: whitespace after the last finished section is dropped. */
  lemma FinishBlank(content: string, doc: string, starts: string -> bool, labelOf: string -> string, p: Progress)
    requires doc == Padded(content) && Sound(content, doc, starts, labelOf, p) && p.offset == |doc|
    requires Blank(doc[p.from..p.offset])
    requires p.sections != []
    ensures IsSplit(content, starts, labelOf, p.sections)
  {
    assert doc[p.from..] == doc[p.from..p.offset];
    assert Tiles(doc, p.sections, p.from);
    forall q | IsHeading(content, starts, q) && !Blank(LineAt(content, q))
      ensures OpensSome(doc, p.sections, q)
    {
      if Opens(doc, p.from, q) {
        BlankPart(content, doc, p.from, q);
      }
    }
  }

  lemma BlankPart(content: string, doc: string, from: nat, p: int)
    requires Pads(content, doc) && from <= p && IsLineStart(content, p) && from <= |doc| && Blank(doc[from..])
    ensures Blank(LineAt(content, p))
  {
    var line := LineAt(content, p);
    forall i | 0 <= i < |line| ensures IsSpace(line[i]) {
      assert line[i] == content[p + i] == doc[..|content|][p + i] == doc[from..][p + i - from];
    }
  }

  /** A document of whitespace alone is kept whole. */
  lemma FinishEmpty(content: string, doc: string, starts: string -> bool, labelOf: string -> string)
    requires doc == Padded(content)
    ensures Blank(doc) ==> IsSplit(content, starts, labelOf, [Section(content, 0, "")])
  {
    if Blank(doc) {
      PaddedPads(content);
      var sections := [Section(content, 0, "")];
      assert doc[0..|content|] == content && doc[0..] == doc;
      assert Blank(content) && Cut(doc, |content|);
      assert Tiles(doc, sections[..0], 0);
      assert Tiles(doc, sections, |content|) && Blank(doc[|content|..]);
      forall p | IsHeading(content, starts, p) ensures Blank(LineAt(content, p)) {
        BlankPart(content, doc, 0, p);
      }
    }
  }
}
