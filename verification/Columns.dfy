/** Spreadsheet coordinates and the type of a column. */
module Columns {
  import opened Text

  // ---------------------------------------------------------------- column names

  predicate IsLetter(c: char) {
    'A' <= c <= 'Z'
  }

  ghost predicate AllLetters(s: string) {
    forall i :: 0 <= i < |s| ==> IsLetter(s[i])
  }

  /** The name of column number `n`, counting from one; there is no name for zero. */
  function Name(n: nat): (s: string)
    ensures AllLetters(s) && (s == "" <==> n == 0)
  {
    if n == 0 then "" else Name((n - 1) / 26) + ['A' + ((n - 1) % 26) as char]
  }

  /** The number that a name of letters stands for. */
  function Number(s: string): nat
    requires AllLetters(s)
  {
    if s == "" then 0 else 26 * Number(s[..|s| - 1]) + (s[|s| - 1] - 'A') as nat + 1
  }

  method ColumnNameFromIndex(index: nat) returns (name: string)
    ensures name == Name(index + 1)
  {
    name := "";
    var n: nat := index + 1;
    while n > 0
      invariant n >= 0 && Name(n) + name == Name(index + 1)
    {
      var rem := (n - 1) % 26;
      name := ['A' + rem as char] + name;
      n := (n - 1) / 26;
    }
  }

  /** Every column number has its own name. */
  lemma {:induction false} NameRoundTrip(n: nat)
    ensures Number(Name(n)) == n
  {
    if n > 0 {
      NameRoundTrip((n - 1) / 26);
      var s := Name(n);
      assert s[..|s| - 1] == Name((n - 1) / 26);
    }
  }

  /** Every word of capital letters is the name of some column. */
  lemma {:induction false} NumberRoundTrip(s: string)
    requires AllLetters(s)
    ensures Name(Number(s)) == s
  {
    if s != "" {
      var front, last := s[..|s| - 1], s[|s| - 1];
      NumberRoundTrip(front);
      assert (Number(s) - 1) / 26 == Number(front) && (Number(s) - 1) % 26 == (last - 'A') as int;
    }
  }

  function CellCoordinate(row: nat, column: nat): string {
    Name(column + 1) + Decimal(row + 1)
  }

  function LeadingLetters(s: string): nat {
    if s != "" && IsLetter(s[0]) then 1 + LeadingLetters(s[1..]) else 0
  }

  lemma {:induction false} LettersThenDigits(letters: string, digits: string)
    requires AllLetters(letters) && AllDigits(digits)
    ensures LeadingLetters(letters + digits) == |letters|
  {
    if letters != "" {
      LettersThenDigits(letters[1..], digits);
      assert (letters + digits)[1..] == letters[1..] + digits;
    } else {
      assert letters + digits == digits;
    }
  }

  lemma PartsOf(left: string, right: string)
    ensures (left + right)[..|left|] == left && (left + right)[|left|..] == right
  {
  }

  /** A coordinate reads: the letters in front are the column, counted from one, and the digits behind them the
      row. */
  lemma CoordinateReads(row: nat, column: nat)
    ensures var s := CellCoordinate(row, column);
      var n := LeadingLetters(s);
      && n <= |s| && AllLetters(s[..n]) && AllDigits(s[n..])
      && Number(s[..n]) == column + 1 && DigitsValue(s[n..]) == row + 1
  {
    var letters, digits := Name(column + 1), Decimal(row + 1);
    LettersThenDigits(letters, digits);
    PartsOf(letters, digits);
    NameRoundTrip(column + 1);
    DecimalValue(row + 1);
  }

  /** A coordinate names one cell only. */
  lemma CoordinatesDiffer(r: nat, c: nat, r': nat, c': nat)
    requires CellCoordinate(r, c) == CellCoordinate(r', c')
    ensures r == r' && c == c'
  {
    CoordinateReads(r, c);
    CoordinateReads(r', c');
  }

  // ---------------------------------------------------------------- column types

  datatype CellKind = Empty | Word | Integer | Fraction | Boolean | Date | Formula | Mixed

  function MergeCellKind(current: CellKind, next: CellKind): CellKind {
    if current == Empty then next
    else if next == Empty then current
    else if current == next then current
    else if (current == Integer && next == Fraction) || (current == Fraction && next == Integer) then Fraction
    else Mixed
  }

  /** Nothing is lost when `a` is given the type `b`. */
  predicate FitsIn(a: CellKind, b: CellKind) {
    a == b || a == Empty || b == Mixed || (a == Integer && b == Fraction)
  }

  /** The type a column gets from its cells, read from the first row to the last. */
  method ColumnType(cells: seq<CellKind>) returns (t: CellKind)
    ensures IsLeast(cells, t)
  {
    t := Empty;
    for i := 0 to |cells|
      invariant IsLeast(cells[..i], t)
    {
      MergedIsLeast(cells[..i], t, cells[i]);
      assert cells[..i + 1] == cells[..i] + [cells[i]];
      t := MergeCellKind(t, cells[i]);
    }
    assert cells[..|cells|] == cells;
  }

  /** The least type that every cell fits in. */
  ghost predicate IsLeast(cells: seq<CellKind>, t: CellKind) {
    && (forall c :: c in cells ==> FitsIn(c, t))
    && (forall u :: (forall c :: c in cells ==> FitsIn(c, u)) ==> FitsIn(t, u))
  }

  lemma MergedIsLeast(cells: seq<CellKind>, t: CellKind, next: CellKind)
    requires IsLeast(cells, t)
    ensures IsLeast(cells + [next], MergeCellKind(t, next))
  {
    var all := cells + [next];
    forall u | forall c :: c in all ==> FitsIn(c, u)
      ensures FitsIn(MergeCellKind(t, next), u)
    {
      assert next in all && FitsIn(next, u);
      forall c | c in cells
        ensures FitsIn(c, u)
      {
        assert c in all;
      }
      assert FitsIn(t, u);
    }
  }

  /** A column's type depends only on which kinds of cells it has, not on their order or number. */
  lemma TypeIgnoresOrder(cells: seq<CellKind>, others: seq<CellKind>, t: CellKind, u: CellKind)
    requires IsLeast(cells, t) && IsLeast(others, u)
    requires forall c :: c in cells <==> c in others
    ensures t == u
  {
    assert FitsIn(t, u) && FitsIn(u, t);
  }
}
