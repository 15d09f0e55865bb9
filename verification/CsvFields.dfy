/**
 What the CSV reader makes of any text at all, told without its state: a field ends at the first delimiter or line end
 that has an even number of quotes before it, and quotes are taken out of each field on its own.
 */
module CsvFields {
  import opened Csv
  import opened Slices

  function Quotes(s: string): nat {
    if s == [] then 0 else Quotes(s[..|s| - 1]) + if s[|s| - 1] == QUOTE then 1 else 0
  }

  /** A character that ends a field when it stands outside quotes. */
  predicate IsEnd(c: char, d: char) {
    c != QUOTE && (c == d || c == '\n' || c == '\r')
  }

  /** The character at `e` ends a field that begins at the start of `s`, inside quotes or not. */
  predicate EndsAt(s: string, d: char, inside: bool, e: nat) {
    e < |s| && IsEnd(s[e], d) && (Quotes(s[..e]) % 2 == 0 <==> !inside)
  }

  /** The field at the start of `s` ends at `e`, which may be the end of the text. */
  ghost predicate IsFieldEnd(s: string, d: char, inside: bool, e: nat) {
    && (e == |s| || EndsAt(s, d, inside, e))
    && forall k: nat :: k < e ==> !EndsAt(s, d, inside, k)
  }

  /** The text of a field without its quotes: between quotes two of them stand for one. */
  function Unquoted(raw: string, inside: bool): string
    decreases |raw|
  {
    if raw == [] then []
    else if raw[0] != QUOTE then [raw[0]] + Unquoted(raw[1..], inside)
    else if !inside then Unquoted(raw[1..], true)
    else if |raw| >= 2 && raw[1] == QUOTE then [QUOTE] + Unquoted(raw[2..], true)
    else Unquoted(raw[1..], false)
  }

  /** How much a line end takes: two characters if it is CRLF. */
  function EndLength(s: string, e: nat): nat
    requires e < |s|
  {
    if s[e] == '\r' && e + 1 < |s| && s[e + 1] == '\n' then 2 else 1
  }

  /** `s` gives the rows `rows`, when the fields `row` of the first of them have been read already. */
  ghost predicate AreRows(s: string, d: char, row: seq<string>, rows: seq<seq<string>>)
    decreases |s|, 1
  {
    exists e: nat :: IsFieldEnd(s, d, false, e) && GoOn(s, d, row, rows, e)
  }

  ghost predicate GoOn(s: string, d: char, row: seq<string>, rows: seq<seq<string>>, e: nat)
    requires IsFieldEnd(s, d, false, e)
    decreases |s|, 0
  {
    var now := row + [Unquoted(s[..e], false)];
    if e == |s| then rows == if now == [""] then [] else [now]
    else if s[e] == d then AreRows(s[e + 1..], d, now, rows)
    else rows != [] && rows[0] == now && AreRows(s[e + EndLength(s, e)..], d, [], rows[1..])
  }

  // ---------------------------------------------------------------- one field

  lemma {:induction false} QuotesAfter(first: char, rest: string)
    ensures Quotes([first] + rest) == Quotes(rest) + if first == QUOTE then 1 else 0
  {
    var s := [first] + rest;
    if rest == [] {
      assert s[..0] == [];
    } else {
      QuotesAfter(first, rest[..|rest| - 1]);
      assert s[..|s| - 1] == [first] + rest[..|rest| - 1];
    }
  }

  /** Whether a later character ends the field may be asked behind the first character as well. */
  lemma EndsLater(s: string, d: char, inside: bool, e: nat)
    requires s != [] && e > 0
    ensures EndsAt(s, d, inside, e) <==> EndsAt(s[1..], d, if s[0] == QUOTE then !inside else inside, e - 1)
  {
    if e < |s| {
      QuotesAfter(s[0], s[1..e]);
      assert s[..e] == [s[0]] + s[1..e] && s[1..][..e - 1] == s[1..e];
    }
  }

  lemma FieldEndLater(s: string, d: char, inside: bool, e: nat)
    requires s != [] && e > 0 && IsFieldEnd(s, d, inside, e)
    ensures IsFieldEnd(s[1..], d, if s[0] == QUOTE then !inside else inside, e - 1)
  {
    EndsLater(s, d, inside, e);
    var now, t := if s[0] == QUOTE then !inside else inside, s[1..];
    forall k: nat | k < e - 1
      ensures !EndsAt(t, d, now, k)
    {
      EndsLater(s, d, inside, k + 1);
    }
  }

  /** At its own first character a field is either over or goes on. */
  lemma FieldGoesOn(s: string, d: char, inside: bool, e: nat)
    requires s != [] && IsFieldEnd(s, d, inside, e)
    ensures e == 0 <==> IsEnd(s[0], d) && !inside
  {
    assert s[..0] == [];
    assert EndsAt(s, d, inside, 0) <==> IsEnd(s[0], d) && !inside;
  }

  /** The same end, character by character. */
  predicate EndsAfter(s: string, d: char, inside: bool, e: nat) {
    if e == 0 then s == [] || (IsEnd(s[0], d) && !inside)
    else
      && s != [] && (inside || !IsEnd(s[0], d))
      && EndsAfter(s[1..], d, if s[0] == QUOTE then !inside else inside, e - 1)
  }

  lemma {:induction false} EndIsAfter(s: string, d: char, inside: bool, e: nat)
    requires IsFieldEnd(s, d, inside, e)
    ensures e <= |s| && EndsAfter(s, d, inside, e)
    decreases e
  {
    if s != [] {
      FieldGoesOn(s, d, inside, e);
    }
    if e > 0 {
      FieldEndLater(s, d, inside, e);
      EndIsAfter(s[1..], d, if s[0] == QUOTE then !inside else inside, e - 1);
    }
  }

  /** The state after the characters of one field. */
  function Within(st: State, text: string, inside: bool): State {
    st.(field := st.field + text, inQuotes := inside)
  }

  lemma AppendTwice(field: string, a: string, b: string)
    ensures field + a + b == field + (a + b)
  {
  }

  /** Reading one field adds its text and comes to its end outside quotes, or to the end of the text. */
  ghost predicate Scans(s: string, d: char, e: nat, st: State, inside: bool)
    requires e <= |s|
  {
    && Scan(s, d, st) == Scan(s[e..], d, Within(st, Unquoted(s[..e], st.inQuotes), inside))
    && (e < |s| ==> !inside)
  }

  lemma {:induction false} ScanField(s: string, d: char, e: nat, st: State) returns (inside: bool)
    requires e <= |s| && EndsAfter(s, d, st.inQuotes, e)
    ensures Scans(s, d, e, st, inside)
    decreases |s|
  {
    if e == 0 {
      inside := st.inQuotes;
      FieldStarts(s, d, st);
    } else if st.inQuotes && s[0] == QUOTE && |s| >= 2 && s[1] == QUOTE {
      PairEnds(s, d, e);
      var next := Within(st, [QUOTE], true);
      inside := ScanField(s[2..], d, e - 2, next);
      ScanPair(s, d, e, st, next, inside);
    } else {
      var now := if s[0] == QUOTE then !st.inQuotes else st.inQuotes;
      var next := Within(st, if s[0] == QUOTE then "" else [s[0]], now);
      inside := ScanField(s[1..], d, e - 1, next);
      ScanOne(s, d, e, st, next, inside);
    }
  }

  lemma FieldStarts(s: string, d: char, st: State)
    requires s == [] || (IsEnd(s[0], d) && !st.inQuotes)
    ensures Scans(s, d, 0, st, st.inQuotes)
  {
    assert st.field + "" == st.field && s[0..] == s && s[..0] == "";
    assert Within(st, "", st.inQuotes) == st;
  }

  lemma {:induction false} PairEnds(s: string, d: char, e: nat)
    requires EndsAfter(s, d, true, e) && e > 0 && |s| >= 2 && s[0] == s[1] == QUOTE
    ensures e >= 2 && EndsAfter(s[2..], d, true, e - 2)
  {
    assert s[1..][1..] == s[2..];
  }

  lemma SliceParts(s: string, n: nat, e: nat)
    requires n <= e <= |s|
    ensures s[n..][e - n..] == s[e..] && s[n..][..e - n] == s[..e][n..]
  {
  }

  lemma {:induction false} ScanPair(s: string, d: char, e: nat, st: State, next: State, inside: bool)
    requires st.inQuotes && 2 <= e <= |s| && s[0] == s[1] == QUOTE
    requires next == Within(st, [QUOTE], true) && Scans(s[2..], d, e - 2, next, inside)
    ensures Scans(s, d, e, st, inside)
  {
    SliceParts(s, 2, e);
    AppendTwice(st.field, [QUOTE], Unquoted(s[..e][2..], true));
  }

  lemma {:induction false} UnquotedOne(raw: string, inside: bool)
    requires raw != [] && !(inside && |raw| >= 2 && raw[0] == raw[1] == QUOTE)
    ensures Unquoted(raw, inside) == (if raw[0] == QUOTE then "" else [raw[0]])
      + Unquoted(raw[1..], if raw[0] == QUOTE then !inside else inside)
  {
  }

  lemma {:induction false} ScanStep(s: string, d: char, st: State)
    requires s != [] && !(st.inQuotes && |s| >= 2 && s[0] == s[1] == QUOTE)
    requires st.inQuotes || !IsEnd(s[0], d)
    ensures Scan(s, d, st) == Scan(s[1..], d, Within(st, if s[0] == QUOTE then "" else [s[0]],
                                                    if s[0] == QUOTE then !st.inQuotes else st.inQuotes))
  {
    assert st.field + "" == st.field;
  }

  /** Any other character of a field. */
  lemma {:induction false} ScanOne(s: string, d: char, e: nat, st: State, next: State, inside: bool)
    requires 0 < e <= |s| && !(st.inQuotes && |s| >= 2 && s[0] == s[1] == QUOTE)
    requires st.inQuotes || !IsEnd(s[0], d)
    requires next == Within(st, if s[0] == QUOTE then "" else [s[0]],
                            if s[0] == QUOTE then !st.inQuotes else st.inQuotes)
    requires Scans(s[1..], d, e - 1, next, inside)
    ensures Scans(s, d, e, st, inside)
  {
    SliceParts(s, 1, e);
    ScanStep(s, d, st);
    UnquotedOne(s[..e], st.inQuotes);
    AppendTwice(st.field, if s[0] == QUOTE then "" else [s[0]], Unquoted(s[..e][1..], next.inQuotes));
  }

  // ---------------------------------------------------------------- the whole text

  /** Every field has an end, and only one. */
  lemma {:induction false} EndExists(s: string, d: char, from: nat) returns (e: nat)
    requires from <= |s| && forall k: nat :: k < from ==> !EndsAt(s, d, false, k)
    ensures IsFieldEnd(s, d, false, e)
    decreases |s| - from
  {
    if from == |s| || EndsAt(s, d, false, from) {
      e := from;
    } else {
      e := EndExists(s, d, from + 1);
    }
  }

  lemma EndIsUnique(s: string, d: char, e: nat, f: nat)
    requires IsFieldEnd(s, d, false, e) && IsFieldEnd(s, d, false, f)
    ensures e == f
  {
    assert e < f ==> EndsAt(s, d, false, e);
    assert f < e ==> EndsAt(s, d, false, f);
  }

  /** What is left of a text after a field and a line end. */
  lemma {:induction false} ScanLineEnd(s: string, d: char, st: State)
    requires s != [] && !st.inQuotes && (s[0] == '\n' || s[0] == '\r') && s[0] != d
    ensures Scan(s, d, st) == Scan(s[EndLength(s, 0)..], d, EndRow(st))
  {
  }

  lemma EndLengthBehind(s: string, e: nat)
    requires e < |s|
    ensures EndLength(s, e) == EndLength(s[e..], 0)
    ensures e + EndLength(s, e) <= |s| && s[e..][EndLength(s, e)..] == s[e + EndLength(s, e)..]
  {
  }

  /** From a state between two fields the reader gives the rows before, and those that the rest of the text gives. */
  lemma {:induction false} ReadsRows(s: string, d: char, st: State, rows: seq<seq<string>>)
    requires !st.inQuotes && st.field == ""
    ensures Finish(Scan(s, d, st)) == st.rows + rows <==> AreRows(s, d, st.row, rows)
    decreases |s|, 0
  {
    var e := EndExists(s, d, 0);
    forall f: nat | IsFieldEnd(s, d, false, f)
      ensures f == e
    {
      EndIsUnique(s, d, e, f);
    }
    assert AreRows(s, d, st.row, rows) <==> GoOn(s, d, st.row, rows, e);
    EndIsAfter(s, d, st.inQuotes, e);
    var inside := ScanField(s, d, e, st);
    var text := Unquoted(s[..e], false);
    assert "" + text == text;
    var next := Within(st, text, inside);
    if e == |s| {
      LastField(s, d, st, rows, next);
    } else if s[e] == d {
      assert s[e..][1..] == s[e + 1..];
      ReadsRows(s[e + 1..], d, EndField(next), rows);
    } else {
      ScanLineEnd(s[e..], d, next);
      EndLengthBehind(s, e);
      RowsBehind(s[e + EndLength(s, e)..], d, EndRow(next), st, rows);
    }
  }

  lemma LastField(s: string, d: char, st: State, rows: seq<seq<string>>, next: State)
    requires next.row == st.row && next.rows == st.rows
    ensures var now := st.row + [next.field];
      Finish(Scan(s[|s|..], d, next)) == st.rows + rows <==> rows == if now == [""] then [] else [now]
  {
    var now := st.row + [next.field];
    assert s[|s|..] == "";
    assert now == [""] <==> st.row == [] && next.field == "" by {
      assert st.row == [] ==> now == [next.field];
      assert st.row != [] ==> |now| > 1;
    }
    assert st.rows == st.rows + [];
    SameBehind(st.rows, if now == [""] then [] else [now], rows);
  }

  lemma SameBehind<T>(front: seq<T>, a: seq<T>, b: seq<T>)
    ensures front + a == front + b <==> a == b
  {
    if front + a == front + b {
      assert (front + a)[|front|..] == a && (front + b)[|front|..] == b;
    }
  }

  lemma {:induction false} RowsOnlyGrow(t: string, d: char, st: State)
    ensures st.rows <= Scan(t, d, st).rows
    decreases |t|
  {
    if t != [] {
      var pair := |t| >= 2 && ((st.inQuotes && t[0] == t[1] == QUOTE) || (t[0] == '\r' && t[1] == '\n'));
      if pair {
        RowsOnlyGrow(t[2..], d, st.(field := st.field + [QUOTE]));
        RowsOnlyGrow(t[2..], d, EndRow(st));
      }
      RowsOnlyGrow(t[1..], d, EndField(st));
      RowsOnlyGrow(t[1..], d, EndRow(st));
      RowsOnlyGrow(t[1..], d, st.(inQuotes := !st.inQuotes));
      RowsOnlyGrow(t[1..], d, st.(field := st.field + [t[0]]));
    }
  }

  lemma {:induction false} RowsBehind(t: string, d: char, ended: State, st: State, rows: seq<seq<string>>)
    requires !ended.inQuotes && ended.field == "" && ended.row == [] && |ended.rows| == |st.rows| + 1
    requires ended.rows[..|st.rows|] == st.rows
    ensures Finish(Scan(t, d, ended)) == st.rows + rows <==>
      rows != [] && rows[0] == ended.rows[|st.rows|] && AreRows(t, d, [], rows[1..])
    decreases |t|, 1
  {
    if rows != [] {
      assert rows == [rows[0]] + rows[1..];
      assert rows[0] == ended.rows[|st.rows|] ==> st.rows + rows == ended.rows + rows[1..];
      ReadsRows(t, d, ended, rows[1..]);
    }
    var n, all := |st.rows|, Finish(Scan(t, d, ended));
    RowsOnlyGrow(t, d, ended);
    assert all[n] == ended.rows[n] && |all| > n;
    assert rows != [] ==> (st.rows + rows)[n] == rows[0];
    assert rows == [] ==> |st.rows + rows| == n;
  }

  /** What the reader makes of any text, well-formed or not: the rows of its fields. */
  lemma {:induction false} ParsesExactly(content: string, d: char, rows: seq<seq<string>>)
    ensures Parse(content, d) == rows <==> AreRows(content, d, [], rows)
  {
    ReadsRows(content, d, START, rows);
    assert [] + rows == rows;
  }

  // ---------------------------------------------------------------- the text of a field

  lemma {:induction false} UnquotedPlain(text: string, rest: string)
    requires forall i :: 0 <= i < |text| ==> text[i] != QUOTE
    ensures Unquoted(text + rest, false) == text + Unquoted(rest, false)
  {
    if text == [] {
      assert text + rest == rest;
    } else {
      assert (text + rest)[1..] == text[1..] + rest;
      UnquotedPlain(text[1..], rest);
    }
  }

  lemma {:induction false} UnquotedPair(raw: string)
    requires |raw| >= 2 && raw[0] == raw[1] == QUOTE
    ensures Unquoted(raw, true) == [QUOTE] + Unquoted(raw[2..], true)
  {
  }

  /** What comes out when text is left between quotes. */
  function Rest(rest: string): string {
    if rest == [] then "" else Unquoted(rest[1..], false)
  }

  lemma {:induction false} UnquotedClose(rest: string)
    requires rest == [] || (rest[0] == QUOTE && (|rest| >= 2 ==> rest[1] != QUOTE))
    ensures Unquoted(rest, true) == Rest(rest)
  {
  }

  lemma {:induction false} DoubledFirst(text: string, rest: string)
    requires text != []
    ensures text[0] == QUOTE ==> Doubled(text) + rest == [QUOTE, QUOTE] + (Doubled(text[1..]) + rest)
    ensures text[0] != QUOTE ==> Doubled(text) + rest == [text[0]] + (Doubled(text[1..]) + rest)
  {
    Regroup(if text[0] == QUOTE then [QUOTE, QUOTE] else [text[0]], Doubled(text[1..]), rest);
  }

  lemma {:induction false} UnquotedInside(text: string, rest: string)
    requires rest == [] || (rest[0] == QUOTE && (|rest| >= 2 ==> rest[1] != QUOTE))
    ensures Unquoted(Doubled(text) + rest, true) == text + Rest(rest)
    decreases |text|
  {
    if text == [] {
      assert Doubled(text) + rest == rest;
      UnquotedClose(rest);
    } else {
      var s, t := Doubled(text) + rest, Doubled(text[1..]) + rest;
      DoubledFirst(text, rest);
      UnquotedInside(text[1..], rest);
      AppendTwice([text[0]], text[1..], Rest(rest));
      assert [text[0]] + text[1..] == text;
      if text[0] == QUOTE {
        assert s[2..] == t;
        UnquotedPair(s);
      } else {
        assert s[1..] == t;
        UnquotedOne(s, true);
      }
    }
  }

  /** The text of a field, part by part: what stands outside quotes stays, what stands between quotes comes out with
      doubled quotes as one, and the last quotes may lack their end. */
  lemma {:induction false} UnquotedParts(plain: string, quoted: string, rest: string)
    requires forall i :: 0 <= i < |plain| ==> plain[i] != QUOTE
    requires rest == [] || rest[0] != QUOTE
    ensures Unquoted(plain, false) == plain
    ensures Unquoted(plain + ([QUOTE] + (Doubled(quoted) + ([QUOTE] + rest))), false)
      == plain + (quoted + Unquoted(rest, false))
    ensures Unquoted(plain + ([QUOTE] + Doubled(quoted)), false) == plain + quoted
  {
    UnquotedPlain(plain, "");
    assert plain + "" == plain;
    var open, closed := [QUOTE] + Doubled(quoted), [QUOTE] + (Doubled(quoted) + ([QUOTE] + rest));
    UnquotedPlain(plain, open);
    UnquotedPlain(plain, closed);
    assert open[1..] == Doubled(quoted) + "" && closed[1..] == Doubled(quoted) + ([QUOTE] + rest);
    UnquotedInside(quoted, "");
    UnquotedInside(quoted, [QUOTE] + rest);
    assert ([QUOTE] + rest)[1..] == rest;
    assert quoted + "" == quoted;
  }
}
