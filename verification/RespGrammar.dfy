/** The inputs that the Redis reader accepts, as a grammar, and that it accepts no others. */
module RespGrammar {
  import opened Options
  import opened RespSpec
  import opened Text

  /** A marker, a line without CRLF, its CRLF, and what comes after. */
  ghost predicate IsLine(s: string, head: char, line: string, after: string) {
    s == [head] + (line + CRLF + after) && OneLine(line)
  }

  /** The line after the marker holds a number, with what `std::stoll` lets stand before and behind it. */
  ghost predicate IsNumbered(s: string, head: char, n: int, after: string) {
    exists line :: IsLine(s, head, line, after) && Stoll(line) == Some(n)
  }

  /** `s` is a form of `v`, with `rest` behind it. */
  ghost predicate IsForm(s: string, v: RespValue, rest: string)
    decreases v, 0
  {
    match v
    case SimpleString(str) => IsLine(s, '+', str, rest)
    case Error(str) => IsLine(s, '-', str, rest)
    case Integer(n) => IsNumbered(s, ':', n, rest)
    case BulkString(str) => IsNumbered(s, '$', |str|, str + CRLF + rest)
    case Array(elements) => exists body :: IsNumbered(s, '*', |elements|, body) && AreForms(body, elements, rest)
    case Nil => exists n: int :: n < 0 && (IsNumbered(s, '$', n, rest) || IsNumbered(s, '*', n, rest))
  }

  /** Forms of the values one after another, with `rest` behind them. */
  ghost predicate AreForms(s: string, vs: seq<RespValue>, rest: string)
    decreases vs, 1
  {
    if vs == [] then s == rest else exists t :: IsForm(s, vs[0], t) && AreForms(t, vs[1..], rest)
  }

  // ---------------------------------------------------------------- lines and numbers

  lemma {:induction false} LineIff(s: string, line: string, after: string)
    requires s != []
    ensures Line(s[1..]) == Done(line, after) <==> IsLine(s, s[0], line, after)
  {
    if Line(s[1..]) == Done(line, after) || IsLine(s, s[0], line, after) {
      assert s == [s[0]] + s[1..];
      assert s[1..] == line + CRLF + after;
      LineRoundTrip(line, after);
    }
  }

  lemma {:induction false} NumberIff(s: string, n: int, after: string)
    requires s != []
    ensures Number(s[1..]) == Done(n, after) <==> IsNumbered(s, s[0], n, after)
  {
    if Number(s[1..]) == Done(n, after) {
      LineIff(s, Line(s[1..]).value, after);
    }
    if line :| IsLine(s, s[0], line, after) && Stoll(line) == Some(n) {
      LineIff(s, line, after);
    }
  }

  lemma {:induction false} BodyIff(s: string, body: string, rest: string)
    ensures Body(s, |body|) == Done(body, rest) <==> s == body + CRLF + rest
  {
    BodyRoundTrip(body, rest);
    if Body(s, |body|) == Done(body, rest) {
      var t := s[|body|..];
      assert s == s[..|body|] + t && t == t[..2] + t[2..];
    }
  }

  lemma HeadOfLine(s: string, head: char, n: int, after: string)
    requires IsNumbered(s, head, n, after)
    ensures s != [] && s[0] == head
  {
  }

  lemma HeadOfForm(s: string, v: RespValue, rest: string)
    requires IsForm(s, v, rest)
    ensures s != []
    ensures s[0] == match v
      case SimpleString(_) => '+'
      case Error(_) => '-'
      case Integer(_) => ':'
      case BulkString(_) => '$'
      case Array(_) => '*'
      case Nil => s[0]
    ensures v == Nil ==> s[0] == '$' || s[0] == '*'
  {
  }

  // ---------------------------------------------------------------- what is read is a form

  lemma {:induction false} ReadIsForm(s: string)
    requires ReadValue(s).Done?
    ensures IsForm(s, ReadValue(s).value, ReadValue(s).rest)
    decreases |s|, 0
  {
    var v, rest := ReadValue(s).value, ReadValue(s).rest;
    if s[0] == '+' || s[0] == '-' {
      LineIff(s, v.str, rest);
    } else {
      var n, t := Number(s[1..]).value, Number(s[1..]).rest;
      NumberIff(s, n, t);
      if s[0] == '$' && n >= 0 {
        BodyIff(t, v.str, rest);
      } else if s[0] == '*' && n >= 0 {
        ReadAreForms(t, n);
        assert AreForms(t, v.elements, rest);
      }
    }
  }

  lemma {:induction false} ReadAreForms(s: string, count: nat)
    requires ReadValues(s, count).Done?
    ensures AreForms(s, ReadValues(s, count).value, ReadValues(s, count).rest)
    decreases |s|, 1, count
  {
    if count > 0 {
      var t, vs := ReadValue(s).rest, ReadValues(s, count).value;
      ReadIsForm(s);
      ReadAreForms(t, count - 1);
      assert vs[1..] == ReadValues(t, count - 1).value;
      assert IsForm(s, vs[0], t) && AreForms(t, vs[1..], ReadValues(s, count).rest);
    }
  }

  // ---------------------------------------------------------------- forms are read

  lemma {:induction false} FormIsRead(s: string, v: RespValue, rest: string)
    requires IsForm(s, v, rest)
    ensures ReadValue(s) == Done(v, rest)
    decreases v, 0
  {
    HeadOfForm(s, v, rest);
    match v
    case SimpleString(str) => LineIff(s, str, rest);
    case Error(str) => LineIff(s, str, rest);
    case Integer(n) => NumberIff(s, n, rest);
    case BulkString(str) =>
      NumberIff(s, |str|, str + CRLF + rest);
      BodyIff(str + CRLF + rest, str, rest);
    case Array(elements) =>
      var body :| IsNumbered(s, '*', |elements|, body) && AreForms(body, elements, rest);
      NumberIff(s, |elements|, body);
      FormsAreRead(body, elements, rest);
    case Nil =>
      var n: int :| n < 0 && (IsNumbered(s, '$', n, rest) || IsNumbered(s, '*', n, rest));
      NilIsRead(s, n, rest);
  }

  lemma {:induction false} NilIsRead(s: string, n: int, rest: string)
    requires n < 0 && (IsNumbered(s, '$', n, rest) || IsNumbered(s, '*', n, rest))
    ensures ReadValue(s) == Done(Nil, rest)
  {
    if IsNumbered(s, '$', n, rest) {
      HeadOfLine(s, '$', n, rest);
    } else {
      HeadOfLine(s, '*', n, rest);
    }
    NumberIff(s, n, rest);
  }

  lemma {:induction false} FormsAreRead(s: string, vs: seq<RespValue>, rest: string)
    requires AreForms(s, vs, rest)
    ensures ReadValues(s, |vs|) == Done(vs, rest)
    decreases vs, 1
  {
    if vs != [] {
      var t :| IsForm(s, vs[0], t) && AreForms(t, vs[1..], rest);
      FormIsRead(s, vs[0], t);
      FormsAreRead(t, vs[1..], rest);
      assert [vs[0]] + vs[1..] == vs;
    }
  }

  /** On any input at all, a value is read exactly when the input begins with a form of it, and what is left is what
      comes behind that form. In particular a body that is not followed by CRLF, an unknown marker and a line that is
      not a number are refused. */
  lemma {:induction false} ReadsExactly(s: string, v: RespValue, rest: string)
    ensures ReadValue(s) == Done(v, rest) <==> IsForm(s, v, rest)
  {
    if ReadValue(s) == Done(v, rest) {
      ReadIsForm(s);
    }
    if IsForm(s, v, rest) {
      FormIsRead(s, v, rest);
    }
  }

  // ---------------------------------------------------------------- what can be read at all

  lemma {:induction false} FormIsCarried(s: string, v: RespValue, rest: string)
    requires IsForm(s, v, rest)
    ensures Carried(v)
    decreases v, 0
  {
    match v
    case SimpleString(_) =>
    case Error(_) =>
    case Integer(n) => NumberedFits(s, ':', n, rest);
    case BulkString(str) => NumberedFits(s, '$', |str|, str + CRLF + rest);
    case Array(elements) =>
      var body :| IsNumbered(s, '*', |elements|, body) && AreForms(body, elements, rest);
      NumberedFits(s, '*', |elements|, body);
      FormsAreCarried(body, elements, rest);
    case Nil =>
  }

  lemma {:induction false} FormsAreCarried(s: string, vs: seq<RespValue>, rest: string)
    requires AreForms(s, vs, rest)
    ensures AllCarried(vs)
    decreases vs, 1
  {
    if vs != [] {
      var t :| IsForm(s, vs[0], t) && AreForms(t, vs[1..], rest);
      FormIsCarried(s, vs[0], t);
      FormsAreCarried(t, vs[1..], rest);
    }
  }

  lemma NumberedFits(s: string, head: char, n: int, after: string)
    requires IsNumbered(s, head, n, after)
    ensures -LLONG_MAX - 1 <= n <= LLONG_MAX
  {
    var line :| IsLine(s, head, line, after) && Stoll(line) == Some(n);
  }

  /** The values that the round trip is about are all that there can be: any other is not read off its own printing,
      nor off any input. */
  lemma {:induction false} RoundTripIff(v: RespValue, rest: string)
    ensures ReadValue(Print(v) + rest) == Done(v, rest) <==> Carried(v)
    ensures (exists s, t :: ReadValue(s) == Done(v, t)) <==> Carried(v)
  {
    if Carried(v) {
      RoundTrip(v, rest);
    }
    forall s, t | ReadValue(s) == Done(v, t)
      ensures Carried(v)
    {
      ReadIsForm(s);
      FormIsCarried(s, v, t);
    }
  }

  /** A command is read as its parts exactly if 64 bits can count them and their lengths. */
  lemma {:induction false} CommandRoundTripIff(parts: seq<string>, rest: string)
    ensures ReadValue(Command(parts) + rest) == Done(Array(Bulks(parts)), rest) <==> Countable(parts)
  {
    RoundTripIff(Array(Bulks(parts)), rest);
    if Carried(Array(Bulks(parts))) {
      AllBulksCarried(parts);
    }
    if Countable(parts) {
      CommandRoundTrip(parts, rest);
    }
  }

  lemma {:induction false} AllBulksCarried(parts: seq<string>)
    requires AllCarried(Bulks(parts))
    ensures forall i :: 0 <= i < |parts| ==> |parts[i]| <= LLONG_MAX
  {
    if parts != [] {
      assert Bulks(parts)[1..] == Bulks(parts[1..]);
      AllBulksCarried(parts[1..]);
    }
  }
}
