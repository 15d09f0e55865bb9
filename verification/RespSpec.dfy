/** The Redis wire format (RESP2) as values: a reader that says what it took and what it left, and
    the printer the protocol specification defines. */
module RespSpec {
  import opened Text

  const CRLF := "\r\n"

  datatype RespValue =
    | SimpleString(str: string)
    | Error(str: string)
    | Integer(integer: int)
    | BulkString(str: string)
    | Array(elements: seq<RespValue>)
    | Nil

  /** What a read took off the front of its input, and what is left. */
  datatype Parsed<+T> = Fail | Done(value: T, rest: string)

  // ---------------------------------------------------------------- reading

  /** The text before the first CRLF. */
  function Line(s: string): (r: Parsed<string>)
    ensures r.Done? ==> |r.rest| < |s| && s == r.value + CRLF + r.rest
  {
    if |s| < 2 then Fail
    else if s[0] == '\r' && s[1] == '\n' then
      assert s == "" + CRLF + s[2..];
      Done("", s[2..])
    else
      match Line(s[1..])
      case Fail => Fail
      case Done(line, rest) => Done([s[0]] + line, rest)
  }

  function Exactly(s: string, count: nat): (r: Parsed<string>)
    ensures r.Done? ==> |r.value| == count && s == r.value + r.rest
  {
    if |s| < count then Fail else Done(s[..count], s[count..])
  }

  /** A line holding a number. */
  function Number(s: string): (r: Parsed<int>)
    ensures r.Done? ==> |r.rest| < |s|
  {
    match Line(s)
    case Fail => Fail
    case Done(line, rest) =>
      match Stoll(line)
      case None => Fail
      case Some(n) => Done(n, rest)
  }

  /** The body of a bulk string of known length, with the CRLF behind it. */
  function Body(s: string, length: nat): (r: Parsed<string>)
    ensures r.Done? ==> |r.rest| <= |s|
  {
    match Exactly(s, length)
    case Fail => Fail
    case Done(body, rest) =>
      match Exactly(rest, 2)
      case Fail => Fail
      case Done(crlf, rest') => if crlf == CRLF then Done(body, rest') else Fail
  }

  function ReadValue(s: string): (r: Parsed<RespValue>)
    decreases |s|, 0
    ensures r.Done? ==> |r.rest| < |s|
  {
    if s == [] then Fail
    else
      var t := s[1..];
      match s[0]
      case '+' => (match Line(t) case Fail => Fail case Done(line, rest) => Done(SimpleString(line), rest))
      case '-' => (match Line(t) case Fail => Fail case Done(line, rest) => Done(Error(line), rest))
      case ':' => (match Number(t) case Fail => Fail case Done(n, rest) => Done(Integer(n), rest))
      case '$' =>
        (match Number(t)
         case Fail => Fail
         case Done(length, rest) =>
           if length < 0 then Done(Nil, rest)
           else
             match Body(rest, length)
             case Fail => Fail
             case Done(body, rest') => Done(BulkString(body), rest'))
      case '*' =>
        (match Number(t)
         case Fail => Fail
         case Done(count, rest) =>
           if count < 0 then Done(Nil, rest)
           else
             match ReadValues(rest, count)
             case Fail => Fail
             case Done(elements, rest') => Done(Array(elements), rest'))
      case _ => Fail
  }

  function ReadValues(s: string, count: nat): (r: Parsed<seq<RespValue>>)
    decreases |s|, 1, count
    ensures r.Done? ==> |r.rest| <= |s| && |r.value| == count
  {
    if count == 0 then Done([], s)
    else
      match ReadValue(s)
      case Fail => Fail
      case Done(first, rest) =>
        match ReadValues(rest, count - 1)
        case Fail => Fail
        case Done(others, rest') => Done([first] + others, rest')
  }

  // ---------------------------------------------------------------- printing

  function Print(v: RespValue): string
    decreases v, 0
  {
    match v
    case SimpleString(str) => "+" + str + CRLF
    case Error(str) => "-" + str + CRLF
    case Integer(n) => ":" + SignedDecimal(n) + CRLF
    case BulkString(str) => "$" + Decimal(|str|) + CRLF + str + CRLF
    case Array(elements) => "*" + Decimal(|elements|) + CRLF + PrintAll(elements)
    case Nil => "$-1" + CRLF
  }

  function PrintAll(vs: seq<RespValue>): string
    decreases vs, 1
  {
    if vs == [] then "" else Print(vs[0]) + PrintAll(vs[1..])
  }

  /** Text that a line can carry. */
  predicate OneLine(s: string) {
    s == [] || (!(|s| >= 2 && s[0] == '\r' && s[1] == '\n') && OneLine(s[1..]))
  }

  /** Values the protocol can carry: lines without CRLF, numbers and lengths of 64 bits. */
  predicate Carried(v: RespValue)
    decreases v, 0
  {
    match v
    case SimpleString(str) => OneLine(str)
    case Error(str) => OneLine(str)
    case Integer(n) => -LLONG_MAX - 1 <= n <= LLONG_MAX
    case BulkString(str) => |str| <= LLONG_MAX
    case Array(elements) => |elements| <= LLONG_MAX && AllCarried(elements)
    case Nil => true
  }

  predicate AllCarried(vs: seq<RespValue>)
    decreases vs, 1
  {
    vs == [] || (Carried(vs[0]) && AllCarried(vs[1..]))
  }

  // ---------------------------------------------------------------- lines

  /** Exactly the texts without a CRLF are read back as lines. */
  lemma {:induction false} LineRoundTrip(line: string, rest: string)
    ensures Line(line + CRLF + rest) == Done(line, rest) <==> OneLine(line)
  {
    var s := line + CRLF + rest;
    if line == [] {
      assert s[2..] == rest;
    } else {
      assert s[1..] == line[1..] + CRLF + rest;
      LineRoundTrip(line[1..], rest);
      if |line| == 1 {
        assert s[1] == '\r';
      } else {
        assert s[1] == line[1];
      }
      assert line == [line[0]] + line[1..];
    }
  }

  lemma {:induction false} LineGrows(s: string, more: string)
    requires Line(s).Done?
    ensures Line(s + more) == Done(Line(s).value, Line(s).rest + more)
  {
    if s[0] == '\r' && s[1] == '\n' {
      assert (s + more)[2..] == s[2..] + more;
    } else {
      LineGrows(s[1..], more);
      assert (s + more)[1..] == s[1..] + more;
    }
  }

  lemma {:induction false} DigitsAreOneLine(s: string)
    requires AllDigits(s)
    ensures OneLine(s)
  {
    if s != [] {
      DigitsAreOneLine(s[1..]);
    }
  }

  lemma NumberRoundTrip(n: int, rest: string)
    ensures Number(SignedDecimal(n) + CRLF + rest) == if -LLONG_MAX - 1 <= n <= LLONG_MAX then Done(n, rest) else Fail
  {
    var d := Decimal(if n < 0 then -n else n);
    DigitsAreOneLine(d);
    if n < 0 {
      assert ("-" + d)[1..] == d;
    }
    LineRoundTrip(SignedDecimal(n), rest);
    StollReadsDecimal(n);
  }

  // ---------------------------------------------------------------- round trip

  lemma {:induction false} BodyRoundTrip(body: string, rest: string)
    ensures Body(body + CRLF + rest, |body|) == Done(body, rest)
  {
    var s := body + CRLF + rest;
    assert s[..|body|] == body && s[|body|..] == CRLF + rest;
    assert (CRLF + rest)[..2] == CRLF && (CRLF + rest)[2..] == rest;
  }

  lemma {:induction false} LineValueRoundTrip(head: char, line: string, rest: string)
    requires OneLine(line)
    ensures var s := [head] + line + CRLF + rest; s[0] == head && Line(s[1..]) == Done(line, rest)
  {
    assert ([head] + line + CRLF + rest)[1..] == line + CRLF + rest;
    LineRoundTrip(line, rest);
  }

  lemma NumberValueRoundTrip(head: char, n: int, rest: string)
    requires -LLONG_MAX - 1 <= n <= LLONG_MAX
    ensures var s := [head] + SignedDecimal(n) + CRLF + rest; s[0] == head && Number(s[1..]) == Done(n, rest)
  {
    assert ([head] + SignedDecimal(n) + CRLF + rest)[1..] == SignedDecimal(n) + CRLF + rest;
    NumberRoundTrip(n, rest);
  }

  lemma {:induction false} BulkRoundTrip(str: string, rest: string)
    requires |str| <= LLONG_MAX
    ensures ReadValue(Print(BulkString(str)) + rest) == Done(BulkString(str), rest)
  {
    var tail := str + CRLF + rest;
    assert Print(BulkString(str)) + rest == ['$'] + SignedDecimal(|str|) + CRLF + tail;
    NumberValueRoundTrip('$', |str|, tail);
    BodyRoundTrip(str, rest);
  }

  lemma {:induction false} ArrayText(elements: seq<RespValue>, rest: string)
    ensures Print(Array(elements)) + rest == ['*'] + SignedDecimal(|elements|) + CRLF + (PrintAll(elements) + rest)
  {
  }

  lemma {:induction false} ReadArray(s: string, t: string, elements: seq<RespValue>, rest: string)
    requires s != [] && s[0] == '*' && Number(s[1..]) == Done(|elements|, t)
    requires ReadValues(t, |elements|) == Done(elements, rest)
    ensures ReadValue(s) == Done(Array(elements), rest)
  {
  }

  lemma {:induction false} ArrayRoundTrip(elements: seq<RespValue>, rest: string)
    requires |elements| <= LLONG_MAX && ReadValues(PrintAll(elements) + rest, |elements|) == Done(elements, rest)
    ensures ReadValue(Print(Array(elements)) + rest) == Done(Array(elements), rest)
  {
    var tail := PrintAll(elements) + rest;
    ArrayText(elements, rest);
    NumberValueRoundTrip('*', |elements|, tail);
    ReadArray(['*'] + SignedDecimal(|elements|) + CRLF + tail, tail, elements, rest);
  }

  lemma {:induction false} NilRoundTrip(rest: string)
    ensures ReadValue(Print(Nil) + rest) == Done(Nil, rest)
  {
    assert SignedDecimal(-1) == "-1";
    assert Print(Nil) + rest == ['$'] + SignedDecimal(-1) + CRLF + rest;
    NumberValueRoundTrip('$', -1, rest);
  }

  /** The reader takes a printed value back off the front of any input, nested arrays and embedded
      CRLFs included, and leaves the rest untouched. */
  lemma {:induction false} RoundTrip(v: RespValue, rest: string)
    requires Carried(v)
    ensures ReadValue(Print(v) + rest) == Done(v, rest)
    decreases v, 0
  {
    match v {
      case SimpleString(str) => LineValueRoundTrip('+', str, rest);
      case Error(str) => LineValueRoundTrip('-', str, rest);
      case Integer(n) => NumberValueRoundTrip(':', n, rest);
      case BulkString(str) => BulkRoundTrip(str, rest);
      case Array(elements) =>
        RoundTripAll(elements, rest);
        ArrayRoundTrip(elements, rest);
      case Nil => NilRoundTrip(rest);
    }
  }

  lemma {:induction false} RoundTripAll(vs: seq<RespValue>, rest: string)
    requires AllCarried(vs)
    ensures ReadValues(PrintAll(vs) + rest, |vs|) == Done(vs, rest)
    decreases vs, 1
  {
    if vs == [] {
      assert PrintAll(vs) + rest == rest;
    } else {
      assert PrintAll(vs) + rest == Print(vs[0]) + (PrintAll(vs[1..]) + rest);
      RoundTrip(vs[0], PrintAll(vs[1..]) + rest);
      RoundTripAll(vs[1..], rest);
      assert [vs[0]] + vs[1..] == vs;
    }
  }

  // ---------------------------------------------------------------- self-delimitation

  lemma BodyGrows(s: string, length: nat, more: string)
    requires Body(s, length).Done?
    ensures Body(s + more, length) == Done(Body(s, length).value, Body(s, length).rest + more)
  {
    assert (s + more)[..length] == s[..length] && (s + more)[length..] == s[length..] + more;
    var rest := s[length..];
    assert (rest + more)[..2] == rest[..2] && (rest + more)[2..] == rest[2..] + more;
  }

  /** Bytes that arrive later never change a value already complete, for any input at all. */
  lemma {:induction false} ReadGrows(s: string, more: string)
    requires ReadValue(s).Done?
    ensures ReadValue(s + more) == Done(ReadValue(s).value, ReadValue(s).rest + more)
    decreases |s|, 0
  {
    var t := s[1..];
    assert (s + more)[0] == s[0] && (s + more)[1..] == t + more;
    LineGrows(t, more);
    if s[0] == '$' && Number(t).value >= 0 {
      BodyGrows(Number(t).rest, Number(t).value, more);
    } else if s[0] == '*' && Number(t).value >= 0 {
      ReadAllGrows(Number(t).rest, Number(t).value, more);
    }
  }

  lemma {:induction false} ReadAllGrows(s: string, count: nat, more: string)
    requires ReadValues(s, count).Done?
    ensures ReadValues(s + more, count) == Done(ReadValues(s, count).value, ReadValues(s, count).rest + more)
    decreases |s|, 1, count
  {
    if count > 0 {
      ReadGrows(s, more);
      ReadAllGrows(ReadValue(s).rest, count - 1, more);
    }
  }

  /** Bytes behind a complete message are not part of it. */
  lemma {:induction false} RestRemains(s: string, more: string)
    requires ReadValue(s).Done? && more != []
    ensures ReadValue(s + more).Done? ==> ReadValue(s + more).rest != []
  {
    ReadGrows(s, more);
  }

  /** A complete message has no complete message as a proper prefix, so a reader always knows where
      one ends. */
  lemma {:induction false} SelfDelimiting(s: string, n: nat)
    requires ReadValue(s).Done? && ReadValue(s).rest == [] && n < |s|
    ensures ReadValue(s[..n]).Fail?
  {
    if ReadValue(s[..n]).Done? {
      assert s[..n] + s[n..] == s;
      RestRemains(s[..n], s[n..]);
    }
  }

  // ---------------------------------------------------------------- commands

  function Bulks(parts: seq<string>): (vs: seq<RespValue>)
    ensures |vs| == |parts| && forall i :: 0 <= i < |parts| ==> vs[i] == BulkString(parts[i])
  {
    seq(|parts|, i requires 0 <= i < |parts| => BulkString(parts[i]))
  }

  /** A command is an array of bulk strings. */
  function Command(parts: seq<string>): string {
    Print(Array(Bulks(parts)))
  }

  /** Lengths that 64 bits can count, as every `std::string` and `std::vector` has. */
  predicate Countable(parts: seq<string>) {
    |parts| <= LLONG_MAX && forall i :: 0 <= i < |parts| ==> |parts[i]| <= LLONG_MAX
  }

  lemma {:induction false} BulksCarried(parts: seq<string>)
    requires forall i :: 0 <= i < |parts| ==> |parts[i]| <= LLONG_MAX
    ensures AllCarried(Bulks(parts))
  {
    if parts != [] {
      BulksCarried(parts[1..]);
      assert Bulks(parts)[1..] == Bulks(parts[1..]);
    }
  }

  /** Reading back a command yields its parts, whatever bytes they hold and whatever follows. */
  lemma {:induction false} CommandRoundTrip(parts: seq<string>, rest: string)
    requires Countable(parts)
    ensures ReadValue(Command(parts) + rest) == Done(Array(Bulks(parts)), rest)
  {
    BulksCarried(parts);
    RoundTrip(Array(Bulks(parts)), rest);
  }

  /** Different commands never look the same on the wire, even with other bytes behind them. */
  lemma CommandsUnambiguous(p: seq<string>, q: seq<string>, more: string, other: string)
    requires Countable(p) && Countable(q) && Command(p) + more == Command(q) + other
    ensures p == q && more == other
  {
    CommandRoundTrip(p, more);
    CommandRoundTrip(q, other);
    assert Bulks(p) == Bulks(q);
    forall i | 0 <= i < |p| ensures p[i] == q[i] {
      assert Bulks(p)[i] == Bulks(q)[i];
    }
  }
}
