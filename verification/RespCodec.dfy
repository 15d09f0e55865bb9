/** The command printer and the receive functions as the program runs them: loops over a stream that
    hands out as many bytes at a time as it pleases. */
module RespCodec {
  import opened Options
  import opened Text
  import opened RespSpec

  const BUFFER_SIZE: nat := 4096

  /** A connection: the bytes its peer has still to deliver before closing. */
  class Stream {
    var left: string

    constructor (incoming: string)
      ensures left == incoming
    {
      left := incoming;
    }

    /** One `recv` call: some bytes, at most `limit`, and none only when the peer has closed. */
    method Recv(limit: nat) returns (bytes: string)
      requires limit > 0
      modifies this
      ensures |bytes| <= limit && old(left) == bytes + left
      ensures bytes == [] <==> old(left) == []
    {
      if left == [] {
        return [];
      }
      var n :| 1 <= n <= limit && n <= |left|;
      bytes := left[..n];
      left := left[n..];
    }

    method RecvExact(count: nat) returns (ok: bool, out: string)
      modifies this
      ensures |left| <= |old(left)|
      ensures ok <==> Exactly(old(left), count).Done?
      ensures ok ==> Exactly(old(left), count) == Done(out, left)
    {
      out := [];
      while |out| < count
        invariant |out| <= count && old(left) == out + left
        decreases count - |out|
      {
        var remaining := count - |out|;
        var bytes := Recv(if BUFFER_SIZE < remaining then BUFFER_SIZE else remaining);
        if bytes == [] {
          return false, out;
        }
        assert out + (bytes + left) == (out + bytes) + left;
        out := out + bytes;
      }
      ok := true;
      assert old(left)[..count] == out && old(left)[count..] == left;
    }

    method RecvLine() returns (ok: bool, line: string)
      modifies this
      ensures |left| <= |old(left)|
      ensures ok <==> Line(old(left)).Done?
      ensures ok ==> Line(old(left)) == Done(line, left)
    {
      line := [];
      var prev := '\0';
      while true
        invariant old(left) == line + left
        invariant prev == if line == [] then '\0' else line[|line| - 1]
        invariant Unfinished(line)
        decreases |left|
      {
        var bytes := Recv(1);
        if bytes == [] {
          UnfinishedFails(line);
          assert old(left) == line;
          return false, line;
        }
        var ch := bytes[0];
        if prev == '\r' && ch == '\n' {
          assert old(left) == line + "\n" + left;
          LineEnds(line, left);
          return true, line[..|line| - 1];
        }
        line := line + [ch];
        prev := ch;
      }
    }

    method ReadValue() returns (r: Option<RespValue>)
      modifies this
      decreases |left|, 0
      ensures |left| <= |old(left)|
      ensures r.Some? <==> RespSpec.ReadValue(old(left)).Done?
      ensures r.Some? ==> RespSpec.ReadValue(old(left)) == Done(r.value, left)
    {
      var prefix := Recv(1);
      if prefix == [] {
        return None;
      }
      assert old(left)[1..] == left;
      if prefix[0] == '+' {
        var ok, line := RecvLine();
        return if ok then Some(SimpleString(line)) else None;
      } else if prefix[0] == '-' {
        var ok, line := RecvLine();
        return if ok then Some(Error(line)) else None;
      } else if prefix[0] == ':' {
        var n := RecvNumber();
        return if n.Some? then Some(Integer(n.value)) else None;
      } else if prefix[0] == '$' {
        var length := RecvNumber();
        if length.None? {
          return None;
        }
        if length.value < 0 {
          return Some(Nil);
        }
        var body := RecvBody(length.value);
        return if body.Some? then Some(BulkString(body.value)) else None;
      } else if prefix[0] == '*' {
        var count := RecvNumber();
        if count.None? {
          return None;
        }
        if count.value < 0 {
          return Some(Nil);
        }
        var elements := ReadElements(count.value);
        return if elements.Some? then Some(Array(elements.value)) else None;
      }
      return None;
    }

    method RecvNumber() returns (n: Option<int>)
      modifies this
      ensures |left| <= |old(left)|
      ensures n.Some? <==> Number(old(left)).Done?
      ensures n.Some? ==> Number(old(left)) == Done(n.value, left)
    {
      var ok, line := RecvLine();
      if !ok {
        return None;
      }
      return Stoll(line);
    }

    method RecvBody(length: nat) returns (body: Option<string>)
      modifies this
      ensures |left| <= |old(left)|
      ensures body.Some? <==> Body(old(left), length).Done?
      ensures body.Some? ==> Body(old(left), length) == Done(body.value, left)
    {
      var ok, text := RecvExact(length);
      if !ok {
        return None;
      }
      var okEnd, crlf := RecvExact(2);
      if !okEnd || crlf != CRLF {
        return None;
      }
      return Some(text);
    }

    /** The loop that reads an array's elements. */
    method ReadElements(count: nat) returns (r: Option<seq<RespValue>>)
      modifies this
      decreases |left|, 1
      ensures |left| <= |old(left)|
      ensures r.Some? <==> ReadValues(old(left), count).Done?
      ensures r.Some? ==> ReadValues(old(left), count) == Done(r.value, left)
    {
      var elements: seq<RespValue> := [];
      ghost var start := left;
      var i := 0;
      NoneRead(start, count);
      while i < count
        invariant i <= count && |left| <= |start| - i
        invariant HaveRead(start, count, elements, left, count - i)
      {
        ghost var before := left;
        var child := ReadValue();
        OneRead(start, count, elements, before, count - i);
        if child.None? {
          return None;
        }
        elements := elements + [child.value];
        i := i + 1;
      }
      AllRead(start, count, elements, left);
      return Some(elements);
    }
  }

  /** The result of reading more elements behind those already read. */
  ghost function After(elements: seq<RespValue>, more: Parsed<seq<RespValue>>): Parsed<seq<RespValue>> {
    if more.Done? then Done(elements + more.value, more.rest) else Fail
  }

  lemma {:induction false} AfterOne(elements: seq<RespValue>, s: string, count: nat)
    requires count > 0 && RespSpec.ReadValue(s).Done?
    ensures var first := RespSpec.ReadValue(s);
      After(elements, ReadValues(s, count)) == After(elements + [first.value], ReadValues(first.rest, count - 1))
  {
    var first := RespSpec.ReadValue(s);
    var more := ReadValues(first.rest, count - 1);
    if more.Done? {
      assert elements + ([first.value] + more.value) == elements + [first.value] + more.value;
    }
  }

  /** `elements` have been read, `rest` is left, and `more` elements are to come. */
  ghost predicate HaveRead(start: string, count: nat, elements: seq<RespValue>, rest: string, more: nat) {
    ReadValues(start, count) == After(elements, ReadValues(rest, more))
  }

  lemma NoneRead(start: string, count: nat)
    ensures HaveRead(start, count, [], start, count)
  {
    var all := ReadValues(start, count);
    if all.Done? {
      assert [] + all.value == all.value;
    }
  }

  lemma {:induction false} OneRead(start: string, count: nat, elements: seq<RespValue>, rest: string, more: nat)
    requires more > 0 && HaveRead(start, count, elements, rest, more)
    ensures var first := RespSpec.ReadValue(rest);
      if first.Done? then HaveRead(start, count, elements + [first.value], first.rest, more - 1)
      else ReadValues(start, count).Fail?
  {
    if RespSpec.ReadValue(rest).Done? {
      AfterOne(elements, rest, more);
    }
  }

  lemma {:induction false} AllRead(start: string, count: nat, elements: seq<RespValue>, rest: string)
    requires HaveRead(start, count, elements, rest, 0)
    ensures ReadValues(start, count) == Done(elements, rest)
  {
    assert elements + [] == elements;
  }

  // ---------------------------------------------------------------- lines in progress

  /** Text in which no CRLF has been seen yet. */
  ghost predicate Unfinished(s: string) {
    forall i :: 0 <= i < |s| - 1 ==> !(s[i] == '\r' && s[i + 1] == '\n')
  }

  lemma {:induction false} UnfinishedFails(s: string)
    requires Unfinished(s)
    ensures Line(s).Fail? && OneLine(s)
  {
    if s != [] {
      forall i | 0 <= i < |s[1..]| - 1 ensures !(s[1..][i] == '\r' && s[1..][i + 1] == '\n') {
        assert s[1..][i] == s[i + 1] && s[1..][i + 1] == s[i + 2];
      }
      UnfinishedFails(s[1..]);
    }
  }

  lemma {:induction false} LineEnds(line: string, rest: string)
    requires Unfinished(line) && line != [] && line[|line| - 1] == '\r'
    ensures Line(line + "\n" + rest) == Done(line[..|line| - 1], rest)
  {
    var before := line[..|line| - 1];
    UnfinishedFails(before);
    LineRoundTrip(before, rest);
    assert line + "\n" + rest == before + CRLF + rest;
  }

  // ---------------------------------------------------------------- writing

  lemma {:induction false} BulkWritten(out: string, parts: seq<string>, i: nat)
    requires i < |parts|
    ensures out + PrintAll(Bulks(parts)[i..]) ==
      out + "$" + Decimal(|parts[i]|) + CRLF + parts[i] + CRLF + PrintAll(Bulks(parts)[i + 1..])
  {
    assert Bulks(parts)[i..][1..] == Bulks(parts)[i + 1..];
  }

  method BuildRespCommand(parts: seq<string>) returns (out: string)
    ensures out == Command(parts)
  {
    out := "*" + Decimal(|parts|) + CRLF;
    for i := 0 to |parts|
      invariant out + PrintAll(Bulks(parts)[i..]) == Command(parts)
    {
      BulkWritten(out, parts, i);
      out := out + "$" + Decimal(|parts[i]|) + CRLF + parts[i] + CRLF;
    }
  }

  /** Sending a command and reading it at the other end yields its parts, consuming exactly its bytes,
      however the bytes are cut up on the way. */
  method SendAndRead(parts: seq<string>, more: string) returns (received: Option<RespValue>, peer: Stream)
    requires Countable(parts)
    ensures received == Some(Array(Bulks(parts)))
    ensures fresh(peer) && peer.left == more
  {
    var bytes := BuildRespCommand(parts);
    peer := new Stream(bytes + more);
    CommandRoundTrip(parts, more);
    received := peer.ReadValue();
  }
}
