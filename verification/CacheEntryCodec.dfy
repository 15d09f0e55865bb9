/** The text form in which a cache entry is stored in Redis: a marker line, two number lines and
    the answer, whose length is the second number. */
module CacheEntryCodec {
  import opened Options
  import opened Text
  import opened LruSpec

  const MAGIC := "qornix_llm_cache_entry_v1\n"
  const ONE_HOUR: int := 3600

  function Serialize(entry: CacheEntry): string {
    MAGIC + Decimal(entry.tokensUsed) + "\n" + Decimal(|entry.answer|) + "\n" + entry.answer
  }

  /** `std::string::find` of a newline from a position. */
  function FindNewline(s: string, from: nat): (r: Option<nat>)
    requires from <= |s|
    decreases |s| - from
    ensures r.Some? ==> from <= r.value < |s| && s[r.value] == '\n' && forall i :: from <= i < r.value ==> s[i] != '\n'
    ensures r.None? ==> forall i :: from <= i < |s| ==> s[i] != '\n'
  {
    if from == |s| then None
    else if s[from] == '\n' then Some(from)
    else FindNewline(s, from + 1)
  }

  /** `ttl` is the caller's time to live in seconds and `now` the clock. */
  function Deserialize(raw: string, ttl: int, now: int): Option<CacheEntry> {
    if !(MAGIC <= raw) then None
    else
      match FindNewline(raw, |MAGIC|)
      case None => None
      case Some(tokensEnd) =>
        match FindNewline(raw, tokensEnd + 1)
        case None => None
        case Some(sizeEnd) =>
          var tokens := Stoull(raw[|MAGIC|..tokensEnd]);
          var size := Stoull(raw[tokensEnd + 1..sizeEnd]);
          var answer := raw[sizeEnd + 1..];
          if tokens.None? || size.None? || |answer| != size.value then None
          else Some(CacheEntry(answer, tokens.value, now, if ttl > 0 then ttl else ONE_HOUR))
  }

  /** `raw` is the marker, two lines and an answer. */
  ghost predicate Framed(raw: string, tokensText: string, sizeText: string, answer: string) {
    && '\n' !in tokensText
    && '\n' !in sizeText
    && raw == MAGIC + tokensText + "\n" + sizeText + "\n" + answer
  }

  lemma FirstNewline(s: string, from: nat, line: string, rest: string)
    requires from <= |s| && '\n' !in line && s[from..] == line + "\n" + rest
    ensures FindNewline(s, from) == Some(from + |line|)
    ensures s[from..from + |line|] == line && s[from + |line| + 1..] == rest
  {
    var n := from + |line|;
    forall i | from <= i < |s| ensures s[i] == (line + "\n" + rest)[i - from] {
      assert s[i] == s[from..][i - from];
    }
    assert s[n] == '\n';
    forall i | from <= i < n ensures s[i] != '\n' {
      assert s[i] == line[i - from];
    }
  }

  lemma DeserializeFramed(raw: string, tokensText: string, sizeText: string, answer: string, ttl: int, now: int)
    requires Framed(raw, tokensText, sizeText, answer)
    ensures var tokens, size := Stoull(tokensText), Stoull(sizeText);
      Deserialize(raw, ttl, now) ==
        if tokens.Some? && size == Some(|answer|)
        then Some(CacheEntry(answer, tokens.value, now, if ttl > 0 then ttl else ONE_HOUR)) else None
  {
    assert raw[..|MAGIC|] == MAGIC;
    assert raw[|MAGIC|..] == tokensText + "\n" + (sizeText + "\n" + answer);
    FirstNewline(raw, |MAGIC|, tokensText, sizeText + "\n" + answer);
    FirstNewline(raw, |MAGIC| + |tokensText| + 1, sizeText, answer);
  }

  lemma SplitAtNewlines(raw: string, start: nat, tokensEnd: nat, sizeEnd: nat)
    requires start <= tokensEnd < sizeEnd < |raw| && raw[tokensEnd] == '\n' && raw[sizeEnd] == '\n'
    requires forall i :: start <= i < sizeEnd && i != tokensEnd ==> raw[i] != '\n'
    ensures '\n' !in raw[start..tokensEnd] && '\n' !in raw[tokensEnd + 1..sizeEnd]
    ensures raw == raw[..start] + raw[start..tokensEnd] + "\n" + raw[tokensEnd + 1..sizeEnd] + "\n" + raw[sizeEnd + 1..]
  {
  }

  lemma NewlinesFrame(raw: string, tokensEnd: nat, sizeEnd: nat)
    requires MAGIC <= raw && FindNewline(raw, |MAGIC|) == Some(tokensEnd)
    requires FindNewline(raw, tokensEnd + 1) == Some(sizeEnd)
    ensures Framed(raw, raw[|MAGIC|..tokensEnd], raw[tokensEnd + 1..sizeEnd], raw[sizeEnd + 1..])
  {
    assert raw[..|MAGIC|] == MAGIC;
    SplitAtNewlines(raw, |MAGIC|, tokensEnd, sizeEnd);
  }

  lemma AcceptedIsFramed(raw: string, ttl: int, now: int) returns (tokensText: string, sizeText: string)
    requires Deserialize(raw, ttl, now).Some?
    ensures var entry := Deserialize(raw, ttl, now).value;
      && Framed(raw, tokensText, sizeText, entry.answer)
      && Stoull(tokensText) == Some(entry.tokensUsed)
      && Stoull(sizeText) == Some(|entry.answer|)
      && entry.createdAt == now && entry.ttl == (if ttl > 0 then ttl else ONE_HOUR)
  {
    var start := |MAGIC|;
    var tokensEnd := FindNewline(raw, start).value;
    var sizeEnd := FindNewline(raw, tokensEnd + 1).value;
    tokensText, sizeText := raw[start..tokensEnd], raw[tokensEnd + 1..sizeEnd];
    NewlinesFrame(raw, tokensEnd, sizeEnd);
  }

  /** Exactly which texts are accepted, and what each means: the marker, two lines that `stoull` can
      read, and an answer as long as the second number says. */
  lemma DeserializeExactly(raw: string, ttl: int, now: int, entry: CacheEntry)
    ensures Deserialize(raw, ttl, now) == Some(entry) <==>
      && entry.createdAt == now && entry.ttl == (if ttl > 0 then ttl else ONE_HOUR)
      && exists tokensText, sizeText ::
           && Framed(raw, tokensText, sizeText, entry.answer)
           && Stoull(tokensText) == Some(entry.tokensUsed)
           && Stoull(sizeText) == Some(|entry.answer|)
  {
    if Deserialize(raw, ttl, now) == Some(entry) {
      var tokensText, sizeText := AcceptedIsFramed(raw, ttl, now);
    }
    if exists tokensText, sizeText ::
      && Framed(raw, tokensText, sizeText, entry.answer)
      && Stoull(tokensText) == Some(entry.tokensUsed)
      && Stoull(sizeText) == Some(|entry.answer|)
    {
      var tokensText, sizeText :|
        && Framed(raw, tokensText, sizeText, entry.answer)
        && Stoull(tokensText) == Some(entry.tokensUsed)
        && Stoull(sizeText) == Some(|entry.answer|);
      DeserializeFramed(raw, tokensText, sizeText, entry.answer, ttl, now);
    }
  }

  lemma SerializedIsFramed(entry: CacheEntry)
    ensures Framed(Serialize(entry), Decimal(entry.tokensUsed), Decimal(|entry.answer|), entry.answer)
  {
  }

  /** An entry whose numbers fit `size_t` comes back with the same answer and token count. */
  lemma RoundTrip(entry: CacheEntry, ttl: int, now: int)
    requires entry.tokensUsed <= ULLONG_MAX && |entry.answer| <= ULLONG_MAX
    ensures Deserialize(Serialize(entry), ttl, now) ==
      Some(CacheEntry(entry.answer, entry.tokensUsed, now, if ttl > 0 then ttl else ONE_HOUR))
  {
    SerializedIsFramed(entry);
    StoullReadsDecimal(entry.tokensUsed);
    StoullReadsDecimal(|entry.answer|);
    DeserializeFramed(Serialize(entry), Decimal(entry.tokensUsed), Decimal(|entry.answer|), entry.answer, ttl, now);
  }

  /** Text with anything added behind it is rejected. */
  lemma ExtensionRejected(entry: CacheEntry, more: string, ttl: int, now: int)
    requires more != []
    ensures Deserialize(Serialize(entry) + more, ttl, now).None?
  {
    SerializedIsFramed(entry);
    StoullReadsDecimal(|entry.answer|);
    assert Framed(Serialize(entry) + more, Decimal(entry.tokensUsed), Decimal(|entry.answer|), entry.answer + more);
    DeserializeFramed(Serialize(entry) + more, Decimal(entry.tokensUsed), Decimal(|entry.answer|),
                      entry.answer + more, ttl, now);
  }

  lemma Refill(cut: string, more: string, tokensText: string, sizeText: string, answer: string)
    requires Framed(cut, tokensText, sizeText, answer)
    ensures Framed(cut + more, tokensText, sizeText, answer + more)
  {
  }

  lemma SameFrame(raw: string, t1: string, s1: string, a1: string, t2: string, s2: string, a2: string)
    requires Framed(raw, t1, s1, a1) && Framed(raw, t2, s2, a2)
    ensures t1 == t2 && s1 == s2 && a1 == a2
  {
    assert raw[|MAGIC|..] == t1 + "\n" + (s1 + "\n" + a1) == t2 + "\n" + (s2 + "\n" + a2);
    FirstNewline(raw, |MAGIC|, t1, s1 + "\n" + a1);
    FirstNewline(raw, |MAGIC|, t2, s2 + "\n" + a2);
    FirstNewline(raw, |MAGIC| + |t1| + 1, s1, a1);
    FirstNewline(raw, |MAGIC| + |t1| + 1, s2, a2);
  }

  /** If a cut entry is framed, its second line is that of the whole entry, though its answer is shorter. */
  lemma CutKeepsSize(entry: CacheEntry, n: nat, tokensText: string, sizeText: string, answer: string)
    requires n < |Serialize(entry)| && Framed(Serialize(entry)[..n], tokensText, sizeText, answer)
    ensures sizeText == Decimal(|entry.answer|) && |answer| < |entry.answer|
  {
    var whole, cut, more := Serialize(entry), Serialize(entry)[..n], Serialize(entry)[n..];
    SerializedIsFramed(entry);
    Refill(cut, more, tokensText, sizeText, answer);
    assert whole == cut + more;
    SameFrame(whole, tokensText, sizeText, answer + more,
              Decimal(entry.tokensUsed), Decimal(|entry.answer|), entry.answer);
  }

  /** The size line of an accepted cut names a length that is too short. */
  lemma CutAcceptedMeans(entry: CacheEntry, n: nat, ttl: int, now: int) returns (size: nat)
    requires n < |Serialize(entry)| && Deserialize(Serialize(entry)[..n], ttl, now).Some?
    ensures Stoull(Decimal(|entry.answer|)) == Some(size) && size < |entry.answer|
  {
    var answer := Deserialize(Serialize(entry)[..n], ttl, now).value.answer;
    var tokensText, sizeText := AcceptedIsFramed(Serialize(entry)[..n], ttl, now);
    CutKeepsSize(entry, n, tokensText, sizeText, answer);
    size := |answer|;
  }

  /** Text cut short anywhere is rejected. */
  lemma PrefixRejected(entry: CacheEntry, n: nat, ttl: int, now: int)
    requires n < |Serialize(entry)|
    ensures Deserialize(Serialize(entry)[..n], ttl, now).None?
  {
    StoullReadsDecimal(|entry.answer|);
    if Deserialize(Serialize(entry)[..n], ttl, now).Some? {
      var size := CutAcceptedMeans(entry, n, ttl, now);
      assert false;
    }
  }
}
