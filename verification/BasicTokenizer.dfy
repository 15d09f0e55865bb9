/** The split of a text into words and single characters that comes before the vocabulary. */
module BasicTokenizer {
  import opened Text

  predicate IsWordChar(c: char) {
    IsDigit(c) || 'a' <= c <= 'z' || 'A' <= c <= 'Z' || c == '_'
  }

  function LowerChar(c: char): char {
    if 'A' <= c <= 'Z' then c - 'A' + 'a' else c
  }

  function Fold(c: char, lowercase: bool): char {
    if lowercase then LowerChar(c) else c
  }

  function Folded(s: string, lowercase: bool): string {
    seq(|s|, i requires 0 <= i < |s| => Fold(s[i], lowercase))
  }

  function Flush(tokens: seq<string>, current: string): seq<string> {
    if current == "" then tokens else tokens + [current]
  }

  function Single(c: char): seq<string> {
    if IsSpace(c) then [] else [[c]]
  }

  /** The finished tokens and the one being read after a piece of text. */
  function Scan(text: string, lowercase: bool): (seq<string>, string) {
    if text == "" then ([], "")
    else
      var (tokens, current) := Scan(text[..|text| - 1], lowercase);
      var c := text[|text| - 1];
      if IsWordChar(c) then (tokens, current + [Fold(c, lowercase)])
      else (Flush(tokens, current) + Single(c), "")
  }

  function BasicTokens(text: string, lowercase: bool): seq<string> {
    var (tokens, current) := Scan(text, lowercase);
    Flush(tokens, current)
  }

  method BasicTokenize(text: string, lowercase: bool) returns (tokens: seq<string>)
    ensures tokens == BasicTokens(text, lowercase)
  {
    tokens := [];
    var current := "";
    for i := 0 to |text|
      invariant (tokens, current) == Scan(text[..i], lowercase)
    {
      assert text[..i + 1][..i] == text[..i];
      var c := text[i];
      if IsWordChar(c) {
        current := current + [if lowercase then LowerChar(c) else c];
      } else {
        tokens := if current != "" then tokens + [current] else tokens;
        current := "";
        if !IsSpace(c) {
          tokens := tokens + [[c]];
        } else {
          assert tokens + Single(c) == tokens;
        }
      }
    }
    assert text[..|text|] == text;
    tokens := if current != "" then tokens + [current] else tokens;
  }

  ghost predicate AllWordChars(s: string) {
    forall i :: 0 <= i < |s| ==> IsWordChar(s[i])
  }

  lemma {:induction false} ScanWord(word: string, lowercase: bool)
    requires AllWordChars(word)
    ensures Scan(word, lowercase) == ([], Folded(word, lowercase))
  {
    if word != "" {
      ScanWord(word[..|word| - 1], lowercase);
      assert Folded(word, lowercase) == Folded(word[..|word| - 1], lowercase) + [Fold(word[|word| - 1], lowercase)];
    }
  }

  /** The characters of words, one by one. */
  lemma WordCharsAre(c: char)
    ensures IsWordChar(c) <==>
      c == '_' || c in DIGITS || c in "abcdefghijklmnopqrstuvwxyz" || c in "ABCDEFGHIJKLMNOPQRSTUVWXYZ"
  {
    if IsDigit(c) {
      assert DIGITS[(c - '0') as int] == c;
    }
    SmallLetter(c);
    CapitalLetter(c);
  }

  const DIGITS := "0123456789"

  lemma SmallLetter(c: char)
    ensures 'a' <= c <= 'z' <==> c in "abcdefghijklmnopqrstuvwxyz"
  {
    var all := "abcdefghijklmnopqrstuvwxyz";
    if 'a' <= c <= 'm' {
      assert all[..13][(c - 'a') as int] == c;
    } else if 'n' <= c <= 'z' {
      assert all[13..][(c - 'n') as int] == c;
    }
  }

  lemma CapitalLetter(c: char)
    ensures 'A' <= c <= 'Z' <==> c in "ABCDEFGHIJKLMNOPQRSTUVWXYZ"
  {
    var all := "ABCDEFGHIJKLMNOPQRSTUVWXYZ";
    if 'A' <= c <= 'M' {
      assert all[..13][(c - 'A') as int] == c;
    } else if 'N' <= c <= 'Z' {
      assert all[13..][(c - 'N') as int] == c;
    }
  }

  /** Two characters that differ at most in being a capital or a small letter. */
  predicate SameLetter(c: char, d: char) {
    c == d || ('A' <= c <= 'Z' && d as int == c as int + 32) || ('A' <= d <= 'Z' && c as int == d as int + 32)
  }

  /** Folding makes exactly the texts equal that differ only in capitals, and leaves no capital. */
  lemma FoldedIffSame(s: string, t: string)
    ensures Folded(s, true) == Folded(t, true) <==>
      |s| == |t| && forall i :: 0 <= i < |s| ==> SameLetter(s[i], t[i])
    ensures forall i :: 0 <= i < |s| ==> !('A' <= Folded(s, true)[i] <= 'Z') && SameLetter(s[i], Folded(s, true)[i])
    ensures Folded(s, false) == s
  {
    if |s| == |t| {
      forall i | 0 <= i < |s|
        ensures Folded(s, true)[i] == Folded(t, true)[i] <==> SameLetter(s[i], t[i])
      {
      }
    }
  }

  /** A run of word characters is one token. */
  lemma WordIsOneToken(word: string, lowercase: bool)
    requires AllWordChars(word) && word != ""
    ensures BasicTokens(word, lowercase) == [Folded(word, lowercase)]
  {
    ScanWord(word, lowercase);
  }

  lemma FlushAfter(before: seq<string>, tokens: seq<string>, current: string, after: seq<string>)
    ensures Flush(before + tokens, current) + after == before + (Flush(tokens, current) + after)
  {
  }

  lemma {:induction false} ScanAfterSeparator(left: string, c: char, right: string, lowercase: bool)
    requires !IsWordChar(c)
    ensures var (tokens, current) := Scan(right, lowercase);
      Scan(left + [c] + right, lowercase) == (BasicTokens(left, lowercase) + Single(c) + tokens, current)
  {
    var text := left + [c] + right;
    if right == "" {
      assert text == left + [c];
      assert BasicTokens(left, lowercase) + Single(c) + [] == BasicTokens(left, lowercase) + Single(c);
      assert text[..|text| - 1] == left;
    } else {
      var front := right[..|right| - 1];
      assert text[..|text| - 1] == left + [c] + front;
      ScanAfterSeparator(left, c, front, lowercase);
      var (tokens, current) := Scan(front, lowercase);
      FlushAfter(BasicTokens(left, lowercase) + Single(c), tokens, current, Single(right[|right| - 1]));
    }
  }

  /** A character that is not part of a word separates: both sides are tokenized on their own, and between
      them it is a token of its own unless it is white space. Together with `WordIsOneToken` and the empty
      text this determines the tokens of every text. */
  lemma SeparatorSeparates(left: string, c: char, right: string, lowercase: bool)
    requires !IsWordChar(c)
    ensures BasicTokens(left + [c] + right, lowercase)
      == BasicTokens(left, lowercase) + Single(c) + BasicTokens(right, lowercase)
  {
    ScanAfterSeparator(left, c, right, lowercase);
    var (tokens, current) := Scan(right, lowercase);
    FlushAfter(BasicTokens(left, lowercase) + Single(c), tokens, current, []);
  }
}
