/** Character classes of the "C" locale, and decimal numbers as `operator<<` prints them and
    `std::stoull` and `std::stoll` read them. */
module Text {
  import opened Options

  const ULLONG_MAX: int := 0xFFFF_FFFF_FFFF_FFFF
  const LLONG_MAX: int := 0x7FFF_FFFF_FFFF_FFFF

  predicate IsSpace(c: char) {
    c == ' ' || c == '\t' || c == '\n' || c == '\U{0B}' || c == '\U{0C}' || c == '\r'
  }

  predicate IsDigit(c: char) {
    '0' <= c <= '9'
  }

  ghost predicate AllDigits(s: string) {
    forall i :: 0 <= i < |s| ==> IsDigit(s[i])
  }

  /** What `operator<<` writes for an unsigned number. */
  function Decimal(n: nat): (s: string)
    ensures s != [] && AllDigits(s)
  {
    if n < 10 then ['0' + n as char]
    else Decimal(n / 10) + ['0' + (n % 10) as char]
  }

  /** What `operator<<` writes for a signed number. */
  function SignedDecimal(n: int): string {
    if n < 0 then "-" + Decimal(-n) else Decimal(n)
  }

  function DigitsValue(s: string): nat
    requires AllDigits(s)
  {
    if s == [] then 0 else 10 * DigitsValue(s[..|s| - 1]) + (s[|s| - 1] - '0') as nat
  }

  function SkipSpace(s: string): string {
    if s != [] && IsSpace(s[0]) then SkipSpace(s[1..]) else s
  }

  function LeadingDigits(s: string): (d: string)
    ensures AllDigits(d) && |d| <= |s|
  {
    if s != [] && IsDigit(s[0]) then [s[0]] + LeadingDigits(s[1..]) else []
  }

  /** The optional sign and the digits after it; the text behind the digits is ignored. */
  function Magnitude(s: string): (r: Option<(bool, int)>)
    ensures r.Some? ==> r.value.1 >= 0
  {
    var t := SkipSpace(s);
    var negative := t != [] && t[0] == '-';
    var digits := LeadingDigits(if t != [] && (t[0] == '-' || t[0] == '+') then t[1..] else t);
    if digits == [] then None else Some((negative, DigitsValue(digits)))
  }

  /** `std::stoull`: None stands for either exception. A minus sign wraps around. */
  function Stoull(s: string): (r: Option<nat>)
    ensures r.Some? ==> r.value <= ULLONG_MAX
  {
    match Magnitude(s)
    case None => None
    case Some((negative, m)) =>
      if m > ULLONG_MAX then None
      else if negative && m > 0 then Some(ULLONG_MAX + 1 - m)
      else Some(m)
  }

  /** `std::stoll`: None stands for either exception. */
  function Stoll(s: string): (r: Option<int>)
    ensures r.Some? ==> -LLONG_MAX - 1 <= r.value <= LLONG_MAX
  {
    match Magnitude(s)
    case None => None
    case Some((negative, m)) =>
      if negative then (if m > LLONG_MAX + 1 then None else Some(-m))
      else if m > LLONG_MAX then None
      else Some(m)
  }

  lemma {:induction false} DecimalValue(n: nat)
    ensures DigitsValue(Decimal(n)) == n
  {
    if n >= 10 {
      DecimalValue(n / 10);
      assert Decimal(n)[..|Decimal(n)| - 1] == Decimal(n / 10);
    }
  }

  lemma {:induction false} LeadingDigitsOfDigits(s: string)
    requires AllDigits(s)
    ensures LeadingDigits(s) == s
  {
    if s != [] {
      LeadingDigitsOfDigits(s[1..]);
    }
  }

  lemma {:induction false} MagnitudeOfDecimal(n: nat)
    ensures Magnitude(Decimal(n)) == Some((false, n))
    ensures Magnitude("-" + Decimal(n)) == Some((true, n))
  {
    DecimalValue(n);
    LeadingDigitsOfDigits(Decimal(n));
    assert IsDigit(Decimal(n)[0]);
    assert ("-" + Decimal(n))[1..] == Decimal(n);
  }

  /** Printing and reading an unsigned number gives it back exactly when it fits 64 bits. */
  lemma {:induction false} StoullReadsDecimal(n: nat)
    ensures Stoull(Decimal(n)) == if n <= ULLONG_MAX then Some(n) else None
  {
    MagnitudeOfDecimal(n);
  }

  /** Printing and reading a signed number gives it back exactly when it fits 64 bits. */
  lemma StollReadsDecimal(n: int)
    ensures Stoll(SignedDecimal(n)) == if -LLONG_MAX - 1 <= n <= LLONG_MAX then Some(n) else None
  {
    MagnitudeOfDecimal(if n < 0 then -n else n);
  }

  /** Printing gives the shortest digits: every digit text without a needless leading zero is what its value prints
      as. */
  lemma {:induction false} DecimalOfValue(s: string)
    requires AllDigits(s) && s != [] && (|s| > 1 ==> s[0] != '0')
    ensures Decimal(DigitsValue(s)) == s
    ensures |s| > 1 ==> DigitsValue(s) >= 10
  {
    var front, last := s[..|s| - 1], s[|s| - 1];
    if |s| > 1 {
      DecimalOfValue(front);
      LeadingIsPositive(front);
      assert DigitsValue(s) / 10 == DigitsValue(front) && DigitsValue(s) % 10 == (last - '0') as int;
      assert '0' + (last - '0') == last;
    } else {
      assert front == [] && s == [last];
    }
  }

  lemma {:induction false} LeadingIsPositive(s: string)
    requires AllDigits(s) && s != [] && s[0] != '0'
    ensures DigitsValue(s) >= 1
  {
    if |s| > 1 {
      LeadingIsPositive(s[..|s| - 1]);
    }
  }

  lemma {:induction false} DecimalIsShortest(n: nat)
    ensures |Decimal(n)| > 1 ==> Decimal(n)[0] != '0'
    ensures Decimal(n)[0] == '0' <==> n == 0
  {
    if n >= 10 {
      DecimalIsShortest(n / 10);
      assert Decimal(n)[0] == Decimal(n / 10)[0];
    }
  }

  // ---------------------------------------------------------------- any text

  /** White space, an optional sign, at least one digit, and anything that does not go on with a digit. */
  ghost predicate IsNumberText(s: string, space: string, sign: string, digits: string, junk: string) {
    && s == space + (sign + (digits + junk))
    && (forall i :: 0 <= i < |space| ==> IsSpace(space[i]))
    && (sign == "" || sign == "+" || sign == "-")
    && digits != [] && AllDigits(digits)
    && (junk == [] || !IsDigit(junk[0]))
  }

  function SignedValue(sign: string, digits: string): int
    requires AllDigits(digits)
  {
    if sign == "-" then 0 - DigitsValue(digits) else DigitsValue(digits)
  }

  lemma {:induction false} SkipsSpace(space: string, rest: string)
    requires (forall i :: 0 <= i < |space| ==> IsSpace(space[i])) && (rest == [] || !IsSpace(rest[0]))
    ensures SkipSpace(space + rest) == rest
  {
    if space == [] {
      assert space + rest == rest;
    } else {
      assert (space + rest)[1..] == space[1..] + rest;
      SkipsSpace(space[1..], rest);
    }
  }

  lemma {:induction false} TakesDigits(digits: string, junk: string)
    requires AllDigits(digits) && (junk == [] || !IsDigit(junk[0]))
    ensures LeadingDigits(digits + junk) == digits
  {
    if digits == [] {
      assert digits + junk == junk;
    } else {
      assert (digits + junk)[1..] == digits[1..] + junk;
      TakesDigits(digits[1..], junk);
    }
  }

  lemma {:induction false} MagnitudeReads(s: string, space: string, sign: string, digits: string, junk: string)
    requires IsNumberText(s, space, sign, digits, junk)
    ensures Magnitude(s) == Some((sign == "-", DigitsValue(digits)))
  {
    var t := sign + (digits + junk);
    assert t[0] == if sign == "" then digits[0] else sign[0];
    SkipsSpace(space, t);
    TakesDigits(digits, junk);
    assert sign == "" ==> t == digits + junk;
    assert sign != "" ==> t[1..] == digits + junk;
  }

  lemma {:induction false} SpaceSkipped(s: string) returns (space: string)
    ensures (forall i :: 0 <= i < |space| ==> IsSpace(space[i])) && s == space + SkipSpace(s)
  {
    space := [];
    if s != [] && IsSpace(s[0]) {
      var more := SpaceSkipped(s[1..]);
      space := [s[0]] + more;
      assert s == [s[0]] + s[1..];
    }
  }

  lemma {:induction false} DigitsTaken(s: string) returns (junk: string)
    ensures s == LeadingDigits(s) + junk && (junk == [] || !IsDigit(junk[0]))
  {
    junk := s;
    if s != [] && IsDigit(s[0]) {
      junk := DigitsTaken(s[1..]);
      assert s == [s[0]] + s[1..];
    }
  }

  lemma SignTaken(t: string) returns (sign: string, u: string)
    ensures t == sign + u && (sign == "" || sign == "+" || sign == "-")
    ensures u == if t != [] && (t[0] == '-' || t[0] == '+') then t[1..] else t
  {
    sign := if t != [] && (t[0] == '-' || t[0] == '+') then [t[0]] else "";
    u := t[|sign|..];
    assert sign == "" ==> u == t;
  }

  lemma NumberTextParts(s: string, t: string, u: string, space: string, sign: string, digits: string, junk: string)
    requires s == space + t && t == sign + u && u == digits + junk
    ensures s == space + (sign + (digits + junk))
  {
  }

  /** Only such texts have a number in front. */
  lemma {:induction false} HasMagnitude(s: string) returns (space: string, sign: string, digits: string, junk: string)
    requires Magnitude(s).Some?
    ensures IsNumberText(s, space, sign, digits, junk)
  {
    var t, u := SkipSpace(s), "";
    space := SpaceSkipped(s);
    sign, u := SignTaken(t);
    digits := LeadingDigits(u);
    junk := DigitsTaken(u);
    NumberTextParts(s, t, u, space, sign, digits, junk);
  }

  /** What `std::stoull` reads: the digits in front, if they fit 64 bits, and a minus sign takes the value modulo
      2^64; and no other text is a number. */
  lemma {:induction false} StoullExactly(s: string, n: nat)
    ensures Stoull(s) == Some(n) <==> exists space, sign, digits, junk ::
      && IsNumberText(s, space, sign, digits, junk) && DigitsValue(digits) < 0x1_0000_0000_0000_0000
      && n == SignedValue(sign, digits) % 0x1_0000_0000_0000_0000
  {
    if Stoull(s) == Some(n) {
      var space, sign, digits, junk := HasMagnitude(s);
      MagnitudeReads(s, space, sign, digits, junk);
    }
    forall space, sign, digits, junk | IsNumberText(s, space, sign, digits, junk)
      ensures Magnitude(s) == Some((sign == "-", DigitsValue(digits)))
    {
      MagnitudeReads(s, space, sign, digits, junk);
    }
  }

  /** What `std::stoll` reads: the digits in front with their sign, if they fit 64 bits. */
  lemma {:induction false} StollExactly(s: string, n: int)
    ensures Stoll(s) == Some(n) <==> exists space, sign, digits, junk ::
      && IsNumberText(s, space, sign, digits, junk)
      && n == SignedValue(sign, digits)
      && -0x8000_0000_0000_0000 <= n < 0x8000_0000_0000_0000
  {
    if Stoll(s) == Some(n) {
      var space, sign, digits, junk := HasMagnitude(s);
      MagnitudeReads(s, space, sign, digits, junk);
    }
    forall space, sign, digits, junk | IsNumberText(s, space, sign, digits, junk)
      ensures Magnitude(s) == Some((sign == "-", DigitsValue(digits)))
    {
      MagnitudeReads(s, space, sign, digits, junk);
    }
  }
}
