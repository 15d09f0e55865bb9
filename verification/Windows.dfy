/** The token budget and the overlapping windows a section is cut into. */
module Windows {
  import opened Numbers

  datatype Config = Config(maxTokens: nat, overlapTokens: nat, tokenizerMaxTokens: nat)

  const DEFAULT_MAX_TOKENS: nat := 220

  /** What the constructor makes of a configuration: the tokenizer's limit is applied last. */
  function Clamped(c: Config): (r: Config)
    ensures IsClamped(c, r)
  {
    var m := if c.maxTokens == 0 then DEFAULT_MAX_TOKENS else c.maxTokens;
    var overlap := if c.overlapTokens >= m then m / 5 else c.overlapTokens;
    Config(if c.tokenizerMaxTokens > 0 && m > c.tokenizerMaxTokens then c.tokenizerMaxTokens else m,
           overlap, c.tokenizerMaxTokens)
  }

  /** The maximum is the least of the configured one, 220 if that is zero, and the tokenizer's limit if there is one.
      The overlap is the configured one if it is below the configured maximum, and otherwise a fifth of that maximum,
      rounded down; either way it is below it. */
  predicate IsClamped(c: Config, r: Config) {
    && IsLimit(c.maxTokens, [c.tokenizerMaxTokens], r.maxTokens)
    && HasOverlap(c, r.overlapTokens)
    && r.tokenizerMaxTokens == c.tokenizerMaxTokens
  }

  /** `m` is the least of the configured maximum and the limits that are set; zero means not set. */
  predicate IsLimit(maxTokens: nat, limits: seq<nat>, m: nat) {
    && 1 <= m
    && (m == (if maxTokens == 0 then 220 else maxTokens) || m in limits)
    && m <= (if maxTokens == 0 then 220 else maxTokens)
    && forall l :: l in limits && l > 0 ==> m <= l
  }

  predicate HasOverlap(c: Config, overlap: nat) {
    && (c.maxTokens == 0 && c.overlapTokens < 220 ==> overlap == c.overlapTokens)
    && (c.maxTokens == 0 && c.overlapTokens >= 220 ==> overlap == 44)
    && (0 < c.maxTokens && c.overlapTokens < c.maxTokens ==> overlap == c.overlapTokens)
    && (0 < c.maxTokens <= c.overlapTokens ==> 5 * overlap <= c.maxTokens < 5 * overlap + 5)
  }

  /** Limits that are applied one after another are applied together. */
  lemma LimitsJoin(maxTokens: nat, limit: nat, others: seq<nat>, m: nat, r: nat)
    requires IsLimit(maxTokens, [limit], m) && IsLimit(m, [limit] + others, r)
    ensures IsLimit(maxTokens, [limit] + others, r)
  {
    assert limit in [limit] && limit in [limit] + others;
    forall l | l in [limit] + others && l > 0
      ensures r <= l
    {
    }
    assert forall l :: l in [limit] ==> l in [limit] + others;
  }

  /** The budget for a document whose metadata set two further limits, zero meaning none. */
  method EffectiveMaxTokens(config: Config, metadataLimit: nat, embeddingLimit: nat) returns (m: nat)
    ensures IsLimit(config.maxTokens, [config.tokenizerMaxTokens, metadataLimit, embeddingLimit], m)
  {
    m := if config.maxTokens == 0 then DEFAULT_MAX_TOKENS else config.maxTokens;
    var limits := [config.tokenizerMaxTokens, metadataLimit, embeddingLimit];
    for i := 0 to 3
      invariant 1 <= m <= if config.maxTokens == 0 then DEFAULT_MAX_TOKENS else config.maxTokens
      invariant forall j :: 0 <= j < i && limits[j] > 0 ==> m <= limits[j]
      invariant m == (if config.maxTokens == 0 then DEFAULT_MAX_TOKENS else config.maxTokens) ||
        exists j :: 0 <= j < i && m == limits[j]
    {
      if limits[i] > 0 && limits[i] < m {
        m := limits[i];
        assert m == limits[i];
      }
    }
    m := Max(1, m);
  }

  // ---------------------------------------------------------------- windows

  /** Tokens `first` up to, not including, `last`. */
  datatype Window = Window(first: nat, last: nat)

  ghost predicate ReachesEnd(n: nat, budget: nat, w: Window) {
    w.first < n && w.last == Min(n, w.first + budget) && w.first < w.last
  }

  /** `w` begins `step` tokens after `v`, which did not reach the end. */
  ghost predicate Follows(n: nat, step: nat, v: Window, w: Window) {
    w.first == v.first + step && v.last < n
  }

  /** The windows the loop has opened so far over `n` tokens. */
  ghost predicate Opened(n: nat, budget: nat, step: nat, ws: seq<Window>)
    decreases |ws|
  {
    ws == [] ||
    var m := |ws| - 1;
    && ReachesEnd(n, budget, ws[m])
    && (if m == 0 then ws[0].first == 0 else Follows(n, step, ws[m - 1], ws[m]))
    && Opened(n, budget, step, ws[..m])
  }

  /** All windows over `n` tokens: the last one reaches the end. */
  ghost predicate AreWindows(n: nat, budget: nat, step: nat, ws: seq<Window>) {
    Opened(n, budget, step, ws) && ws != [] && ws[|ws| - 1].last == n
  }

  lemma {:induction false} WindowAt(n: nat, budget: nat, step: nat, ws: seq<Window>, k: nat)
    requires Opened(n, budget, step, ws) && k < |ws|
    ensures ReachesEnd(n, budget, ws[k])
    ensures if k == 0 then ws[0].first == 0 else Follows(n, step, ws[k - 1], ws[k])
  {
    if k < |ws| - 1 {
      WindowAt(n, budget, step, ws[..|ws| - 1], k);
    }
  }

  /** The windows cover every token; each holds at most the budget, all but the last exactly the
      budget; and neighbours share exactly the overlap. */
  lemma WindowLaws(n: nat, budget: nat, overlap: nat, ws: seq<Window>)
    requires overlap < budget && AreWindows(n, budget, budget - overlap, ws)
    ensures forall k :: 0 <= k < |ws| ==> 1 <= ws[k].last - ws[k].first <= budget
    ensures forall k :: 0 < k < |ws| ==> Overlapping(budget, overlap, ws[k - 1], ws[k])
    ensures forall i :: 0 <= i < n ==> InSome(ws, i)
  {
    forall k | 0 <= k < |ws| ensures 1 <= ws[k].last - ws[k].first <= budget {
      WindowAt(n, budget, budget - overlap, ws, k);
    }
    forall k | 0 < k < |ws| ensures Overlapping(budget, overlap, ws[k - 1], ws[k]) {
      WindowAt(n, budget, budget - overlap, ws, k - 1);
      WindowAt(n, budget, budget - overlap, ws, k);
    }
    forall i | 0 <= i < n ensures InSome(ws, i) {
      var k := Covering(n, budget, overlap, ws, i);
    }
  }

  /** `v` is full and its last `overlap` tokens are the first of `w`. */
  ghost predicate Overlapping(budget: nat, overlap: nat, v: Window, w: Window) {
    v.last - v.first == budget && v.last - w.first == overlap
  }

  ghost predicate InSome(ws: seq<Window>, i: int) {
    exists k :: 0 <= k < |ws| && ws[k].first <= i < ws[k].last
  }

  lemma {:induction false} Covering(n: nat, budget: nat, overlap: nat, ws: seq<Window>, i: nat) returns (k: nat)
    requires overlap < budget && Opened(n, budget, budget - overlap, ws) && ws != [] && i < ws[|ws| - 1].last
    ensures k < |ws| && ws[k].first <= i < ws[k].last
    decreases |ws|
  {
    var m := |ws| - 1;
    if ws[m].first <= i {
      k := m;
    } else {
      WindowAt(n, budget, budget - overlap, ws, m - 1);
      k := Covering(n, budget, overlap, ws[..m], i);
    }
  }

  lemma {:induction false} WindowsAdvance(n: nat, budget: nat, step: nat, ws: seq<Window>, k: nat)
    requires step >= 1 && Opened(n, budget, step, ws) && 0 < k < |ws|
    ensures ws[k - 1].first < ws[k].first < ws[k].last && ws[k - 1].first < ws[k - 1].last < ws[k].last
    ensures ws[k].last <= n
  {
    WindowAt(n, budget, step, ws, k - 1);
    WindowAt(n, budget, step, ws, k);
  }
}
