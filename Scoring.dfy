/**
 * `computeScore` of search-wrapper.js: the additive relevance score of one
 * record for the query tokens. Points come from title phrase matches, a body
 * phrase match, keyword matches, per-token matches with an order and an
 * early-position bonus, and a same-section boost.
 */
module Scoring {
  import opened Wrappers
  import opened Text
  import opened Records

  // The weights `W`; `recencyBonus` is declared there but never used.
  const ExactTitle := 120
  const StartsTitle := 70
  const ContainsTitle := 45
  const ExactPhraseBody := 28
  const KeywordHit := 22
  /** Extra points for a keyword equal to the whole query (`W.keywordHit + 5`). */
  const ExactKeywordExtra := 5
  /** Points for each query token equal to a keyword. */
  const KeywordTokenHit := 6
  const TokenInTitle := 11
  const TokenInBody := 5
  const OrderBonus := 7
  const EarlyPosBonus := 5
  /** A body match before this index earns the early-position bonus. */
  const EarlyLimit := 80
  const SameSection := 12

  /** `item.keywords.map(normalize)`. */
  function NormalizeAll(kws: seq<string>): (r: seq<string>)
    ensures |r| == |kws| && forall i :: 0 <= i < |kws| ==> r[i] == Normalize(kws[i])
  {
    seq(|kws|, i requires 0 <= i < |kws| => Normalize(kws[i]))
  }

  /** Title phrase points: equal, starts with, includes. */
  function TitlePoints(title: string, query: string): nat {
    (if title == query then ExactTitle else 0)
    + (if StartsWith(title, query) then StartsTitle else 0)
    + (if Contains(title, query) then ContainsTitle else 0)
  }

  /** Body phrase points. */
  function BodyPoints(body: string, query: string): nat {
    if Contains(body, query) then ExactPhraseBody else 0
  }

  /** How many of the tokens equal `kw`. */
  function CountEqual(ts: seq<string>, kw: string): nat {
    if ts == [] then 0 else (if ts[0] == kw then 1 else 0) + CountEqual(ts[1..], kw)
  }

  /** Points one (normalized) keyword earns; an empty keyword is skipped. */
  function KeywordPoints(kw: string, query: string, ts: seq<string>): nat {
    if kw == [] then 0
    else
      (if kw == query then KeywordHit + ExactKeywordExtra
       else if Contains(kw, query) || Contains(query, kw) then KeywordHit
       else 0)
      + KeywordTokenHit * CountEqual(ts, kw)
  }

  /** Points all the keywords earn. */
  function KeywordScore(kws: seq<string>, query: string, ts: seq<string>): nat {
    if kws == [] then 0 else KeywordPoints(kws[0], query, ts) + KeywordScore(kws[1..], query, ts)
  }

  /**
   * Points the tokens `ts` earn, in order, when the last body match found so
   * far is at `lastIdx` (-1 for none).
   */
  function TokenScore(ts: seq<string>, titleTokens: seq<string>, body: string, lastIdx: int): nat
    decreases |ts|
  {
    if ts == [] then 0
    else
      var t := ts[0];
      var idx := IndexOf(body, t);
      (if t in titleTokens then TokenInTitle else 0)
      + (if idx >= 0
         then TokenInBody + (if lastIdx >= 0 && idx > lastIdx then OrderBonus else 0) + (if idx < EarlyLimit then EarlyPosBonus else 0)
         else 0)
      + TokenScore(ts[1..], titleTokens, body, if idx >= 0 then idx else lastIdx)
  }

  /** `window.ACTIVE_SECTION && normalize(window.ACTIVE_SECTION)`, with "" for every falsy outcome. */
  function ActiveSection(active: Option<string>): string {
    if active.Some? && active.value != [] then Normalize(active.value) else []
  }

  /** The section boost. */
  function SectionPoints(section: string, active: Option<string>): nat {
    if ActiveSection(active) != [] && Normalize(section) == ActiveSection(active) then SameSection else 0
  }

  /** The score of `item` for the query tokens `ts`: the sum of the five kinds of points. */
  function Score(item: Record, ts: seq<string>, active: Option<string>): nat {
    var title := Normalize(item.title);
    var body := Normalize(item.transcript);
    var query := Join(ts);
    TitlePoints(title, query) + BodyPoints(body, query)
    + KeywordScore(NormalizeAll(item.keywords), query, ts)
    + TokenScore(ts, Tokenize(item.title), body, -1)
    + SectionPoints(item.section, active)
  }

  /** The inner loop `for (const t of qTokens) if (kw === t) score += 6`, as a count. */
  method CountMatches(ts: seq<string>, kw: string) returns (n: nat)
    ensures n == CountEqual(ts, kw)
  {
    n := 0;
    for j := 0 to |ts|
      invariant n + CountEqual(ts[j..], kw) == CountEqual(ts, kw)
    {
      assert ts[j..][1..] == ts[j + 1..];
      if kw == ts[j] {
        n := n + 1;
      }
    }
  }

  /** The keyword loop of `computeScore`. */
  method ScoreKeywords(kws: seq<string>, query: string, qTokens: seq<string>) returns (score: nat)
    ensures score == KeywordScore(kws, query, qTokens)
  {
    score := 0;
    for i := 0 to |kws|
      invariant score + KeywordScore(kws[i..], query, qTokens) == KeywordScore(kws, query, qTokens)
    {
      var kw := kws[i];
      assert kws[i..][1..] == kws[i + 1..];
      if kw == [] {
        continue;
      }
      if kw == query {
        score := score + KeywordHit + ExactKeywordExtra;
      } else if Contains(kw, query) || Contains(query, kw) {
        score := score + KeywordHit;
      }
      var hits := CountMatches(qTokens, kw);
      score := score + KeywordTokenHit * hits;
    }
  }

  /** The token-overlap loop of `computeScore`, with its running `lastIdx`. */
  method ScoreTokens(qTokens: seq<string>, titleTokens: seq<string>, body: string) returns (score: nat)
    ensures score == TokenScore(qTokens, titleTokens, body, -1)
  {
    score := 0;
    var lastIdx := -1;
    for k := 0 to |qTokens|
      invariant score + TokenScore(qTokens[k..], titleTokens, body, lastIdx) == TokenScore(qTokens, titleTokens, body, -1)
    {
      var t := qTokens[k];
      assert qTokens[k..][1..] == qTokens[k + 1..];
      if t in titleTokens {
        score := score + TokenInTitle;
      }
      var idx := IndexOf(body, t);
      if idx >= 0 {
        score := score + TokenInBody;
        if lastIdx >= 0 && idx > lastIdx {
          score := score + OrderBonus;
        }
        if idx < EarlyLimit {
          score := score + EarlyPosBonus;
        }
        lastIdx := idx;
      }
    }
  }

  /** `computeScore(item, qTokens)`, with `window.ACTIVE_SECTION` passed in as `active`. */
  method ComputeScore(item: Record, qTokens: seq<string>, active: Option<string>) returns (score: nat)
    ensures score == Score(item, qTokens, active)
  {
    var title := Normalize(item.title);
    var body := Normalize(item.transcript);
    var kws := NormalizeAll(item.keywords);
    var query := Join(qTokens);

    var phrase := 0;
    if title == query { phrase := phrase + ExactTitle; }
    if StartsWith(title, query) { phrase := phrase + StartsTitle; }
    if Contains(title, query) { phrase := phrase + ContainsTitle; }
    if Contains(body, query) { phrase := phrase + ExactPhraseBody; }
    assert phrase == TitlePoints(title, query) + BodyPoints(body, query);

    var keywordPoints := ScoreKeywords(kws, query, qTokens);
    var tokenPoints := ScoreTokens(qTokens, Tokenize(item.title), body);

    var sectionPoints := 0;
    var activeSection := ActiveSection(active);
    if activeSection != [] && Normalize(item.section) == activeSection {
      sectionPoints := SameSection;
    }

    score := phrase + keywordPoints + tokenPoints + sectionPoints;
  }

  // ---------- properties of the points ----------

  /**
   * The title points are 235 exactly for a title equal to the query, at
   * least 115 exactly when the title starts with the query, and at least 45
   * exactly when the title contains it; no other totals occur.
   */
  lemma TitlePointsLevels(title: string, query: string)
    ensures TitlePoints(title, query) == ExactTitle + StartsTitle + ContainsTitle <==> title == query
    ensures TitlePoints(title, query) >= StartsTitle + ContainsTitle <==> StartsWith(title, query)
    ensures TitlePoints(title, query) >= ContainsTitle <==> Contains(title, query)
    ensures TitlePoints(title, query) in {0, ContainsTitle, StartsTitle + ContainsTitle, ExactTitle + StartsTitle + ContainsTitle}
  {
    if title == query {
      assert title[..|query|] == query;
    }
    if StartsWith(title, query) {
      StartsWithContains(title, query);
    }
  }

  /** The token-equality count is the number of times `kw` occurs among the tokens. */
  lemma {:induction false} CountEqualIsOccurrences(ts: seq<string>, kw: string)
    ensures CountEqual(ts, kw) == multiset(ts)[kw]
  {
    if ts != [] {
      CountEqualIsOccurrences(ts[1..], kw);
      assert ts == [ts[0]] + ts[1..];
    }
  }

  /** A keyword earns at most 27 points plus 6 per token. */
  lemma KeywordPointsBound(kw: string, query: string, ts: seq<string>)
    ensures KeywordPoints(kw, query, ts) <= KeywordHit + ExactKeywordExtra + KeywordTokenHit * |ts|
  {
    CountEqualIsOccurrences(ts, kw);
    CountAtMostLength(ts, kw);
  }

  lemma {:induction false} CountAtMostLength(ts: seq<string>, kw: string)
    ensures CountEqual(ts, kw) <= |ts|
  {
    if ts != [] {
      CountAtMostLength(ts[1..], kw);
    }
  }

  /** All the keywords together earn at most 27 + 6 * |ts| points each. */
  lemma {:induction false} KeywordScoreBound(kws: seq<string>, query: string, ts: seq<string>)
    ensures KeywordScore(kws, query, ts) <= (KeywordHit + ExactKeywordExtra + KeywordTokenHit * |ts|) * |kws|
  {
    if kws != [] {
      var each := KeywordHit + ExactKeywordExtra + KeywordTokenHit * |ts|;
      KeywordPointsBound(kws[0], query, ts);
      KeywordScoreBound(kws[1..], query, ts);
      MulSucc(each, |kws[1..]|);
    }
  }

  lemma MulSucc(a: nat, n: nat)
    ensures a * (n + 1) == a * n + a
  {
  }

  /** A token earns at most 28 points (11 + 5 + 7 + 5). */
  lemma {:induction false} TokenScoreBound(ts: seq<string>, titleTokens: seq<string>, body: string, lastIdx: int)
    ensures TokenScore(ts, titleTokens, body, lastIdx) <= (TokenInTitle + TokenInBody + OrderBonus + EarlyPosBonus) * |ts|
    decreases |ts|
  {
    if ts != [] {
      var idx := IndexOf(body, ts[0]);
      TokenScoreBound(ts[1..], titleTokens, body, if idx >= 0 then idx else lastIdx);
    }
  }

  /** The token points are positive exactly when some token is a title token or occurs in the body. */
  lemma {:induction false} TokenScorePositive(ts: seq<string>, titleTokens: seq<string>, body: string, lastIdx: int)
    ensures TokenScore(ts, titleTokens, body, lastIdx) > 0 <==>
            exists i :: 0 <= i < |ts| && (ts[i] in titleTokens || Contains(body, ts[i]))
    decreases |ts|
  {
    if ts != [] {
      var idx := IndexOf(body, ts[0]);
      TokenScorePositive(ts[1..], titleTokens, body, if idx >= 0 then idx else lastIdx);
      if exists i :: 0 <= i < |ts| && (ts[i] in titleTokens || Contains(body, ts[i])) {
        var i :| 0 <= i < |ts| && (ts[i] in titleTokens || Contains(body, ts[i]));
        if i > 0 {
          assert ts[1..][i - 1] == ts[i];
        }
      }
      if exists i :: 0 <= i < |ts[1..]| && (ts[1..][i] in titleTokens || Contains(body, ts[1..][i])) {
        var i :| 0 <= i < |ts[1..]| && (ts[1..][i] in titleTokens || Contains(body, ts[1..][i]));
        assert ts[i + 1] == ts[1..][i];
      }
    }
  }

  /** A record whose title equals the query text earns all three title phrase weights, 235 points, and so scores at least 235. */
  lemma ExactTitleScore(item: Record, ts: seq<string>, active: Option<string>)
    requires Normalize(item.title) == Join(ts)
    ensures TitlePoints(Normalize(item.title), Join(ts)) == ExactTitle + StartsTitle + ContainsTitle
    ensures Score(item, ts, active) >= ExactTitle + StartsTitle + ContainsTitle
  {
    TitlePointsLevels(Normalize(item.title), Join(ts));
  }

  /**
   * The score is bounded by the weights: 263 for the phrases, 27 + 6 per
   * token for each keyword, 28 per token, and 12 for the section.
   */
  lemma ScoreBound(item: Record, ts: seq<string>, active: Option<string>)
    ensures Score(item, ts, active) <=
            ExactTitle + StartsTitle + ContainsTitle + ExactPhraseBody
            + (KeywordHit + ExactKeywordExtra + KeywordTokenHit * |ts|) * |item.keywords|
            + (TokenInTitle + TokenInBody + OrderBonus + EarlyPosBonus) * |ts|
            + SameSection
  {
    KeywordScoreBound(NormalizeAll(item.keywords), Join(ts), ts);
    TokenScoreBound(ts, Tokenize(item.title), Normalize(item.transcript), -1);
  }
}
