/**
 * `rankedSearch` of search-wrapper.js: the records every query token occurs
 * in (in the lower-cased title and body taken together) and that score
 * above zero, each with its display layer and snippet, best first.
 */
module Ranking {
  import opened Wrappers
  import opened Text
  import opened Records
  import opened Sorting
  import opened Snippet
  import opened Scoring

  /**
   * One entry of `scored`. `at` is the record's position in the index; the
   * source does not store it, and the model keeps it to state that the sort
   * is stable.
   */
  datatype Match = Match(item: Record, at: nat, score: nat, layer: string, snippet: string)

  /** `tl + ' ' + bl`: the lower-cased title and body joined by a space. */
  function Combo(item: Record): string {
    Lower(item.title) + " " + Lower(item.transcript)
  }

  /** `qTokens.every(w => combo.includes(w))`: the forgiving prefilter. */
  predicate Hit(item: Record, ts: seq<string>) {
    forall i :: 0 <= i < |ts| ==> Contains(Combo(item), ts[i])
  }

  /** `title || 'Untitled'`. */
  function Layer(item: Record): (r: string)
    ensures r != []
  {
    if item.title == [] then "Untitled" else item.title
  }

  /** `qTokens.some(w => bl.includes(w))`. */
  predicate BodyHasToken(item: Record, ts: seq<string>) {
    exists i :: 0 <= i < |ts| && Contains(Lower(item.transcript), ts[i])
  }

  /** The text the snippet is cut from: the body when some token occurs in it, else the title. */
  function SnippetSource(item: Record, ts: seq<string>): string {
    if BodyHasToken(item, ts) then item.transcript else item.title
  }

  /** The entry `rankedSearch` pushes for the record at position `at`. */
  function MatchOf(item: Record, at: nat, ts: seq<string>, active: Option<string>): Match {
    Match(item, at, Score(item, ts, active), Layer(item), Snippet.Snippet(SnippetSource(item, ts), ts))
  }

  /** A record makes it into `scored`: it passes the prefilter and scores above zero. */
  predicate Kept(item: Record, ts: seq<string>, active: Option<string>) {
    Hit(item, ts) && Score(item, ts, active) > 0
  }

  /** The entries `entry(index[n], n)` of the records `keep` accepts, in index order. */
  function KeptEntries(index: seq<Record>, keep: Record -> bool, entry: (Record, nat) -> Match): seq<Match>
    decreases |index|
  {
    if index == [] then []
    else
      var n := |index| - 1;
      KeptEntries(index[..n], keep, entry) + (if keep(index[n]) then [entry(index[n], n)] else [])
  }

  /** `scored` before the sort: the kept records of `index`, in index order. */
  function Scored(index: seq<Record>, ts: seq<string>, active: Option<string>): seq<Match> {
    KeptEntries(index, item => Kept(item, ts, active), (item: Record, n: nat) => MatchOf(item, n, ts, active))
  }

  /** The sort comparator, as "a sorts before b": higher score, then shorter layer, then the layer text. */
  predicate Ahead(a: Match, b: Match) {
    a.score > b.score
    || (a.score == b.score && (|a.layer| < |b.layer| || (|a.layer| == |b.layer| && StrLess(a.layer, b.layer))))
  }

  /** The result of `rankedSearch(query, index)`. */
  function Ranked(query: string, index: seq<Record>, active: Option<string>): seq<Match> {
    var ts := Tokenize(query);
    if ts == [] then [] else Sort(Scored(index, ts, active), Ahead)
  }

  // ---------- the comparator ----------

  /** The comparator is a strict weak order (irreflexive, transitive, and so is incomparability). */
  lemma AheadStrictWeakOrder()
    ensures StrictOrder(Ahead)
    ensures NegativelyTransitive(Ahead)
  {
    forall x: Match
      ensures !Ahead(x, x)
    {
      StrLessIrreflexive(x.layer);
    }
    forall x: Match, y: Match, z: Match | Ahead(x, y) && Ahead(y, z)
      ensures Ahead(x, z)
    {
      if x.score == y.score == z.score && |x.layer| == |y.layer| == |z.layer| {
        StrLessTransitive(x.layer, y.layer, z.layer);
      }
    }
    forall x: Match, y: Match, z: Match | Ahead(x, z)
      ensures Ahead(x, y) || Ahead(y, z)
    {
      if x.score == y.score == z.score && |x.layer| == |y.layer| == |z.layer| {
        if x.layer != y.layer {
          StrLessTotal(x.layer, y.layer);
          if StrLess(y.layer, x.layer) {
            StrLessTransitive(y.layer, x.layer, z.layer);
          }
        }
      }
    }
  }

  // ---------- what the result holds ----------

  /** `m` is the entry for the record at its position `m.at` of `index`, and that record is kept. */
  predicate IsEntry(index: seq<Record>, ts: seq<string>, active: Option<string>, m: Match) {
    m.at < |index| && Kept(index[m.at], ts, active) && m == MatchOf(index[m.at], m.at, ts, active)
  }

  /** `KeptEntries` holds exactly the entries of accepted records, in index order. */
  lemma {:induction false} KeptEntriesMembers(index: seq<Record>, keep: Record -> bool, entry: (Record, nat) -> Match)
    requires forall x, n :: entry(x, n).at == n
    ensures forall m :: m in KeptEntries(index, keep, entry) <==>
              m.at < |index| && keep(index[m.at]) && m == entry(index[m.at], m.at)
    ensures Increasing(KeptEntries(index, keep, entry), (m: Match) => m.at)
    decreases |index|
  {
    if index != [] {
      var n := |index| - 1;
      var init := index[..n];
      KeptEntriesMembers(init, keep, entry);
      forall m
        ensures m in KeptEntries(index, keep, entry) <==>
                m.at < |index| && keep(index[m.at]) && m == entry(index[m.at], m.at)
      {
        if m.at < n {
          assert init[m.at] == index[m.at];
        }
      }
    }
  }

  /** `Scored` holds exactly the kept records' entries, in index order. */
  lemma ScoredMembers(index: seq<Record>, ts: seq<string>, active: Option<string>)
    ensures forall m :: m in Scored(index, ts, active) <==> IsEntry(index, ts, active, m)
    ensures Increasing(Scored(index, ts, active), (m: Match) => m.at)
  {
    KeptEntriesMembers(index, item => Kept(item, ts, active), (item: Record, n: nat) => MatchOf(item, n, ts, active));
  }

  /**
   * The entries of `Ranked` are exactly the kept records, each once, sorted
   * by the comparator, with ties in index order; an empty token list gives
   * no entries.
   */
  lemma RankedProperties(query: string, index: seq<Record>, active: Option<string>)
    ensures Tokenize(query) == [] ==> Ranked(query, index, active) == []
    ensures forall m :: m in Ranked(query, index, active) <==>
              Tokenize(query) != [] && IsEntry(index, Tokenize(query), active, m)
    ensures forall m :: m in Ranked(query, index, active) ==> m.score > 0 && m.layer != []
    ensures Sorted(Ranked(query, index, active), Ahead)
    ensures StableBy(Ranked(query, index, active), Ahead, (m: Match) => m.at)
  {
    var ts := Tokenize(query);
    if ts != [] {
      var s := Scored(index, ts, active);
      ScoredMembers(index, ts, active);
      AheadStrictWeakOrder();
      SortSorted(s, Ahead);
      SortStable(s, Ahead, (m: Match) => m.at);
      forall m
        ensures m in Ranked(query, index, active) <==> m in s
      {
        assert m in Ranked(query, index, active) <==> m in multiset(Sort(s, Ahead));
      }
    }
  }

  /** No entry of `Ranked` sorts before its first one. */
  lemma RankedTop(query: string, index: seq<Record>, active: Option<string>)
    ensures forall i :: 0 <= i < |Ranked(query, index, active)| ==>
              !Ahead(Ranked(query, index, active)[i], Ranked(query, index, active)[0])
  {
    var r := Ranked(query, index, active);
    RankedProperties(query, index, active);
    AheadStrictWeakOrder();
    forall i | 0 <= i < |r|
      ensures !Ahead(r[i], r[0])
    {
      if i > 0 {
        assert !Ahead(r[i], r[0]);
      }
    }
  }

  /** Every query token occurs in a ranked record's lower-cased title or body, or straddles the space between them. */
  lemma RankedHits(query: string, index: seq<Record>, active: Option<string>, m: Match, i: nat)
    requires m in Ranked(query, index, active) && i < |Tokenize(query)|
    ensures Contains(Combo(m.item), Tokenize(query)[i])
  {
    RankedProperties(query, index, active);
  }

  // ---------- the operation ----------

  /** The body of the loop over the index: whether the record is kept, and its entry if it is. */
  method ScoreOne(item: Record, n: nat, ts: seq<string>, active: Option<string>) returns (keep: bool, m: Match)
    ensures keep == Kept(item, ts, active)
    ensures keep ==> m == MatchOf(item, n, ts, active)
  {
    keep, m := false, Match(item, n, 0, Layer(item), []);
    var hit := Hit(item, ts);
    if hit {
      var score := ComputeScore(item, ts, active);
      if score > 0 {
        var source := if BodyHasToken(item, ts) then item.transcript else item.title;
        assert source == SnippetSource(item, ts);
        var snippet := MakeSnippet(source, ts);
        keep, m := true, Match(item, n, score, Layer(item), snippet);
      }
    }
  }

  /** The loop over the index that fills `scored`. */
  method ScoreAll(index: seq<Record>, ts: seq<string>, active: Option<string>) returns (scored: seq<Match>)
    ensures scored == Scored(index, ts, active)
  {
    ghost var keep := item => Kept(item, ts, active);
    ghost var entry := (item: Record, n: nat) => MatchOf(item, n, ts, active);
    scored := [];
    for n := 0 to |index|
      invariant scored == KeptEntries(index[..n], keep, entry)
    {
      assert index[..n + 1][..n] == index[..n];
      var kept, m := ScoreOne(index[n], n, ts, active);
      if kept {
        scored := scored + [m];
      }
    }
    assert index[..|index|] == index;
  }

  /** `rankedSearch(query, index)`, with `window.ACTIVE_SECTION` passed in as `active`. */
  method RankedSearch(query: string, index: seq<Record>, active: Option<string>) returns (result: seq<Match>)
    ensures result == Ranked(query, index, active)
  {
    var ts := Tokenize(query);
    if ts == [] {
      return [];
    }
    var scored := ScoreAll(index, ts, active);
    result := Sort(scored, Ahead);
  }
}
