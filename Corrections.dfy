/**
 * `suggestCorrections` of search-wrapper.js: the "Did you mean" words for a
 * query that found nothing, chosen from the dictionary by edit distance,
 * then frequency, then the word itself.
 */
module Corrections {
  import opened Text
  import opened Sorting
  import opened EditDistance

  /** At most this many suggestions are returned. */
  const MaxSuggestions := 5

  /** One entry of `cand`: a dictionary word, its distance to the query word, and its count. */
  datatype Candidate = Candidate(w: string, d: nat, freq: nat)

  /** `q.toLowerCase().trim()`. */
  function QueryWord(q: string): string {
    Trim(Lower(q))
  }

  /** `/\s/.test(s)`. */
  predicate HasSpace(s: string) {
    exists i :: 0 <= i < |s| && IsSpace(s[i])
  }

  /** The early exit: an empty word, a word with whitespace in it, or one shorter than three characters. */
  predicate Rejected(word: string) {
    word == [] || HasSpace(word) || |word| < 3
  }

  /** `maxDist`: 1 up to four characters, 2 up to seven, 3 beyond. */
  function MaxDist(len: nat): nat {
    if len <= 4 then 1 else if len <= 7 then 2 else 3
  }

  /** `w` may be suggested for `word`: a dictionary key other than `word`, within `maxDist` edits of it. */
  predicate Eligible(word: string, dict: map<string, nat>, w: string) {
    w in dict && w != word && Lev(word, w) <= MaxDist(|word|)
  }

  /** The candidate record `suggestCorrections` builds for the key `w` (count 0 for a word that is not a key). */
  function CandidateOf(word: string, dict: map<string, nat>, w: string): Candidate {
    Candidate(w, Lev(word, w), if w in dict then dict[w] else 0)
  }

  /** The comparator `(a.d - b.d) || (b.freq - a.freq) || a.w.localeCompare(b.w)`, as "a sorts before b". */
  predicate Before(x: Candidate, y: Candidate) {
    x.d < y.d || (x.d == y.d && (x.freq > y.freq || (x.freq == y.freq && StrLess(x.w, y.w))))
  }

  /** The comparator is a strict order. */
  lemma BeforeStrictOrder()
    ensures StrictOrder(Before)
  {
    forall x: Candidate
      ensures !Before(x, x)
    {
      StrLessIrreflexive(x.w);
    }
    forall x: Candidate, y: Candidate, z: Candidate | Before(x, y) && Before(y, z)
      ensures Before(x, z)
    {
      if x.d == y.d == z.d && x.freq == y.freq == z.freq {
        StrLessTransitive(x.w, y.w, z.w);
      }
    }
  }

  /** Candidates for different words are always ordered one way or the other. */
  lemma BeforeTotal(x: Candidate, y: Candidate)
    requires x.w != y.w
    ensures Before(x, y) || Before(y, x)
  {
    StrLessTotal(x.w, y.w);
  }

  /** The loop over `dict.entries()`: a candidate for every key that passes the two cut-offs. */
  method CollectCandidates(word: string, dict: map<string, nat>) returns (cand: seq<Candidate>)
    ensures forall c :: c in cand ==> Eligible(word, dict, c.w) && c == CandidateOf(word, dict, c.w)
    ensures forall w :: Eligible(word, dict, w) ==> CandidateOf(word, dict, w) in cand
  {
    var maxDist := MaxDist(|word|);
    cand := [];
    var rest := dict.Keys;
    ghost var done: set<string> := {};
    while rest != {}
      invariant rest !! done && rest + done == dict.Keys
      invariant forall c :: c in cand ==> Eligible(word, dict, c.w) && c == CandidateOf(word, dict, c.w)
      invariant forall w :: w in done && Eligible(word, dict, w) ==> CandidateOf(word, dict, w) in cand
      decreases rest
    {
      var w :| w in rest;
      rest := rest - {w};
      done := done + {w};
      var freq := dict[w];
      if w == word {
        continue;
      }
      var diff := |w| - |word|;
      if (if diff < 0 then -diff else diff) > maxDist {
        LevLengthDifference(word, w);
        continue;
      }
      var d := Levenshtein(word, w);
      if d <= maxDist {
        cand := cand + [Candidate(w, d, freq)];
      }
    }
  }

  /**
   * The loop that fills `out`: the words of `cands` in order, each once, until
   * there are five. `from[t]` is the position in `cands` that `out[t]` came from.
   */
  method FirstWords(cands: seq<Candidate>) returns (out: seq<string>, ghost from: seq<nat>)
    ensures |out| <= MaxSuggestions && |from| == |out|
    ensures forall i, j :: 0 <= i < j < |out| ==> out[i] != out[j]
    ensures forall t :: 0 <= t < |out| ==> from[t] < |cands| && out[t] == cands[from[t]].w
    ensures forall t, u :: 0 <= t < u < |out| ==> from[t] < from[u]
    ensures |out| < MaxSuggestions ==> forall i :: 0 <= i < |cands| ==> cands[i].w in out
    ensures forall i, t :: 0 <= i < |cands| && cands[i].w !in out && 0 <= t < |out| ==> from[t] < i
  {
    out := [];
    from := [];
    var k := 0;
    while k < |cands|
      invariant 0 <= k <= |cands|
      invariant |out| < MaxSuggestions
      invariant |from| == |out|
      invariant forall t :: 0 <= t < |out| ==> from[t] < k && out[t] == cands[from[t]].w
      invariant forall t, u :: 0 <= t < u < |out| ==> from[t] < from[u]
      invariant forall i :: 0 <= i < k ==> cands[i].w in out
      invariant forall i, j :: 0 <= i < j < |out| ==> out[i] != out[j]
    {
      var c := cands[k];
      if c.w !in out {
        out := out + [c.w];
        from := from + [k];
      }
      k := k + 1;
      if |out| >= MaxSuggestions {
        break;
      }
    }
  }

  /**
   * What `suggestCorrections(q, dict)` promises of its result `out`: nothing
   * for a rejected word; otherwise at most five distinct eligible words in
   * comparator order, and any eligible word left out comes after all five.
   */
  ghost predicate Corrected(q: string, dict: map<string, nat>, out: seq<string>) {
    var word := QueryWord(q);
    (Rejected(word) ==> out == [])
    && |out| <= MaxSuggestions
    && (forall i, j :: 0 <= i < j < |out| ==> out[i] != out[j])
    && (forall i :: 0 <= i < |out| ==> Eligible(word, dict, out[i]))
    && (forall i, j :: 0 <= i < j < |out| ==> Before(CandidateOf(word, dict, out[i]), CandidateOf(word, dict, out[j])))
    && (!Rejected(word) ==>
          forall w :: Eligible(word, dict, w) && w !in out ==>
            |out| == MaxSuggestions &&
            forall i :: 0 <= i < |out| ==> Before(CandidateOf(word, dict, out[i]), CandidateOf(word, dict, w)))
  }

  /** `suggestCorrections(q, dict)`. */
  method SuggestCorrections(q: string, dict: map<string, nat>) returns (out: seq<string>)
    ensures Corrected(q, dict, out)
  {
    var word := Trim(Lower(q));
    if word == [] || HasSpace(word) || |word| < 3 {
      return [];
    }
    var cand := CollectCandidates(word, dict);
    BeforeStrictOrder();
    var sorted := Sort(cand, Before);
    SortSorted(cand, Before);
    forall i | 0 <= i < |sorted|
      ensures sorted[i] in cand
    {
      assert sorted[i] in multiset(sorted);
    }
    ghost var from;
    out, from := FirstWords(sorted);

    forall i, j | 0 <= i < j < |out|
      ensures Before(CandidateOf(word, dict, out[i]), CandidateOf(word, dict, out[j]))
    {
      assert !Before(sorted[from[j]], sorted[from[i]]);
      BeforeTotal(sorted[from[i]], sorted[from[j]]);
    }
    forall w | Eligible(word, dict, w) && w !in out
      ensures |out| == MaxSuggestions
      ensures forall i :: 0 <= i < |out| ==> Before(CandidateOf(word, dict, out[i]), CandidateOf(word, dict, w))
    {
      var x := CandidateOf(word, dict, w);
      assert x in multiset(cand);
      assert x in multiset(sorted);
      var j :| 0 <= j < |sorted| && sorted[j] == x;
      forall t | 0 <= t < |out|
        ensures Before(CandidateOf(word, dict, out[t]), x)
      {
        assert !Before(sorted[j], sorted[from[t]]);
        BeforeTotal(sorted[from[t]], x);
      }
    }
  }
}
