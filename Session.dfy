/**
 * The search session `mount` sets up in search-wrapper.js: the closure
 * variables `ranked`, `rendered` and `currentQ`, the `{ q, rendered }` state
 * kept in sessionStorage, and what `doSearchNow`, "Load more" and Enter do
 * to them. Only the index arithmetic of the rendering is kept; the DOM is
 * described by the `View` a search produces.
 */
module Session {
  import opened Wrappers
  import opened Text
  import opened Records
  import opened Dictionary
  import opened Corrections
  import opened Sorting
  import opened Ranking

  /** `PAGE_SIZE`: results rendered per batch. */
  const PageSize := 3

  /** The `{ q, rendered }` object `saveState` writes; `None` is what a missing or unreadable entry gives. */
  datatype Saved = Saved(q: string, rendered: int)

  /** What the results area shows after a search. */
  datatype View =
    | Chips(chips: seq<string>)
    | NoMatch(didYouMean: seq<string>)
    | Results(shown: seq<Match>, loadMore: bool)

  function Min(a: int, b: int): int {
    if a <= b then a else b
  }

  // ---------- renderBatch ----------

  /** The index `renderBatch(_, items, start, count)` returns for `|items| == len`. */
  function BatchEnd(len: nat, start: nat, count: nat): nat {
    Min(len, start + count)
  }

  /** A batch starting inside the list ends inside it, no more than `count` further on, and stops short only at the end of the list. */
  lemma BatchEndBounds(len: nat, start: nat, count: nat)
    requires start <= len
    ensures start <= BatchEnd(len, start, count) <= len
    ensures BatchEnd(len, start, count) - start <= count
    ensures BatchEnd(len, start, count) == len || BatchEnd(len, start, count) == start + count
  {
  }

  /** `renderBatch`: the entries it renders, in order, and the index it returns. */
  method RenderBatch(items: seq<Match>, start: nat, count: nat) returns (end: nat, shown: seq<Match>)
    ensures end == BatchEnd(|items|, start, count)
    ensures shown == if start <= end then items[start..end] else []
  {
    end := Min(|items|, start + count);
    shown := [];
    var i := start;
    while i < end
      invariant start <= i && end <= |items|
      invariant i <= end ==> shown == items[start..i]
      invariant i > end ==> i == start && shown == []
      decreases end - i
    {
      shown := shown + [items[i]];
      i := i + 1;
    }
  }

  // ---------- depth restore ----------

  /**
   * The depth `doSearchNow` leaves for a non-empty result list of length
   * `n`: the first page, re-expanded when the saved state is for the same
   * query and went deeper.
   */
  function RestoredDepth(n: nat, saved: Option<Saved>, q: string): nat {
    var first := BatchEnd(n, 0, PageSize);
    if saved.Some? && saved.value.q != [] && saved.value.q == q && saved.value.rendered != 0 && saved.value.rendered > first
    then
      var target := Min(saved.value.rendered, n);
      if target - first > 0 then BatchEnd(n, first, target - first) else first
    else first
  }

  /**
   * The restored depth is `min(saved.rendered, n)` when the saved query is
   * `q` and its depth is beyond the first page, and the first page
   * otherwise; it never passes the end of the list.
   */
  lemma RestoredDepthIs(n: nat, saved: Option<Saved>, q: string)
    requires q != []
    ensures var first := BatchEnd(n, 0, PageSize);
            RestoredDepth(n, saved, q) ==
              if saved.Some? && saved.value.q == q && saved.value.rendered > first
              then Min(saved.value.rendered, n) else first
    ensures BatchEnd(n, 0, PageSize) <= RestoredDepth(n, saved, q) <= n
  {
  }

  /** Restoring a depth saved for the same query, from the first page up to the end, gives that depth back. */
  lemma RestoreOwnDepth(n: nat, d: nat, q: string)
    requires q != [] && BatchEnd(n, 0, PageSize) <= d <= n
    ensures RestoredDepth(n, Some(Saved(q, d)), q) == d
  {
    RestoredDepthIs(n, Some(Saved(q, d)), q);
  }

  /**
   * The rendering part of `doSearchNow` for a non-empty `ranked`: the first
   * page, then, when `saved` is for the same query and deeper, the batch
   * that re-expands to the saved depth.
   */
  method FirstPages(ranked: seq<Match>, saved: Option<Saved>, q: string) returns (rendered: nat, shown: seq<Match>)
    requires ranked != []
    ensures rendered == RestoredDepth(|ranked|, saved, q)
    ensures shown == ranked[..rendered]
  {
    rendered, shown := RenderBatch(ranked, 0, PageSize);
    var first := rendered;
    if saved.Some? && saved.value.q != [] && saved.value.q == q && saved.value.rendered != 0 && saved.value.rendered > rendered {
      var target := Min(saved.value.rendered, |ranked|);
      var need := target - rendered;
      if need > 0 {
        var more;
        rendered, more := RenderBatch(ranked, rendered, need);
        assert ranked[..rendered] == ranked[..first] + ranked[first..rendered];
        shown := shown + more;
      }
    }
  }

  // ---------- load more ----------

  /** The depth after `k` clicks on "Load more" from depth `d`. */
  function LoadDepth(n: nat, d: nat, k: nat): nat
    decreases k
  {
    if k == 0 then d else LoadDepth(n, BatchEnd(n, d, PageSize), k - 1)
  }

  /** `k` clicks on "Load more" from depth `d` reach `min(n, d + 3k)`. */
  lemma {:induction false} LoadDepthIs(n: nat, d: nat, k: nat)
    requires d <= n
    ensures LoadDepth(n, d, k) == Min(n, d + PageSize * k)
    decreases k
  {
    if k > 0 {
      LoadDepthIs(n, BatchEnd(n, d, PageSize), k - 1);
    }
  }

  // ---------- the session ----------

  class SearchSession {
    /** `INDEX`. */
    const index: seq<Record>
    /** `window.ACTIVE_SECTION`, read by the scoring. */
    const active: Option<string>
    /** `DICT`. */
    const dict: map<string, nat>
    var ranked: seq<Match>
    var rendered: nat
    var currentQ: string
    /** The sessionStorage entry. */
    var store: Option<Saved>

    /**
     * The state between events: `ranked` is the ranking for `currentQ`; with
     * results, at least the first page and at most all of them are rendered,
     * and the saved state is the query and that depth; without results, the
     * saved depth is 0 (and `rendered` may still hold the depth of an
     * earlier search).
     */
    ghost predicate Valid()
      reads this
    {
      ranked == Ranked(currentQ, index, active)
      && store == Some(Saved(currentQ, if ranked == [] then 0 else rendered))
      && (ranked != [] ==> BatchEnd(|ranked|, 0, PageSize) <= rendered <= |ranked|)
    }

    /** The start of `mount`: the dictionary is built and nothing is searched yet. */
    constructor(index: seq<Record>, active: Option<string>, store: Option<Saved>)
      ensures this.index == index && this.active == active && this.store == store
      ensures dict == Counts(DictionaryWords(index))
      ensures ranked == [] && rendered == 0 && currentQ == []
    {
      this.index := index;
      this.active := active;
      var d := BuildDictionary(index);
      dict := d;
      ranked := [];
      rendered := 0;
      currentQ := [];
      this.store := store;
    }

    /** `doSearchNow` for the input text `input`. */
    method DoSearchNow(input: string) returns (view: View)
      modifies this
      ensures Valid()
      ensures currentQ == Trim(input)
      ensures currentQ == [] ==> ranked == [] && rendered == 0 && view == Chips(Suggestions)
      ensures currentQ != [] && ranked == [] ==>
                rendered == old(rendered) && view.NoMatch? && Corrected(currentQ, dict, view.didYouMean)
      ensures ranked != [] ==>
                rendered == RestoredDepth(|ranked|, old(store), currentQ)
                && view == Results(ranked[..rendered], rendered < |ranked|)
      ensures old(Valid()) && currentQ == old(currentQ) && ranked != [] ==> rendered == old(rendered)
    {
      var q := Trim(input);
      currentQ := q;
      if q == [] {
        ranked := [];
        rendered := 0;
        store := Some(Saved([], 0));
        return Chips(Suggestions);
      }

      var scored := RankedSearch(q, index, active);
      ranked := scored;
      if |ranked| == 0 {
        store := Some(Saved(q, 0));
        var list := SuggestCorrections(q, dict);
        return NoMatch(list);
      }

      var shown;
      rendered, shown := FirstPages(ranked, store, q);
      store := Some(Saved(q, rendered));
      view := Results(shown, rendered < |ranked|);

      if old(Valid()) && q == old(currentQ) {
        RestoreOwnDepth(|ranked|, old(rendered), q);
      }
      RestoredDepthIs(|ranked|, old(store), q);
    }

    /**
     * The "Load more" click, possible only while the button is shown: one
     * more batch, saved, and the button again while results remain.
     */
    method LoadMore() returns (shown: seq<Match>, more: bool)
      requires Valid() && rendered < |ranked|
      modifies this
      ensures Valid()
      ensures ranked == old(ranked) && currentQ == old(currentQ)
      ensures rendered == BatchEnd(|ranked|, old(rendered), PageSize)
      ensures shown == ranked[old(rendered)..rendered]
      ensures more == (rendered < |ranked|)
    {
      rendered, shown := RenderBatch(ranked, rendered, PageSize);
      store := Some(Saved(currentQ, rendered));
      more := rendered < |ranked|;
    }

    /** Enter: the layer of the top result, if there is one; no other result ranks above it. */
    method Enter() returns (target: Option<string>)
      requires Valid()
      ensures target == if ranked != [] then Some(ranked[0].layer) else None
      ensures target.Some? ==> forall i :: 0 <= i < |ranked| ==> !Ahead(ranked[i], ranked[0])
    {
      RankedTop(currentQ, index, active);
      if |ranked| > 0 {
        target := Some(ranked[0].layer);
      } else {
        target := None;
      }
    }

    /**
     * `mount`: the saved query, when there is one, replaces the input text,
     * and the search runs at once, restoring the saved depth.
     */
    static method Mount(index: seq<Record>, active: Option<string>, saved: Option<Saved>, input: string)
      returns (s: SearchSession, view: View)
      ensures fresh(s) && s.Valid()
      ensures s.index == index && s.active == active && s.dict == Counts(DictionaryWords(index))
      ensures s.currentQ == Trim(if saved.Some? && saved.value.q != [] then saved.value.q else input)
      ensures s.ranked != [] ==> s.rendered == RestoredDepth(|s.ranked|, saved, s.currentQ)
    {
      s := new SearchSession(index, active, saved);
      var text := if saved.Some? && saved.value.q != [] then saved.value.q else input;
      view := s.DoSearchNow(text);
    }
  }
}
