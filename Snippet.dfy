/**
 * `makeSnippet` of search-wrapper.js: the quoted, highlighted excerpt shown
 * under a search result. It is the first sentence that contains every query
 * token, or else a window of up to 90 characters on either side of the
 * earliest token match.
 */
module Snippet {
  import opened Wrappers
  import opened Text
  import opened Html

  /** Characters on either side of the earliest match that the fallback window keeps. */
  const Radius := 90

  const Ellipsis: char := '\U{2026}'
  const OpenQuote: char := '\U{201C}'
  const CloseQuote: char := '\U{201D}'

  // ---------- earliest match ----------

  /**
   * `bestIdx`: the smallest `lower.indexOf(w)` over the words that occur,
   * or None (the source's `Infinity`) when none occurs.
   */
  function EarliestIndex(lower: string, words: seq<string>): (r: Option<nat>)
    ensures r.Some? ==> r.value <= |lower|
  {
    if words == [] then None
    else
      var best := EarliestIndex(lower, words[..|words| - 1]);
      var i := IndexOf(lower, words[|words| - 1]);
      if i != -1 && (best.None? || i < best.value) then Some(i) else best
  }

  /** EarliestIndex is the index of some word's first match, no later than any other word's, and None exactly when no word occurs. */
  lemma {:induction false} EarliestIndexIsMinimum(lower: string, words: seq<string>)
    ensures EarliestIndex(lower, words).Some? ==>
              exists k :: 0 <= k < |words| && IndexOf(lower, words[k]) == EarliestIndex(lower, words).value
    ensures EarliestIndex(lower, words).Some? ==>
              forall k :: 0 <= k < |words| && IndexOf(lower, words[k]) >= 0 ==> EarliestIndex(lower, words).value <= IndexOf(lower, words[k])
    ensures EarliestIndex(lower, words).None? <==> forall k :: 0 <= k < |words| ==> IndexOf(lower, words[k]) == -1
  {
    if words != [] {
      var init := words[..|words| - 1];
      EarliestIndexIsMinimum(lower, init);
      assert forall k :: 0 <= k < |init| ==> init[k] == words[k];
      var r := EarliestIndex(lower, words);
      if r.Some? && r != EarliestIndex(lower, init) {
        assert IndexOf(lower, words[|words| - 1]) == r.value;
      }
    }
  }

  /** The loop over `words` that keeps the smallest index found so far. */
  method EarliestMatch(lower: string, words: seq<string>) returns (best: Option<nat>)
    ensures best == EarliestIndex(lower, words)
  {
    best := None;
    for k := 0 to |words|
      invariant best == EarliestIndex(lower, words[..k])
    {
      assert words[..k + 1][..k] == words[..k];
      var i := IndexOf(lower, words[k]);
      if i != -1 && (best.None? || i < best.value) {
        best := Some(i);
      }
    }
    assert words[..|words|] == words;
  }

  // ---------- sentences ----------

  predicate IsTerminator(c: char) {
    c == '.' || c == '!' || c == '?'
  }

  /**
   * `s.match(/[^.!?]*[.!?]/g)` as a list (empty for no match): every run of
   * non-terminators together with the terminator that ends it. Text after
   * the last terminator is not matched.
   */
  function Chunks(s: string): (r: seq<string>)
    ensures forall k :: 0 <= k < |r| ==> r[k] != [] && IsTerminator(r[k][|r[k]| - 1])
    ensures forall k, i :: 0 <= k < |r| && 0 <= i < |r[k]| - 1 ==> !IsTerminator(r[k][i])
    decreases |s|
  {
    var j := RunEnd(s, IsTerminator, 0);
    if j == |s| then [] else [s[..j + 1]] + Chunks(s[j + 1..])
  }

  /**
   * The chunks, glued together, are `s` up to and including its last
   * terminator; no terminator follows them. So there are no chunks exactly
   * when `s` has no terminator.
   */
  lemma ConcatCons(x: string, rs: seq<string>)
    ensures Concat([x] + rs) == x + Concat(rs)
  {
    assert ([x] + rs)[1..] == rs;
  }

  /** Past the first terminator, at `j`, the chunks are those of the rest. */
  lemma ChunksStep(s: string, j: nat)
    requires j == RunEnd(s, IsTerminator, 0) && j < |s|
    ensures Concat(Chunks(s)) == s[..j + 1] + Concat(Chunks(s[j + 1..]))
  {
    ConcatCons(s[..j + 1], Chunks(s[j + 1..]));
  }

  /**
   * The chunks, glued together, are `s` up to and including its last
   * terminator; no terminator follows them. So there are no chunks exactly
   * when `s` has no terminator.
   */
  lemma {:induction false} ChunksCover(s: string)
    ensures |Concat(Chunks(s))| <= |s| && Concat(Chunks(s)) == s[..|Concat(Chunks(s))|]
    ensures forall i :: |Concat(Chunks(s))| <= i < |s| ==> !IsTerminator(s[i])
    ensures Chunks(s) == [] <==> forall i :: 0 <= i < |s| ==> !IsTerminator(s[i])
    decreases |s|
  {
    var j := RunEnd(s, IsTerminator, 0);
    if j < |s| {
      var rest := s[j + 1..];
      ChunksCover(rest);
      var c := Concat(Chunks(rest));
      ChunksStep(s, j);
      PrefixJoin(s, j + 1, |c|);
      forall i | j + 1 + |c| <= i < |s|
        ensures !IsTerminator(s[i])
      {
        assert s[i] == rest[i - (j + 1)];
      }
    }
  }

  /** A prefix of `s` followed by a prefix of what comes after it is a longer prefix of `s`. */
  lemma PrefixJoin(s: string, n: nat, m: nat)
    requires n + m <= |s|
    ensures s[..n] + s[n..][..m] == s[..n + m]
  {
  }

  /** `source.match(...) || [source]`. */
  function Sentences(source: string): (r: seq<string>)
    ensures |r| > 0
  {
    var c := Chunks(source);
    if c == [] then [source] else c
  }

  /** `words.every(w => s.toLowerCase().includes(w))`. */
  predicate Covers(s: string, words: seq<string>) {
    forall k :: 0 <= k < |words| ==> Contains(Lower(s), words[k])
  }

  /** The position, from `k` on, of the first sentence that covers every word. */
  function FirstCoveringFrom(ss: seq<string>, words: seq<string>, k: nat): (r: Option<nat>)
    requires k <= |ss|
    ensures r.Some? ==> k <= r.value < |ss| && Covers(ss[r.value], words)
    ensures forall i :: k <= i < |ss| && (r.None? || i < r.value) ==> !Covers(ss[i], words)
    decreases |ss| - k
  {
    if k == |ss| then None
    else if Covers(ss[k], words) then Some(k)
    else FirstCoveringFrom(ss, words, k + 1)
  }

  /** `sentences.find(...)`, as a position. */
  function FirstCovering(ss: seq<string>, words: seq<string>): (r: Option<nat>)
    ensures r.Some? ==> r.value < |ss| && Covers(ss[r.value], words)
    ensures forall i :: 0 <= i < |ss| && (r.None? || i < r.value) ==> !Covers(ss[i], words)
  {
    FirstCoveringFrom(ss, words, 0)
  }

  // ---------- the fallback window ----------

  /** `start = Math.max(0, base - 90)`. */
  function WindowStart(base: nat): (start: nat)
    ensures start <= base && base - start <= Radius
    ensures start == 0 <==> base <= Radius
  {
    if base >= Radius then base - Radius else 0
  }

  /** `end = Math.min(source.length, base + 90)`. */
  function WindowEnd(len: nat, base: nat): (end: nat)
    requires base <= len
    ensures base <= end <= len && end - base <= Radius
    ensures end == len <==> len <= base + Radius
  {
    if len <= base + Radius then len else base + Radius
  }

  /** The window around `base`, with `…` where text was cut off on either side. */
  function Window(source: string, base: nat): string
    requires base <= |source|
  {
    var start, end := WindowStart(base), WindowEnd(|source|, base);
    (if start > 0 then [Ellipsis] else []) + source[start..end] + (if end < |source| then [Ellipsis] else [])
  }

  /** The window is at most 180 characters of the source plus two ellipses. */
  lemma WindowLength(source: string, base: nat)
    requires base <= |source|
    ensures |Window(source, base)| <= 2 * Radius + 2
  {
  }

  /** A match at `base` of at most 90 characters lies inside the window. */
  lemma WindowShowsMatch(source: string, base: nat, w: string)
    requires OccursAt(source, w, base) && |w| <= Radius
    ensures Contains(Window(source, base), w)
  {
    var start, end := WindowStart(base), WindowEnd(|source|, base);
    var pre: string := if start > 0 then [Ellipsis] else [];
    var post: string := if end < |source| then [Ellipsis] else [];
    var mid := source[start..end];
    var win := Window(source, base);
    assert win == pre + mid + post;
    assert base + |w| <= end;
    var k := |pre| + (base - start);
    forall i | 0 <= i < |w|
      ensures win[k + i] == w[i]
    {
      assert win[k + i] == mid[base - start + i];
      assert mid[base - start + i] == source[base + i];
      assert source[base..base + |w|][i] == source[base + i];
    }
    assert win[k..k + |w|] == w;
    ContainsAt(win, w, k);
  }

  // ---------- quoting ----------

  predicate IsQuoteChar(c: char) {
    c == OpenQuote || c == CloseQuote || c == '"'
  }

  /** `/[“”"]/.test(s)`. */
  predicate HasQuote(s: string) {
    exists i :: 0 <= i < |s| && IsQuoteChar(s[i])
  }

  /** `withQuotes`: the trimmed excerpt, wrapped in curly quotes unless it already holds a quote mark. */
  function Quote(s: string): string {
    if HasQuote(s) then Trim(s) else [OpenQuote] + Trim(s) + [CloseQuote]
  }

  lemma TrimKeepsQuote(s: string)
    requires HasQuote(s)
    ensures HasQuote(Trim(s))
  {
    var i :| 0 <= i < |s| && IsQuoteChar(s[i]);
    var n := LeadingSpaces(s);
    var t := Trim(s);
    assert !IsSpace(s[i]);
    assert n <= i < n + |t|;
    assert t[i - n] == s[i];
  }

  /** The quoted excerpt always holds a quote mark, so quoting it again changes nothing. */
  lemma QuoteIdempotent(s: string)
    ensures HasQuote(Quote(s))
    ensures Quote(Quote(s)) == Quote(s)
  {
    var q := Quote(s);
    if HasQuote(s) {
      TrimKeepsQuote(s);
      TrimIdempotent(s);
    } else {
      assert IsQuoteChar(q[0]);
      assert !IsSpace(OpenQuote) && !IsSpace(CloseQuote);
      assert q[|q| - 1] == CloseQuote;
      TrimOfTrimmed(q);
    }
  }

  // ---------- the snippet ----------

  /** `base`: the earliest match, or 0 when no word occurs. */
  function Base(source: string, words: seq<string>): (b: nat)
    ensures b <= |source|
  {
    var e := EarliestIndex(Lower(source), words);
    if e.Some? then e.value else 0
  }

  /** `sentence`: the first covering sentence unless there is none (or it is empty), else the window. */
  function Excerpt(source: string, words: seq<string>): string {
    var ss := Sentences(source);
    var found := FirstCovering(ss, words);
    if found.Some? && ss[found.value] != [] then ss[found.value] else Window(source, Base(source, words))
  }

  /** `makeSnippet(source, words)`. */
  function Snippet(source: string, words: seq<string>): string {
    Highlight(Quote(Excerpt(source, words)), words)
  }

  /** If sentence `i` is the first that covers every word, the excerpt is that sentence. */
  lemma ExcerptIsFirstCoveringSentence(source: string, words: seq<string>, i: nat)
    requires i < |Sentences(source)| && Covers(Sentences(source)[i], words)
    requires forall j :: 0 <= j < i ==> !Covers(Sentences(source)[j], words)
    requires Sentences(source)[i] != []
    ensures Excerpt(source, words) == Sentences(source)[i]
    ensures Covers(Excerpt(source, words), words)
  {
    var ss := Sentences(source);
    assert FirstCovering(ss, words) == Some(i);
  }

  /** If no sentence covers every word, the excerpt is the window around the earliest match. */
  lemma ExcerptIsWindow(source: string, words: seq<string>)
    requires forall j :: 0 <= j < |Sentences(source)| ==> !Covers(Sentences(source)[j], words)
    ensures Excerpt(source, words) == Window(source, Base(source, words))
  {
  }

  /** Removing the markers and undoing the escaping gives back the quoted excerpt. */
  lemma SnippetText(source: string, words: seq<string>)
    ensures Unescape(RemoveMarkers(Snippet(source, words))) == Quote(Excerpt(source, words))
  {
    HighlightRoundTrip(Quote(Excerpt(source, words)), words);
    EscRoundTrip(Quote(Excerpt(source, words)));
  }

  /** `makeSnippet(source, words)`, with its loop over the words. */
  method MakeSnippet(source: string, words: seq<string>) returns (html: string)
    ensures html == Snippet(source, words)
  {
    var lower := Lower(source);
    var bestIdx := EarliestMatch(lower, words);
    var sentences := Sentences(source);
    var found := FirstCovering(sentences, words);
    var sentence: string;
    if found.Some? && sentences[found.value] != [] {
      sentence := sentences[found.value];
    } else {
      var base := if bestIdx.Some? then bestIdx.value else 0;
      sentence := Window(source, base);
    }
    html := Highlight(Quote(sentence), words);
  }
}
