/**
 * `buildDictionary` of search-wrapper.js: a word -> count table built from
 * the title words of every record, the first transcript words of every
 * record, and the words of the suggestion chips.
 */
module Dictionary {
  import opened Text
  import opened Records

  /** `STOP`: words never taken from a transcript. */
  const Stop: set<string> := {
    "the", "and", "to", "of", "in", "a", "for", "on", "with", "at", "by", "is", "it", "as", "be",
    "this", "that", "your", "you", "from", "or", "are", "can", "will", "into", "an", "any"
  }

  /** Only the first 2000 characters of a transcript are tokenized. */
  const TranscriptChars := 2000

  /** The bound in the check `seen++ > 200`, which lets the tokens at positions 0 to 200 through. */
  const ScanBound := 200

  /** Title and suggestion words are counted from three characters on. */
  predicate IsTitleWord(w: string) {
    |w| >= 3
  }

  /** Transcript words are counted from four characters on, and never stop words. */
  predicate IsTranscriptWord(w: string) {
    |w| >= 4 && w !in Stop
  }

  /** `s.slice(0, n)`. */
  function Prefix(s: string, n: nat): (r: string)
    ensures |r| <= n && |r| <= |s|
    ensures r == s[..|r|]
    ensures |s| <= n ==> r == s
  {
    if |s| <= n then s else s[..n]
  }

  /** The transcript tokens the loop looks at: at most 201 of the tokens of the first 2000 characters. */
  function ScannedTokens(transcript: string): (r: seq<string>)
    ensures |r| <= ScanBound + 1 && |r| <= |Tokenize(Prefix(transcript, TranscriptChars))|
    ensures r == Tokenize(Prefix(transcript, TranscriptChars))[..|r|]
    ensures |r| <= ScanBound ==> r == Tokenize(Prefix(transcript, TranscriptChars))
  {
    var words := Tokenize(Prefix(transcript, TranscriptChars));
    if |words| <= ScanBound + 1 then words else words[..ScanBound + 1]
  }

  /** The words of `ws` that satisfy `p`, in order. */
  function Keep(ws: seq<string>, p: string -> bool): (r: seq<string>)
    ensures forall w :: w in r <==> w in ws && p(w)
  {
    if ws == [] then []
    else
      assert ws == ws[..|ws| - 1] + [ws[|ws| - 1]];
      Keep(ws[..|ws| - 1], p) + (if p(ws[|ws| - 1]) then [ws[|ws| - 1]] else [])
  }

  /** The words one record bumps: its long-enough title words, then its scanned transcript words. */
  function RecordWords(item: Record): seq<string> {
    Keep(Tokenize(item.title), IsTitleWord) + Keep(ScannedTokens(item.transcript), IsTranscriptWord)
  }

  /** The words the records bump, record after record. */
  function IndexWords(index: seq<Record>): seq<string> {
    if index == [] then [] else IndexWords(index[..|index| - 1]) + RecordWords(index[|index| - 1])
  }

  /** The words the suggestion chips bump. */
  function ChipWords(chips: seq<string>): seq<string> {
    if chips == [] then [] else ChipWords(chips[..|chips| - 1]) + Keep(Tokenize(chips[|chips| - 1]), IsTitleWord)
  }

  /** Every word `buildDictionary` bumps, in the order it bumps them. */
  function DictionaryWords(index: seq<Record>): seq<string> {
    IndexWords(index) + ChipWords(Suggestions)
  }

  /** `bump(w)`: one more occurrence of `w`. */
  function Bump(counts: map<string, nat>, w: string): map<string, nat> {
    counts[w := if w in counts then counts[w] + 1 else 1]
  }

  /** The table `counts` becomes after the bumps of `ws`. */
  function CountsFrom(counts: map<string, nat>, ws: seq<string>): map<string, nat> {
    if ws == [] then counts else Bump(CountsFrom(counts, ws[..|ws| - 1]), ws[|ws| - 1])
  }

  /** The table the bumps of `ws` build, starting from an empty Map. */
  function Counts(ws: seq<string>): map<string, nat> {
    CountsFrom(map[], ws)
  }

  lemma CountsStep(counts: map<string, nat>, ws: seq<string>, w: string)
    ensures CountsFrom(counts, ws + [w]) == Bump(CountsFrom(counts, ws), w)
  {
    assert (ws + [w])[..|ws|] == ws;
  }

  /** Bumping `a` and then `b` is bumping `a + b`. */
  lemma {:induction false} CountsFromAppend(counts: map<string, nat>, a: seq<string>, b: seq<string>)
    ensures CountsFrom(CountsFrom(counts, a), b) == CountsFrom(counts, a + b)
    decreases |b|
  {
    if b == [] {
      assert a + b == a;
    } else {
      var init, last := b[..|b| - 1], b[|b| - 1];
      CountsFromAppend(counts, a, init);
      assert a + b == (a + init) + [last];
      CountsStep(counts, a + init, last);
    }
  }

  /** The table holds exactly the bumped words, each with its number of occurrences (so at least 1). */
  lemma {:induction false} CountsAreOccurrences(ws: seq<string>)
    ensures forall w :: w in Counts(ws) <==> w in ws
    ensures forall w :: w in Counts(ws) ==> Counts(ws)[w] == multiset(ws)[w] >= 1
  {
    if ws != [] {
      var init, last := ws[..|ws| - 1], ws[|ws| - 1];
      CountsAreOccurrences(init);
      assert ws == init + [last];
    }
  }

  lemma KeepStep(ws: seq<string>, k: nat, p: string -> bool)
    requires k < |ws|
    ensures p(ws[k]) ==> Keep(ws[..k + 1], p) == Keep(ws[..k], p) + [ws[k]]
    ensures !p(ws[k]) ==> Keep(ws[..k + 1], p) == Keep(ws[..k], p)
  {
    assert ws[..k + 1][..k] == ws[..k];
    assert Keep(ws[..k], p) + [] == Keep(ws[..k], p);
  }

  lemma IndexWordsStep(index: seq<Record>, r: nat)
    requires r < |index|
    ensures IndexWords(index[..r + 1]) == IndexWords(index[..r]) + RecordWords(index[r])
  {
    assert index[..r + 1][..r] == index[..r];
  }

  lemma ChipWordsStep(chips: seq<string>, c: nat)
    requires c < |chips|
    ensures ChipWords(chips[..c + 1]) == ChipWords(chips[..c]) + Keep(Tokenize(chips[c]), IsTitleWord)
  {
    assert chips[..c + 1][..c] == chips[..c];
  }

  /** `for (const w of words) if (w.length >= 3) bump(w)`: the loop over title and chip words. */
  method BumpTitleWords(counts: map<string, nat>, words: seq<string>) returns (r: map<string, nat>)
    ensures r == CountsFrom(counts, Keep(words, IsTitleWord))
  {
    r := counts;
    for k := 0 to |words|
      invariant r == CountsFrom(counts, Keep(words[..k], IsTitleWord))
    {
      KeepStep(words, k, IsTitleWord);
      var w := words[k];
      if IsTitleWord(w) {
        CountsStep(counts, Keep(words[..k], IsTitleWord), w);
        r := Bump(r, w);
      }
    }
    assert words[..|words|] == words;
  }

  /** The loop over transcript words with its `seen` counter: it stops once `seen++ > 200`. */
  method BumpTranscriptWords(counts: map<string, nat>, words: seq<string>) returns (r: map<string, nat>)
    ensures r == CountsFrom(counts, Keep(if |words| <= ScanBound + 1 then words else words[..ScanBound + 1], IsTranscriptWord))
  {
    r := counts;
    var seen := 0;
    var k := 0;
    while k < |words|
      invariant 0 <= k <= |words| && k <= ScanBound + 1 && seen == k
      invariant r == CountsFrom(counts, Keep(words[..k], IsTranscriptWord))
    {
      var s := seen;
      seen := seen + 1;
      if s > ScanBound {
        break;
      }
      KeepStep(words, k, IsTranscriptWord);
      var w := words[k];
      if IsTranscriptWord(w) {
        CountsStep(counts, Keep(words[..k], IsTranscriptWord), w);
        r := Bump(r, w);
      }
      k := k + 1;
    }
    assert words[..k] == if |words| <= ScanBound + 1 then words else words[..ScanBound + 1];
  }

  /** The body of the loop over the records: the title words, then the transcript words. */
  method BumpRecord(counts: map<string, nat>, item: Record) returns (r: map<string, nat>)
    ensures r == CountsFrom(counts, RecordWords(item))
  {
    var title := Keep(Tokenize(item.title), IsTitleWord);
    var afterTitle := BumpTitleWords(counts, Tokenize(item.title));
    r := BumpTranscriptWords(afterTitle, Tokenize(Prefix(item.transcript, TranscriptChars)));
    CountsFromAppend(counts, title, Keep(ScannedTokens(item.transcript), IsTranscriptWord));
  }

  /** The loop over the suggestion chips: the words of each chip, bumped as title words are. */
  method BumpChipWords(counts: map<string, nat>, chips: seq<string>) returns (r: map<string, nat>)
    ensures r == CountsFrom(counts, ChipWords(chips))
  {
    r := counts;
    for c := 0 to |chips|
      invariant r == CountsFrom(counts, ChipWords(chips[..c]))
    {
      r := BumpTitleWords(r, Tokenize(chips[c]));
      CountsFromAppend(counts, ChipWords(chips[..c]), Keep(Tokenize(chips[c]), IsTitleWord));
      ChipWordsStep(chips, c);
    }
    assert chips[..|chips|] == chips;
  }

  /** `buildDictionary(index)`. */
  method BuildDictionary(index: seq<Record>) returns (counts: map<string, nat>)
    ensures counts == Counts(DictionaryWords(index))
  {
    counts := map[];
    for r := 0 to |index|
      invariant counts == Counts(IndexWords(index[..r]))
    {
      counts := BumpRecord(counts, index[r]);
      CountsFromAppend(map[], IndexWords(index[..r]), RecordWords(index[r]));
      IndexWordsStep(index, r);
    }
    assert index[..|index|] == index;
    counts := BumpChipWords(counts, Suggestions);
    CountsFromAppend(map[], IndexWords(index), ChipWords(Suggestions));
  }

  /** `item` bumps `w` through its title. */
  ghost predicate TitleSupplies(item: Record, w: string) {
    w in Tokenize(item.title) && IsTitleWord(w)
  }

  /** `item` bumps `w` through its transcript. */
  ghost predicate TranscriptSupplies(item: Record, w: string) {
    w in ScannedTokens(item.transcript) && IsTranscriptWord(w)
  }

  /** Some record bumps `w` through its title. */
  ghost predicate FromTitle(index: seq<Record>, w: string) {
    exists i :: 0 <= i < |index| && TitleSupplies(index[i], w)
  }

  /** Some record bumps `w` through its transcript. */
  ghost predicate FromTranscript(index: seq<Record>, w: string) {
    exists i :: 0 <= i < |index| && TranscriptSupplies(index[i], w)
  }

  /** A suggestion chip bumps `w`. */
  ghost predicate ChipSupplies(chip: string, w: string) {
    w in Tokenize(chip) && IsTitleWord(w)
  }

  ghost predicate FromChips(chips: seq<string>, w: string) {
    exists c :: 0 <= c < |chips| && ChipSupplies(chips[c], w)
  }

  lemma RecordWordsMembers(item: Record, w: string)
    ensures w in RecordWords(item) <==> TitleSupplies(item, w) || TranscriptSupplies(item, w)
  {
  }

  /** Some element of a non-empty sequence satisfies `P` iff one before the last does or the last does. */
  lemma ExistsSnoc<T>(s: seq<T>, init: seq<T>, P: T -> bool)
    requires s != [] && init == s[..|s| - 1]
    ensures (exists i :: 0 <= i < |s| && P(s[i])) <==> (exists i :: 0 <= i < |init| && P(init[i])) || P(s[|s| - 1])
  {
    if exists i :: 0 <= i < |s| && P(s[i]) {
      var i :| 0 <= i < |s| && P(s[i]);
      if i < |init| { assert init[i] == s[i]; }
    }
    if exists i :: 0 <= i < |init| && P(init[i]) {
      var i :| 0 <= i < |init| && P(init[i]);
      assert s[i] == init[i];
    }
  }

  lemma FromTitleSnoc(index: seq<Record>, w: string)
    requires index != []
    ensures FromTitle(index, w) <==> FromTitle(index[..|index| - 1], w) || TitleSupplies(index[|index| - 1], w)
  {
    ExistsSnoc(index, index[..|index| - 1], item => TitleSupplies(item, w));
  }

  lemma FromTranscriptSnoc(index: seq<Record>, w: string)
    requires index != []
    ensures FromTranscript(index, w) <==> FromTranscript(index[..|index| - 1], w) || TranscriptSupplies(index[|index| - 1], w)
  {
    ExistsSnoc(index, index[..|index| - 1], item => TranscriptSupplies(item, w));
  }

  lemma FromChipsSnoc(chips: seq<string>, w: string)
    requires chips != []
    ensures FromChips(chips, w) <==> FromChips(chips[..|chips| - 1], w) || ChipSupplies(chips[|chips| - 1], w)
  {
    ExistsSnoc(chips, chips[..|chips| - 1], chip => ChipSupplies(chip, w));
  }

  lemma {:induction false} IndexWordsMembers(index: seq<Record>, w: string)
    ensures w in IndexWords(index) <==> FromTitle(index, w) || FromTranscript(index, w)
  {
    if index != [] {
      IndexWordsMembers(index[..|index| - 1], w);
      RecordWordsMembers(index[|index| - 1], w);
      FromTitleSnoc(index, w);
      FromTranscriptSnoc(index, w);
    }
  }

  lemma {:induction false} ChipWordsMembers(chips: seq<string>, w: string)
    ensures w in ChipWords(chips) <==> FromChips(chips, w)
  {
    if chips != [] {
      ChipWordsMembers(chips[..|chips| - 1], w);
      FromChipsSnoc(chips, w);
    }
  }

  /**
   * The keys of the dictionary are exactly the title words (three or more
   * characters), the scanned transcript words (four or more characters, not
   * stop words) and the chip words (three or more characters); so every key
   * has at least three characters, a key that only a transcript supplies has
   * at least four and is not a stop word, and every count is at least 1.
   */
  lemma DictionaryKeys(index: seq<Record>)
    ensures forall w :: w in Counts(DictionaryWords(index)) <==> FromTitle(index, w) || FromTranscript(index, w) || FromChips(Suggestions, w)
    ensures forall w :: w in Counts(DictionaryWords(index)) ==> |w| >= 3 && Counts(DictionaryWords(index))[w] >= 1
    ensures forall w :: w in Counts(DictionaryWords(index)) && !FromTitle(index, w) && !FromChips(Suggestions, w) ==> |w| >= 4 && w !in Stop
  {
    var ws := DictionaryWords(index);
    CountsAreOccurrences(ws);
    forall w
      ensures w in ws <==> FromTitle(index, w) || FromTranscript(index, w) || FromChips(Suggestions, w)
    {
      IndexWordsMembers(index, w);
      ChipWordsMembers(Suggestions, w);
    }
    forall w | w in Counts(ws)
      ensures |w| >= 3
    {
      if FromTitle(index, w) {
        var i :| 0 <= i < |index| && TitleSupplies(index[i], w);
      } else if FromTranscript(index, w) {
        var i :| 0 <= i < |index| && TranscriptSupplies(index[i], w);
      } else {
        var c :| 0 <= c < |Suggestions| && ChipSupplies(Suggestions[c], w);
      }
    }
    forall w | w in Counts(ws) && !FromTitle(index, w) && !FromChips(Suggestions, w)
      ensures |w| >= 4 && w !in Stop
    {
      var i :| 0 <= i < |index| && TranscriptSupplies(index[i], w);
    }
  }
}
