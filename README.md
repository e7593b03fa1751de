# Tutorial search and sidebar matching, modelled in Dafny

This project models two parts of a tutorial site.

The first is the live search of `search-wrapper.js`:
- escaping and highlighting (`esc`, `highlight`);
- query normalisation and tokenising (`normalize`, `tokenize`);
- the Levenshtein distance and the "Did you mean" dictionary (`buildDictionary`, `suggestCorrections`);
- the snippet builder (`makeSnippet`), the relevance score (`computeScore`) and the ranking (`rankedSearch`);
- the search session `mount` sets up: the closure variables `ranked`, `rendered` and `currentQ`, the `{ q, rendered }` state kept in sessionStorage, and what a search (`doSearchNow`), the "Load more" button, the Enter key and the restore at mount do to them.

The second is the fuzzy sidebar matcher of `main.js`: `_norm`, `_tokens`, `_score`, `TITLE_ALIASES` and the best-label choice of `findMenuItemByTitleSmart`.

One module per concern:
- `Text`: lower-casing, trimming, `normalize`, `split`, `indexOf`/`includes`/`startsWith`, and a string order by code point that stands in for `localeCompare`.
- `Html`: `esc`, `highlight`.
- `EditDistance`: `levenshtein`, over an array row as in the source.
- `Dictionary`: `STOP`, `buildDictionary`.
- `Corrections`: `suggestCorrections`.
- `Snippet`: `makeSnippet`.
- `Scoring`: `computeScore`.
- `Sorting`: the stable comparator sort both sorts rely on.
- `Ranking`: `rankedSearch`.
- `Session`: `renderBatch`, the depth restore, and the `SearchSession` class for the closure state of `mount`.
- `MenuMatch`: the `main.js` matcher.
- `Records`, `Wrappers`: the index record, `SUGGESTIONS`, `Option`.

Loops in the source are methods with loop invariants. Most are proved equal to a specification function, and the properties are proved about that function as lemmas. Candidate collection (`CollectCandidates`), the first-words cut (`FirstWords`) and the label scan (`BestLabel`) are instead characterised by the properties of their result. The loops are `levenshtein`, the dictionary loops, candidate collection, the earliest-index loop, the keyword and token loops of `computeScore`, the `rankedSearch` loop, `renderBatch` and the label scan. The session's closure variables and its storage entry are the fields of a class that `DoSearchNow`, `LoadMore` and `Enter` update.

Two facts about the code:
- `buildDictionary` looks at up to 201 transcript tokens. `seen++ > 200` breaks only on the 202nd.
- `_norm` in `main.js` is not idempotent. Blanking punctuation can leave a run of spaces (`MenuMatch.NormNotIdempotent`). `normalize` in `search-wrapper.js` is idempotent in the model (`Text.NormalizeIdempotent`), but only because the model takes `normalize('NFKC')` to be the identity. With real NFKC after the lower-casing it is not: `ℍ` (U+210D) has no lower-case form, so a first pass gives `H` and a second gives `h`.

`Tokens`, `Score` and `FindBestLabel` in `MenuMatch` follow `_norm` as written, with its mis-encoded quote classes (see Findings). `TokensCorrected`, `ScoreCorrected` and `FindBestLabelCorrected` use the intended quote replacement. The lemmas about tokens and scores take the quote replacement as a parameter, so they hold for both.

After a search with no match, `rendered` keeps the depth of the previous search, while depth 0 is saved (search-wrapper.js:376-384). Nothing reads `rendered` before the next search assigns it: the "Load more" button exists only while results are shown. So the model keeps this as written and `SearchSession.Valid` allows it.

## Model

| member | source | states |
|---|---|---|
| Text.LowerChar | search-wrapper.js:21 | the result is never an upper-case letter; an upper-case letter moves 32 code points up, to its lower-case letter, anything else is unchanged |
| Text.Lower | search-wrapper.js:21 | same length, each character lower-cased on its own |
| Text.LowerOfLowerCase | search-wrapper.js:21 | lower-casing text without upper-case letters changes nothing |
| Text.Trim | search-wrapper.js:21 | the result is the part of the input between its leading and its trailing whitespace, and neither starts nor ends with whitespace |
| Text.TrimOfTrimmed | search-wrapper.js:358 | text that neither starts nor ends with whitespace trims to itself |
| Text.TrimIdempotent | search-wrapper.js:358 | trimming twice is trimming once |
| Text.Normalize | search-wrapper.js:21 | the normalised text is lower-case without surrounding whitespace |
| Text.NormalizeIdempotent | search-wrapper.js:21 | normalising twice is normalising once |
| Text.RunEnd | search-wrapper.js:22 | the end of the separator-free run starting at `i`: no separator before it, a separator at it unless at the end |
| Text.Split | search-wrapper.js:22 | every piece is non-empty and holds no separator |
| Text.SplitKeepsContent | search-wrapper.js:22 | the pieces, concatenated, are exactly the non-separator characters in order |
| Text.KeptOfRun | search-wrapper.js:22 | dropping separators from a separator-free prefix keeps that prefix |
| Text.Tokenize | search-wrapper.js:22 | tokens are non-empty and hold none of the query separators `\s , . / - _ : ; ( )` |
| Text.IndexFrom | search-wrapper.js:99 | the first occurrence at or after `k`, or -1 when none from `k` on |
| Text.IndexOf | search-wrapper.js:99 | `indexOf`: the first occurrence, and -1 exactly when the word does not occur |
| Text.ContainsAt | search-wrapper.js:194 | an occurrence at any position means `includes` holds |
| Text.StartsWithContains | search-wrapper.js:141-142 | a text that starts with the query also includes it |
| Text.StrLessIrreflexive | search-wrapper.js:215 | the string order never puts a string before itself |
| Text.StrLessTransitive | search-wrapper.js:215 | the string order is transitive |
| Text.StrLessTotal | search-wrapper.js:215 | of two different strings, one comes first |
| Text.StrLessAsymmetric | search-wrapper.js:215 | two strings never come before each other |
| Html.ReplaceAll | search-wrapper.js:19-20 | replacing a character that does not occur changes nothing |
| Html.ReplaceAllAppend | search-wrapper.js:19-20 | replacing all of a character distributes over concatenation |
| Html.EscAppend | search-wrapper.js:18-20 | escaping distributes over concatenation |
| Html.EscOneChar | search-wrapper.js:18-20 | the chain of five replacements turns one character into its entity, with `&` replaced first so nothing is escaped twice |
| Html.EscIsPerChar | search-wrapper.js:18-20 | `esc` is per-character escaping |
| Html.EscEachNoRawSpecial | search-wrapper.js:18-20 | per-character escaping leaves no raw `<`, `>`, `"` or `'` |
| Html.EscNoRawSpecial | search-wrapper.js:18-20 | escaped text holds no raw `<`, `>`, `"` or `'` |
| Html.UnescapeEscChar | search-wrapper.js:18-20 | each entity decodes back to its character, whatever follows |
| Html.UnescapeEscEach | search-wrapper.js:18-20 | decoding undoes per-character escaping |
| Html.EscRoundTrip | search-wrapper.js:18-20 | decoding the five entities gives back the original text |
| Html.FirstAlternativeFrom | search-wrapper.js:26-27 | the first word from `k` on that matches case-insensitively at the front, and none before it |
| Html.FirstAlternative | search-wrapper.js:26-27 | the alternation picks the first listed word that matches at this position, or none matches |
| Html.HighlightNoWords | search-wrapper.js:25 | with no words, highlighting is plain escaping |
| Html.RemoveMarkersPlain | search-wrapper.js:28 | text without `<` passes through marker removal unchanged |
| Html.RemoveOpen | search-wrapper.js:28 | an opening marker is removed |
| Html.RemoveClose | search-wrapper.js:28 | a closing marker is removed |
| Html.MarkRoundTrip | search-wrapper.js:28 | removing the `<mark>` tags from the marked text gives the text back |
| Html.HighlightRoundTrip | search-wrapper.js:24-29 | removing the tags from the highlighted text gives exactly the escaped text |
| Html.MarkNoMatch | search-wrapper.js:27-28 | where no word matches anywhere, nothing is marked |
| EditDistance.Min3 | search-wrapper.js:42-46 | `Math.min` of three: no more than any of them, and equal to one of them |
| EditDistance.Min3Swap | search-wrapper.js:42-46 | the minimum ignores the order of the first two |
| EditDistance.LevEmpty | search-wrapper.js:35 | the distance to the empty string is the other length |
| EditDistance.LevSelf | search-wrapper.js:33 | a word is at distance 0 from itself |
| EditDistance.LevZeroIff | search-wrapper.js:33 | distance 0 exactly for equal words |
| EditDistance.LevSymmetric | search-wrapper.js:32-51 | the distance is symmetric |
| EditDistance.LevLengthDifference | search-wrapper.js:84 | the distance is at least the length difference, so the length prefilter drops no word within `maxDist` |
| EditDistance.LevAtMostLonger | search-wrapper.js:32-51 | the distance is at most the longer length |
| EditDistance.DistSelf | search-wrapper.js:33 | equal prefixes are at distance 0 |
| EditDistance.DistSymStep | search-wrapper.js:42-46 | the recurrence step is symmetric when its three inputs are |
| EditDistance.DistSymmetric | search-wrapper.js:32-51 | the prefix distance is symmetric |
| EditDistance.DistZeroIff | search-wrapper.js:33 | the prefix distance is 0 exactly for equal prefixes |
| EditDistance.DistLengthDifference | search-wrapper.js:84 | the prefix distance is at least the difference of the prefix lengths |
| EditDistance.DistAtMostLonger | search-wrapper.js:32-51 | the prefix distance is at most the longer prefix length |
| EditDistance.RowStep | search-wrapper.js:41-47 | one cell update of the row gives the distance of those prefixes |
| EditDistance.NextRow | search-wrapper.js:38-49 | one pass of the outer loop turns the array row for `i-1` into the row for `i` |
| EditDistance.Levenshtein | search-wrapper.js:32-51 | the array computation returns the edit distance |
| Dictionary.Prefix | search-wrapper.js:65 | `slice(0, 2000)`: a prefix of at most 2000 characters, the whole text when shorter |
| Dictionary.ScannedTokens | search-wrapper.js:65-68 | the transcript tokens scanned: a prefix of the tokens of the first 2000 characters, at most 201 of them, all when there are at most 200 |
| Dictionary.Keep | search-wrapper.js:64 | a word is kept exactly when it is in the list and passes the length (and stop-word) test |
| Dictionary.CountsStep | search-wrapper.js:61 | counting one more word is one `bump` |
| Dictionary.CountsFromAppend | search-wrapper.js:60-61 | counting two lists in turn is counting their concatenation |
| Dictionary.CountsAreOccurrences | search-wrapper.js:60-61 | the keys are the words seen, each counted as often as it occurs |
| Dictionary.KeepStep | search-wrapper.js:64 | filtering one more word appends it exactly when it passes |
| Dictionary.IndexWordsStep | search-wrapper.js:63-71 | one more record appends its words |
| Dictionary.ChipWordsStep | search-wrapper.js:72 | one more chip appends its kept tokens |
| Dictionary.BumpTitleWords | search-wrapper.js:64 | the title loop bumps exactly the title tokens of three or more characters |
| Dictionary.BumpTranscriptWords | search-wrapper.js:66-70 | among the first 201 transcript tokens, the loop bumps those with four or more characters that are not stop words |
| Dictionary.BumpRecord | search-wrapper.js:63-71 | one record's title and transcript words are bumped, in order |
| Dictionary.BumpChipWords | search-wrapper.js:72 | the suggestion chips' tokens of three or more characters are bumped |
| Dictionary.BuildDictionary | search-wrapper.js:59-74 | the map holds the counts of the dictionary words in source order |
| Dictionary.RecordWordsMembers | search-wrapper.js:64-70 | a record supplies a word exactly through its title or its scanned transcript |
| Dictionary.FromTitleSnoc | search-wrapper.js:63-64 | a title word of a longer index comes from the shorter index or from the new record |
| Dictionary.FromTranscriptSnoc | search-wrapper.js:63-70 | a transcript word of a longer index comes from the shorter index or from the new record |
| Dictionary.FromChipsSnoc | search-wrapper.js:72 | a chip word of a longer chip list comes from the shorter list or from the new chip |
| Dictionary.IndexWordsMembers | search-wrapper.js:63-71 | the index words are exactly the title and transcript words of some record |
| Dictionary.ChipWordsMembers | search-wrapper.js:72 | the chip words are exactly the kept tokens of some chip |
| Dictionary.DictionaryKeys | search-wrapper.js:59-74 | the keys are exactly the words from titles (three or more characters), scanned transcripts (four or more characters, not a stop word) or chips; each counts at least 1; a word only from transcripts is never a stop word |
| Corrections.BeforeStrictOrder | search-wrapper.js:88 | the candidate comparator is irreflexive and transitive |
| Corrections.BeforeTotal | search-wrapper.js:88 | of two candidates for different words, one sorts first |
| Corrections.CollectCandidates | search-wrapper.js:81-87 | the candidates are exactly the eligible words: in the dictionary, not the query word, within `maxDist` edits |
| Corrections.FirstWords | search-wrapper.js:90-91 | at most five distinct words, taken in candidate order; with fewer than five, every candidate word is in |
| Corrections.SuggestCorrections | search-wrapper.js:76-93 | nothing for an empty, spaced or shorter-than-three word; otherwise at most five distinct eligible words in comparator order, and an eligible word is left out only when five better ones are listed |
| Sorting.Insert | search-wrapper.js:213-215 | inserting adds exactly one element |
| Sorting.Sort | search-wrapper.js:213-215 | the sort is a permutation |
| Sorting.InsertSorted | search-wrapper.js:213-215 | inserting into a sorted list keeps it sorted |
| Sorting.SortSorted | search-wrapper.js:213-215 | under a strict order, the output is sorted |
| Sorting.InsertStable | search-wrapper.js:213-215 | inserting a later element after its equals keeps ties in input order |
| Sorting.SortStable | search-wrapper.js:213-215 | elements the comparator ties keep their input order, as `Array.prototype.sort` guarantees |
| Snippet.EarliestIndex | search-wrapper.js:97-101 | the earliest index found is within the text |
| Snippet.EarliestIndexIsMinimum | search-wrapper.js:97-101 | `bestIdx` is some word's first match and no later than any other word's; none exactly when no word occurs |
| Snippet.EarliestMatch | search-wrapper.js:97-101 | the loop computes the earliest index |
| Snippet.Chunks | search-wrapper.js:102 | each sentence match is non-empty and ends at its only `.`, `!` or `?` |
| Snippet.ChunksStep | search-wrapper.js:102 | the sentences are the first one up to its terminator, then the sentences of the rest |
| Snippet.ChunksCover | search-wrapper.js:102 | the sentences, joined, are a prefix of the text whose remainder has no terminator; none exactly when the text has no terminator |
| Snippet.Sentences | search-wrapper.js:102 | `match(...) \|\| [source]` is never empty |
| Snippet.FirstCoveringFrom | search-wrapper.js:103 | the first sentence from `k` on that holds every word, and none before it |
| Snippet.FirstCovering | search-wrapper.js:103 | `find`: the first sentence holding every word, and no earlier one does |
| Snippet.WindowStart | search-wrapper.js:106 | the window starts at most 90 before the base, and at 0 exactly when the base is within 90 |
| Snippet.WindowEnd | search-wrapper.js:107 | the window ends at most 90 after the base, and at the end exactly when that is within 90 |
| Snippet.WindowLength | search-wrapper.js:105-108 | the fallback excerpt has at most 182 characters, ellipses included |
| Snippet.WindowShowsMatch | search-wrapper.js:105-108 | a word of at most 90 characters found at the base is inside the fallback excerpt |
| Snippet.TrimKeepsQuote | search-wrapper.js:110 | trimming keeps a quote mark |
| Snippet.QuoteIdempotent | search-wrapper.js:110 | the quoted excerpt holds a quote mark, so quoting again changes nothing |
| Snippet.Base | search-wrapper.js:105 | the base position lies within the text |
| Snippet.ExcerptIsFirstCoveringSentence | search-wrapper.js:103 | the first non-empty sentence holding every word is the excerpt |
| Snippet.ExcerptIsWindow | search-wrapper.js:104-109 | with no sentence holding every word, the excerpt is the window around the earliest match |
| Snippet.SnippetText | search-wrapper.js:95-112 | removing the `<mark>` tags and decoding the entities of the snippet gives the quoted excerpt |
| Snippet.MakeSnippet | search-wrapper.js:95-112 | the method computes the snippet |
| Scoring.NormalizeAll | search-wrapper.js:119 | the keywords, each normalised |
| Scoring.CountMatches | search-wrapper.js:152 | the inner loop counts the query tokens equal to the keyword |
| Scoring.ScoreKeywords | search-wrapper.js:148-153 | the keyword loop computes the keyword points, skipping empty keywords |
| Scoring.ScoreTokens | search-wrapper.js:156-168 | the token loop computes the token points, starting with no previous body index |
| Scoring.ComputeScore | search-wrapper.js:115-177 | the method returns the sum of the title, body, keyword, token and section points |
| Scoring.TitlePointsLevels | search-wrapper.js:140-142 | the title earns 235 exactly when it equals the query, at least 115 exactly when it starts with it, at least 45 exactly when it includes it, and nothing but 0, 45, 115 or 235 |
| Scoring.CountEqualIsOccurrences | search-wrapper.js:152 | the count is the number of occurrences of the keyword among the tokens |
| Scoring.CountAtMostLength | search-wrapper.js:152 | the count is at most the number of tokens |
| Scoring.KeywordPointsBound | search-wrapper.js:150-152 | one keyword earns at most 27 plus 6 per query token |
| Scoring.KeywordScoreBound | search-wrapper.js:148-153 | the keywords earn at most (27 + 6 per token) each |
| Scoring.TokenScoreBound | search-wrapper.js:159-168 | each query token earns at most 28 |
| Scoring.TokenScorePositive | search-wrapper.js:159-168 | the tokens earn points exactly when some token is a title token or occurs in the body |
| Scoring.ExactTitleScore | search-wrapper.js:140-142 | a title equal to the joined query gets all three title bonuses, so the score is at least 235 |
| Scoring.ScoreBound | search-wrapper.js:115-177 | the score is at most 263 + (27 + 6t)k + 28t + 12, for t tokens and k keywords |
| Ranking.Layer | search-wrapper.js:207 | the displayed layer is never empty |
| Ranking.AheadStrictWeakOrder | search-wrapper.js:213-215 | the result comparator is a strict weak order, so the sort is well defined |
| Ranking.KeptEntriesMembers | search-wrapper.js:185-210 | the collected entries are exactly those of the accepted records, in index order |
| Ranking.ScoredMembers | search-wrapper.js:184-210 | `scored` holds exactly one entry per record that passes the prefilter and scores above 0, in index order |
| Ranking.RankedProperties | search-wrapper.js:180-218 | no tokens give no results; otherwise the results are exactly the kept records, each once, with score above 0 and a non-empty layer, sorted by score desc, shorter layer first, then layer text, ties in index order |
| Ranking.RankedTop | search-wrapper.js:213-215 | no result ranks above the first |
| Ranking.RankedHits | search-wrapper.js:193-195 | every query token occurs in each result's lower-cased title and body joined by a space |
| Ranking.ScoreOne | search-wrapper.js:186-209 | whether a record is kept, and its entry with score, layer and snippet when it is |
| Ranking.ScoreAll | search-wrapper.js:184-210 | the loop over the index builds `scored` |
| Ranking.RankedSearch | search-wrapper.js:180-218 | the method returns the ranked results |
| Session.BatchEndBounds | search-wrapper.js:222 | a batch started inside the list ends inside it, at most `count` further, short only at the end |
| Session.RenderBatch | search-wrapper.js:220-262 | renders exactly `items[start..end]` in order and returns `min(length, start + count)` |
| Session.RestoredDepthIs | search-wrapper.js:387-397 | with results, the depth is `min(saved depth, length)` when the saved query is this one and went past the first page, else the first page; always within the list |
| Session.RestoreOwnDepth | search-wrapper.js:390-397 | restoring a depth saved for the same query gives that depth back |
| Session.FirstPages | search-wrapper.js:386-397 | renders the first page and then the re-expansion, i.e. the first `depth` results |
| Session.LoadDepthIs | search-wrapper.js:318-323 | `k` clicks on "Load more" from depth `d` reach `min(length, d + 3k)` |
| Session.SearchSession.constructor | search-wrapper.js:282-287 | the dictionary is built from the index and nothing is searched yet |
| Session.SearchSession.DoSearchNow | search-wrapper.js:357-401 | the trimmed input becomes the query. An empty query shows the chips and saves depth 0. No match saves depth 0 and offers the corrections. Otherwise it shows the first results up to the restored depth, with "Load more" while results remain. The state stays valid, and rerunning the current query keeps its depth |
| Session.SearchSession.LoadMore | search-wrapper.js:307-323 | renders the next batch of up to three, saves the new depth, and offers the button again while results remain |
| Session.SearchSession.Enter | search-wrapper.js:409-414 | navigates to the top result's layer, which no other result outranks, and does nothing without results |
| Session.SearchSession.Mount | search-wrapper.js:418-422 | the saved query replaces the input, and the search runs at once with the saved depth restored |
| MenuMatch.MapChars | main.js:25-28 | a character-by-character replacement keeps the length |
| MenuMatch.DropSpaces | main.js:27 | what remains after a whitespace run starts with no whitespace |
| MenuMatch.CollapseSpaces | main.js:27 | every whitespace character left is a plain space, non-space text keeps its first character, and only empty text collapses to empty |
| MenuMatch.CollapseSpacesSingle | main.js:27 | no two spaces are left side by side |
| MenuMatch.NormChars | main.js:23-29 | normalised text holds only letters, numbers, straight quotes and plain spaces |
| MenuMatch.SplitChars | main.js:31 | splitting keeps only characters of the split text |
| MenuMatch.TokensShape | main.js:23-31 | for any quote replacement, the as-written one included, tokens are non-empty and made of letters, numbers and straight quotes |
| MenuMatch.NoNbsp | main.js:26 | text without `&` has no `&nbsp;` to replace |
| MenuMatch.CollapseSingleSpaced | main.js:27 | text already single-spaced with plain spaces collapses to itself |
| MenuMatch.NormOfPlain | main.js:23-29 | lower-case single-spaced text without `&` only has its characters blanked and is trimmed |
| MenuMatch.NormNotIdempotent | main.js:23-29 | for any quote replacement that leaves letters, spaces and dashes alone, `"a - b"` normalises to `"a   b"`, which normalises to `"a b"` |
| MenuMatch.NormAsWrittenNotIdempotent | main.js:23-29 | `_norm` as written normalises `"a - b"` to `"a   b"` and that to `"a b"` |
| MenuMatch.NormAsWrittenMissesCurlyQuotes | main.js:25 | as written, `“a”` normalises to `a` while `"a"` keeps its quotes, and `â` becomes `"` |
| MenuMatch.NormIgnoresQuoteStyle | main.js:25 | with curly quotes replaced, curly and straight quotes normalise alike |
| MenuMatch.NormKeepsCurlyQuotes | main.js:25 | with curly quotes replaced, `“a”` normalises to `"a"` |
| MenuMatch.RunEndOfWord | main.js:31 | a space-free word followed by a space splits off as exactly that word |
| MenuMatch.SplitJoin | main.js:31-38 | splitting space-joined non-empty space-free tokens gives them back |
| MenuMatch.JoinInjective | main.js:38 | such token lists join to the same text exactly when they are equal |
| MenuMatch.TokensSpaceless | main.js:23-31 | for any quote replacement, the as-written one included, tokens are non-empty and space-free |
| MenuMatch.Hits | main.js:40-41 | the hits are at most the wanted tokens |
| MenuMatch.RoundedIsNearest | main.js:42-49 | the rounded coverage is the integer nearest 80·hits/n, halves up, and at most 80 |
| MenuMatch.RoundedWhole | main.js:42-49 | full coverage rounds to 80 |
| MenuMatch.AllHits | main.js:40-41 | when every wanted token is a label token, all of them are hits |
| MenuMatch.TokenScoreRange | main.js:36-49 | on token lists: 0 when either is empty, 100 exactly when they are equal and non-empty, otherwise at most 83 |
| MenuMatch.ScoreRange | main.js:23-50 | for any quote replacement, the as-written one included, `_score` is 0 when either side has no tokens, 100 exactly when both sides have the same tokens, otherwise at most 83 |
| MenuMatch.PrefixTokenScore | main.js:40-49 | a label holding every wanted token and starting with the wanted text scores at least 83 |
| MenuMatch.ScoreOfPrefixLabel | main.js:23-50 | for any quote replacement, the as-written one included, a label holding every wanted token and starting with the wanted text scores at least 83 |
| MenuMatch.CurlyApostropheScores | main.js:25-50 | as written, `’x` and `'x` score 0 against each other, since the curly apostrophe is blanked; with the intended replacement they score 100 |
| MenuMatch.BestLabel | main.js:71-79 | the first label with the highest score, when that score is at least 60; else none, and every label scores below 60 |
| MenuMatch.FindBestLabel | main.js:60-79 | after the alias lookup, the first best-scoring label when its `_score` (on `_norm` as written) reaches 60; none when every label scores below 60 |
| MenuMatch.FindBestLabelCorrected | main.js:60-79 | the same choice, with scores on the intended quote replacement |

## Left out

- DOM work is not modelled: building the result nodes and the template, the separators, the chips, the "No match found." block, `hideSuggestions`, focus and the close button. A search produces a `View` value instead.
- The debounce (`setTimeout`) is not modelled. A search is `DoSearchNow` on the input text at the moment the debounced call fires.
- sessionStorage and JSON are a field holding `Option<Saved>`. A missing, unparsable or throwing entry is `None`. A failed `setItem` is not modelled.
- `navigate` and `close` are callbacks the model does not call. `Enter` returns the layer it would navigate to.
- `window.ACTIVE_SECTION` is a constant of the session, read by every score.
- `search-wrapper-loader.js` and `tutorial-transcript.js` are not part of this model. They only load the script and fill `TUTORIAL_INDEX`.
- Unicode is approximated:
  - `toLowerCase` maps ASCII and Latin-1 upper-case letters only.
  - `normalize('NFKC')` is the identity.
  - `\p{L}`/`\p{N}` are the letters and numbers up to U+024F.
  - Strings are sequences of Unicode code points. JavaScript counts `length` and positions in UTF-16 code units, which differ beyond U+FFFF.
- `localeCompare` is replaced by lexicographic order by code point. It differs from the locale's collation (which, for instance, puts `a` before `B`), and from UTF-16 code-unit order for characters beyond U+FFFF. The two sorts are modelled on values, by a stable insertion sort with the same comparators. The order of `dict.entries()` does not matter, because the comparator is total on distinct words.
- `MenuMatch.RoundedIsNearest`: the coverage is rounded in exact integer arithmetic. Floating-point error in `hits / b.length * 80` at exact halves is not modelled.
- `findMenuItemByTitleSmart`: the fast path through `data-section`/`data-title` selectors is not modelled, nor `CSS.escape`. The label of each `<li>` is an input: its `data-section`, `data-title` or text.
- `MenuMatch.Wanted`: keys inherited from `Object.prototype` in `TITLE_ALIASES` are not modelled.
- `recencyBonus` is defined but never used by `computeScore`, so it has no counterpart.
- `Html.Highlight`: the alternation runs over the escaped text, so a word can match inside an entity such as `&amp;`. The model reproduces this. `Html.HighlightRoundTrip` covers only the text the markers wrap, not visual correctness.
- `Ranking.Match` keeps the record's index position `at`, which the source does not store, only to state stability.

## Findings

| source | as written | input that shows it | evidently intended | confidence | as-written member | corrected member |
|---|---|---|---|---|---|---|
| main.js:25 | the smart-quote classes hold the Windows-1252 reading of the UTF-8 bytes of the curly quotes (`â`, `€`, `œ`, `˜`, `™`), so curly quotes are blanked as punctuation and `â` becomes `"` | `“a”` normalises to `a` while `"a"` stays `"a"`; `â` normalises to `"`; `’x` and `'x` score 0 against each other (`MenuMatch.CurlyApostropheScores`) | curly double and single quotes replaced by straight ones | not executed | MenuMatch.NormAsWrittenMissesCurlyQuotes | MenuMatch.NormKeepsCurlyQuotes |
