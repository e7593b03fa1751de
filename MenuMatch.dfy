/**
 * The fuzzy sidebar matcher of main.js: `_norm`, `_tokens`, `_score`, the
 * `TITLE_ALIASES` lookup and the best-label choice of
 * `findMenuItemByTitleSmart`, taken over a list of labels.
 */
module MenuMatch {
  import opened Wrappers
  import opened Text

  // ---------- characters ----------

  /**
   * `\p{L}` or `\p{N}`, for the letters and numbers of Basic Latin, Latin-1
   * and Latin Extended-A/B (U+0000 to U+024F); nothing beyond that range.
   */
  predicate IsLetterOrNumber(c: char) {
    ('a' <= c <= 'z') || ('A' <= c <= 'Z') || ('0' <= c <= '9')
    || c == '\U{00AA}' || c == '\U{00B2}' || c == '\U{00B3}' || c == '\U{00B5}'
    || c == '\U{00B9}' || c == '\U{00BA}' || ('\U{00BC}' <= c <= '\U{00BE}')
    || ('\U{00C0}' <= c <= '\U{024F}' && c != '\U{00D7}' && c != '\U{00F7}')
  }

  /** A character `_norm` keeps: a letter, a number, a straight quote, or whitespace. */
  predicate IsKept(c: char) {
    IsLetterOrNumber(c) || IsSpace(c) || c == '\'' || c == '"'
  }

  /** A character a token may hold: a letter, a number or a straight quote. */
  predicate IsTokenChar(c: char) {
    IsLetterOrNumber(c) || c == '\'' || c == '"'
  }

  /**
   * The two quote replacements of main.js:25 as they stand in the file:
   * their classes hold the characters of the UTF-8 bytes of the curly quotes
   * read as Windows-1252, so the first maps a-circumflex, the euro sign and
   * the oe ligature to `"`, and the second (whose a-circumflex and euro sign
   * are gone by then) maps the small tilde and the trade mark sign to `'`.
   */
  function FoldQuoteAsWritten(c: char): char {
    var c1 := if c == '\U{00E2}' || c == '\U{20AC}' || c == '\U{0153}' then '"' else c;
    if c1 == '\U{00E2}' || c1 == '\U{20AC}' || c1 == '\U{02DC}' || c1 == '\U{2122}' then '\'' else c1
  }

  /** The evidently intended replacements: curly double quotes to `"`, curly single quotes to `'`. */
  function FoldQuote(c: char): char {
    if c == '\U{201C}' || c == '\U{201D}' then '"'
    else if c == '\U{2018}' || c == '\U{2019}' then '\''
    else c
  }

  // ---------- the steps of _norm ----------

  function MapChars(s: string, f: char -> char): (r: string)
    ensures |r| == |s| && forall i :: 0 <= i < |s| ==> r[i] == f(s[i])
  {
    seq(|s|, i requires 0 <= i < |s| => f(s[i]))
  }

  /** `.replace(/&nbsp;/g, ' ')`, left to right. */
  function ReplaceNbsp(s: string): string
    decreases |s|
  {
    if |s| >= 6 && s[..6] == "&nbsp;" then " " + ReplaceNbsp(s[6..])
    else if s == [] then []
    else [s[0]] + ReplaceNbsp(s[1..])
  }

  /** `s` without its leading whitespace. */
  function DropSpaces(s: string): (r: string)
    ensures |r| <= |s|
    ensures r == [] || !IsSpace(r[0])
  {
    if s != [] && IsSpace(s[0]) then DropSpaces(s[1..]) else s
  }

  /** `.replace(/\s+/g, ' ')`: each run of whitespace becomes one space. */
  function CollapseSpaces(s: string): (r: string)
    ensures forall i :: 0 <= i < |r| && IsSpace(r[i]) ==> r[i] == ' '
    ensures s != [] && !IsSpace(s[0]) ==> r != [] && r[0] == s[0]
    ensures s == [] <==> r == []
    decreases |s|
  {
    if s == [] then []
    else if IsSpace(s[0]) then " " + CollapseSpaces(DropSpaces(s[1..]))
    else [s[0]] + CollapseSpaces(s[1..])
  }

  /** `.replace(/[^\p{L}\p{N}\s'"]/gu, ' ')`, for one character. */
  function Blank(c: char): char {
    if IsKept(c) then c else ' '
  }

  /** `_norm` with the quote replacement `fold`. */
  function NormWith(s: string, fold: char -> char): string {
    Trim(MapChars(CollapseSpaces(ReplaceNbsp(MapChars(Lower(s), fold))), Blank))
  }

  /** `_norm` as written. */
  function NormAsWritten(s: string): string {
    NormWith(s, FoldQuoteAsWritten)
  }

  /** `_norm` with the intended quote replacement. */
  function Norm(s: string): string {
    NormWith(s, FoldQuote)
  }

  predicate IsBlank(c: char) {
    c == ' '
  }

  /** `_norm(s).split(' ').filter(Boolean)`, with the quote replacement `fold`. */
  function TokensWith(s: string, fold: char -> char): seq<string> {
    Split(NormWith(s, fold), IsBlank)
  }

  /** `_tokens`, on top of `_norm` as written. */
  function Tokens(s: string): seq<string> {
    TokensWith(s, FoldQuoteAsWritten)
  }

  /** `_tokens` with the intended quote replacement. */
  function TokensCorrected(s: string): seq<string> {
    TokensWith(s, FoldQuote)
  }

  // ---------- what _norm and _tokens produce ----------

  /** Collapsing leaves every whitespace character a plain space, and no two spaces side by side. */
  lemma {:induction false} CollapseSpacesSingle(s: string)
    ensures forall i :: 0 <= i < |CollapseSpaces(s)| - 1 ==> !(CollapseSpaces(s)[i] == ' ' && CollapseSpaces(s)[i + 1] == ' ')
    decreases |s|
  {
    if s != [] {
      var r := CollapseSpaces(s);
      if IsSpace(s[0]) {
        var t := DropSpaces(s[1..]);
        CollapseSpacesSingle(t);
        assert r == " " + CollapseSpaces(t);
        if |r| > 1 {
          assert r[1] == t[0];
        }
      } else {
        CollapseSpacesSingle(s[1..]);
        assert r == [s[0]] + CollapseSpaces(s[1..]);
      }
    }
  }

  /** A normalised string holds nothing but token characters and plain spaces. */
  lemma NormChars(s: string, fold: char -> char)
    ensures forall i :: 0 <= i < |NormWith(s, fold)| ==> NormWith(s, fold)[i] == ' ' || IsTokenChar(NormWith(s, fold)[i])
  {
    var c := CollapseSpaces(ReplaceNbsp(MapChars(Lower(s), fold)));
    var m := MapChars(c, Blank);
    assert forall i :: 0 <= i < |m| ==> m[i] == ' ' || IsTokenChar(m[i]);
    var n := LeadingSpaces(m);
    forall i | 0 <= i < |Trim(m)|
      ensures Trim(m)[i] == ' ' || IsTokenChar(Trim(m)[i])
    {
      assert Trim(m)[i] == m[n + i];
    }
  }

  /** Splitting keeps only characters of the split string. */
  lemma {:induction false} SplitChars(s: string, sep: char -> bool, ok: char -> bool)
    requires forall i :: 0 <= i < |s| ==> sep(s[i]) || ok(s[i])
    ensures forall k, i :: 0 <= k < |Split(s, sep)| && 0 <= i < |Split(s, sep)[k]| ==> ok(Split(s, sep)[k][i])
    decreases |s|
  {
    if s != [] {
      if sep(s[0]) {
        SplitChars(s[1..], sep, ok);
      } else {
        var j := RunEnd(s, sep, 0);
        SplitChars(s[j..], sep, ok);
        assert Split(s, sep) == [s[..j]] + Split(s[j..], sep);
      }
    }
  }

  /** Every token is non-empty and made of letters, numbers and straight quotes only, whatever the quote replacement. */
  lemma TokensShape(s: string, fold: char -> char)
    ensures forall k :: 0 <= k < |TokensWith(s, fold)| ==> TokensWith(s, fold)[k] != []
    ensures forall k, i :: 0 <= k < |TokensWith(s, fold)| && 0 <= i < |TokensWith(s, fold)[k]| ==> IsTokenChar(TokensWith(s, fold)[k][i])
  {
    NormChars(s, fold);
    SplitChars(NormWith(s, fold), IsBlank, IsTokenChar);
  }

  // ---------- the quote replacement (finding) ----------

  /** Straight quotes in place of curly ones. */
  function Straighten(s: string): string {
    MapChars(s, FoldQuote)
  }

  /** With the intended replacement, curly and straight quotes normalise alike. */
  lemma NormIgnoresQuoteStyle(s: string)
    ensures Norm(Straighten(s)) == Norm(s)
  {
    assert MapChars(Lower(Straighten(s)), FoldQuote) == MapChars(Lower(s), FoldQuote);
  }

  /** As written, a curly-quoted word loses its quotes where a straight-quoted one keeps them, and a-circumflex becomes a quote. */
  lemma NormAsWrittenMissesCurlyQuotes()
    ensures NormAsWritten("\U{201C}a\U{201D}") == "a"
    ensures NormAsWritten("\"a\"") == "\"a\""
    ensures NormAsWritten("\U{00E2}") == "\""
  {
    CurlyAsWritten();
    StraightAsWritten();
    CircumflexAsWritten();
  }

  lemma CurlyAsWritten()
    ensures NormAsWritten("\U{201C}a\U{201D}") == "a"
  {
    var s := "\U{201C}a\U{201D}";
    FoldCurlyAsWritten();
    NormOfPlain(s, FoldQuoteAsWritten, s);
    BlankCurly();
    TrimQuotedA();
  }

  lemma FoldCurlyAsWritten()
    ensures MapChars("\U{201C}a\U{201D}", FoldQuoteAsWritten) == "\U{201C}a\U{201D}"
  {
  }

  lemma BlankCurly()
    ensures MapChars("\U{201C}a\U{201D}", Blank) == " a "
  {
  }

  lemma TrimQuotedA()
    ensures Trim(" a ") == "a"
  {
    assert LeadingSpaces(" a ") == 1;
    assert TrailingStart("a ") == 1;
  }

  lemma StraightAsWritten()
    ensures NormAsWritten("\"a\"") == "\"a\""
  {
    var s := "\"a\"";
    FoldStraightAsWritten();
    NormOfPlain(s, FoldQuoteAsWritten, s);
    BlankStraight();
    TrimOfTrimmed(s);
  }

  lemma FoldStraightAsWritten()
    ensures MapChars("\"a\"", FoldQuoteAsWritten) == "\"a\""
  {
  }

  lemma BlankStraight()
    ensures MapChars("\"a\"", Blank) == "\"a\""
  {
  }

  lemma CircumflexAsWritten()
    ensures NormAsWritten("\U{00E2}") == "\""
  {
    FoldCircumflexAsWritten();
    NormOfPlain("\U{00E2}", FoldQuoteAsWritten, "\"");
    BlankQuote();
    TrimOfTrimmed("\"");
  }

  lemma FoldCircumflexAsWritten()
    ensures MapChars("\U{00E2}", FoldQuoteAsWritten) == "\""
  {
  }

  lemma BlankQuote()
    ensures MapChars("\"", Blank) == "\""
  {
  }

  /** With the intended replacement, the curly-quoted word keeps its quotes, as straight ones. */
  lemma NormKeepsCurlyQuotes()
    ensures Norm("\U{201C}a\U{201D}") == "\"a\""
  {
    FoldCurly();
    NormOfPlain("\U{201C}a\U{201D}", FoldQuote, "\"a\"");
    BlankStraight();
    TrimOfTrimmed("\"a\"");
  }

  lemma FoldCurly()
    ensures MapChars("\U{201C}a\U{201D}", FoldQuote) == "\"a\""
  {
  }

  /**
   * The effect on `_score`: as written, a label with a curly apostrophe
   * shares no token with the same text typed with a straight one, while the
   * intended replacement makes them the same.
   */
  lemma CurlyApostropheScores()
    ensures Score("\U{2019}x", "'x") == 0
    ensures ScoreCorrected("\U{2019}x", "'x") == 100
  {
    CurlyApostropheScoresAsWritten();
    CurlyApostropheScoresCorrected();
  }

  lemma CurlyApostropheScoresAsWritten()
    ensures Score("\U{2019}x", "'x") == 0
  {
    ApostropheTokensAsWritten();
    StraightTokens(FoldQuoteAsWritten);
    DifferentTokensScore();
  }

  lemma CurlyApostropheScoresCorrected()
    ensures ScoreCorrected("\U{2019}x", "'x") == 100
  {
    ApostropheTokensCorrected();
    StraightTokens(FoldQuote);
    assert Join(["'x"]) == "'x";
  }

  lemma ApostropheTokensAsWritten()
    ensures TokensWith("\U{2019}x", FoldQuoteAsWritten) == ["x"]
  {
    FoldApostropheAsWritten();
    NormOfPlain("\U{2019}x", FoldQuoteAsWritten, "\U{2019}x");
    BlankApostrophe();
    TrimLeadingBlank();
    SplitX();
  }

  lemma FoldApostropheAsWritten()
    ensures MapChars("\U{2019}x", FoldQuoteAsWritten) == "\U{2019}x"
  {
  }

  lemma BlankApostrophe()
    ensures MapChars("\U{2019}x", Blank) == " x"
  {
  }

  lemma TrimLeadingBlank()
    ensures Trim(" x") == "x"
  {
    assert LeadingSpaces(" x") == 1;
    assert TrailingStart("x") == 1;
  }

  lemma SplitX()
    ensures Split("x", IsBlank) == ["x"]
  {
    assert RunEnd("x", IsBlank, 0) == 1;
    assert "x"[..1] == "x" && "x"[1..] == [];
  }

  lemma ApostropheTokensCorrected()
    ensures TokensWith("\U{2019}x", FoldQuote) == ["'x"]
  {
    FoldApostrophe();
    NormOfPlain("\U{2019}x", FoldQuote, "'x");
    BlankStraightApostrophe();
    TrimOfTrimmed("'x");
    SplitStraightX();
  }

  lemma FoldApostrophe()
    ensures MapChars("\U{2019}x", FoldQuote) == "'x"
  {
  }

  lemma BlankStraightApostrophe()
    ensures MapChars("'x", Blank) == "'x"
  {
  }

  lemma SplitStraightX()
    ensures Split("'x", IsBlank) == ["'x"]
  {
    assert RunEnd("'x", IsBlank, 0) == 2;
    assert "'x"[..2] == "'x" && "'x"[2..] == [];
  }

  lemma StraightTokens(fold: char -> char)
    requires fold('\'') == '\'' && fold('x') == 'x'
    ensures TokensWith("'x", fold) == ["'x"]
  {
    assert MapChars("'x", fold) == "'x";
    NormOfPlain("'x", fold, "'x");
    BlankStraightApostrophe();
    TrimOfTrimmed("'x");
    SplitStraightX();
  }

  lemma DifferentTokensScore()
    ensures TokenScore(["x"], ["'x"]) == 0
  {
    assert Join(["x"]) == "x";
    assert Join(["'x"]) == "'x";
    assert Hits(["x"], ["'x"]) == 0;
    assert !Contains("x", "'x");
  }

  // ---------- evaluating _norm ----------

  lemma {:induction false} NoNbsp(s: string)
    requires forall i :: 0 <= i < |s| ==> s[i] != '&'
    ensures ReplaceNbsp(s) == s
  {
    if s != [] {
      assert |s| >= 6 ==> s[..6][0] != '&';
      NoNbsp(s[1..]);
      assert s == [s[0]] + s[1..];
    }
  }

  /** Whitespace that is already single plain spaces: collapsing changes nothing. */
  predicate SingleSpaced(s: string) {
    (forall i :: 0 <= i < |s| && IsSpace(s[i]) ==> s[i] == ' ')
    && (forall i :: 0 <= i < |s| - 1 ==> !(s[i] == ' ' && s[i + 1] == ' '))
  }

  lemma {:induction false} CollapseSingleSpaced(s: string)
    requires SingleSpaced(s)
    ensures CollapseSpaces(s) == s
  {
    if s != [] {
      assert SingleSpaced(s[1..]);
      CollapseSingleSpaced(s[1..]);
      if IsSpace(s[0]) {
        assert s[1..] == [] || !IsSpace(s[1]);
        assert DropSpaces(s[1..]) == s[1..];
      }
      assert s == [s[0]] + s[1..];
    }
  }

  /**
   * For a lower-case string whose quote replacement `folded` is
   * single-spaced and free of `&`, `_norm` only blanks characters and trims.
   */
  lemma NormOfPlain(s: string, fold: char -> char, folded: string)
    requires IsLowerCase(s) && MapChars(s, fold) == folded
    requires SingleSpaced(folded) && forall i :: 0 <= i < |folded| ==> folded[i] != '&'
    ensures NormWith(s, fold) == Trim(MapChars(folded, Blank))
  {
    LowerOfLowerCase(s);
    NoNbsp(folded);
    CollapseSingleSpaced(folded);
  }

  /**
   * `_norm` is not idempotent, for any quote replacement that leaves
   * letters, spaces and dashes alone (the one as written and the intended
   * one both do): blanking can create a run of spaces that a second pass
   * collapses.
   */
  lemma NormNotIdempotent(fold: char -> char)
    requires fold('a') == 'a' && fold(' ') == ' ' && fold('-') == '-' && fold('b') == 'b'
    ensures NormWith("a - b", fold) == "a   b" && NormWith("a   b", fold) == "a b"
  {
    NormDashed(fold);
    NormSpaced(fold);
  }

  /** The same for `_norm` as written. */
  lemma NormAsWrittenNotIdempotent()
    ensures NormAsWritten("a - b") == "a   b" && NormAsWritten("a   b") == "a b"
  {
    NormNotIdempotent(FoldQuoteAsWritten);
  }

  lemma NormDashed(fold: char -> char)
    requires fold('a') == 'a' && fold(' ') == ' ' && fold('-') == '-' && fold('b') == 'b'
    ensures NormWith("a - b", fold) == "a   b"
  {
    FoldDashed(fold);
    NormOfPlain("a - b", fold, "a - b");
    BlankDashed();
    TrimOfTrimmed("a   b");
  }

  lemma FoldDashed(fold: char -> char)
    requires fold('a') == 'a' && fold(' ') == ' ' && fold('-') == '-' && fold('b') == 'b'
    ensures MapChars("a - b", fold) == "a - b"
  {
  }

  lemma BlankDashed()
    ensures MapChars("a - b", Blank) == "a   b"
  {
  }

  lemma NormSpaced(fold: char -> char)
    requires fold('a') == 'a' && fold(' ') == ' ' && fold('b') == 'b'
    ensures NormWith("a   b", fold) == "a b"
  {
    var s := "a   b";
    LowerOfLowerCase(s);
    FoldSpaced(fold);
    NoNbsp(s);
    CollapseSpaced();
    BlankSpaced();
    TrimOfTrimmed("a b");
  }

  lemma FoldSpaced(fold: char -> char)
    requires fold('a') == 'a' && fold(' ') == ' ' && fold('b') == 'b'
    ensures MapChars("a   b", fold) == "a   b"
  {
  }

  lemma CollapseSpaced()
    ensures CollapseSpaces("a   b") == "a b"
  {
    assert DropSpaces("  b") == "b";
    assert CollapseSpaces("   b") == " " + CollapseSpaces("b");
  }

  lemma BlankSpaced()
    ensures MapChars("a b", Blank) == "a b"
  {
  }

  // ---------- joining tokens ----------

  /** Tokens that are non-empty and hold no space. */
  predicate Spaceless(ts: seq<string>) {
    forall k :: 0 <= k < |ts| ==> ts[k] != [] && forall i :: 0 <= i < |ts[k]| ==> ts[k][i] != ' '
  }

  lemma RunEndOfWord(t: string, rest: string)
    requires forall i :: 0 <= i < |t| ==> t[i] != ' '
    ensures RunEnd(t + rest, IsBlank, 0) == |t| || (rest != [] && !IsBlank(rest[0]))
    ensures rest != [] && IsBlank(rest[0]) ==> RunEnd(t + rest, IsBlank, 0) == |t|
  {
    var s := t + rest;
    assert forall k :: 0 <= k < |t| ==> s[k] == t[k];
    if rest != [] {
      assert s[|t|] == rest[0];
    }
  }

  /** Splitting the space-joined tokens on spaces gives the tokens back. */
  lemma {:induction false} SplitJoin(ts: seq<string>)
    requires Spaceless(ts)
    ensures Split(Join(ts), IsBlank) == ts
    decreases |ts|
  {
    if ts == [] {
    } else if |ts| == 1 {
      var t := ts[0];
      RunEndOfWord(t, []);
      assert t + [] == t;
      assert t[|t|..] == [];
    } else {
      var t := ts[0];
      var rest := " " + Join(ts[1..]);
      assert Spaceless(ts[1..]);
      SplitJoin(ts[1..]);
      var s := t + rest;
      assert Join(ts) == s;
      RunEndOfWord(t, rest);
      assert s[..|t|] == t;
      assert s[|t|..] == rest;
      assert rest[1..] == Join(ts[1..]);
      assert ts == [t] + ts[1..];
    }
  }

  /** Space-joining is one-to-one on such tokens. */
  lemma JoinInjective(a: seq<string>, b: seq<string>)
    requires Spaceless(a) && Spaceless(b)
    ensures Join(a) == Join(b) <==> a == b
  {
    SplitJoin(a);
    SplitJoin(b);
  }

  lemma TokensSpaceless(s: string, fold: char -> char)
    ensures Spaceless(TokensWith(s, fold))
  {
  }

  // ---------- _score ----------

  /** `b.filter(t => aset.has(t)).length`: the tokens of `b`, repeats included, that occur in `a`. */
  function Hits(a: seq<string>, b: seq<string>): (h: nat)
    ensures h <= |b|
  {
    if b == [] then 0 else (if b[0] in a then 1 else 0) + Hits(a, b[1..])
  }

  /** `Math.round(80 * h / n)`, in integer arithmetic. */
  function Rounded(h: nat, n: nat): nat
    requires n > 0
  {
    (160 * h + n) / (2 * n)
  }

  /** `Rounded` is the integer nearest to 80h/n, halves rounded up, and at most 80 for h <= n. */
  lemma RoundedIsNearest(h: nat, n: nat)
    requires n > 0
    ensures 2 * n * Rounded(h, n) <= 160 * h + n < 2 * n * Rounded(h, n) + 2 * n
    ensures h <= n ==> Rounded(h, n) <= 80
  {
    DivBounds(160 * h + n, 2 * n);
    if h <= n && Rounded(h, n) > 80 {
      MulMonotone(2 * n, 81, Rounded(h, n));
    }
  }

  lemma DivBounds(x: nat, d: nat)
    requires d > 0
    ensures d * (x / d) <= x < d * (x / d) + d
  {
  }

  lemma MulMonotone(d: nat, a: nat, b: nat)
    requires a <= b
    ensures d * a <= d * b
  {
  }

  /** `_score` on the token lists `a` of the label and `b` of the wanted title. */
  function TokenScore(a: seq<string>, b: seq<string>): nat {
    if a == [] || b == [] then 0
    else if Join(a) == Join(b) then 100
    else
      var aStr := Join(a);
      var bStr := Join(b);
      Rounded(Hits(a, b), |b|) + (if StartsWith(aStr, bStr) then 2 else 0) + (if Contains(aStr, bStr) then 1 else 0)
  }

  /** `_score(label, wanted)` with the quote replacement `fold`. */
  function ScoreWith(name: string, wanted: string, fold: char -> char): nat {
    TokenScore(TokensWith(name, fold), TokensWith(wanted, fold))
  }

  /** `_score(label, wanted)`, on top of `_norm` as written. */
  function Score(name: string, wanted: string): nat {
    ScoreWith(name, wanted, FoldQuoteAsWritten)
  }

  /** `_score(label, wanted)` with the intended quote replacement. */
  function ScoreCorrected(name: string, wanted: string): nat {
    ScoreWith(name, wanted, FoldQuote)
  }

  /**
   * On token lists: 0 when either is empty, 100 exactly when they are equal
   * and non-empty, and at most 83 otherwise.
   */
  lemma TokenScoreRange(a: seq<string>, b: seq<string>)
    requires Spaceless(a) && Spaceless(b)
    ensures a == [] || b == [] ==> TokenScore(a, b) == 0
    ensures TokenScore(a, b) == 100 <==> a != [] && a == b
    ensures TokenScore(a, b) != 100 ==> TokenScore(a, b) <= 83
  {
    JoinInjective(a, b);
    if a != [] && b != [] {
      RoundedIsNearest(Hits(a, b), |b|);
    }
  }

  /**
   * `_score` is 0 when either side has no tokens, 100 exactly when both
   * sides have the same tokens, and at most 83 otherwise, whatever the
   * quote replacement (the one as written included).
   */
  lemma ScoreRange(name: string, wanted: string, fold: char -> char)
    ensures var a := TokensWith(name, fold);
            var b := TokensWith(wanted, fold);
            (a == [] || b == [] ==> ScoreWith(name, wanted, fold) == 0)
            && (ScoreWith(name, wanted, fold) == 100 <==> a != [] && a == b)
            && (ScoreWith(name, wanted, fold) != 100 ==> ScoreWith(name, wanted, fold) <= 83)
  {
    TokensSpaceless(name, fold);
    TokensSpaceless(wanted, fold);
    TokenScoreRange(TokensWith(name, fold), TokensWith(wanted, fold));
  }

  /** Every token of `b` among those of `a`, and `a`'s text starting with `b`'s: a score of at least 83. */
  lemma PrefixTokenScore(a: seq<string>, b: seq<string>)
    requires b != [] && Spaceless(b) && StartsWith(Join(a), Join(b))
    requires forall k :: 0 <= k < |b| ==> b[k] in a
    ensures TokenScore(a, b) >= 83
  {
    assert a != [];
    if Join(a) != Join(b) {
      StartsWithContains(Join(a), Join(b));
      AllHits(a, b);
      RoundedWhole(|b|);
    }
  }

  /** A label with every wanted token and the wanted text at its start scores at least 83 (100 if it is the same), whatever the quote replacement. */
  lemma ScoreOfPrefixLabel(name: string, wanted: string, fold: char -> char)
    requires TokensWith(wanted, fold) != []
    requires StartsWith(Join(TokensWith(name, fold)), Join(TokensWith(wanted, fold)))
    requires forall k :: 0 <= k < |TokensWith(wanted, fold)| ==> TokensWith(wanted, fold)[k] in TokensWith(name, fold)
    ensures ScoreWith(name, wanted, fold) >= 83
  {
    TokensSpaceless(wanted, fold);
    PrefixTokenScore(TokensWith(name, fold), TokensWith(wanted, fold));
  }

  lemma RoundedWhole(n: nat)
    requires n > 0
    ensures Rounded(n, n) == 80
  {
    assert 160 * n + n == 2 * n * 80 + n;
    DivUnique(160 * n + n, 2 * n, 80, n);
  }

  lemma DivUnique(x: nat, d: nat, q: nat, r: nat)
    requires r < d && x == d * q + r
    ensures x / d == q
  {
    DivBounds(x, d);
    if x / d > q {
      MulMonotone(d, q + 1, x / d);
    } else if x / d < q {
      MulMonotone(d, x / d + 1, q);
    }
  }

  lemma {:induction false} AllHits(a: seq<string>, b: seq<string>)
    requires forall k :: 0 <= k < |b| ==> b[k] in a
    ensures Hits(a, b) == |b|
  {
    if b != [] {
      AllHits(a, b[1..]);
    }
  }

  // ---------- findMenuItemByTitleSmart ----------

  /** `TITLE_ALIASES`. */
  const TitleAliases: map<string, string> := map[
    "Project Attributes" := "Project Attributions",
    "Project Labels" := "Project Labels"
  ]

  /** `TITLE_ALIASES[title] || title || ''`. */
  function Wanted(title: string): string {
    if title in TitleAliases && TitleAliases[title] != [] then TitleAliases[title] else title
  }

  /** A label is accepted only at this score or above. */
  const Threshold := 60

  /**
   * The scoring loop of `findMenuItemByTitleSmart` over the labels of the
   * sidebar entries, with `score` for `_score(label, wanted)`: the position
   * of the first label with the highest score, when that score reaches the
   * threshold.
   */
  method BestLabel(labels: seq<string>, score: string -> nat) returns (best: Option<nat>)
    ensures best.Some? ==>
              best.value < |labels| && score(labels[best.value]) >= Threshold
              && (forall j :: 0 <= j < |labels| ==> score(labels[j]) <= score(labels[best.value]))
              && (forall j :: 0 <= j < best.value ==> score(labels[j]) < score(labels[best.value]))
    ensures best.None? ==> forall j :: 0 <= j < |labels| ==> score(labels[j]) < Threshold
  {
    best := None;
    var bestScore := 0;
    for i := 0 to |labels|
      invariant best.None? ==> bestScore == 0
      invariant best.Some? ==> best.value < i && bestScore == score(labels[best.value])
      invariant forall j :: 0 <= j < i ==> score(labels[j]) <= bestScore
      invariant best.Some? ==> forall j :: 0 <= j < best.value ==> score(labels[j]) < bestScore
    {
      var s := score(labels[i]);
      if s > bestScore {
        best := Some(i);
        bestScore := s;
      }
    }
    if bestScore < Threshold {
      best := None;
    }
  }

  /** `findMenuItemByTitleSmart(title)` past its fast path: the alias, then the best label for it, scored as written. */
  method FindBestLabel(title: string, labels: seq<string>) returns (best: Option<nat>)
    ensures best.Some? ==>
              var w := Wanted(title);
              best.value < |labels| && Score(labels[best.value], w) >= Threshold
              && (forall j :: 0 <= j < |labels| ==> Score(labels[j], w) <= Score(labels[best.value], w))
              && (forall j :: 0 <= j < best.value ==> Score(labels[j], w) < Score(labels[best.value], w))
    ensures best.None? ==> forall j :: 0 <= j < |labels| ==> Score(labels[j], Wanted(title)) < Threshold
  {
    var wanted := Wanted(title);
    best := BestLabel(labels, name => Score(name, wanted));
  }

  /** The same choice with the intended quote replacement. */
  method FindBestLabelCorrected(title: string, labels: seq<string>) returns (best: Option<nat>)
    ensures best.Some? ==>
              var w := Wanted(title);
              best.value < |labels| && ScoreCorrected(labels[best.value], w) >= Threshold
              && (forall j :: 0 <= j < |labels| ==> ScoreCorrected(labels[j], w) <= ScoreCorrected(labels[best.value], w))
              && (forall j :: 0 <= j < best.value ==> ScoreCorrected(labels[j], w) < ScoreCorrected(labels[best.value], w))
    ensures best.None? ==> forall j :: 0 <= j < |labels| ==> ScoreCorrected(labels[j], Wanted(title)) < Threshold
  {
    var wanted := Wanted(title);
    best := BestLabel(labels, name => ScoreCorrected(name, wanted));
  }
}
