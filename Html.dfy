/**
 * HTML escaping (`esc`) and match highlighting (`highlight`) of
 * search-wrapper.js.  Highlighting runs the case-insensitive alternation of
 * the query words over the ALREADY escaped text and wraps each match in
 * `<mark>`…`</mark>`.
 */
module Html {
  import opened Wrappers
  import opened Text

  // ---------- esc ----------

  /** `s.replaceAll(c, rep)` for a one-character pattern. */
  function ReplaceAll(s: string, c: char, rep: string): (r: string)
    ensures c !in s ==> r == s
  {
    if s == [] then [] else (if s[0] == c then rep else [s[0]]) + ReplaceAll(s[1..], c, rep)
  }

  lemma {:induction false} ReplaceAllAppend(x: string, y: string, c: char, rep: string)
    ensures ReplaceAll(x + y, c, rep) == ReplaceAll(x, c, rep) + ReplaceAll(y, c, rep)
    decreases |x|
  {
    if x == [] {
      assert x + y == y;
    } else {
      assert (x + y)[1..] == x[1..] + y;
      ReplaceAllAppend(x[1..], y, c, rep);
    }
  }

  /** `esc`: five `replaceAll` calls in a row, `&` first. */
  function Esc(s: string): string {
    ReplaceAll(ReplaceAll(ReplaceAll(ReplaceAll(ReplaceAll(
      s, '&', "&amp;"), '<', "&lt;"), '>', "&gt;"), '"', "&quot;"), '\'', "&#039;")
  }

  /** The entity that escaping puts in place of one character. */
  function EscChar(c: char): string {
    if c == '&' then "&amp;"
    else if c == '<' then "&lt;"
    else if c == '>' then "&gt;"
    else if c == '"' then "&quot;"
    else if c == '\'' then "&#039;"
    else [c]
  }

  /** Character-by-character escaping: the reference definition `Esc` is proved equal to. */
  function EscEach(s: string): string {
    if s == [] then [] else EscChar(s[0]) + EscEach(s[1..])
  }

  lemma EscAppend(x: string, y: string)
    ensures Esc(x + y) == Esc(x) + Esc(y)
  {
    var r1x, r1y := ReplaceAll(x, '&', "&amp;"), ReplaceAll(y, '&', "&amp;");
    ReplaceAllAppend(x, y, '&', "&amp;");
    var r2x, r2y := ReplaceAll(r1x, '<', "&lt;"), ReplaceAll(r1y, '<', "&lt;");
    ReplaceAllAppend(r1x, r1y, '<', "&lt;");
    var r3x, r3y := ReplaceAll(r2x, '>', "&gt;"), ReplaceAll(r2y, '>', "&gt;");
    ReplaceAllAppend(r2x, r2y, '>', "&gt;");
    var r4x, r4y := ReplaceAll(r3x, '"', "&quot;"), ReplaceAll(r3y, '"', "&quot;");
    ReplaceAllAppend(r3x, r3y, '"', "&quot;");
    ReplaceAllAppend(r4x, r4y, '\'', "&#039;");
  }

  lemma EscOneChar(c: char)
    ensures Esc([c]) == EscChar(c)
  {
    assert [c][1..] == [];
  }

  /** Because `&` is replaced first, the chain of replacements escapes each character exactly once. */
  lemma {:induction false} EscIsPerChar(s: string)
    ensures Esc(s) == EscEach(s)
    decreases |s|
  {
    if s != [] {
      assert s == [s[0]] + s[1..];
      EscAppend([s[0]], s[1..]);
      EscOneChar(s[0]);
      EscIsPerChar(s[1..]);
    }
  }

  predicate NoRawSpecial(s: string) {
    forall i :: 0 <= i < |s| ==> s[i] != '<' && s[i] != '>' && s[i] != '"' && s[i] != '\''
  }

  lemma {:induction false} EscEachNoRawSpecial(s: string)
    ensures NoRawSpecial(EscEach(s))
    decreases |s|
  {
    if s != [] {
      EscEachNoRawSpecial(s[1..]);
    }
  }

  /** Escaped text contains no raw `<`, `>`, `"` or `'`. */
  lemma EscNoRawSpecial(s: string)
    ensures NoRawSpecial(Esc(s))
  {
    EscIsPerChar(s);
    EscEachNoRawSpecial(s);
  }

  /** Decodes the five entities `esc` produces; every other character stands for itself. */
  function Unescape(s: string): string {
    if s == [] then []
    else if s[0] != '&' then [s[0]] + Unescape(s[1..])
    else if |s| >= 5 && s[..5] == "&amp;" then "&" + Unescape(s[5..])
    else if |s| >= 4 && s[..4] == "&lt;" then "<" + Unescape(s[4..])
    else if |s| >= 4 && s[..4] == "&gt;" then ">" + Unescape(s[4..])
    else if |s| >= 6 && s[..6] == "&quot;" then "\"" + Unescape(s[6..])
    else if |s| >= 6 && s[..6] == "&#039;" then "'" + Unescape(s[6..])
    else [s[0]] + Unescape(s[1..])
  }

  lemma UnescapeEscChar(c: char, rest: string)
    ensures Unescape(EscChar(c) + rest) == [c] + Unescape(rest)
  {
    var e := EscChar(c) + rest;
    if c == '&' {
      assert e[..5] == "&amp;" && e[5..] == rest;
    } else if c == '<' {
      assert e[1] == 'l';
      assert e[..4] == "&lt;" && e[4..] == rest;
    } else if c == '>' {
      assert e[1] == 'g';
      assert e[..4] == "&gt;" && e[4..] == rest;
    } else if c == '"' {
      assert e[1] == 'q';
      assert e[..6] == "&quot;" && e[6..] == rest;
    } else if c == '\'' {
      assert e[1] == '#';
      assert e[..6] == "&#039;" && e[6..] == rest;
    } else {
      assert e[0] == c && e[1..] == rest;
    }
  }

  lemma {:induction false} UnescapeEscEach(s: string)
    ensures Unescape(EscEach(s)) == s
    decreases |s|
  {
    if s != [] {
      UnescapeEscChar(s[0], EscEach(s[1..]));
      UnescapeEscEach(s[1..]);
      assert s == [s[0]] + s[1..];
    }
  }

  /** Escaping loses nothing: decoding the entities gives the original text back. */
  lemma EscRoundTrip(s: string)
    ensures Unescape(Esc(s)) == s
  {
    EscIsPerChar(s);
    UnescapeEscEach(s);
  }

  // ---------- highlight ----------

  /** The case-insensitive match of the literal `w` at the front of `s` (regular-expression flag `i`). */
  predicate MatchesAt(s: string, w: string) {
    |w| <= |s| && Lower(s[..|w|]) == Lower(w)
  }

  /** Index of the first word, from `k` on, that matches at the front of `s`. */
  function FirstAlternativeFrom(s: string, words: seq<string>, k: nat): (r: Option<nat>)
    requires k <= |words|
    ensures r.Some? ==> k <= r.value < |words| && MatchesAt(s, words[r.value])
    ensures forall i :: k <= i < |words| && (r.None? || i < r.value) ==> !MatchesAt(s, words[i])
    decreases |words| - k
  {
    if k == |words| then None
    else if MatchesAt(s, words[k]) then Some(k)
    else FirstAlternativeFrom(s, words, k + 1)
  }

  /**
   * The alternative the ordered alternation `(w1|w2|…)` picks at the front
   * of `s`: the first word, in list order, that matches there.
   */
  function FirstAlternative(s: string, words: seq<string>): (r: Option<nat>)
    ensures r.Some? ==> (r.value < |words| && MatchesAt(s, words[r.value])
                         && forall i :: 0 <= i < r.value ==> !MatchesAt(s, words[i]))
    ensures r.None? ==> forall i :: 0 <= i < |words| ==> !MatchesAt(s, words[i])
  {
    FirstAlternativeFrom(s, words, 0)
  }

  const Open: string := "<mark>"
  const Close: string := "</mark>"

  /**
   * `s.replace(/(w1|w2|…)/gi, '<mark>$1</mark>')`: scanning left to right,
   * each match is wrapped and the scan resumes after it; an empty match
   * wraps nothing and the scan steps over one character.
   */
  function Mark(s: string, words: seq<string>): string
    decreases |s|
  {
    match FirstAlternative(s, words)
    case None => if s == [] then [] else [s[0]] + Mark(s[1..], words)
    case Some(k) =>
      var n := |words[k]|;
      if n == 0 then Open + Close + (if s == [] then [] else [s[0]] + Mark(s[1..], words))
      else Open + s[..n] + Close + Mark(s[n..], words)
  }

  /** `highlight(text, words)`. */
  function Highlight(text: string, words: seq<string>): string {
    if |words| == 0 then Esc(text) else Mark(Esc(text), words)
  }

  /** With no words, highlighting is plain escaping. */
  lemma HighlightNoWords(text: string)
    ensures Highlight(text, []) == Esc(text)
  {
  }

  /** Removes the markers `highlight` inserts. */
  function RemoveMarkers(s: string): string {
    if s == [] then []
    else if |s| >= 6 && s[..6] == Open then RemoveMarkers(s[6..])
    else if |s| >= 7 && s[..7] == Close then RemoveMarkers(s[7..])
    else [s[0]] + RemoveMarkers(s[1..])
  }

  predicate NoLt(s: string) {
    forall i :: 0 <= i < |s| ==> s[i] != '<'
  }

  lemma {:induction false} RemoveMarkersPlain(u: string, v: string)
    requires NoLt(u)
    ensures RemoveMarkers(u + v) == u + RemoveMarkers(v)
    decreases |u|
  {
    if u == [] {
      assert u + v == v;
    } else {
      var w := u + v;
      assert w[0] == u[0] != '<';
      assert w[1..] == u[1..] + v;
      assert |w| >= 6 ==> w[..6] != Open;
      assert |w| >= 7 ==> w[..7] != Close;
      RemoveMarkersPlain(u[1..], v);
      assert u == [u[0]] + u[1..];
    }
  }

  lemma RemoveOpen(v: string)
    ensures RemoveMarkers(Open + v) == RemoveMarkers(v)
  {
    assert (Open + v)[..6] == Open;
    assert (Open + v)[6..] == v;
  }

  lemma RemoveClose(v: string)
    ensures RemoveMarkers(Close + v) == RemoveMarkers(v)
  {
    assert (Close + v)[..6] != Open by { assert (Close + v)[1] == '/'; }
    assert (Close + v)[..7] == Close;
    assert (Close + v)[7..] == v;
  }

  /** Marking adds nothing but markers: removing them gives back text that had no `<`. */
  lemma {:induction false} MarkRoundTrip(s: string, words: seq<string>)
    requires NoLt(s)
    ensures RemoveMarkers(Mark(s, words)) == s
    decreases |s|
  {
    match FirstAlternative(s, words)
    case None =>
      if s != [] {
        MarkRoundTrip(s[1..], words);
        RemoveMarkersPlain([s[0]], Mark(s[1..], words));
        assert s == [s[0]] + s[1..];
      }
    case Some(k) =>
      var n := |words[k]|;
      if n == 0 {
        var tail: string := if s == [] then [] else [s[0]] + Mark(s[1..], words);
        assert Mark(s, words) == Open + (Close + tail);
        RemoveOpen(Close + tail);
        RemoveClose(tail);
        if s != [] {
          MarkRoundTrip(s[1..], words);
          RemoveMarkersPlain([s[0]], Mark(s[1..], words));
          assert s == [s[0]] + s[1..];
        }
      } else {
        var rest := Mark(s[n..], words);
        assert Mark(s, words) == Open + (s[..n] + (Close + rest));
        RemoveOpen(s[..n] + (Close + rest));
        RemoveMarkersPlain(s[..n], Close + rest);
        RemoveClose(rest);
        MarkRoundTrip(s[n..], words);
        assert s == s[..n] + s[n..];
      }
  }

  /** Highlighting keeps the escaped text: removing the markers from `highlight` gives `esc(text)`. */
  lemma HighlightRoundTrip(text: string, words: seq<string>)
    ensures RemoveMarkers(Highlight(text, words)) == Esc(text)
  {
    var e := Esc(text);
    EscNoRawSpecial(text);
    assert NoLt(e);
    if |words| == 0 {
      RemoveMarkersPlain(e, []);
      assert e + [] == e;
    } else {
      MarkRoundTrip(e, words);
    }
  }

  /** Where no word matches anywhere, marking changes nothing. */
  lemma {:induction false} MarkNoMatch(s: string, words: seq<string>)
    requires forall i, k :: 0 <= i <= |s| && 0 <= k < |words| ==> !MatchesAt(s[i..], words[k])
    ensures Mark(s, words) == s
    decreases |s|
  {
    assert s[0..] == s;
    if s != [] {
      forall i, k | 0 <= i <= |s[1..]| && 0 <= k < |words|
        ensures !MatchesAt(s[1..][i..], words[k])
      {
        assert s[1..][i..] == s[i + 1..];
      }
      MarkNoMatch(s[1..], words);
    }
  }
}
