/**
 * String helpers shared by the search engine (search-wrapper.js) and the
 * menu matcher (main.js): the JavaScript whitespace class, lower-casing,
 * `trim`, `normalize`, splitting into tokens, `indexOf`/`includes`/
 * `startsWith`, `join(' ')` and the stand-in for `localeCompare`.
 */
module Text {

  // ---------- characters ----------

  /** JavaScript's WhiteSpace and LineTerminator code points: the class `\s` and what `trim` removes. */
  predicate IsSpace(c: char) {
    c == ' ' || c == '\t' || c == '\n' || c == '\U{000B}' || c == '\U{000C}' || c == '\r'
    || c == '\U{00A0}' || c == '\U{1680}' || ('\U{2000}' <= c <= '\U{200A}')
    || c == '\U{2028}' || c == '\U{2029}' || c == '\U{202F}' || c == '\U{205F}'
    || c == '\U{3000}' || c == '\U{FEFF}'
  }

  /** Upper-case letters that `toLowerCase` maps one-to-one to a lower-case letter 32 code points up (ASCII and Latin-1). */
  predicate IsUpper(c: char) {
    ('A' <= c <= 'Z') || ('\U{00C0}' <= c <= '\U{00DE}' && c != '\U{00D7}')
  }

  function LowerChar(c: char): (r: char)
    ensures !IsUpper(r)
    ensures IsUpper(c) ==> r as int == c as int + 32
    ensures !IsUpper(c) ==> r == c
  {
    if IsUpper(c) then (c as int + 32) as char else c
  }

  /** `s.toLowerCase()`, restricted to the letters IsUpper names. */
  function Lower(s: string): (r: string)
    ensures |r| == |s|
    ensures forall i :: 0 <= i < |s| ==> r[i] == LowerChar(s[i])
  {
    seq(|s|, i requires 0 <= i < |s| => LowerChar(s[i]))
  }

  predicate IsLowerCase(s: string) {
    forall i :: 0 <= i < |s| ==> !IsUpper(s[i])
  }

  lemma LowerOfLowerCase(s: string)
    requires IsLowerCase(s)
    ensures Lower(s) == s
  {
  }

  // ---------- trim ----------

  predicate AllSpace(s: string) {
    forall i :: 0 <= i < |s| ==> IsSpace(s[i])
  }

  /** Number of whitespace characters at the front of `s`. */
  function LeadingSpaces(s: string): (n: nat)
    ensures n <= |s|
    ensures AllSpace(s[..n])
    ensures n < |s| ==> !IsSpace(s[n])
  {
    if s == [] || !IsSpace(s[0]) then 0 else 1 + LeadingSpaces(s[1..])
  }

  /** Index where the run of whitespace at the end of `s` begins. */
  function TrailingStart(s: string): (m: nat)
    ensures m <= |s|
    ensures AllSpace(s[m..])
    ensures 0 < m ==> !IsSpace(s[m - 1])
  {
    if s == [] || !IsSpace(s[|s| - 1]) then |s| else TrailingStart(s[..|s| - 1])
  }

  /** `s.trim()`: the part of `s` between the leading and the trailing whitespace. */
  function Trim(s: string): (r: string)
    ensures |r| <= |s|
    ensures r == [] || (!IsSpace(r[0]) && !IsSpace(r[|r| - 1]))
    ensures LeadingSpaces(s) + |r| <= |s|
    ensures r == s[LeadingSpaces(s)..LeadingSpaces(s) + |r|]
    ensures AllSpace(s[..LeadingSpaces(s)]) && AllSpace(s[LeadingSpaces(s) + |r|..])
  {
    var t := s[LeadingSpaces(s)..];
    var m := TrailingStart(t);
    assert t[..m] == s[LeadingSpaces(s)..LeadingSpaces(s) + m];
    assert s[LeadingSpaces(s) + m..] == t[m..];
    t[..m]
  }

  lemma {:induction false} TrimOfTrimmed(s: string)
    requires s == [] || (!IsSpace(s[0]) && !IsSpace(s[|s| - 1]))
    ensures Trim(s) == s
  {
    assert LeadingSpaces(s) == 0;
    assert s[0..] == s;
    assert TrailingStart(s) == |s|;
  }

  lemma TrimIdempotent(s: string)
    ensures Trim(Trim(s)) == Trim(s)
  {
    TrimOfTrimmed(Trim(s));
  }

  // ---------- normalize / tokenize (search-wrapper.js) ----------

  /** `normalize`: lower-case, then NFKC (the identity here), then trim. */
  function Normalize(s: string): (r: string)
    ensures IsLowerCase(r)
    ensures r == [] || (!IsSpace(r[0]) && !IsSpace(r[|r| - 1]))
  {
    Trim(Lower(s))
  }

  /** Normalising twice changes nothing. */
  lemma NormalizeIdempotent(s: string)
    ensures Normalize(Normalize(s)) == Normalize(s)
  {
    var n := Normalize(s);
    LowerOfLowerCase(n);
    TrimOfTrimmed(n);
  }

  /** The separators of the query splitter `/[\s,./\-_:;()]+/`. */
  predicate IsQuerySep(c: char) {
    IsSpace(c) || c == ',' || c == '.' || c == '/' || c == '-' || c == '_'
    || c == ':' || c == ';' || c == '(' || c == ')'
  }

  /** Index of the first separator at or after `i`, or |s|. */
  function RunEnd(s: string, sep: char -> bool, i: nat): (j: nat)
    requires i <= |s|
    ensures i <= j <= |s|
    ensures forall k :: i <= k < j ==> !sep(s[k])
    ensures j < |s| ==> sep(s[j])
    decreases |s| - i
  {
    if i == |s| || sep(s[i]) then i else RunEnd(s, sep, i + 1)
  }

  /**
   * `s.split(/sep+/).filter(Boolean)`: the maximal runs of non-separator
   * characters, in order.
   */
  function Split(s: string, sep: char -> bool): (r: seq<string>)
    ensures forall k :: 0 <= k < |r| ==> r[k] != []
    ensures forall k, i :: 0 <= k < |r| && 0 <= i < |r[k]| ==> !sep(r[k][i])
    decreases |s|
  {
    if s == [] then []
    else if sep(s[0]) then Split(s[1..], sep)
    else
      var j := RunEnd(s, sep, 0);
      [s[..j]] + Split(s[j..], sep)
  }

  function Concat(ws: seq<string>): string {
    if ws == [] then [] else ws[0] + Concat(ws[1..])
  }

  /** The characters of `s` that are not separators, in order. */
  function Kept(s: string, sep: char -> bool): (r: string)
    ensures |r| <= |s|
  {
    if s == [] then [] else (if sep(s[0]) then [] else [s[0]]) + Kept(s[1..], sep)
  }

  lemma {:induction false} KeptOfRun(u: string, v: string, sep: char -> bool)
    requires forall i :: 0 <= i < |u| ==> !sep(u[i])
    ensures Kept(u + v, sep) == u + Kept(v, sep)
    decreases |u|
  {
    if u == [] {
      assert u + v == v;
    } else {
      assert (u + v)[1..] == u[1..] + v;
      KeptOfRun(u[1..], v, sep);
      assert u == [u[0]] + u[1..];
    }
  }

  /** Splitting loses nothing but separators: the tokens, glued together, are the kept characters. */
  lemma {:induction false} SplitKeepsContent(s: string, sep: char -> bool)
    ensures Concat(Split(s, sep)) == Kept(s, sep)
    decreases |s|
  {
    if s == [] {
    } else if sep(s[0]) {
      SplitKeepsContent(s[1..], sep);
    } else {
      var j := RunEnd(s, sep, 0);
      SplitKeepsContent(s[j..], sep);
      assert s == s[..j] + s[j..];
      KeptOfRun(s[..j], s[j..], sep);
      assert Split(s, sep)[1..] == Split(s[j..], sep);
    }
  }

  /** `tokenize`: normalize, then split on the query separators. */
  function Tokenize(q: string): (r: seq<string>)
    ensures forall k :: 0 <= k < |r| ==> r[k] != []
    ensures forall k, i :: 0 <= k < |r| && 0 <= i < |r[k]| ==> !IsQuerySep(r[k][i])
  {
    Split(Normalize(q), IsQuerySep)
  }

  // ---------- searching in strings ----------

  predicate OccursAt(s: string, w: string, k: nat) {
    k + |w| <= |s| && s[k..k + |w|] == w
  }

  /** First index at or after `k` where `w` occurs in `s`, or -1. */
  function IndexFrom(s: string, w: string, k: nat): (r: int)
    ensures r == -1 || (k <= r && OccursAt(s, w, r))
    ensures forall i :: k <= i && (r == -1 || i < r) ==> !OccursAt(s, w, i)
    decreases |s| - k
  {
    if k + |w| > |s| then -1
    else if s[k..k + |w|] == w then k
    else IndexFrom(s, w, k + 1)
  }

  /** `s.indexOf(w)`: the first index where `w` occurs, or -1. */
  function IndexOf(s: string, w: string): (r: int)
    ensures -1 <= r <= |s| - |w| || r == -1
    ensures r >= 0 ==> OccursAt(s, w, r) && forall i :: 0 <= i < r ==> !OccursAt(s, w, i)
    ensures r == -1 <==> forall i :: 0 <= i ==> !OccursAt(s, w, i)
  {
    IndexFrom(s, w, 0)
  }

  /** `s.includes(w)`. */
  predicate Contains(s: string, w: string) {
    IndexOf(s, w) >= 0
  }

  lemma ContainsAt(s: string, w: string, k: nat)
    requires OccursAt(s, w, k)
    ensures Contains(s, w)
  {
  }

  /** `s.startsWith(w)`. */
  predicate StartsWith(s: string, w: string) {
    |w| <= |s| && s[..|w|] == w
  }

  lemma StartsWithContains(s: string, w: string)
    requires StartsWith(s, w)
    ensures Contains(s, w)
  {
    assert OccursAt(s, w, 0);
  }

  /** `ts.join(' ')`. */
  function Join(ts: seq<string>): string {
    if ts == [] then []
    else if |ts| == 1 then ts[0]
    else ts[0] + " " + Join(ts[1..])
  }

  // ---------- ordering (stand-in for localeCompare) ----------

  /** Lexicographic order by code point: `a.localeCompare(b) < 0`. */
  predicate StrLess(a: string, b: string) {
    if a == [] then b != []
    else if b == [] then false
    else if a[0] != b[0] then a[0] < b[0]
    else StrLess(a[1..], b[1..])
  }

  lemma {:induction false} StrLessIrreflexive(a: string)
    ensures !StrLess(a, a)
  {
    if a != [] { StrLessIrreflexive(a[1..]); }
  }

  lemma {:induction false} StrLessTransitive(a: string, b: string, c: string)
    requires StrLess(a, b) && StrLess(b, c)
    ensures StrLess(a, c)
    decreases |a|
  {
    if a != [] && b != [] && c != [] && a[0] == b[0] && b[0] == c[0] {
      StrLessTransitive(a[1..], b[1..], c[1..]);
    }
  }

  lemma {:induction false} StrLessTotal(a: string, b: string)
    requires a != b
    ensures StrLess(a, b) || StrLess(b, a)
    decreases |a|
  {
    if a != [] && b != [] && a[0] == b[0] {
      assert a == [a[0]] + a[1..] && b == [b[0]] + b[1..];
      StrLessTotal(a[1..], b[1..]);
    }
  }

  lemma {:induction false} StrLessAsymmetric(a: string, b: string)
    requires StrLess(a, b)
    ensures !StrLess(b, a)
    decreases |a|
  {
    if a != [] && b != [] && a[0] == b[0] {
      StrLessAsymmetric(a[1..], b[1..]);
    }
  }
}
