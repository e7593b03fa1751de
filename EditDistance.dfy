/**
 * `levenshtein` of search-wrapper.js: unit-cost insert/delete/substitute
 * edit distance, computed with one row of dynamic-programming cells that is
 * overwritten in place.
 */
module EditDistance {

  function Min3(x: nat, y: nat, z: nat): (r: nat)
    ensures r <= x && r <= y && r <= z
    ensures r == x || r == y || r == z
  {
    if x <= y && x <= z then x else if y <= z then y else z
  }

  lemma Min3Swap(x: nat, y: nat, z: nat)
    ensures Min3(x, y, z) == Min3(y, x, z)
  {
  }

  /**
   * The edit distance of the prefixes `a[..i]` and `b[..j]`: the recursive
   * insert/delete/substitute definition.
   */
  function Dist(a: string, b: string, i: nat, j: nat): nat
    requires i <= |a| && j <= |b|
    decreases i + j
  {
    if i == 0 then j
    else if j == 0 then i
    else Min3(Dist(a, b, i - 1, j) + 1,
              Dist(a, b, i, j - 1) + 1,
              Dist(a, b, i - 1, j - 1) + (if a[i - 1] == b[j - 1] then 0 else 1))
  }

  /** The edit distance of `a` and `b`. */
  function Lev(a: string, b: string): nat {
    Dist(a, b, |a|, |b|)
  }

  /** Distance to or from the empty string is the other string's length. */
  lemma LevEmpty(a: string, b: string)
    ensures Lev([], b) == |b|
    ensures Lev(a, []) == |a|
  {
  }

  lemma {:induction false} DistSelf(a: string, i: nat)
    requires i <= |a|
    ensures Dist(a, a, i, i) == 0
  {
    if i > 0 {
      DistSelf(a, i - 1);
    }
  }

  lemma LevSelf(a: string)
    ensures Lev(a, a) == 0
  {
    DistSelf(a, |a|);
  }

  lemma DistSymStep(a: string, b: string, i: nat, j: nat)
    requires 0 < i <= |a| && 0 < j <= |b|
    requires Dist(a, b, i - 1, j) == Dist(b, a, j, i - 1)
    requires Dist(a, b, i, j - 1) == Dist(b, a, j - 1, i)
    requires Dist(a, b, i - 1, j - 1) == Dist(b, a, j - 1, i - 1)
    ensures Dist(a, b, i, j) == Dist(b, a, j, i)
  {
    Min3Swap(Dist(a, b, i - 1, j) + 1, Dist(a, b, i, j - 1) + 1,
             Dist(a, b, i - 1, j - 1) + (if a[i - 1] == b[j - 1] then 0 else 1));
  }

  lemma {:induction false} DistSymmetric(a: string, b: string, i: nat, j: nat)
    requires i <= |a| && j <= |b|
    ensures Dist(a, b, i, j) == Dist(b, a, j, i)
    decreases i + j
  {
    if i > 0 && j > 0 {
      DistSymmetric(a, b, i - 1, j);
      DistSymmetric(a, b, i, j - 1);
      DistSymmetric(a, b, i - 1, j - 1);
      DistSymStep(a, b, i, j);
    }
  }

  lemma LevSymmetric(a: string, b: string)
    ensures Lev(a, b) == Lev(b, a)
  {
    DistSymmetric(a, b, |a|, |b|);
  }

  lemma {:induction false} DistZeroIff(a: string, b: string, i: nat, j: nat)
    requires i <= |a| && j <= |b|
    ensures Dist(a, b, i, j) == 0 <==> a[..i] == b[..j]
    decreases i + j
  {
    if i > 0 && j > 0 {
      DistZeroIff(a, b, i - 1, j - 1);
      assert a[..i] == a[..i - 1] + [a[i - 1]];
      assert b[..j] == b[..j - 1] + [b[j - 1]];
      if a[..i] == b[..j] {
        assert a[..i - 1] == a[..i][..i - 1];
        assert b[..j - 1] == b[..j][..j - 1];
      }
    }
  }

  /** The distance is zero exactly for identical strings. */
  lemma LevZeroIff(a: string, b: string)
    ensures Lev(a, b) == 0 <==> a == b
  {
    DistZeroIff(a, b, |a|, |b|);
    assert a[..|a|] == a && b[..|b|] == b;
  }

  lemma {:induction false} DistLengthDifference(a: string, b: string, i: nat, j: nat)
    requires i <= |a| && j <= |b|
    ensures i - j <= Dist(a, b, i, j) && j - i <= Dist(a, b, i, j)
    decreases i + j
  {
    if i > 0 && j > 0 {
      DistLengthDifference(a, b, i - 1, j);
      DistLengthDifference(a, b, i, j - 1);
      DistLengthDifference(a, b, i - 1, j - 1);
    }
  }

  /** The distance is at least the difference of the lengths (what the length cut-off in `suggestCorrections` relies on). */
  lemma LevLengthDifference(a: string, b: string)
    ensures |a| - |b| <= Lev(a, b) && |b| - |a| <= Lev(a, b)
  {
    DistLengthDifference(a, b, |a|, |b|);
  }

  lemma {:induction false} DistAtMostLonger(a: string, b: string, i: nat, j: nat)
    requires i <= |a| && j <= |b|
    ensures Dist(a, b, i, j) <= if i <= j then j else i
    decreases i + j
  {
    if i > 0 && j > 0 {
      DistAtMostLonger(a, b, i - 1, j - 1);
    }
  }

  /** The distance is at most the longer length. */
  lemma LevAtMostLonger(a: string, b: string)
    ensures Lev(a, b) <= if |a| <= |b| then |b| else |a|
  {
    DistAtMostLonger(a, b, |a|, |b|);
  }

  /** Cells `lo` to `hi - 1` of `row` hold the distances from `a[..i]` to `b[..k]`. */
  ghost predicate RowHolds(row: seq<nat>, a: string, b: string, i: nat, lo: nat, hi: nat)
    requires i <= |a| && hi <= |b| + 1 && hi <= |row|
  {
    forall k {:trigger row[k]} :: lo <= k < hi ==> row[k] == Dist(a, b, i, k)
  }

  /** Overwriting cell `j` with the minimum of its three neighbours moves it from row `i - 1` to row `i`. */
  lemma RowStep(row: seq<nat>, a: string, b: string, i: nat, j: nat, prev: nat)
    requires 1 <= i <= |a| && 1 <= j <= |b| && |row| == |b| + 1
    requires RowHolds(row, a, b, i, 0, j) && RowHolds(row, a, b, i - 1, j, |b| + 1)
    requires prev == Dist(a, b, i - 1, j - 1)
    ensures var cell := Min3(row[j] + 1, row[j - 1] + 1, prev + (if a[i - 1] == b[j - 1] then 0 else 1));
      RowHolds(row[j := cell], a, b, i, 0, j + 1) && RowHolds(row[j := cell], a, b, i - 1, j + 1, |b| + 1)
  {
  }

  /** One pass of the outer loop: row `i - 1` of the table becomes row `i`, in place. */
  method NextRow(a: string, b: string, dp: array<nat>, i: nat)
    requires 1 <= i <= |a| && dp.Length == |b| + 1
    requires RowHolds(dp[..], a, b, i - 1, 0, |b| + 1)
    modifies dp
    ensures RowHolds(dp[..], a, b, i, 0, |b| + 1)
  {
    var n := |b|;
    var prev := dp[0];
    dp[0] := i;
    for j := 1 to n + 1
      invariant RowHolds(dp[..], a, b, i, 0, j)
      invariant RowHolds(dp[..], a, b, i - 1, j, n + 1)
      invariant prev == Dist(a, b, i - 1, j - 1)
    {
      var tmp := dp[j];
      RowStep(dp[..], a, b, i, j, prev);
      dp[j] := Min3(dp[j] + 1, dp[j - 1] + 1, prev + (if a[i - 1] == b[j - 1] then 0 else 1));
      prev := tmp;
    }
  }

  /** `levenshtein(a, b)`: the early exits, then the single-row DP loop. */
  method Levenshtein(a: string, b: string) returns (d: nat)
    ensures d == Lev(a, b)
  {
    if a == b {
      LevSelf(a);
      return 0;
    }
    var m, n := |a|, |b|;
    if m == 0 { return n; }
    if n == 0 { return m; }
    var dp := new nat[n + 1];
    for j := 0 to n + 1
      invariant RowHolds(dp[..], a, b, 0, 0, j)
    {
      dp[j] := j;
    }
    for i := 1 to m + 1
      invariant RowHolds(dp[..], a, b, i - 1, 0, n + 1)
    {
      NextRow(a, b, dp, i);
    }
    d := dp[n];
  }
}
