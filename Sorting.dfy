/**
 * `Array.prototype.sort` with a comparator, as both sorts of
 * search-wrapper.js use it: a stable sort (ECMAScript 2019 and later) by a
 * comparator that is a strict weak order. The comparator is given as the
 * "less than" relation `lt` it induces (`cmp(a, b) < 0`), and the sort is
 * insertion sort on values.
 */
module Sorting {

  /** `lt` is irreflexive and transitive. */
  ghost predicate StrictOrder<T(!new)>(lt: (T, T) -> bool) {
    (forall x :: !lt(x, x)) &&
    (forall x, y, z :: lt(x, y) && lt(y, z) ==> lt(x, z))
  }

  /** Incomparability is transitive as well: if `x < z`, any `y` is above `x` or below `z`. */
  ghost predicate NegativelyTransitive<T(!new)>(lt: (T, T) -> bool) {
    forall x, y, z :: lt(x, z) ==> lt(x, y) || lt(y, z)
  }

  /** No element is smaller than one before it. */
  ghost predicate Sorted<T>(s: seq<T>, lt: (T, T) -> bool) {
    forall i, j :: 0 <= i < j < |s| ==> !lt(s[j], s[i])
  }

  /** Of two elements, the first is either strictly smaller or earlier by `pos`. */
  ghost predicate StableBy<T>(s: seq<T>, lt: (T, T) -> bool, pos: T -> int) {
    forall i, j :: 0 <= i < j < |s| ==> lt(s[i], s[j]) || pos(s[i]) < pos(s[j])
  }

  /** `pos` grows along `s`. */
  ghost predicate Increasing<T>(s: seq<T>, pos: T -> int) {
    forall i, j :: 0 <= i < j < |s| ==> pos(s[i]) < pos(s[j])
  }

  /** Puts `x` in front of the first element it is smaller than, so after everything it ties with. */
  function Insert<T>(x: T, s: seq<T>, lt: (T, T) -> bool): (r: seq<T>)
    ensures |r| == |s| + 1
    ensures multiset(r) == multiset(s) + multiset{x}
  {
    if s == [] || lt(x, s[0]) then [x] + s
    else
      assert s == [s[0]] + s[1..];
      [s[0]] + Insert(x, s[1..], lt)
  }

  /** The sorted permutation of `s`: each element is inserted, in order, into the sorted prefix before it. */
  function Sort<T>(s: seq<T>, lt: (T, T) -> bool): (r: seq<T>)
    ensures multiset(r) == multiset(s)
    decreases |s|
  {
    if s == [] then []
    else
      assert s == s[..|s| - 1] + [s[|s| - 1]];
      Insert(s[|s| - 1], Sort(s[..|s| - 1], lt), lt)
  }

  lemma {:induction false} InsertSorted<T(!new)>(x: T, s: seq<T>, lt: (T, T) -> bool)
    requires StrictOrder(lt) && Sorted(s, lt)
    ensures Sorted(Insert(x, s, lt), lt)
  {
    if s != [] && !lt(x, s[0]) {
      InsertSorted(x, s[1..], lt);
      var r := Insert(x, s, lt);
      forall j | 0 < j < |r|
        ensures !lt(r[j], r[0])
      {
        assert r[j] in multiset(Insert(x, s[1..], lt));
        if r[j] == x {
        } else {
          assert r[j] in s[1..];
        }
      }
    }
  }

  /** The result of Sort is sorted. */
  lemma {:induction false} SortSorted<T(!new)>(s: seq<T>, lt: (T, T) -> bool)
    requires StrictOrder(lt)
    ensures Sorted(Sort(s, lt), lt)
    decreases |s|
  {
    if s != [] {
      SortSorted(s[..|s| - 1], lt);
      InsertSorted(s[|s| - 1], Sort(s[..|s| - 1], lt), lt);
    }
  }

  lemma {:induction false} InsertStable<T(!new)>(x: T, s: seq<T>, lt: (T, T) -> bool, pos: T -> int)
    requires StrictOrder(lt) && NegativelyTransitive(lt)
    requires Sorted(s, lt) && StableBy(s, lt, pos)
    requires forall e :: e in s ==> pos(e) < pos(x)
    ensures StableBy(Insert(x, s, lt), lt, pos)
  {
    var r := Insert(x, s, lt);
    if s == [] {
    } else if lt(x, s[0]) {
      forall j | 0 < j < |r|
        ensures lt(x, r[j])
      {
        if j > 1 {
          assert !lt(s[j - 1], s[0]);
        }
      }
    } else {
      InsertStable(x, s[1..], lt, pos);
      forall j | 0 < j < |r|
        ensures lt(r[0], r[j]) || pos(r[0]) < pos(r[j])
      {
        assert r[j] in multiset(Insert(x, s[1..], lt));
        if r[j] == x {
        } else {
          assert r[j] in s[1..];
          var k :| 0 <= k < |s[1..]| && s[1..][k] == r[j];
          assert s[k + 1] == r[j];
        }
      }
    }
  }

  /** Sort is stable: elements it does not order keep the order `pos` gives them in the input. */
  lemma {:induction false} SortStable<T(!new)>(s: seq<T>, lt: (T, T) -> bool, pos: T -> int)
    requires StrictOrder(lt) && NegativelyTransitive(lt)
    requires Increasing(s, pos)
    ensures StableBy(Sort(s, lt), lt, pos)
    decreases |s|
  {
    if s != [] {
      var init, x := s[..|s| - 1], s[|s| - 1];
      assert Increasing(init, pos);
      SortStable(init, lt, pos);
      SortSorted(init, lt);
      forall e | e in Sort(init, lt)
        ensures pos(e) < pos(x)
      {
        assert e in multiset(init);
        var k :| 0 <= k < |init| && init[k] == e;
      }
      InsertStable(x, Sort(init, lt), lt, pos);
    }
  }
}
