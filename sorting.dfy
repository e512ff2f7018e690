/**
 * `Array.prototype.sort` with a comparator, as a stable insertion sort: each
 * element, taken left to right, goes after every already-sorted element it
 * does not compare below. The comparator returns a real whose sign orders
 * the pair, as JavaScript comparators do.
 */
module Sorting {

  /** Swapping the arguments negates the comparison. */
  ghost predicate Antisymmetric<T(!new)>(cmp: (T, T) -> real) {
    forall a, b :: cmp(a, b) == -cmp(b, a)
  }

  /** Every element compares at most equal to its successor. */
  predicate Ordered<T>(s: seq<T>, cmp: (T, T) -> real) {
    forall i :: 0 <= i < |s| - 1 ==> cmp(s[i], s[i + 1]) <= 0.0
  }

  /** Inserts `x` before the first element it compares below. */
  function Insert<T>(x: T, s: seq<T>, cmp: (T, T) -> real): (r: seq<T>)
    ensures |r| == |s| + 1
    ensures multiset(r) == multiset(s) + multiset{x}
    ensures r[0] == x || (s != [] && r[0] == s[0])
  {
    if s == [] then [x]
    else if cmp(x, s[0]) < 0.0 then [x] + s
    else
      assert s == [s[0]] + s[1..];
      [s[0]] + Insert(x, s[1..], cmp)
  }

  function Sort<T>(s: seq<T>, cmp: (T, T) -> real): (r: seq<T>)
    ensures |r| == |s|
    ensures multiset(r) == multiset(s)
  {
    if s == [] then []
    else
      assert s == s[..|s| - 1] + [s[|s| - 1]];
      Insert(s[|s| - 1], Sort(s[..|s| - 1], cmp), cmp)
  }

  lemma {:induction false} InsertOrdered<T(!new)>(x: T, s: seq<T>, cmp: (T, T) -> real)
    requires Antisymmetric(cmp) && Ordered(s, cmp)
    ensures Ordered(Insert(x, s, cmp), cmp)
  {
    if s != [] && cmp(x, s[0]) >= 0.0 {
      var tail := Insert(x, s[1..], cmp);
      assert Ordered(s[1..], cmp) by {
        forall i | 0 <= i < |s[1..]| - 1 ensures cmp(s[1..][i], s[1..][i + 1]) <= 0.0 {
          assert s[1..][i] == s[i + 1] && s[1..][i + 1] == s[i + 2];
        }
      }
      InsertOrdered(x, s[1..], cmp);
      var r := [s[0]] + tail;
      forall i | 0 <= i < |r| - 1 ensures cmp(r[i], r[i + 1]) <= 0.0 {
        if i == 0 {
          if tail[0] == x {
            assert cmp(s[0], x) == -cmp(x, s[0]);
          } else {
            assert tail[0] == s[1..][0] == s[1];
          }
        } else {
          assert r[i] == tail[i - 1] && r[i + 1] == tail[i];
        }
      }
    }
  }

  /** With an antisymmetric comparator the result is ordered. */
  lemma {:induction false} SortOrdered<T(!new)>(s: seq<T>, cmp: (T, T) -> real)
    requires Antisymmetric(cmp)
    ensures Ordered(Sort(s, cmp), cmp)
    decreases |s|
  {
    if s != [] {
      SortOrdered(s[..|s| - 1], cmp);
      InsertOrdered(s[|s| - 1], Sort(s[..|s| - 1], cmp), cmp);
    }
  }

  /** Sorting keeps exactly the elements: same length, same members. */
  lemma SortSameMembers<T>(s: seq<T>, cmp: (T, T) -> real, x: T)
    ensures x in Sort(s, cmp) <==> x in s
  {
    var r := Sort(s, cmp);
    assert x in r <==> x in multiset(r);
    assert x in s <==> x in multiset(s);
  }
}
