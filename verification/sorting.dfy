/** A stable sort by an integer key. JavaScript's `Array.prototype.sort` is
    stable, so `xs.sort((a, b) => key(a) - key(b))` is fully determined: this
    insertion sort places every element after all earlier elements whose key
    is not larger, which yields that same order. Sorting descending by a
    score is sorting ascending by the negated score. */
module Sorting {

  /** `s` is non-decreasing by `key`. */
  predicate SortedBy<T>(s: seq<T>, key: T -> int) {
    forall i, j :: 0 <= i < j < |s| ==> key(s[i]) <= key(s[j])
  }

  /** Inserts `x`, which came before every element of `s`, in front of the
      first element whose key is at least `key(x)`. */
  function Insert<T>(x: T, s: seq<T>, key: T -> int): (r: seq<T>)
    requires SortedBy(s, key)
    ensures SortedBy(r, key)
    ensures multiset(r) == multiset(s) + multiset{x}
    ensures |r| == |s| + 1
    ensures forall i :: 0 <= i < |r| ==> r[i] == x || r[i] in s
  {
    if |s| == 0 || key(x) <= key(s[0]) then
      ConsSorted(x, s, key);
      [x] + s
    else
      SortedTail(s, key);
      var rest := Insert(x, s[1..], key);
      assert s == [s[0]] + s[1..];
      ConsSorted(s[0], rest, key);
      [s[0]] + rest
  }

  /** The tail of a sorted sequence is sorted, and no key in it is below the
      head's. */
  lemma SortedTail<T>(s: seq<T>, key: T -> int)
    requires SortedBy(s, key) && |s| > 0
    ensures SortedBy(s[1..], key)
    ensures forall y :: y in s[1..] ==> key(s[0]) <= key(y)
  {
    forall i, j | 0 <= i < j < |s[1..]| ensures key(s[1..][i]) <= key(s[1..][j]) {
      assert s[1..][i] == s[i + 1] && s[1..][j] == s[j + 1];
    }
  }

  /** Putting an element whose key is no larger than any key of a sorted
      sequence in front keeps it sorted. */
  lemma ConsSorted<T>(y: T, r: seq<T>, key: T -> int)
    requires SortedBy(r, key)
    requires forall z :: z in r ==> key(y) <= key(z)
    ensures SortedBy([y] + r, key)
  {
    var c := [y] + r;
    forall i, j | 0 <= i < j < |c| ensures key(c[i]) <= key(c[j]) {
      assert c[j] == r[j - 1];
      if i > 0 {
        assert c[i] == r[i - 1];
      }
    }
  }

  /** The stable sort of `s`, ascending by `key`. */
  function SortBy<T>(s: seq<T>, key: T -> int): (r: seq<T>)
    ensures SortedBy(r, key)
    ensures multiset(r) == multiset(s)
    ensures |r| == |s|
  {
    if |s| == 0 then []
    else
      assert s == [s[0]] + s[1..];
      Insert(s[0], SortBy(s[1..], key), key)
  }

  /** Sorting keeps exactly the elements it was given. */
  lemma SortByMembership<T>(s: seq<T>, key: T -> int, x: T)
    ensures x in SortBy(s, key) <==> x in s
  {
    var r := SortBy(s, key);
    assert x in r <==> x in multiset(r);
    assert x in s <==> x in multiset(s);
  }
}
