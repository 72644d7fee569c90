/** Helpers shared by the whole model: an Option type, `Math.min` and
    `Math.max` on integers, duplicate-free sequences, order-preserving filter
    and map, and first-appearance de-duplication, which is the order a
    JavaScript `Set` or `Map` gives to its keys. */
module Seqs {

  datatype Option<+T> = None | Some(value: T)

  function Min(x: int, y: int): int {
    if x <= y then x else y
  }

  function Max(x: int, y: int): int {
    if x >= y then x else y
  }

  /** No element occurs twice. */
  predicate Distinct<T(==)>(s: seq<T>) {
    forall i, j :: 0 <= i < j < |s| ==> s[i] != s[j]
  }

  /** The elements of `s` that satisfy `p`, in their original order. */
  function Filter<T(!new)>(s: seq<T>, p: T -> bool): (r: seq<T>)
    ensures |r| <= |s|
    ensures forall x :: x in r <==> x in s && p(x)
  {
    if |s| == 0 then []
    else if p(s[0]) then [s[0]] + Filter(s[1..], p)
    else Filter(s[1..], p)
  }

  /** `f` applied to every element, in order. */
  function Map<T, U>(s: seq<T>, f: T -> U): (r: seq<U>)
    ensures |r| == |s|
    ensures forall i :: 0 <= i < |s| ==> r[i] == f(s[i])
  {
    seq(|s|, i requires 0 <= i < |s| => f(s[i]))
  }

  lemma MapMembership<T, U>(s: seq<T>, f: T -> U, y: U)
    ensures y in Map(s, f) <==> exists x :: x in s && f(x) == y
  {
    var r := Map(s, f);
    if y in r {
      var i :| 0 <= i < |r| && r[i] == y;
      assert s[i] in s && f(s[i]) == y;
    }
    if exists x :: x in s && f(x) == y {
      var x :| x in s && f(x) == y;
      var i :| 0 <= i < |s| && s[i] == x;
      assert r[i] == y;
    }
  }

  /** `s.indexOf(x)`: the first position of `x`, or -1. */
  function IndexOf<T(==)>(s: seq<T>, x: T): (i: int)
    ensures -1 <= i < |s|
    ensures i == -1 <==> x !in s
    ensures 0 <= i ==> s[i] == x && forall j :: 0 <= j < i ==> s[j] != x
  {
    if |s| == 0 then -1
    else if s[0] == x then 0
    else
      var i := IndexOf(s[1..], x);
      if i == -1 then -1 else i + 1
  }

  /** `s` back to front. */
  function Reverse<T>(s: seq<T>): (r: seq<T>)
    ensures |r| == |s|
    ensures forall i :: 0 <= i < |s| ==> r[i] == s[|s| - 1 - i]
  {
    seq(|s|, i requires 0 <= i < |s| => s[|s| - 1 - i])
  }

  /** Filtering keeps every occurrence of a kept element and none of the others. */
  lemma {:induction false} FilterMultiset<T(!new)>(s: seq<T>, p: T -> bool, x: T)
    ensures multiset(Filter(s, p))[x] == if p(x) then multiset(s)[x] else 0
  {
    if |s| > 0 {
      FilterMultiset(s[1..], p, x);
      assert s == [s[0]] + s[1..];
    }
  }

  /** Filtering two permutations of each other yields equally many elements. */
  lemma FilterPermutation<T(!new)>(s: seq<T>, t: seq<T>, p: T -> bool)
    requires multiset(s) == multiset(t)
    ensures multiset(Filter(s, p)) == multiset(Filter(t, p))
    ensures |Filter(s, p)| == |Filter(t, p)|
  {
    forall x ensures multiset(Filter(s, p))[x] == multiset(Filter(t, p))[x] {
      FilterMultiset(s, p, x);
      FilterMultiset(t, p, x);
    }
    assert multiset(Filter(s, p)) == multiset(Filter(t, p));
    assert |multiset(Filter(s, p))| == |Filter(s, p)|;
    assert |multiset(Filter(t, p))| == |Filter(t, p)|;
  }

  /** Dropping the head of a duplicate-free sequence keeps it duplicate-free,
      and the head does not recur. */
  lemma DistinctTail<T>(s: seq<T>)
    requires Distinct(s) && |s| > 0
    ensures Distinct(s[1..]) && s[0] !in s[1..]
  {
    forall i, j | 0 <= i < j < |s[1..]| ensures s[1..][i] != s[1..][j] {
      assert s[1..][i] == s[i + 1] && s[1..][j] == s[j + 1];
    }
  }

  /** In a duplicate-free sequence every element occurs at most once. */
  lemma {:induction false} DistinctOccurrences<T>(s: seq<T>, x: T)
    requires Distinct(s)
    ensures multiset(s)[x] == if x in s then 1 else 0
  {
    if |s| > 0 {
      assert s == [s[0]] + s[1..];
      DistinctTail(s);
      DistinctOccurrences(s[1..], x);
    }
  }

  /** A permutation of a duplicate-free sequence is duplicate-free. */
  lemma PermutationDistinct<T>(s: seq<T>, t: seq<T>)
    requires Distinct(s)
    requires multiset(s) == multiset(t)
    ensures Distinct(t)
  {
    forall i, j | 0 <= i < j < |t|
      ensures t[i] != t[j]
    {
      if t[i] == t[j] {
        var x := t[i];
        assert t == t[..j] + [t[j]] + t[j + 1..];
        assert x in t[..j];
        assert multiset(t)[x] == multiset(t[..j])[x] + 1 + multiset(t[j + 1..])[x];
        DistinctOccurrences(s, x);
        assert false;
      }
    }
  }

  /** The positions from `from` on whose elements satisfy `p`. */
  function IndicesFrom<T>(s: seq<T>, p: T -> bool, from: nat): set<int> {
    set i | from <= i < |s| && p(s[i])
  }

  /** Filtering keeps one element per position that satisfies `p`: the
      filtered length counts those positions. */
  lemma {:induction false} FilterCountsIndices<T(!new)>(s: seq<T>, p: T -> bool, from: nat)
    requires from <= |s|
    ensures |Filter(s[from..], p)| == |IndicesFrom(s, p, from)|
    decreases |s| - from
  {
    if from < |s| {
      FilterCountsIndices(s, p, from + 1);
      assert s[from..][1..] == s[from + 1..];
      var rest := IndicesFrom(s, p, from + 1);
      assert from !in rest;
      if p(s[from]) {
        assert IndicesFrom(s, p, from) == {from} + rest;
      } else {
        assert IndicesFrom(s, p, from) == rest;
      }
    } else {
      assert IndicesFrom(s, p, from) == {};
    }
  }

  /** Keeps the first occurrence of every element, in order of first
      appearance: `Array.from(new Set(s))`. */
  function Dedup<T(==,!new)>(s: seq<T>): (r: seq<T>)
    ensures Distinct(r)
    ensures forall x :: x in r <==> x in s
    ensures |r| <= |s|
  {
    DedupFrom([], s)
  }

  /** Appends to the duplicate-free `acc` every element of `s` not seen yet. */
  function DedupFrom<T(==,!new)>(acc: seq<T>, s: seq<T>): (r: seq<T>)
    requires Distinct(acc)
    ensures Distinct(r)
    ensures forall x :: x in r <==> x in acc || x in s
    ensures |r| <= |acc| + |s|
    decreases |s|
  {
    if |s| == 0 then acc
    else if s[0] in acc then DedupFrom(acc, s[1..])
    else DedupFrom(acc + [s[0]], s[1..])
  }

  /** The elements of a sequence, as a set. */
  function Elements<T>(s: seq<T>): set<T> {
    set x | x in s
  }

  /** A duplicate-free sequence has as many elements as its set. */
  lemma {:induction false} DistinctCardinality<T>(s: seq<T>)
    requires Distinct(s)
    ensures |Elements(s)| == |s|
  {
    if |s| > 0 {
      var rest := s[1..];
      assert Distinct(rest) by {
        forall i, j | 0 <= i < j < |rest| ensures rest[i] != rest[j] {
          assert rest[i] == s[i + 1] && rest[j] == s[j + 1];
        }
      }
      DistinctCardinality(rest);
      assert Elements(s) == {s[0]} + Elements(rest);
      assert s[0] !in Elements(rest);
    }
  }

  /** A subset of the elements of a duplicate-free sequence is no larger than it. */
  lemma SubsetOfDistinct<T>(xs: set<T>, s: seq<T>)
    requires Distinct(s)
    requires forall x :: x in xs ==> x in s
    ensures |xs| <= |s|
  {
    DistinctCardinality(s);
    assert xs <= Elements(s);
    SubsetCardinality(xs, Elements(s));
  }

  lemma {:induction false} SubsetCardinality<T>(a: set<T>, b: set<T>)
    requires a <= b
    ensures |a| <= |b|
    decreases b
  {
    if a != {} {
      var x :| x in a;
      SubsetCardinality(a - {x}, b - {x});
    }
  }
}
