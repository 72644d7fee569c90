/** Circular fund routing (fraudDetectionEngine.js `detectCycles`): a
    depth-first search from every account, in first-appearance order, that
    reports each simple cycle of three to five accounts it closes, keeping one
    cycle per canonical key (`normalizeCycle`). */
module Cycles {
  import opened Seqs
  import opened JsStrings
  import opened Transactions
  import opened TxGraph

  const MIN_CYCLE: nat := 3
  const MAX_CYCLE: nat := 5

  // ---- normalizeCycle ----

  /** `s.reduce((min, node) => node < min ? node : min, acc)`. */
  function MinFold(s: seq<string>, acc: string): (m: string)
    ensures m == acc || m in s
    ensures !Less(acc, m)
    ensures forall x :: x in s ==> !Less(x, m)
    decreases |s|
  {
    if |s| == 0 then
      LessIrreflexive(acc);
      acc
    else
      var next := if Less(s[0], acc) then s[0] else acc;
      var m := MinFold(s[1..], next);
      LessIrreflexive(s[0]);
      assert !Less(s[0], m) by {
        if Less(s[0], m) && next != s[0] {
          // here `next` is `acc`, which is not above `s[0]`, and `m` is not above `next`
          if m != next {
            LessConnected(m, next);
            LessTransitive(s[0], m, next);
          }
          assert false;
        }
      }
      assert !Less(acc, m) by {
        if Less(acc, m) && next != acc {
          LessTransitive(next, acc, m);
          assert false;
        }
      }
      assert forall x :: x in s ==> x == s[0] || x in s[1..];
      m
  }

  /** The smallest account of a non-empty cycle. */
  function MinNode(cycle: seq<Id>): (m: Id)
    requires |cycle| > 0
    ensures m in cycle
    ensures forall x :: x in cycle ==> !Less(x, m)
  {
    MinFold(cycle, cycle[0])
  }

  /** `[...s.slice(k), ...s.slice(0, k)]`. */
  function Rotate<T>(s: seq<T>, k: nat): (r: seq<T>)
    requires k <= |s|
    ensures |r| == |s|
    ensures forall i :: 0 <= i < |s| ==> r[i] == if i + k < |s| then s[i + k] else s[i + k - |s|]
  {
    s[k..] + s[..k]
  }

  /** The rotation of a cycle that starts at its smallest account. */
  function Canonical(cycle: seq<Id>): (r: seq<Id>)
    requires |cycle| > 0
  {
    Rotate(cycle, IndexOf(cycle, MinNode(cycle)))
  }

  /** The canonical key: the smaller of the forward and backward `-`-joins of
      the canonical rotation. */
  function NormalizeCycle(cycle: seq<Id>): string
    requires |cycle| > 0
  {
    var rotated := Canonical(cycle);
    var forward := Join(rotated, "-");
    var backward := Join(Reverse(rotated), "-");
    if Less(forward, backward) then forward else backward
  }

  // ---- rotation invariance ----

  /** Two accounts that are each no larger than every account of a cycle are
      the same account. */
  lemma MinimumUnique(cycle: seq<Id>, m1: Id, m2: Id)
    requires m1 in cycle && m2 in cycle
    requires forall x :: x in cycle ==> !Less(x, m1)
    requires forall x :: x in cycle ==> !Less(x, m2)
    ensures m1 == m2
  {
    if m1 != m2 {
      LessConnected(m1, m2);
    }
  }

  /** Rotating a rotation is a rotation. */
  lemma RotateRotate<T>(s: seq<T>, k: nat, j: nat)
    requires k < |s| && j < |s|
    ensures Rotate(Rotate(s, k), j) == Rotate(s, if k + j < |s| then k + j else k + j - |s|)
  {
  }

  /** A rotation of a rotation of `c` that starts at the minimum is the
      canonical rotation of `c`. */
  lemma CanonicalRotate(c: seq<Id>, k: nat)
    requires Distinct(c)
    requires k < |c|
    ensures Canonical(Rotate(c, k)) == Canonical(c)
  {
    var r := Rotate(c, k);
    assert forall x :: x in r <==> x in c by {
      forall x ensures x in r <==> x in c {
        if x in c {
          var i :| 0 <= i < |c| && c[i] == x;
          assert r[if i >= k then i - k else i + |c| - k] == x;
        }
      }
    }
    var m := MinNode(c);
    MinimumUnique(c, m, MinNode(r));
    var ic := IndexOf(c, m);
    var ir := IndexOf(r, m);
    var k2 := if k + ir < |c| then k + ir else k + ir - |c|;
    RotateRotate(c, k, ir);
    assert c[k2] == m == c[ic];
  }

  /** Every rotation of a duplicate-free cycle has the same key. */
  lemma NormalizeRotationInvariant(c: seq<Id>, k: nat)
    requires Distinct(c)
    requires k < |c|
    ensures NormalizeCycle(Rotate(c, k)) == NormalizeCycle(c)
  {
    CanonicalRotate(c, k);
  }

  // ---- the search ----

  /** A reported cycle: three to five distinct accounts, each sending to the
      next and the last sending back to the first. */
  predicate IsCycle(g: Graph, c: seq<Id>) {
    && MIN_CYCLE <= |c| <= MAX_CYCLE
    && Distinct(c)
    && (forall i :: 0 <= i < |c| - 1 ==> IsEdge(g, c[i], c[i + 1]))
    && IsEdge(g, c[|c| - 1], c[0])
  }

  /** A DFS path: distinct accounts along edges. */
  predicate IsPath(g: Graph, path: seq<Id>) {
    && |path| > 0
    && Distinct(path)
    && (forall i :: 0 <= i < |path| - 1 ==> IsEdge(g, path[i], path[i + 1]))
  }

  /** Appending a neighbour that is not yet on the path extends the path. */
  lemma ExtendPath(g: Graph, path: seq<Id>, n: Id)
    requires IsPath(g, path) && n !in path && IsEdge(g, path[|path| - 1], n)
    ensures IsPath(g, path + [n])
  {
    var p := path + [n];
    forall i | 0 <= i < |p| - 1
      ensures IsEdge(g, p[i], p[i + 1])
    {
      if i < |path| - 1 {
        assert p[i] == path[i] && p[i + 1] == path[i + 1];
      }
    }
  }

  /** The stretch of a path from `start` on, closed by an edge back to its
      first account, is a cycle when it has three to five accounts. */
  lemma SuffixIsCycle(g: Graph, path: seq<Id>, start: nat)
    requires IsPath(g, path) && start < |path|
    requires IsEdge(g, path[|path| - 1], path[start])
    requires MIN_CYCLE <= |path| - start <= MAX_CYCLE
    ensures IsCycle(g, path[start..])
  {
    var c := path[start..];
    forall i | 0 <= i < |c| - 1
      ensures IsEdge(g, c[i], c[i + 1])
    {
      assert c[i] == path[start + i] && c[i + 1] == path[start + i + 1];
    }
    forall i, j | 0 <= i < j < |c|
      ensures c[i] != c[j]
    {
      assert c[i] == path[start + i] && c[j] == path[start + j];
    }
  }

  /** The cycles found so far and `seenCycles`, kept as the sequence of
      their keys in insertion order. */
  datatype Found = Found(cycles: seq<seq<Id>>, keys: seq<string>)

  /** Every cycle is a cycle of `g`, listed with its key, and no key twice. */
  predicate Valid(g: Graph, st: Found) {
    && |st.keys| == |st.cycles|
    && (forall i :: 0 <= i < |st.cycles| ==> IsCycle(g, st.cycles[i]))
    && (forall i :: 0 <= i < |st.cycles| ==> st.keys[i] == NormalizeCycle(st.cycles[i]))
    && Distinct(st.keys)
  }

  /** The neighbour `n` is already on the path: the stretch of the path from
      `n` on is a cycle, reported when it has three to five accounts and its
      key is new. */
  function Close(g: Graph, path: seq<Id>, n: Id, st: Found): (r: Found)
    requires IsPath(g, path) && n in path && IsEdge(g, path[|path| - 1], n)
    requires Valid(g, st)
    ensures Valid(g, r)
  {
    var start := IndexOf(path, n);
    if start < 0 then st
    else
      var cycle := path[start..];
      if MIN_CYCLE <= |cycle| <= MAX_CYCLE then
        var key := NormalizeCycle(cycle);
        if key in st.keys then st
        else
          SuffixIsCycle(g, path, start);
          Record(g, st, cycle);
          Found(st.cycles + [cycle], st.keys + [key])
      else st
  }

  /** Recording a cycle of `g` whose key is new keeps the state valid. */
  lemma Record(g: Graph, st: Found, cycle: seq<Id>)
    requires Valid(g, st) && IsCycle(g, cycle)
    requires NormalizeCycle(cycle) !in st.keys
    ensures Valid(g, Found(st.cycles + [cycle], st.keys + [NormalizeCycle(cycle)]))
  {
    var cs := st.cycles + [cycle];
    var ks := st.keys + [NormalizeCycle(cycle)];
    forall i | 0 <= i < |cs|
      ensures IsCycle(g, cs[i]) && ks[i] == NormalizeCycle(cs[i])
    {
      if i < |st.cycles| {
        assert cs[i] == st.cycles[i] && ks[i] == st.keys[i];
      }
    }
    forall i, j | 0 <= i < j < |ks|
      ensures ks[i] != ks[j]
    {
      if j < |st.keys| {
        assert ks[i] == st.keys[i] && ks[j] == st.keys[j];
      } else {
        assert ks[i] in st.keys;
      }
    }
  }

  /** `dfs(node, path, pathSet, visited)`, where `node` is the last account of
      `path` and `visited` holds the accounts already used as roots. */
  function Search(g: Graph, path: seq<Id>, visited: set<Id>, st: Found): (r: Found)
    requires IsPath(g, path)
    requires Valid(g, st)
    ensures Valid(g, r)
    decreases MAX_CYCLE - |path|, 1, 0
  {
    if |path| > MAX_CYCLE then st
    else Explore(g, path, Out(g, path[|path| - 1]), visited, st)
  }

  /** The `for` loop over the outgoing neighbours `nbrs` of the path's end. */
  function Explore(g: Graph, path: seq<Id>, nbrs: seq<Id>, visited: set<Id>, st: Found): (r: Found)
    requires IsPath(g, path) && |path| <= MAX_CYCLE
    requires forall n :: n in nbrs ==> IsEdge(g, path[|path| - 1], n)
    requires Valid(g, st)
    ensures Valid(g, r)
    decreases MAX_CYCLE - |path|, 0, |nbrs|
  {
    if |nbrs| == 0 then st
    else
      var n := nbrs[0];
      assert n in nbrs;
      assert forall x :: x in nbrs[1..] ==> x in nbrs;
      var next :=
        if n in path then Close(g, path, n, st)
        else if |path| < MAX_CYCLE && n !in visited then
          ExtendPath(g, path, n);
          Search(g, path + [n], visited, st)
        else st;
      Explore(g, path, nbrs[1..], visited, next)
  }

  /** The outer loop: every account of `roots` not yet in `done` is a root,
      and joins `done` once its search is over. */
  function SearchRoots(g: Graph, roots: seq<Id>, done: set<Id>, st: Found): (r: Found)
    requires Valid(g, st)
    ensures Valid(g, r)
  {
    if |roots| == 0 then st
    else
      var root := roots[0];
      var next := if root in done then st else Search(g, [root], done, st);
      SearchRoots(g, roots[1..], done + {root}, next)
  }

  /** The cycles reported for `g`, in discovery order. */
  function DetectCycles(g: Graph): (cycles: seq<seq<Id>>)
    ensures forall i :: 0 <= i < |cycles| ==> IsCycle(g, cycles[i])
    ensures forall i, j :: 0 <= i < j < |cycles| ==>
      |cycles[i]| > 0 && |cycles[j]| > 0 && NormalizeCycle(cycles[i]) != NormalizeCycle(cycles[j])
  {
    var st := SearchRoots(g, g.keys, {}, Found([], []));
    st.cycles
  }

  /** No reported cycle is a rotation of another. */
  lemma NoRotatedDuplicates(g: Graph, i: int, j: int, k: nat)
    requires 0 <= i < j < |DetectCycles(g)|
    requires k < |DetectCycles(g)[i]|
    ensures DetectCycles(g)[j] != Rotate(DetectCycles(g)[i], k)
  {
    var cs := DetectCycles(g);
    NormalizeRotationInvariant(cs[i], k);
  }
}
