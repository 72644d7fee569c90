/** Layered shell networks (fraudDetectionEngine.js `detectShellNetworks`):
    simple chains of three to six accounts along transfers whose intermediate
    accounts take part in only two or three transactions of the whole
    dataset. A chain is dropped when its `->`-joined key contains, or is
    contained in, the key of a chain already accepted. */
module Shells {
  import opened Seqs
  import opened JsStrings
  import opened Transactions
  import opened TxGraph

  const MIN_CHAIN: nat := 3
  const MAX_CHAIN: nat := 6

  /** A shell account: two or three transactions in the dataset. */
  predicate IsShell(txs: seq<Transaction>, a: Id) {
    2 <= TxCount(txs, a) <= 3
  }

  /** `path.slice(1, -1)`. */
  function Intermediates(path: seq<Id>): (r: seq<Id>)
    requires |path| >= 2
    ensures |r| == |path| - 2
    ensures forall x :: x in r <==> exists i :: 1 <= i < |path| - 1 && path[i] == x
  {
    var r := path[1..|path| - 1];
    assert forall i :: 1 <= i < |path| - 1 ==> r[i - 1] == path[i];
    r
  }

  /** `path.join('->')`. */
  function ChainKey(path: seq<Id>): string {
    Join(path, "->")
  }

  /** A reported chain and its intermediates. */
  datatype ShellNetwork = ShellNetwork(chain: seq<Id>, intermediates: seq<Id>)

  /** The chains accepted so far and `seenChains`, kept as the sequence of
      their keys in insertion order. */
  datatype Accepted = Accepted(networks: seq<ShellNetwork>, keys: seq<string>)

  /** Some accepted key contains `key` or is contained in it. */
  predicate Overlaps(key: string, seen: seq<string>) {
    exists i :: 0 <= i < |seen| && (Includes(key, seen[i]) || Includes(seen[i], key))
  }

  /** A DFS path: distinct accounts along edges, at most six of them. */
  predicate IsPath(g: Graph, path: seq<Id>) {
    && 0 < |path| <= MAX_CHAIN
    && Distinct(path)
    && (forall i :: 0 <= i < |path| - 1 ==> IsEdge(g, path[i], path[i + 1]))
  }

  /** A reported chain: a path of three to six accounts whose intermediates
      are all shell accounts. */
  predicate IsShellChain(g: Graph, txs: seq<Transaction>, c: seq<Id>) {
    && MIN_CHAIN <= |c|
    && IsPath(g, c)
    && (forall i :: 1 <= i < |c| - 1 ==> IsShell(txs, c[i]))
  }

  /** Every accepted chain is a shell chain listed with its key and its
      intermediates, and no key contains another. */
  predicate Valid(g: Graph, txs: seq<Transaction>, st: Accepted) {
    && |st.keys| == |st.networks|
    && (forall i :: 0 <= i < |st.networks| ==>
          && IsShellChain(g, txs, st.networks[i].chain)
          && st.networks[i].intermediates == Intermediates(st.networks[i].chain)
          && st.keys[i] == ChainKey(st.networks[i].chain))
    && (forall i, j :: 0 <= i < |st.keys| && 0 <= j < |st.keys| && i != j ==> !Includes(st.keys[i], st.keys[j]))
  }

  /** The acceptance test at the top of `findChains`; `counts` is `txCounts`. */
  function Consider(g: Graph, txs: seq<Transaction>, counts: map<Id, Stats>, path: seq<Id>, st: Accepted)
    : (r: Accepted)
    requires counts == Tally(txs)
    requires IsPath(g, path)
    requires Valid(g, txs, st)
    ensures Valid(g, txs, r)
  {
    if |path| >= MIN_CHAIN then
      var intermediates := Intermediates(path);
      var allShells := forall x :: x in intermediates ==> 2 <= StatsOf(counts, x).count <= 3;
      if allShells && |intermediates| > 0 then
        var key := ChainKey(path);
        if Overlaps(key, st.keys) then st
        else
          assert forall i :: 1 <= i < |path| - 1 ==> IsShell(txs, path[i]) by {
            assert forall i :: 1 <= i < |path| - 1 ==> path[i] in intermediates;
          }
          Accepted(st.networks + [ShellNetwork(path, intermediates)], st.keys + [key])
      else st
    else st
  }

  /** `findChains(start, path, visited)`. The source's `visited` always holds
      exactly the accounts of `path`, so membership in `path` stands for both
      of its tests. */
  function Visit(g: Graph, txs: seq<Transaction>, counts: map<Id, Stats>, path: seq<Id>, st: Accepted)
    : (r: Accepted)
    requires counts == Tally(txs)
    requires IsPath(g, path)
    requires Valid(g, txs, st)
    ensures Valid(g, txs, r)
    decreases MAX_CHAIN - |path|, 1, 0
  {
    var next := Consider(g, txs, counts, path, st);
    if |path| >= MAX_CHAIN then next
    else Extend(g, txs, counts, path, Out(g, path[|path| - 1]), next)
  }

  /** The `for` loop over the outgoing neighbours `nbrs` of the path's end. */
  function Extend(g: Graph, txs: seq<Transaction>, counts: map<Id, Stats>, path: seq<Id>, nbrs: seq<Id>,
                  st: Accepted): (r: Accepted)
    requires counts == Tally(txs)
    requires IsPath(g, path) && |path| < MAX_CHAIN
    requires forall n :: n in nbrs ==> IsEdge(g, path[|path| - 1], n)
    requires Valid(g, txs, st)
    ensures Valid(g, txs, r)
    decreases MAX_CHAIN - |path|, 0, |nbrs|
  {
    if |nbrs| == 0 then st
    else
      var n := nbrs[0];
      assert n in nbrs;
      assert forall x :: x in nbrs[1..] ==> x in nbrs;
      var next :=
        if n !in path then
          ExtendPath(g, path, n);
          Visit(g, txs, counts, path + [n], st)
        else st;
      Extend(g, txs, counts, path, nbrs[1..], next)
  }

  /** Appending a neighbour that is not yet on a short path extends it. */
  lemma ExtendPath(g: Graph, path: seq<Id>, n: Id)
    requires IsPath(g, path) && |path| < MAX_CHAIN
    requires n !in path && IsEdge(g, path[|path| - 1], n)
    ensures IsPath(g, path + [n])
  {
    var p := path + [n];
    forall i | 0 <= i < |p| - 1
      ensures IsEdge(g, p[i], p[i + 1])
    {
      if i < |path| - 1 {
        assert p[i] == path[i] && p[i + 1] == path[i + 1];
      }
    }
  }

  /** The outer loop over the graph's accounts; `explored` is `exploredStarts`. */
  function SearchStarts(g: Graph, txs: seq<Transaction>, counts: map<Id, Stats>, starts: seq<Id>,
                        explored: set<Id>, st: Accepted): (r: Accepted)
    requires counts == Tally(txs)
    requires Valid(g, txs, st)
    ensures Valid(g, txs, r)
  {
    if |starts| == 0 then st
    else
      var node := starts[0];
      var next := if node in explored then st else Visit(g, txs, counts, [node], st);
      SearchStarts(g, txs, counts, starts[1..], explored + {node}, next)
  }

  /** The shell networks of `g`, in discovery order. */
  function DetectShellNetworks(g: Graph, txs: seq<Transaction>): (r: seq<ShellNetwork>)
    ensures forall i :: 0 <= i < |r| ==>
      IsShellChain(g, txs, r[i].chain) && r[i].intermediates == Intermediates(r[i].chain)
    ensures forall i, j :: 0 <= i < |r| && 0 <= j < |r| && i != j ==>
      !Includes(ChainKey(r[i].chain), ChainKey(r[j].chain))
  {
    var st := SearchStarts(g, txs, Tally(txs), g.keys, {}, Accepted([], []));
    st.networks
  }

  /** No reported chain is a stretch of consecutive accounts of another. */
  lemma NoSubChains(g: Graph, txs: seq<Transaction>, i: int, j: int, lo: int, hi: int)
    requires var r := DetectShellNetworks(g, txs);
      0 <= i < |r| && 0 <= j < |r| && i != j && 0 <= lo < hi <= |r[i].chain|
    ensures var r := DetectShellNetworks(g, txs);
      r[j].chain != r[i].chain[lo..hi]
  {
    var r := DetectShellNetworks(g, txs);
    JoinSliceIncluded(r[i].chain, lo, hi, "->");
  }

  /** The key test is wider than the sub-chain test: the key of `B, C, A1` is
      a prefix of the key of `B, C, A12`, so whichever of the two chains is
      met second is dropped, although neither is a stretch of the other. */
  lemma KeyOverlapWithoutSubChain()
    ensures var long := ChainKey(["B", "C", "A12"]);
      var short := ChainKey(["B", "C", "A1"]);
      && Includes(long, short)
      && Overlaps(short, [long])
      && Overlaps(long, [short])
    ensures forall lo, hi :: 0 <= lo < hi <= 3 ==> ["B", "C", "A12"][lo..hi] != ["B", "C", "A1"]
  {
    var long := ChainKey(["B", "C", "A12"]);
    var short := ChainKey(["B", "C", "A1"]);
    assert ["B", "C", "A12"][1..] == ["C", "A12"] && ["C", "A12"][1..] == ["A12"];
    assert ["B", "C", "A1"][1..] == ["C", "A1"] && ["C", "A1"][1..] == ["A1"];
    assert long == "B->C->A12";
    assert short == "B->C->A1";
    assert long[0..|short|] == short;
    assert OccursAt(long, short, 0);
    assert [long][0] == long && [short][0] == short;
  }
}
