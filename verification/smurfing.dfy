/** Smurfing (fraudDetectionEngine.js `detectSmurfing`): an account that, in
    some 72-hour window opened by one of its own transactions, receives from
    (fan-in) or sends to (fan-out) at least ten distinct accounts. Each
    account's transactions are taken in timestamp order and the first window
    that qualifies is reported. */
module Smurfing {
  import opened Seqs
  import opened Sorting
  import opened Transactions

  /** 72 hours in milliseconds. */
  const WINDOW_MS: int := 72 * 60 * 60 * 1000
  /** Distinct counterparties a window needs. */
  const THRESHOLD: nat := 10

  /** Fan-in groups by receiver and counts senders; fan-out the reverse. */
  datatype Direction = FanIn | FanOut

  /** The account a transaction is grouped under. */
  function AnchorOf(d: Direction, tx: Transaction): Id {
    if d == FanIn then tx.receiver else tx.sender
  }

  /** The counterparty a transaction contributes. */
  function PartnerOf(d: Direction, tx: Transaction): Id {
    if d == FanIn then tx.sender else tx.receiver
  }

  /** A reported pattern: the anchor, its distinct counterparties in the
      window in order of first appearance there, the number of transactions
      in the window, and the window's opening timestamp. */
  datatype Pattern = Pattern(anchor: Id, partners: seq<Id>, transactionCount: nat, windowStart: int)

  /** The keys of `receiverGroups` / `senderGroups`, in insertion order. */
  function Anchors(d: Direction, txs: seq<Transaction>): (anchors: seq<Id>)
    ensures Distinct(anchors)
    ensures forall a :: a in anchors <==> exists i :: 0 <= i < |txs| && AnchorOf(d, txs[i]) == a
  {
    var all := Map(txs, tx => AnchorOf(d, tx));
    forall a ensures a in all <==> exists i :: 0 <= i < |txs| && AnchorOf(d, txs[i]) == a {
      MapMembership(txs, tx => AnchorOf(d, tx), a);
      if exists i :: 0 <= i < |txs| && AnchorOf(d, txs[i]) == a {
        var i :| 0 <= i < |txs| && AnchorOf(d, txs[i]) == a;
        assert txs[i] in txs;
      }
    }
    Dedup(all)
  }

  /** The group of `a`: its transactions in input order. */
  function Group(d: Direction, txs: seq<Transaction>, a: Id): seq<Transaction> {
    Filter(txs, tx => AnchorOf(d, tx) == a)
  }

  /** The sort key: `new Date(timestamp)` compared by subtraction. */
  function TimeKey(tx: Transaction): int {
    tx.timestamp
  }

  /** The group sorted by timestamp; ties keep input order. */
  function ByTime(group: seq<Transaction>): seq<Transaction> {
    SortBy(group, TimeKey)
  }

  /** The inclusive window `[start, start + 72h]`. */
  predicate InWindow(tx: Transaction, start: int) {
    start <= tx.timestamp <= start + WINDOW_MS
  }

  function WindowOf(sorted: seq<Transaction>, start: int): seq<Transaction> {
    Filter(sorted, tx => InWindow(tx, start))
  }

  /** `Array.from(new Set(window.map(partner)))`. */
  function PartnersOf(d: Direction, window: seq<Transaction>): seq<Id> {
    Dedup(Map(window, tx => PartnerOf(d, tx)))
  }

  /** The sliding-window loop from position `i`: the first window, opened by
      a transaction of `sorted`, with enough distinct counterparties. */
  function FirstWindow(d: Direction, a: Id, sorted: seq<Transaction>, i: nat): (r: Option<Pattern>)
    requires i <= |sorted|
    ensures r.Some? ==> r.value.anchor == a
    decreases |sorted| - i
  {
    if i == |sorted| then None
    else
      var start := sorted[i].timestamp;
      var window := WindowOf(sorted, start);
      var partners := PartnersOf(d, window);
      if |partners| >= THRESHOLD then Some(Pattern(a, partners, |window|, start))
      else FirstWindow(d, a, sorted, i + 1)
  }

  /** The pattern of one group, if any. */
  function DetectAnchor(d: Direction, txs: seq<Transaction>, a: Id): (r: Option<Pattern>)
    ensures r.Some? ==> r.value.anchor == a
  {
    FirstWindow(d, a, ByTime(Group(d, txs, a)), 0)
  }

  /** The `forEach` over the groups, `detect` giving each group's pattern;
      `seen` is `seenFanIn` / `seenFanOut`. */
  function CollectFrom(anchors: seq<Id>, seen: set<Id>, detect: Id -> Option<Pattern>): seq<Pattern> {
    if |anchors| == 0 then []
    else
      var a := anchors[0];
      var found := if a in seen then None else detect(a);
      if found.Some? then [found.value] + CollectFrom(anchors[1..], seen + {a}, detect)
      else CollectFrom(anchors[1..], seen, detect)
  }

  /** The patterns of one direction, in group order. */
  function DetectFans(d: Direction, txs: seq<Transaction>): seq<Pattern> {
    CollectFrom(Anchors(d, txs), {}, a => DetectAnchor(d, txs, a))
  }

  datatype SmurfingResult = SmurfingResult(fanIn: seq<Pattern>, fanOut: seq<Pattern>)

  function DetectSmurfing(txs: seq<Transaction>): (r: SmurfingResult)
    ensures r.fanIn == DetectFans(FanIn, txs) && r.fanOut == DetectFans(FanOut, txs)
  {
    SmurfingResult(DetectFans(FanIn, txs), DetectFans(FanOut, txs))
  }

  // ---- Reference view: windows over the raw transaction list ----

  /** The distinct counterparties of `a` among its transactions in the window
      opened at `start`. */
  function WindowPartners(d: Direction, txs: seq<Transaction>, a: Id, start: int): set<Id> {
    set i | 0 <= i < |txs| && AnchorOf(d, txs[i]) == a && InWindow(txs[i], start) :: PartnerOf(d, txs[i])
  }

  /** The window opened at `start` has enough counterparties. */
  predicate Qualifies(d: Direction, txs: seq<Transaction>, a: Id, start: int) {
    |WindowPartners(d, txs, a, start)| >= THRESHOLD
  }

  /** `start` is the timestamp of one of `a`'s own transactions. */
  predicate OpensWindow(d: Direction, txs: seq<Transaction>, a: Id, start: int) {
    exists i :: 0 <= i < |txs| && AnchorOf(d, txs[i]) == a && txs[i].timestamp == start
  }

  /** The sorted group holds exactly `a`'s transactions. */
  lemma SortedGroupMembership(d: Direction, txs: seq<Transaction>, a: Id, x: Transaction)
    ensures x in ByTime(Group(d, txs, a)) <==> x in txs && AnchorOf(d, x) == a
  {
    SortByMembership(Group(d, txs, a), TimeKey, x);
  }

  /** The partners computed from a window of the sorted group are exactly the
      reference partners, each once. */
  lemma PartnersMatch(d: Direction, txs: seq<Transaction>, a: Id, start: int)
    ensures var ps := PartnersOf(d, WindowOf(ByTime(Group(d, txs, a)), start));
      && Distinct(ps)
      && Elements(ps) == WindowPartners(d, txs, a, start)
      && |ps| == |WindowPartners(d, txs, a, start)|
  {
    var sorted := ByTime(Group(d, txs, a));
    var window := WindowOf(sorted, start);
    var ps := PartnersOf(d, window);
    forall p ensures p in ps <==> p in WindowPartners(d, txs, a, start) {
      MapMembership(window, tx => PartnerOf(d, tx), p);
      if p in ps {
        var x :| x in window && PartnerOf(d, x) == p;
        SortedGroupMembership(d, txs, a, x);
        var i :| 0 <= i < |txs| && txs[i] == x;
      }
      if p in WindowPartners(d, txs, a, start) {
        var i :| 0 <= i < |txs| && AnchorOf(d, txs[i]) == a && InWindow(txs[i], start) && PartnerOf(d, txs[i]) == p;
        SortedGroupMembership(d, txs, a, txs[i]);
      }
    }
    assert Elements(ps) == WindowPartners(d, txs, a, start);
    DistinctCardinality(ps);
  }

  /** The number of transactions in a window of the sorted group is the
      number of `a`'s transactions in that window. */
  lemma WindowCount(d: Direction, txs: seq<Transaction>, a: Id, start: int)
    ensures |WindowOf(ByTime(Group(d, txs, a)), start)| ==
            |Filter(txs, tx => AnchorOf(d, tx) == a && InWindow(tx, start))|
  {
    var group := Group(d, txs, a);
    var inWindow := (tx: Transaction) => InWindow(tx, start);
    FilterPermutation(ByTime(group), group, inWindow);
    var both := (tx: Transaction) => AnchorOf(d, tx) == a && InWindow(tx, start);
    forall x ensures multiset(Filter(group, inWindow))[x] == multiset(Filter(txs, both))[x] {
      FilterMultiset(group, inWindow, x);
      FilterMultiset(txs, (tx: Transaction) => AnchorOf(d, tx) == a, x);
      FilterMultiset(txs, both, x);
    }
    assert multiset(Filter(group, inWindow)) == multiset(Filter(txs, both));
    assert |multiset(Filter(group, inWindow))| == |multiset(Filter(txs, both))|;
  }

  /** A window of the sorted group has enough partners exactly when it
      qualifies. */
  lemma QualifiesSorted(d: Direction, txs: seq<Transaction>, a: Id, sorted: seq<Transaction>, t: int)
    requires sorted == ByTime(Group(d, txs, a))
    ensures |PartnersOf(d, WindowOf(sorted, t))| >= THRESHOLD <==> Qualifies(d, txs, a, t)
  {
    PartnersMatch(d, txs, a, t);
  }

  /** No window opened at positions `i` to `j - 1` of `sorted` qualifies. */
  predicate ShortBetween(d: Direction, txs: seq<Transaction>, a: Id, sorted: seq<Transaction>, i: nat, j: nat)
    requires j <= |sorted|
  {
    forall j' :: i <= j' < j ==> !Qualifies(d, txs, a, sorted[j'].timestamp)
  }

  /** `p` is the pattern of the qualifying window opened at position `j`. */
  predicate FoundAt(d: Direction, txs: seq<Transaction>, a: Id, sorted: seq<Transaction>, j: nat, p: Pattern)
    requires j < |sorted|
  {
    && sorted[j].timestamp == p.windowStart
    && Qualifies(d, txs, a, p.windowStart)
    && p.anchor == a
    && p.partners == PartnersOf(d, WindowOf(sorted, p.windowStart))
    && p.transactionCount == |WindowOf(sorted, p.windowStart)|
  }

  /** The scan from position `i` of the sorted group reports the window
      opened at the first position `j >= i` that qualifies, or nothing when
      none from `i` on does. */
  lemma {:induction false} FirstWindowSpec(d: Direction, txs: seq<Transaction>, a: Id, sorted: seq<Transaction>, i: nat)
    requires sorted == ByTime(Group(d, txs, a))
    requires i <= |sorted|
    ensures FirstWindow(d, a, sorted, i).None? ==> ShortBetween(d, txs, a, sorted, i, |sorted|)
    ensures FirstWindow(d, a, sorted, i).Some? ==>
      exists j :: i <= j < |sorted| && FoundAt(d, txs, a, sorted, j, FirstWindow(d, a, sorted, i).value)
        && ShortBetween(d, txs, a, sorted, i, j)
    decreases |sorted| - i
  {
    if i < |sorted| {
      var t := sorted[i].timestamp;
      QualifiesSorted(d, txs, a, sorted, t);
      FirstWindowSpec(d, txs, a, sorted, i + 1);
      if Qualifies(d, txs, a, t) {
        assert FoundAt(d, txs, a, sorted, i, FirstWindow(d, a, sorted, i).value);
        assert ShortBetween(d, txs, a, sorted, i, i);
      } else {
        assert FirstWindow(d, a, sorted, i) == FirstWindow(d, a, sorted, i + 1);
        if FirstWindow(d, a, sorted, i).Some? {
          var j :| i + 1 <= j < |sorted| && FoundAt(d, txs, a, sorted, j, FirstWindow(d, a, sorted, i).value)
            && ShortBetween(d, txs, a, sorted, i + 1, j);
          assert ShortBetween(d, txs, a, sorted, i, j);
        }
      }
    }
  }

  /** A transaction of `a` opens a window at `t` exactly when some
      transaction of the sorted group has timestamp `t`. */
  lemma OpensWindowSorted(d: Direction, txs: seq<Transaction>, a: Id, sorted: seq<Transaction>, t: int)
    requires sorted == ByTime(Group(d, txs, a))
    ensures OpensWindow(d, txs, a, t) <==> exists j :: 0 <= j < |sorted| && sorted[j].timestamp == t
  {
    if OpensWindow(d, txs, a, t) {
      var i :| 0 <= i < |txs| && AnchorOf(d, txs[i]) == a && txs[i].timestamp == t;
      SortedGroupMembership(d, txs, a, txs[i]);
      var j :| 0 <= j < |sorted| && sorted[j] == txs[i];
    }
    if exists j :: 0 <= j < |sorted| && sorted[j].timestamp == t {
      var j :| 0 <= j < |sorted| && sorted[j].timestamp == t;
      SortedGroupMembership(d, txs, a, sorted[j]);
      var i :| 0 <= i < |txs| && txs[i] == sorted[j];
    }
  }

  /** `a` has a window, opened by one of its transactions, that qualifies. */
  ghost predicate HasQualifyingWindow(d: Direction, txs: seq<Transaction>, a: Id) {
    exists t :: OpensWindow(d, txs, a, t) && Qualifies(d, txs, a, t)
  }

  /** When no pattern is found, no window of `a` qualifies. */
  lemma DetectAnchorNone(d: Direction, txs: seq<Transaction>, a: Id)
    requires DetectAnchor(d, txs, a).None?
    ensures !HasQualifyingWindow(d, txs, a)
  {
    var sorted := ByTime(Group(d, txs, a));
    FirstWindowSpec(d, txs, a, sorted, 0);
    forall t | OpensWindow(d, txs, a, t)
      ensures !Qualifies(d, txs, a, t)
    {
      OpensWindowSorted(d, txs, a, sorted, t);
    }
  }

  /** The reported window is the earliest qualifying one: windows opened by
      earlier transactions of `a` fall short. */
  lemma EarlierWindowsShort(d: Direction, txs: seq<Transaction>, a: Id, sorted: seq<Transaction>, j: nat, t: int)
    requires sorted == ByTime(Group(d, txs, a))
    requires j < |sorted| && ShortBetween(d, txs, a, sorted, 0, j)
    requires OpensWindow(d, txs, a, t) && t < sorted[j].timestamp
    ensures !Qualifies(d, txs, a, t)
  {
    OpensWindowSorted(d, txs, a, sorted, t);
    var j' :| 0 <= j' < |sorted| && sorted[j'].timestamp == t;
    // sorted by time, so an earlier timestamp sits at an earlier position
    assert TimeKey(sorted[j']) < TimeKey(sorted[j]);
    assert j' < j;
  }

  /** What a found pattern satisfies. */
  ghost predicate PatternSpec(d: Direction, txs: seq<Transaction>, a: Id, p: Pattern) {
    && p.anchor == a
    && OpensWindow(d, txs, a, p.windowStart)
    && Qualifies(d, txs, a, p.windowStart)
    && (forall t :: OpensWindow(d, txs, a, t) && t < p.windowStart ==> !Qualifies(d, txs, a, t))
    && Distinct(p.partners)
    && Elements(p.partners) == WindowPartners(d, txs, a, p.windowStart)
    && |p.partners| >= THRESHOLD
    && p.transactionCount == |Filter(txs, tx => AnchorOf(d, tx) == a && InWindow(tx, p.windowStart))|
  }

  /** A found pattern opens at the earliest qualifying window of `a`, and its
      partners are exactly that window's distinct counterparties. */
  lemma DetectAnchorSome(d: Direction, txs: seq<Transaction>, a: Id)
    requires DetectAnchor(d, txs, a).Some?
    ensures PatternSpec(d, txs, a, DetectAnchor(d, txs, a).value)
  {
    var sorted := ByTime(Group(d, txs, a));
    var p := DetectAnchor(d, txs, a).value;
    FirstWindowSpec(d, txs, a, sorted, 0);
    var j :| 0 <= j < |sorted| && FoundAt(d, txs, a, sorted, j, p) && ShortBetween(d, txs, a, sorted, 0, j);
    OpensWindowSorted(d, txs, a, sorted, p.windowStart);
    forall t | OpensWindow(d, txs, a, t) && t < p.windowStart
      ensures !Qualifies(d, txs, a, t)
    {
      EarlierWindowsShort(d, txs, a, sorted, j, t);
    }
    PartnersMatch(d, txs, a, p.windowStart);
    WindowCount(d, txs, a, p.windowStart);
  }

  /** A pattern is reported for `a` exactly when one of its windows qualifies. */
  lemma DetectAnchorIff(d: Direction, txs: seq<Transaction>, a: Id)
    ensures DetectAnchor(d, txs, a).Some? <==> HasQualifyingWindow(d, txs, a)
  {
    if DetectAnchor(d, txs, a).Some? {
      DetectAnchorSome(d, txs, a);
    } else {
      DetectAnchorNone(d, txs, a);
    }
  }

  /** Some pattern of `ps` is anchored at `a`. */
  predicate Reported(ps: seq<Pattern>, a: Id) {
    exists k :: 0 <= k < |ps| && ps[k].anchor == a
  }

  /** `detect` reports a pattern for an account only under that account. */
  ghost predicate AnchoredAt(detect: Id -> Option<Pattern>) {
    forall a :: detect(a).Some? ==> detect(a).value.anchor == a
  }

  /** Every pattern of `ps` is the pattern `detect` gives an account of
      `anchors` outside `seen`. */
  ghost predicate SoundPatterns(ps: seq<Pattern>, anchors: seq<Id>, seen: set<Id>, detect: Id -> Option<Pattern>) {
    forall k :: 0 <= k < |ps| ==>
      ps[k].anchor in anchors && ps[k].anchor !in seen && detect(ps[k].anchor) == Some(ps[k])
  }

  /** No two patterns of `ps` share an anchor. */
  predicate OncePerAnchor(ps: seq<Pattern>) {
    forall k, l :: 0 <= k < l < |ps| ==> ps[k].anchor != ps[l].anchor
  }

  /** Every pattern of `CollectFrom` is the pattern of an anchor of the list
      that is not in `seen`. */
  lemma {:induction false} CollectFromSound(anchors: seq<Id>, seen: set<Id>, detect: Id -> Option<Pattern>)
    requires AnchoredAt(detect)
    ensures SoundPatterns(CollectFrom(anchors, seen, detect), anchors, seen, detect)
  {
    if |anchors| > 0 {
      var a := anchors[0];
      var rest := anchors[1..];
      assert forall x :: x in rest ==> x in anchors;
      var ps := CollectFrom(anchors, seen, detect);
      if a in seen || detect(a).None? {
        CollectFromSound(rest, seen, detect);
        assert ps == CollectFrom(rest, seen, detect);
      } else {
        CollectFromSound(rest, seen + {a}, detect);
        var tail := CollectFrom(rest, seen + {a}, detect);
        assert ps == [detect(a).value] + tail;
        forall k | 0 <= k < |ps|
          ensures ps[k].anchor in anchors && ps[k].anchor !in seen && detect(ps[k].anchor) == Some(ps[k])
        {
          if k > 0 {
            assert ps[k] == tail[k - 1];
          }
        }
      }
    }
  }

  /** `CollectFrom` reports every anchor at most once. */
  lemma {:induction false} CollectFromOnce(anchors: seq<Id>, seen: set<Id>, detect: Id -> Option<Pattern>)
    requires AnchoredAt(detect)
    ensures OncePerAnchor(CollectFrom(anchors, seen, detect))
  {
    if |anchors| > 0 {
      var a := anchors[0];
      var rest := anchors[1..];
      var ps := CollectFrom(anchors, seen, detect);
      if a in seen || detect(a).None? {
        CollectFromOnce(rest, seen, detect);
        assert ps == CollectFrom(rest, seen, detect);
      } else {
        CollectFromOnce(rest, seen + {a}, detect);
        CollectFromSound(rest, seen + {a}, detect);
        var tail := CollectFrom(rest, seen + {a}, detect);
        assert ps == [detect(a).value] + tail;
        forall k, l | 0 <= k < l < |ps|
          ensures ps[k].anchor != ps[l].anchor
        {
          assert ps[l] == tail[l - 1];
          assert tail[l - 1].anchor !in seen + {a};
          if k == 0 {
            assert ps[0] == detect(a).value;
          } else {
            assert ps[k] == tail[k - 1];
            assert tail[k - 1].anchor != tail[l - 1].anchor;
          }
        }
      }
    }
  }

  /** Every anchor of a duplicate-free list that is not in `seen` and has a
      pattern is reported. */
  lemma {:induction false} CollectFromComplete(anchors: seq<Id>, seen: set<Id>, detect: Id -> Option<Pattern>, a: Id)
    requires AnchoredAt(detect)
    requires Distinct(anchors)
    requires a in anchors && a !in seen && detect(a).Some?
    ensures Reported(CollectFrom(anchors, seen, detect), a)
  {
    var b := anchors[0];
    var rest := anchors[1..];
    var ps := CollectFrom(anchors, seen, detect);
    if a == b {
      assert ps == [detect(a).value] + CollectFrom(rest, seen + {a}, detect);
      assert ps[0].anchor == a;
    } else {
      assert a in rest;
      assert Distinct(rest);
      if b in seen || detect(b).None? {
        CollectFromComplete(rest, seen, detect, a);
        assert ps == CollectFrom(rest, seen, detect);
      } else {
        CollectFromComplete(rest, seen + {b}, detect, a);
        var tail := CollectFrom(rest, seen + {b}, detect);
        assert ps == [detect(b).value] + tail;
        var k :| 0 <= k < |tail| && tail[k].anchor == a;
        assert ps[k + 1] == tail[k];
      }
    }
  }

  /** The patterns of one direction: each is its anchor's pattern, no account
      is reported twice, and an account is reported exactly when one of its
      windows qualifies. */
  lemma DetectFansSpec(d: Direction, txs: seq<Transaction>)
    ensures var ps := DetectFans(d, txs);
      && (forall k :: 0 <= k < |ps| ==> DetectAnchor(d, txs, ps[k].anchor) == Some(ps[k]))
      && (forall k, l :: 0 <= k < l < |ps| ==> ps[k].anchor != ps[l].anchor)
      && (forall a :: Reported(ps, a) <==> HasQualifyingWindow(d, txs, a))
  {
    var ps := DetectFans(d, txs);
    var anchors := Anchors(d, txs);
    var detect := a => DetectAnchor(d, txs, a);
    assert AnchoredAt(detect);
    CollectFromSound(anchors, {}, detect);
    CollectFromOnce(anchors, {}, detect);
    forall a ensures Reported(ps, a) <==> HasQualifyingWindow(d, txs, a) {
      DetectAnchorIff(d, txs, a);
      if HasQualifyingWindow(d, txs, a) {
        var t :| OpensWindow(d, txs, a, t) && Qualifies(d, txs, a, t);
        var i :| 0 <= i < |txs| && AnchorOf(d, txs[i]) == a && txs[i].timestamp == t;
        assert a in anchors;
        CollectFromComplete(anchors, {}, detect, a);
      }
    }
  }
}
