/** The links of the display graph (csvParser.js `buildGraphData`): one link
    per key, holding the first transaction's endpoints and the sum of the
    amounts and the number of the transactions that share the key. The
    aggregation is written once, for any key function; the source keys links
    by the string `sender->receiver`, and the model uses the pair itself (see
    `PairLinks` and `StringKeyCollision`). */
module Links {
  import opened Seqs
  import opened Transactions

  datatype Link = Link(source: Id, target: Id, value: real, count: nat)

  /** The JavaScript `Map` of links: keys in insertion order and entries. */
  datatype LinkTable<K> = LinkTable(keys: seq<K>, links: map<K, Link>)

  ghost predicate WellFormed<K(!new)>(t: LinkTable<K>) {
    Distinct(t.keys) && forall k :: k in t.links <==> k in t.keys
  }

  /** One `forEach` step: create the link with zero totals when the key is
      new, then add the amount and one transaction. */
  function AddLink<K(==,!new)>(t: LinkTable<K>, k: K, tx: Transaction): (r: LinkTable<K>)
    requires WellFormed(t)
    ensures WellFormed(r)
  {
    if k in t.links then
      var l := t.links[k];
      LinkTable(t.keys, t.links[k := Link(l.source, l.target, l.value + tx.amount, l.count + 1)])
    else
      LinkTable(t.keys + [k], t.links[k := Link(tx.sender, tx.receiver, tx.amount, 1)])
  }

  function LinksFrom<K(==,!new)>(t: LinkTable<K>, txs: seq<Transaction>, key: Transaction -> K): (r: LinkTable<K>)
    requires WellFormed(t)
    ensures WellFormed(r)
    decreases |txs|
  {
    if |txs| == 0 then t
    else LinksFrom(AddLink(t, key(txs[0]), txs[0]), txs[1..], key)
  }

  /** `Array.from(linksMap.values())`. */
  function Values<K(==,!new)>(t: LinkTable<K>): (ls: seq<Link>)
    requires WellFormed(t)
    ensures |ls| == |t.keys|
  {
    seq(|t.keys|, i requires 0 <= i < |t.keys| => t.links[t.keys[i]])
  }

  function LinksBy<K(==,!new)>(txs: seq<Transaction>, key: Transaction -> K): (ls: seq<Link>) {
    Values(LinksFrom(LinkTable([], map[]), txs, key))
  }

  // ---- Reference view ----

  /** Number of transactions with key `k`. */
  function KeyCount<K(==,!new)>(txs: seq<Transaction>, key: Transaction -> K, k: K): nat {
    if |txs| == 0 then 0
    else (if key(txs[0]) == k then 1 else 0) + KeyCount(txs[1..], key, k)
  }

  /** Sum of the amounts of the transactions with key `k`. */
  function KeyTotal<K(==,!new)>(txs: seq<Transaction>, key: Transaction -> K, k: K): real {
    if |txs| == 0 then 0.0
    else (if key(txs[0]) == k then txs[0].amount else 0.0) + KeyTotal(txs[1..], key, k)
  }

  /** Some transaction has key `k`. */
  predicate HasKey<K(==,!new)>(txs: seq<Transaction>, key: Transaction -> K, k: K) {
    exists i :: 0 <= i < |txs| && key(txs[i]) == k
  }

  /** The endpoints of a link come from a transaction with its key. */
  predicate EndpointsFrom<K(==,!new)>(txs: seq<Transaction>, key: Transaction -> K, k: K, l: Link) {
    exists i :: 0 <= i < |txs| && key(txs[i]) == k && l.source == txs[i].sender && l.target == txs[i].receiver
  }

  lemma HasKeyCons<K(!new)>(txs: seq<Transaction>, key: Transaction -> K, k: K)
    requires |txs| > 0
    ensures HasKey(txs, key, k) <==> key(txs[0]) == k || HasKey(txs[1..], key, k)
  {
    if HasKey(txs[1..], key, k) {
      var i :| 0 <= i < |txs[1..]| && key(txs[1..][i]) == k;
      assert txs[i + 1] == txs[1..][i];
    }
    if HasKey(txs, key, k) && key(txs[0]) != k {
      var i :| 0 <= i < |txs| && key(txs[i]) == k;
      assert txs[1..][i - 1] == txs[i];
    }
  }

  /** The fold adds, under every key, the number and the amounts of the
      transactions with that key; a new key takes the endpoints of its first
      transaction. */
  lemma {:induction false} LinksFromEffect<K(!new)>(t: LinkTable<K>, txs: seq<Transaction>, key: Transaction -> K, k: K)
    requires WellFormed(t)
    ensures k in LinksFrom(t, txs, key).links <==> k in t.links || HasKey(txs, key, k)
    ensures k in t.links ==>
      && LinksFrom(t, txs, key).links[k].count == t.links[k].count + KeyCount(txs, key, k)
      && LinksFrom(t, txs, key).links[k].value == t.links[k].value + KeyTotal(txs, key, k)
      && LinksFrom(t, txs, key).links[k].source == t.links[k].source
      && LinksFrom(t, txs, key).links[k].target == t.links[k].target
    ensures k !in t.links && HasKey(txs, key, k) ==>
      && LinksFrom(t, txs, key).links[k].count == KeyCount(txs, key, k)
      && LinksFrom(t, txs, key).links[k].value == KeyTotal(txs, key, k)
      && EndpointsFrom(txs, key, k, LinksFrom(t, txs, key).links[k])
    decreases |txs|
  {
    if |txs| > 0 {
      var tx := txs[0];
      var t1 := AddLink(t, key(tx), tx);
      LinksFromEffect(t1, txs[1..], key, k);
      HasKeyCons(txs, key, k);
      var r := LinksFrom(t, txs, key);
      if k !in t.links && HasKey(txs, key, k) {
        if key(tx) == k {
          assert EndpointsFrom(txs, key, k, r.links[k]) by {
            assert key(txs[0]) == k && r.links[k].source == txs[0].sender && r.links[k].target == txs[0].receiver;
          }
        } else {
          var i :| 0 <= i < |txs[1..]| && key(txs[1..][i]) == k
                   && r.links[k].source == txs[1..][i].sender && r.links[k].target == txs[1..][i].receiver;
          assert txs[i + 1] == txs[1..][i];
        }
      }
    }
  }

  /** Sum of the counts under `keys`. */
  function CountOver<K(==,!new)>(keys: seq<K>, links: map<K, Link>): nat
    requires forall k :: k in keys ==> k in links
  {
    if |keys| == 0 then 0
    else links[keys[0]].count + CountOver(keys[1..], links)
  }

  /** Changing the link under a key listed once changes the sum by the change
      in its count. */
  lemma {:induction false} CountOverUpdate<K(!new)>(keys: seq<K>, links: map<K, Link>, k: K, l: Link)
    requires forall x :: x in keys ==> x in links
    requires Distinct(keys)
    ensures CountOver(keys, links[k := l]) ==
      CountOver(keys, links) + (if k in keys then l.count - links[k].count else 0)
  {
    if |keys| > 0 {
      DistinctTail(keys);
      CountOverUpdate(keys[1..], links, k, l);
    }
  }

  lemma {:induction false} CountOverAppend<K(!new)>(keys: seq<K>, links: map<K, Link>, k: K)
    requires forall x :: x in keys ==> x in links
    requires k in links
    ensures CountOver(keys + [k], links) == CountOver(keys, links) + links[k].count
  {
    if |keys| > 0 {
      assert (keys + [k])[1..] == keys[1..] + [k];
      CountOverAppend(keys[1..], links, k);
    } else {
      assert (keys + [k])[1..] == [];
    }
  }

  /** One step adds exactly one transaction to the counts. */
  lemma AddLinkCount<K(!new)>(t: LinkTable<K>, k: K, tx: Transaction)
    requires WellFormed(t)
    ensures CountOver(AddLink(t, k, tx).keys, AddLink(t, k, tx).links) == CountOver(t.keys, t.links) + 1
  {
    if k in t.links {
      var l := t.links[k];
      CountOverUpdate(t.keys, t.links, k, Link(l.source, l.target, l.value + tx.amount, l.count + 1));
    } else {
      var l := Link(tx.sender, tx.receiver, tx.amount, 1);
      CountOverUpdate(t.keys, t.links, k, l);
      CountOverAppend(t.keys, t.links[k := l], k);
    }
  }

  /** Every step of the fold adds exactly one transaction to the counts. */
  lemma {:induction false} LinksFromCount<K(!new)>(t: LinkTable<K>, txs: seq<Transaction>, key: Transaction -> K)
    requires WellFormed(t)
    ensures CountOver(LinksFrom(t, txs, key).keys, LinksFrom(t, txs, key).links) == CountOver(t.keys, t.links) + |txs|
    decreases |txs|
  {
    if |txs| > 0 {
      var t1 := AddLink(t, key(txs[0]), txs[0]);
      assert LinksFrom(t, txs, key) == LinksFrom(t1, txs[1..], key);
      LinksFromCount(t1, txs[1..], key);
      AddLinkCount(t, key(txs[0]), txs[0]);
    }
  }

  /** Sum of the counts of a list of links. */
  function TotalCount(ls: seq<Link>): nat {
    if |ls| == 0 then 0 else ls[0].count + TotalCount(ls[1..])
  }

  lemma {:induction false} ValuesCount<K(!new)>(t: LinkTable<K>, from: nat)
    requires WellFormed(t) && from <= |t.keys|
    ensures TotalCount(Values(t)[from..]) == CountOver(t.keys[from..], t.links)
    decreases |t.keys| - from
  {
    if from < |t.keys| {
      ValuesCount(t, from + 1);
      assert Values(t)[from..][1..] == Values(t)[from + 1..];
      assert t.keys[from..][1..] == t.keys[from + 1..];
    }
  }

  /** Every transaction is counted in exactly one link. */
  lemma LinksByCount<K(!new)>(txs: seq<Transaction>, key: Transaction -> K)
    ensures TotalCount(LinksBy(txs, key)) == |txs|
  {
    var t := LinksFrom(LinkTable([], map[]), txs, key);
    LinksFromCount(LinkTable([], map[]), txs, key);
    ValuesCount(t, 0);
    assert Values(t)[0..] == Values(t);
    assert t.keys[0..] == t.keys;
  }

  /** Under each key of the table there is exactly one link, with the totals of
      that key's transactions. */
  lemma LinksByKeys<K(!new)>(txs: seq<Transaction>, key: Transaction -> K)
    ensures var t := LinksFrom(LinkTable([], map[]), txs, key);
      && Distinct(t.keys)
      && (forall k :: k in t.keys <==> HasKey(txs, key, k))
      && (forall i :: 0 <= i < |t.keys| ==>
            && LinksBy(txs, key)[i].count == KeyCount(txs, key, t.keys[i])
            && LinksBy(txs, key)[i].value == KeyTotal(txs, key, t.keys[i])
            && EndpointsFrom(txs, key, t.keys[i], LinksBy(txs, key)[i]))
  {
    var t := LinksFrom(LinkTable([], map[]), txs, key);
    forall k ensures k in t.keys <==> HasKey(txs, key, k) {
      LinksFromEffect(LinkTable([], map[]), txs, key, k);
    }
    forall i | 0 <= i < |t.keys|
      ensures LinksBy(txs, key)[i].count == KeyCount(txs, key, t.keys[i])
      ensures LinksBy(txs, key)[i].value == KeyTotal(txs, key, t.keys[i])
      ensures EndpointsFrom(txs, key, t.keys[i], LinksBy(txs, key)[i])
    {
      LinksFromEffect(LinkTable([], map[]), txs, key, t.keys[i]);
    }
  }

  // ---- The two keys ----

  /** The key the source uses: `${sender}->${receiver}`. */
  function StringKey(tx: Transaction): string {
    tx.sender + "->" + tx.receiver
  }

  /** The ordered pair of accounts, which the aggregation is meant to key by. */
  function PairKey(tx: Transaction): (Id, Id) {
    (tx.sender, tx.receiver)
  }

  /** The links as the source computes them. */
  function StringLinks(txs: seq<Transaction>): seq<Link> {
    LinksBy(txs, StringKey)
  }

  /** Two transfers between different pairs of accounts end up in one link
      when an account id contains `->`: the second transfer's amount is
      credited to the first pair, and the pair `A` to `B->C` gets no link. */
  lemma StringKeyCollision()
    ensures var txs := [Transaction("t1", "A->B", "C", 1.0, 0), Transaction("t2", "A", "B->C", 1.0, 0)];
      && |StringLinks(txs)| == 1
      && StringLinks(txs)[0] == Link("A->B", "C", 2.0, 2)
  {
    var txs := [Transaction("t1", "A->B", "C", 1.0, 0), Transaction("t2", "A", "B->C", 1.0, 0)];
    assert StringKey(txs[0]) == StringKey(txs[1]);
    var t0: LinkTable<string> := LinkTable([], map[]);
    var t1 := AddLink(t0, StringKey(txs[0]), txs[0]);
    var t2 := AddLink(t1, StringKey(txs[1]), txs[1]);
    assert txs[1..][1..] == [];
    assert LinksFrom(t0, txs, StringKey) == t2;
  }

  /** The display links: one per ordered pair of accounts. */
  function PairLinks(txs: seq<Transaction>): seq<Link> {
    LinksBy(txs, PairKey)
  }

  /** Number of transfers from `s` to `r`. */
  function PairCount(txs: seq<Transaction>, s: Id, r: Id): nat {
    KeyCount(txs, PairKey, (s, r))
  }

  /** Sum of the amounts transferred from `s` to `r`. */
  function PairTotal(txs: seq<Transaction>, s: Id, r: Id): real {
    KeyTotal(txs, PairKey, (s, r))
  }

  /** At least one transfer goes from `s` to `r`. */
  predicate Transfers(txs: seq<Transaction>, s: Id, r: Id) {
    exists i :: 0 <= i < |txs| && txs[i].sender == s && txs[i].receiver == r
  }

  /** Some link goes from `s` to `r`. */
  predicate HasLink(ls: seq<Link>, s: Id, r: Id) {
    exists i :: 0 <= i < |ls| && ls[i].source == s && ls[i].target == r
  }

  /** Each pair-keyed link sits under its own endpoints. */
  lemma PairLinksKeys(txs: seq<Transaction>)
    ensures var t := LinksFrom(LinkTable([], map[]), txs, PairKey);
      && |t.keys| == |PairLinks(txs)|
      && Distinct(t.keys)
      && (forall k :: k in t.keys <==> HasKey(txs, PairKey, k))
      && (forall i :: 0 <= i < |t.keys| ==>
            && t.keys[i] == (PairLinks(txs)[i].source, PairLinks(txs)[i].target)
            && PairLinks(txs)[i].count == KeyCount(txs, PairKey, t.keys[i])
            && PairLinks(txs)[i].value == KeyTotal(txs, PairKey, t.keys[i]))
  {
    var t := LinksFrom(LinkTable([], map[]), txs, PairKey);
    var ls := PairLinks(txs);
    LinksByKeys(txs, PairKey);
    forall i | 0 <= i < |t.keys| ensures t.keys[i] == (ls[i].source, ls[i].target) {
      assert EndpointsFrom(txs, PairKey, t.keys[i], ls[i]);
    }
  }

  lemma TransfersIffKey(txs: seq<Transaction>, s: Id, r: Id)
    ensures Transfers(txs, s, r) <==> HasKey(txs, PairKey, (s, r))
  {
    if Transfers(txs, s, r) {
      var i :| 0 <= i < |txs| && txs[i].sender == s && txs[i].receiver == r;
      assert PairKey(txs[i]) == (s, r);
    }
  }

  /** There is exactly one link per ordered pair of accounts that transact,
      carrying the pair as its endpoints, the number and the sum of their
      transfers; the counts add up to the number of transactions. */
  lemma PairLinksSpec(txs: seq<Transaction>)
    ensures forall i, j :: 0 <= i < j < |PairLinks(txs)| ==>
      (PairLinks(txs)[i].source, PairLinks(txs)[i].target) != (PairLinks(txs)[j].source, PairLinks(txs)[j].target)
    ensures forall s, r :: HasLink(PairLinks(txs), s, r) <==> Transfers(txs, s, r)
    ensures forall i :: 0 <= i < |PairLinks(txs)| ==>
      && PairLinks(txs)[i].count == PairCount(txs, PairLinks(txs)[i].source, PairLinks(txs)[i].target)
      && PairLinks(txs)[i].value == PairTotal(txs, PairLinks(txs)[i].source, PairLinks(txs)[i].target)
    ensures TotalCount(PairLinks(txs)) == |txs|
  {
    var ls := PairLinks(txs);
    var t := LinksFrom(LinkTable([], map[]), txs, PairKey);
    PairLinksKeys(txs);
    LinksByCount(txs, PairKey);
    forall s, r ensures HasLink(ls, s, r) <==> Transfers(txs, s, r) {
      TransfersIffKey(txs, s, r);
      if HasKey(txs, PairKey, (s, r)) {
        assert (s, r) in t.keys;
        var j :| 0 <= j < |t.keys| && t.keys[j] == (s, r);
        assert ls[j].source == s && ls[j].target == r;
      }
      if HasLink(ls, s, r) {
        var i :| 0 <= i < |ls| && ls[i].source == s && ls[i].target == r;
        assert t.keys[i] in t.keys;
      }
    }
  }
}
