/** Transactions, the first-appearance order of accounts, and the per-account
    totals the engine and the display graph both accumulate
    (fraudDetectionEngine.js `detectKingpin`, csvParser.js `buildGraphData`).

    Amounts are exact positive reals; timestamps are milliseconds since the
    epoch. */
module Transactions {
  import opened Seqs

  type Id = string

  /** Ingestion only lets through strictly positive amounts. */
  type Amount = r: real | r > 0.0 witness 1.0

  datatype Transaction = Transaction(
    txId: string,
    sender: Id,
    receiver: Id,
    amount: Amount,
    timestamp: int)

  /** `a` sends or receives in transaction `i`. */
  predicate Involved(txs: seq<Transaction>, a: Id) {
    exists i :: 0 <= i < |txs| && (txs[i].sender == a || txs[i].receiver == a)
  }

  /** Sender then receiver of every transaction, in input order: the order in
      which every account-keyed `Map` of the source receives its keys. */
  function Endpoints(txs: seq<Transaction>): (ids: seq<Id>)
    ensures forall a :: a in ids <==> Involved(txs, a)
  {
    if |txs| == 0 then []
    else
      var rest := Endpoints(txs[1..]);
      assert forall a :: Involved(txs, a) <==> a == txs[0].sender || a == txs[0].receiver || Involved(txs[1..], a) by {
        forall a ensures Involved(txs, a) <==> a == txs[0].sender || a == txs[0].receiver || Involved(txs[1..], a) {
          InvolvedCons(txs, a);
        }
      }
      [txs[0].sender, txs[0].receiver] + rest
  }

  /** Every account, once, in order of first appearance. */
  function Accounts(txs: seq<Transaction>): (ids: seq<Id>)
    ensures Distinct(ids)
    ensures forall a :: a in ids <==> Involved(txs, a)
  {
    Dedup(Endpoints(txs))
  }

  // ---- Reference definitions of the per-account totals ----

  /** Sum of the amounts `a` sends; never negative, as every amount is
      positive. */
  function SentTotal(txs: seq<Transaction>, a: Id): (r: real)
    ensures r >= 0.0
  {
    if |txs| == 0 then 0.0
    else (if txs[0].sender == a then txs[0].amount else 0.0) + SentTotal(txs[1..], a)
  }

  /** Sum of the amounts `a` receives; never negative. */
  function ReceivedTotal(txs: seq<Transaction>, a: Id): (r: real)
    ensures r >= 0.0
  {
    if |txs| == 0 then 0.0
    else (if txs[0].receiver == a then txs[0].amount else 0.0) + ReceivedTotal(txs[1..], a)
  }

  /** Number of transactions `a` sends plus number it receives (a transfer to
      oneself counts twice). */
  function TxCount(txs: seq<Transaction>, a: Id): nat {
    if |txs| == 0 then 0
    else (if txs[0].sender == a then 1 else 0) + (if txs[0].receiver == a then 1 else 0)
         + TxCount(txs[1..], a)
  }

  /** The distinct accounts `a` has sent to or received from. */
  function Counterparties(txs: seq<Transaction>, a: Id): set<Id> {
    if |txs| == 0 then {}
    else (if txs[0].sender == a then {txs[0].receiver} else {})
         + (if txs[0].receiver == a then {txs[0].sender} else {})
         + Counterparties(txs[1..], a)
  }

  /** `b` is a counterparty of `a` exactly when some transaction links them. */
  lemma {:induction false} CounterpartiesMembership(txs: seq<Transaction>, a: Id, b: Id)
    ensures b in Counterparties(txs, a) <==>
      exists i :: 0 <= i < |txs| && ((txs[i].sender == a && txs[i].receiver == b) ||
                                     (txs[i].receiver == a && txs[i].sender == b))
  {
    if |txs| > 0 {
      CounterpartiesMembership(txs[1..], a, b);
      if exists i :: 0 <= i < |txs[1..]| && ((txs[1..][i].sender == a && txs[1..][i].receiver == b) ||
                                             (txs[1..][i].receiver == a && txs[1..][i].sender == b)) {
        var i :| 0 <= i < |txs[1..]| && ((txs[1..][i].sender == a && txs[1..][i].receiver == b) ||
                                         (txs[1..][i].receiver == a && txs[1..][i].sender == b));
        assert txs[i + 1] == txs[1..][i];
      }
      if exists i :: 0 <= i < |txs| && ((txs[i].sender == a && txs[i].receiver == b) ||
                                        (txs[i].receiver == a && txs[i].sender == b)) {
        var i :| 0 <= i < |txs| && ((txs[i].sender == a && txs[i].receiver == b) ||
                                    (txs[i].receiver == a && txs[i].sender == b));
        if i > 0 {
          assert txs[1..][i - 1] == txs[i];
        }
      }
    }
  }

  /** Every counterparty is itself an account of the dataset, so no account
      has more counterparties than there are accounts. */
  lemma CounterpartiesBound(txs: seq<Transaction>, a: Id)
    ensures |Counterparties(txs, a)| <= |Accounts(txs)|
  {
    forall b | b in Counterparties(txs, a) ensures b in Accounts(txs) {
      CounterpartiesMembership(txs, a, b);
    }
    SubsetOfDistinct(Counterparties(txs, a), Accounts(txs));
  }

  // ---- The accumulation the source performs, transaction by transaction ----

  /** What the source's per-account map entry holds after some transactions. */
  datatype Stats = Stats(sent: real, received: real, count: nat, connections: set<Id>)

  const NoStats := Stats(0.0, 0.0, 0, {})

  /** A missing entry reads as zero totals. */
  function StatsOf(m: map<Id, Stats>, a: Id): Stats {
    if a in m then m[a] else NoStats
  }

  /** One `forEach` step: first the sender's entry, then the receiver's, so a
      transfer to oneself updates the same entry twice. */
  function Record(m: map<Id, Stats>, tx: Transaction): (r: map<Id, Stats>)
    ensures forall a :: StatsOf(r, a) == Stats(
      StatsOf(m, a).sent + (if tx.sender == a then tx.amount else 0.0),
      StatsOf(m, a).received + (if tx.receiver == a then tx.amount else 0.0),
      StatsOf(m, a).count + (if tx.sender == a then 1 else 0) + (if tx.receiver == a then 1 else 0),
      StatsOf(m, a).connections + (if tx.sender == a then {tx.receiver} else {})
                                + (if tx.receiver == a then {tx.sender} else {}))
    ensures forall a :: a in r <==> a in m || a == tx.sender || a == tx.receiver
  {
    var s := StatsOf(m, tx.sender);
    var m1 := m[tx.sender := Stats(s.sent + tx.amount, s.received, s.count + 1,
                                   s.connections + {tx.receiver})];
    var r := StatsOf(m1, tx.receiver);
    m1[tx.receiver := Stats(r.sent, r.received + tx.amount, r.count + 1,
                            r.connections + {tx.sender})]
  }

  lemma InvolvedCons(txs: seq<Transaction>, a: Id)
    requires |txs| > 0
    ensures Involved(txs, a) <==> a == txs[0].sender || a == txs[0].receiver || Involved(txs[1..], a)
  {
    if Involved(txs[1..], a) {
      var i :| 0 <= i < |txs[1..]| && (txs[1..][i].sender == a || txs[1..][i].receiver == a);
      assert txs[i + 1] == txs[1..][i];
    }
    if Involved(txs, a) && a != txs[0].sender && a != txs[0].receiver {
      var i :| 0 <= i < |txs| && (txs[i].sender == a || txs[i].receiver == a);
      assert txs[1..][i - 1] == txs[i];
    }
  }

  /** Folds `Record` over `txs`, left to right, starting from `m`. */
  function TallyFrom(m: map<Id, Stats>, txs: seq<Transaction>): (r: map<Id, Stats>)
    ensures forall a :: a in r <==> a in m || Involved(txs, a)
    decreases |txs|
  {
    if |txs| == 0 then m
    else
      var r := TallyFrom(Record(m, txs[0]), txs[1..]);
      assert forall a :: Involved(txs, a) <==> a == txs[0].sender || a == txs[0].receiver || Involved(txs[1..], a) by {
        forall a ensures Involved(txs, a) <==> a == txs[0].sender || a == txs[0].receiver || Involved(txs[1..], a) {
          InvolvedCons(txs, a);
        }
      }
      r
  }

  /** Each step of the fold adds the transaction's share to the entry, so the
      entry ends up holding the reference totals. */
  lemma {:induction false} TallyFromTotals(m: map<Id, Stats>, txs: seq<Transaction>, a: Id)
    ensures StatsOf(TallyFrom(m, txs), a).sent == StatsOf(m, a).sent + SentTotal(txs, a)
    ensures StatsOf(TallyFrom(m, txs), a).received == StatsOf(m, a).received + ReceivedTotal(txs, a)
    ensures StatsOf(TallyFrom(m, txs), a).count == StatsOf(m, a).count + TxCount(txs, a)
    ensures StatsOf(TallyFrom(m, txs), a).connections == StatsOf(m, a).connections + Counterparties(txs, a)
    decreases |txs|
  {
    if |txs| > 0 {
      TallyFromTotals(Record(m, txs[0]), txs[1..], a);
    }
  }

  /** The per-account totals of a whole transaction list. */
  function Tally(txs: seq<Transaction>): (r: map<Id, Stats>)
    ensures forall a :: StatsOf(r, a) == Stats(SentTotal(txs, a), ReceivedTotal(txs, a),
                                               TxCount(txs, a), Counterparties(txs, a))
    ensures forall a :: a in r <==> a in Accounts(txs)
  {
    var r := TallyFrom(map[], txs);
    assert forall a :: StatsOf(r, a) == Stats(SentTotal(txs, a), ReceivedTotal(txs, a),
                                              TxCount(txs, a), Counterparties(txs, a)) by {
      forall a ensures StatsOf(r, a) == Stats(SentTotal(txs, a), ReceivedTotal(txs, a),
                                              TxCount(txs, a), Counterparties(txs, a)) {
        TallyFromTotals(map[], txs, a);
      }
    }
    r
  }
}
