/** The directed multigraph the detectors walk (fraudDetectionEngine.js
    `buildGraph`): every account maps to the receivers it sent to, the senders
    it received from and the transactions touching it, one entry per
    transaction, so parallel edges are kept. */
module TxGraph {
  import opened Seqs
  import opened Transactions

  datatype Adjacency = Adjacency(
    outgoing: seq<Id>,
    incoming: seq<Id>,
    transactions: seq<Transaction>)

  const EmptyAdjacency := Adjacency([], [], [])

  /** The JavaScript `Map`: its keys in insertion order and its entries. */
  datatype Graph = Graph(keys: seq<Id>, nodes: map<Id, Adjacency>)

  function AdjacencyOf(m: map<Id, Adjacency>, a: Id): Adjacency {
    if a in m then m[a] else EmptyAdjacency
  }

  /** `graph.get(a)?.outgoing || []`. */
  function Out(g: Graph, a: Id): seq<Id> {
    AdjacencyOf(g.nodes, a).outgoing
  }

  /** There is at least one transfer from `a` to `b`. */
  predicate IsEdge(g: Graph, a: Id, b: Id) {
    b in Out(g, a)
  }

  // ---- Reference lists ----

  /** Receivers of `a`'s transfers, one per transaction, in input order. */
  function OutgoingOf(txs: seq<Transaction>, a: Id): seq<Id> {
    if |txs| == 0 then []
    else (if txs[0].sender == a then [txs[0].receiver] else []) + OutgoingOf(txs[1..], a)
  }

  /** Senders of `a`'s incoming transfers, one per transaction, in input order. */
  function IncomingOf(txs: seq<Transaction>, a: Id): seq<Id> {
    if |txs| == 0 then []
    else (if txs[0].receiver == a then [txs[0].sender] else []) + IncomingOf(txs[1..], a)
  }

  /** The entries one transaction makes in the list of `a`: once as sender
      and once as receiver, so a transfer to oneself is listed twice. */
  function TouchedBy(tx: Transaction, a: Id): seq<Transaction> {
    (if tx.sender == a then [tx] else []) + (if tx.receiver == a then [tx] else [])
  }

  /** Transactions touching `a`, in input order. */
  function TouchingOf(txs: seq<Transaction>, a: Id): seq<Transaction> {
    if |txs| == 0 then []
    else TouchedBy(txs[0], a) + TouchingOf(txs[1..], a)
  }

  // ---- The fold the source performs ----

  /** One `forEach` step: create missing entries, then push to the sender's
      outgoing and transactions and to the receiver's incoming and
      transactions. */
  function AddTransaction(m: map<Id, Adjacency>, tx: Transaction): map<Id, Adjacency>
  {
    var s := AdjacencyOf(m, tx.sender);
    var m1 := m[tx.sender := Adjacency(s.outgoing + [tx.receiver], s.incoming, s.transactions + [tx])];
    var r := AdjacencyOf(m1, tx.receiver);
    m1[tx.receiver := Adjacency(r.outgoing, r.incoming + [tx.sender], r.transactions + [tx])]
  }

  /** What one step appends to the entry of `a`. */
  lemma AddTransactionEffect(m: map<Id, Adjacency>, tx: Transaction, a: Id)
    ensures a in AddTransaction(m, tx) <==> a in m || a == tx.sender || a == tx.receiver
    ensures AdjacencyOf(AddTransaction(m, tx), a).outgoing ==
      AdjacencyOf(m, a).outgoing + (if tx.sender == a then [tx.receiver] else [])
    ensures AdjacencyOf(AddTransaction(m, tx), a).incoming ==
      AdjacencyOf(m, a).incoming + (if tx.receiver == a then [tx.sender] else [])
    ensures AdjacencyOf(AddTransaction(m, tx), a).transactions ==
      AdjacencyOf(m, a).transactions + (if tx.sender == a then [tx] else [])
                                     + (if tx.receiver == a then [tx] else [])
  {
  }

  /** What one step appends to the receivers of `a`. */
  lemma AddTransactionOutgoing(m: map<Id, Adjacency>, tx: Transaction, a: Id)
    ensures AdjacencyOf(AddTransaction(m, tx), a).outgoing ==
      AdjacencyOf(m, a).outgoing + (if tx.sender == a then [tx.receiver] else [])
  {
    AddTransactionEffect(m, tx, a);
  }

  /** What one step appends to the senders of `a`. */
  lemma AddTransactionIncoming(m: map<Id, Adjacency>, tx: Transaction, a: Id)
    ensures AdjacencyOf(AddTransaction(m, tx), a).incoming ==
      AdjacencyOf(m, a).incoming + (if tx.receiver == a then [tx.sender] else [])
  {
    AddTransactionEffect(m, tx, a);
  }

  /** What one step appends to the transactions of `a`. */
  lemma AddTransactionTouching(m: map<Id, Adjacency>, tx: Transaction, a: Id)
    ensures AdjacencyOf(AddTransaction(m, tx), a).transactions == AdjacencyOf(m, a).transactions + TouchedBy(tx, a)
  {
    AddTransactionEffect(m, tx, a);
    var A := AdjacencyOf(m, a).transactions;
    var S := if tx.sender == a then [tx] else [];
    var R := if tx.receiver == a then [tx] else [];
    assert A + S + R == A + (S + R);
  }

  function BuildFrom(m: map<Id, Adjacency>, txs: seq<Transaction>): map<Id, Adjacency>
    decreases |txs|
  {
    if |txs| == 0 then m
    else BuildFrom(AddTransaction(m, txs[0]), txs[1..])
  }

  lemma {:induction false} BuildFromKeys(m: map<Id, Adjacency>, txs: seq<Transaction>, a: Id)
    ensures a in BuildFrom(m, txs) <==> a in m || Involved(txs, a)
    decreases |txs|
  {
    if |txs| > 0 {
      AddTransactionEffect(m, txs[0], a);
      BuildFromKeys(AddTransaction(m, txs[0]), txs[1..], a);
      InvolvedCons(txs, a);
    }
  }

  lemma {:induction false} BuildFromOutgoing(m: map<Id, Adjacency>, txs: seq<Transaction>, a: Id)
    ensures AdjacencyOf(BuildFrom(m, txs), a).outgoing == AdjacencyOf(m, a).outgoing + OutgoingOf(txs, a)
    decreases |txs|
  {
    if |txs| > 0 {
      var tx := txs[0];
      var m1 := AddTransaction(m, tx);
      var A := AdjacencyOf(m, a).outgoing;
      var O := if tx.sender == a then [tx.receiver] else [];
      var T := OutgoingOf(txs[1..], a);
      AddTransactionOutgoing(m, tx, a);
      assert AdjacencyOf(BuildFrom(m, txs), a).outgoing == A + O + T by {
        assert BuildFrom(m, txs) == BuildFrom(m1, txs[1..]);
        BuildFromOutgoing(m1, txs[1..], a);
      }
      assert OutgoingOf(txs, a) == O + T;
      assert A + O + T == A + (O + T);
    }
  }

  lemma {:induction false} BuildFromIncoming(m: map<Id, Adjacency>, txs: seq<Transaction>, a: Id)
    ensures AdjacencyOf(BuildFrom(m, txs), a).incoming == AdjacencyOf(m, a).incoming + IncomingOf(txs, a)
    decreases |txs|
  {
    if |txs| > 0 {
      var tx := txs[0];
      var m1 := AddTransaction(m, tx);
      var A := AdjacencyOf(m, a).incoming;
      var I := if tx.receiver == a then [tx.sender] else [];
      var T := IncomingOf(txs[1..], a);
      AddTransactionIncoming(m, tx, a);
      assert AdjacencyOf(BuildFrom(m, txs), a).incoming == A + I + T by {
        assert BuildFrom(m, txs) == BuildFrom(m1, txs[1..]);
        BuildFromIncoming(m1, txs[1..], a);
      }
      assert IncomingOf(txs, a) == I + T;
      assert A + I + T == A + (I + T);
    }
  }

  lemma {:induction false} BuildFromTouching(m: map<Id, Adjacency>, txs: seq<Transaction>, a: Id)
    ensures AdjacencyOf(BuildFrom(m, txs), a).transactions == AdjacencyOf(m, a).transactions + TouchingOf(txs, a)
    decreases |txs|
  {
    if |txs| > 0 {
      var tx := txs[0];
      var m1 := AddTransaction(m, tx);
      var A := AdjacencyOf(m, a).transactions;
      var S := TouchedBy(tx, a);
      var T := TouchingOf(txs[1..], a);
      AddTransactionTouching(m, tx, a);
      assert AdjacencyOf(BuildFrom(m, txs), a).transactions == A + S + T by {
        assert BuildFrom(m, txs) == BuildFrom(m1, txs[1..]);
        BuildFromTouching(m1, txs[1..], a);
      }
      assert TouchingOf(txs, a) == S + T;
      assert A + S + T == A + (S + T);
    }
  }

  /** The graph of a transaction list: one key per account in first-appearance
      order, and for every account exactly the reference lists. */
  function BuildGraph(txs: seq<Transaction>): (g: Graph)
    ensures g.keys == Accounts(txs)
    ensures forall a :: a in g.nodes <==> a in g.keys
    ensures forall a ::
      AdjacencyOf(g.nodes, a) == Adjacency(OutgoingOf(txs, a), IncomingOf(txs, a), TouchingOf(txs, a))
  {
    var m := BuildFrom(map[], txs);
    assert forall a :: a in m <==> a in Accounts(txs) by {
      forall a ensures a in m <==> a in Accounts(txs) {
        BuildFromKeys(map[], txs, a);
      }
    }
    assert forall a :: AdjacencyOf(m, a) == Adjacency(OutgoingOf(txs, a), IncomingOf(txs, a), TouchingOf(txs, a)) by {
      forall a ensures AdjacencyOf(m, a) == Adjacency(OutgoingOf(txs, a), IncomingOf(txs, a), TouchingOf(txs, a)) {
        BuildFromOutgoing(map[], txs, a);
        BuildFromIncoming(map[], txs, a);
        BuildFromTouching(map[], txs, a);
      }
    }
    Graph(Accounts(txs), m)
  }

  lemma {:induction false} OutgoingOfMembership(txs: seq<Transaction>, a: Id, b: Id)
    ensures b in OutgoingOf(txs, a) <==>
      exists i :: 0 <= i < |txs| && txs[i].sender == a && txs[i].receiver == b
  {
    if |txs| > 0 {
      OutgoingOfMembership(txs[1..], a, b);
      if exists i :: 0 <= i < |txs[1..]| && txs[1..][i].sender == a && txs[1..][i].receiver == b {
        var i :| 0 <= i < |txs[1..]| && txs[1..][i].sender == a && txs[1..][i].receiver == b;
        assert txs[i + 1] == txs[1..][i];
      }
      if exists i :: 0 <= i < |txs| && txs[i].sender == a && txs[i].receiver == b {
        var i :| 0 <= i < |txs| && txs[i].sender == a && txs[i].receiver == b;
        if i > 0 {
          assert txs[1..][i - 1] == txs[i];
        }
      }
    }
  }

  /** An edge of the built graph is exactly a transfer of the input. */
  lemma EdgeIffTransfer(txs: seq<Transaction>, a: Id, b: Id)
    ensures IsEdge(BuildGraph(txs), a, b) <==>
      exists i :: 0 <= i < |txs| && txs[i].sender == a && txs[i].receiver == b
  {
    OutgoingOfMembership(txs, a, b);
  }
}
