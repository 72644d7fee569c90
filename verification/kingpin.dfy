/** The kingpin scorer (fraudDetectionEngine.js `detectKingpin`): every
    account with at least five distinct counterparties is scored by 70% of its
    flow in millions plus 30% of its degree centrality in percent, and the
    first account, in first-appearance order, whose score beats every earlier
    one and zero is chosen. Arithmetic is exact real arithmetic. */
module Kingpins {
  import opened Seqs
  import opened Transactions

  const MIN_CONNECTIONS: nat := 5

  datatype Kingpin = Kingpin(
    accountId: Id,
    totalFlow: real,
    totalSent: real,
    totalReceived: real,
    connections: nat,
    degreeCentrality: real,
    score: real)

  /** Counterparties over the largest possible number, `accounts − 1`. */
  function DegreeCentrality(connections: nat, accounts: nat): real
    requires accounts >= 2
  {
    connections as real / (accounts - 1) as real
  }

  function CombinedScore(flow: real, centrality: real): real {
    (flow / 1000000.0) * 0.7 + (centrality * 100.0) * 0.3
  }

  /** The record the source builds for a candidate from its metrics entry. */
  function Candidate(a: Id, s: Stats, accounts: nat): Kingpin
    requires accounts >= 2
  {
    var flow := s.sent + s.received;
    var centrality := DegreeCentrality(|s.connections|, accounts);
    Kingpin(a, flow, s.sent, s.received, |s.connections|, centrality, CombinedScore(flow, centrality))
  }

  /** The metrics map in iteration order: for every account, its candidate
      record when it has enough counterparties to be considered. */
  function Candidates(txs: seq<Transaction>, metrics: map<Id, Stats>): (cs: seq<Option<Kingpin>>)
    requires metrics == Tally(txs)
    ensures |cs| == |Accounts(txs)|
  {
    var accounts := Accounts(txs);
    seq(|accounts|, j requires 0 <= j < |accounts| =>
      var a := accounts[j];
      var s := StatsOf(metrics, a);
      CounterpartiesBound(txs, a);
      if |s.connections| >= MIN_CONNECTIONS then Some(Candidate(a, s, |accounts|)) else None)
  }

  function BestScore(best: Option<Kingpin>): real {
    if best.Some? then best.value.score else 0.0
  }

  /** The `forEach` over the candidates from position `i` on, keeping the one
      whose score is strictly greater than the best so far (initially zero). */
  function Scan(cs: seq<Option<Kingpin>>, i: nat, best: Option<Kingpin>): Option<Kingpin>
    requires i <= |cs|
    decreases |cs| - i
  {
    if i == |cs| then best
    else if cs[i].Some? && cs[i].value.score > BestScore(best) then Scan(cs, i + 1, cs[i])
    else Scan(cs, i + 1, best)
  }

  /** After scanning the first `i` candidates, `best` is the first of them
      with the greatest positive score, or none has a positive score. */
  predicate ScanInvariant(cs: seq<Option<Kingpin>>, i: nat, best: Option<Kingpin>)
    requires i <= |cs|
  {
    match best
    case None =>
      forall j :: 0 <= j < i && cs[j].Some? ==> cs[j].value.score <= 0.0
    case Some(k) =>
      exists m :: 0 <= m < i && FirstMax(cs, i, m, k)
  }

  /** `k` is candidate `m`, whose score is positive, at least every score among
      the first `i` candidates and greater than every earlier one. */
  predicate FirstMax(cs: seq<Option<Kingpin>>, i: nat, m: nat, k: Kingpin)
    requires m < i <= |cs|
  {
    && cs[m] == Some(k)
    && k.score > 0.0
    && (forall j :: 0 <= j < i && cs[j].Some? ==> cs[j].value.score <= k.score)
    && (forall j :: 0 <= j < m && cs[j].Some? ==> cs[j].value.score < k.score)
  }

  lemma {:induction false} ScanKeepsInvariant(cs: seq<Option<Kingpin>>, i: nat, best: Option<Kingpin>)
    requires i <= |cs|
    requires ScanInvariant(cs, i, best)
    ensures ScanInvariant(cs, |cs|, Scan(cs, i, best))
    decreases |cs| - i
  {
    if i < |cs| {
      if cs[i].Some? && cs[i].value.score > BestScore(best) {
        var k := cs[i].value;
        match best {
          case None =>
          case Some(k0) =>
            var m0 :| 0 <= m0 < i && FirstMax(cs, i, m0, k0);
        }
        assert FirstMax(cs, i + 1, i, k);
        ScanKeepsInvariant(cs, i + 1, cs[i]);
      } else {
        match best {
          case None =>
          case Some(k0) =>
            var m0 :| 0 <= m0 < i && FirstMax(cs, i, m0, k0);
            assert FirstMax(cs, i + 1, m0, k0);
        }
        ScanKeepsInvariant(cs, i + 1, best);
      }
    }
  }

  /** The whole scan yields the first candidate with the greatest positive
      score, or nothing when no candidate scores above zero. */
  lemma ScanFirstMax(cs: seq<Option<Kingpin>>)
    ensures Scan(cs, 0, None).None? ==>
      forall j :: 0 <= j < |cs| && cs[j].Some? ==> cs[j].value.score <= 0.0
    ensures Scan(cs, 0, None).Some? ==>
      exists m :: 0 <= m < |cs| && FirstMax(cs, |cs|, m, Scan(cs, 0, None).value)
  {
    ScanKeepsInvariant(cs, 0, None);
  }

  // ---- Reference view of the scores ----

  predicate Eligible(txs: seq<Transaction>, a: Id) {
    |Counterparties(txs, a)| >= MIN_CONNECTIONS
  }

  /** The kingpin record of an eligible account, from the reference totals. */
  function CandidateFor(txs: seq<Transaction>, a: Id): Kingpin
    requires Eligible(txs, a)
  {
    CounterpartiesBound(txs, a);
    Candidate(a, Stats(SentTotal(txs, a), ReceivedTotal(txs, a), TxCount(txs, a), Counterparties(txs, a)),
              |Accounts(txs)|)
  }

  function ScoreOf(txs: seq<Transaction>, a: Id): real
    requires Eligible(txs, a)
  {
    CandidateFor(txs, a).score
  }

  /** Candidate `j` is present exactly for an eligible account, and then it is
      that account's reference record. */
  lemma CandidatesAt(txs: seq<Transaction>, j: int)
    requires 0 <= j < |Accounts(txs)|
    ensures Candidates(txs, Tally(txs))[j].Some? <==> Eligible(txs, Accounts(txs)[j])
    ensures Candidates(txs, Tally(txs))[j].Some? ==>
      Candidates(txs, Tally(txs))[j].value == CandidateFor(txs, Accounts(txs)[j])
  {
    CounterpartiesBound(txs, Accounts(txs)[j]);
  }

  /** The kingpin of a transaction list, or none. */
  function DetectKingpin(txs: seq<Transaction>): (k: Option<Kingpin>)
    ensures k.Some? ==>
      && k.value.accountId in Accounts(txs)
      && Eligible(txs, k.value.accountId)
      && k.value == CandidateFor(txs, k.value.accountId)
      && k.value.score > 0.0
    ensures k.Some? ==>
      forall a :: a in Accounts(txs) && Eligible(txs, a) ==> ScoreOf(txs, a) <= k.value.score
    ensures k.Some? ==>
      forall j, m ::
        0 <= j < m < |Accounts(txs)| && Accounts(txs)[m] == k.value.accountId && Eligible(txs, Accounts(txs)[j])
        ==> ScoreOf(txs, Accounts(txs)[j]) < k.value.score
    ensures k.None? ==>
      forall a :: a in Accounts(txs) && Eligible(txs, a) ==> ScoreOf(txs, a) <= 0.0
  {
    var cs := Candidates(txs, Tally(txs));
    var k := Scan(cs, 0, None);
    KingpinProperties(txs);
    k
  }

  /** The candidate list, position by position, against the accounts. */
  lemma CandidatesMatch(txs: seq<Transaction>)
    ensures forall j :: 0 <= j < |Accounts(txs)| ==>
      && (Candidates(txs, Tally(txs))[j].Some? <==> Eligible(txs, Accounts(txs)[j]))
      && (Candidates(txs, Tally(txs))[j].Some? ==>
            Candidates(txs, Tally(txs))[j].value == CandidateFor(txs, Accounts(txs)[j]))
  {
    forall j | 0 <= j < |Accounts(txs)|
      ensures Candidates(txs, Tally(txs))[j].Some? <==> Eligible(txs, Accounts(txs)[j])
      ensures Candidates(txs, Tally(txs))[j].Some? ==>
        Candidates(txs, Tally(txs))[j].value == CandidateFor(txs, Accounts(txs)[j])
    {
      CandidatesAt(txs, j);
    }
  }

  /** Carries the scan's first-maximum property over to the accounts. */
  lemma KingpinProperties(txs: seq<Transaction>)
    ensures var k := Scan(Candidates(txs, Tally(txs)), 0, None);
      && (k.Some? ==>
        && k.value.accountId in Accounts(txs)
        && Eligible(txs, k.value.accountId)
        && k.value == CandidateFor(txs, k.value.accountId)
        && k.value.score > 0.0)
      && (k.Some? ==>
        forall a :: a in Accounts(txs) && Eligible(txs, a) ==> ScoreOf(txs, a) <= k.value.score)
      && (k.Some? ==>
        forall j, m ::
          0 <= j < m < |Accounts(txs)| && Accounts(txs)[m] == k.value.accountId && Eligible(txs, Accounts(txs)[j])
          ==> ScoreOf(txs, Accounts(txs)[j]) < k.value.score)
      && (k.None? ==>
        forall a :: a in Accounts(txs) && Eligible(txs, a) ==> ScoreOf(txs, a) <= 0.0)
  {
    var cs := Candidates(txs, Tally(txs));
    ScanFirstMax(cs);
    CandidatesMatch(txs);
    ScanToAccounts(txs, Accounts(txs), cs, Scan(cs, 0, None));
  }

  /** The first-maximum property of a scan result, restated over the accounts
      the candidates stand for. */
  lemma ScanToAccounts(txs: seq<Transaction>, accounts: seq<Id>, cs: seq<Option<Kingpin>>, k: Option<Kingpin>)
    requires accounts == Accounts(txs) && |cs| == |accounts|
    requires forall j :: 0 <= j < |accounts| ==>
      && (cs[j].Some? <==> Eligible(txs, accounts[j]))
      && (cs[j].Some? ==> cs[j].value == CandidateFor(txs, accounts[j]))
    requires k.None? ==> forall j :: 0 <= j < |cs| && cs[j].Some? ==> cs[j].value.score <= 0.0
    requires k.Some? ==> exists m :: 0 <= m < |cs| && FirstMax(cs, |cs|, m, k.value)
    ensures k.Some? ==>
      && k.value.accountId in accounts
      && Eligible(txs, k.value.accountId)
      && k.value == CandidateFor(txs, k.value.accountId)
      && k.value.score > 0.0
    ensures k.Some? ==>
      forall a :: a in accounts && Eligible(txs, a) ==> ScoreOf(txs, a) <= k.value.score
    ensures k.Some? ==>
      forall j, m ::
        0 <= j < m < |accounts| && accounts[m] == k.value.accountId && Eligible(txs, accounts[j])
        ==> ScoreOf(txs, accounts[j]) < k.value.score
    ensures k.None? ==>
      forall a :: a in accounts && Eligible(txs, a) ==> ScoreOf(txs, a) <= 0.0
  {
    forall a | a in accounts && Eligible(txs, a)
      ensures exists j :: 0 <= j < |accounts| && accounts[j] == a && cs[j].Some? && cs[j].value.score == ScoreOf(txs, a)
    {
      var j :| 0 <= j < |accounts| && accounts[j] == a;
      assert cs[j].Some? && cs[j].value.score == ScoreOf(txs, a);
    }
    if k.Some? {
      var m :| 0 <= m < |cs| && FirstMax(cs, |cs|, m, k.value);
      assert k.value.accountId == accounts[m];
      forall j, m' | 0 <= j < m' < |accounts| && accounts[m'] == k.value.accountId && Eligible(txs, accounts[j])
        ensures ScoreOf(txs, accounts[j]) < k.value.score
      {
        assert m' == m;
        assert cs[j].Some?;
      }
    }
  }

  /** Every eligible account scores above zero: its flow is not negative and
      its centrality is positive. */
  lemma EligibleScorePositive(txs: seq<Transaction>, a: Id)
    requires Eligible(txs, a)
    ensures ScoreOf(txs, a) > 0.0
  {
    CounterpartiesBound(txs, a);
    var c := |Counterparties(txs, a)| as real;
    var d := (|Accounts(txs)| - 1) as real;
    assert c > 0.0 && d > 0.0;
    assert c / d > 0.0;
  }

  /** A kingpin is reported exactly when some account has five or more
      distinct counterparties. */
  lemma KingpinIffEligibleAccount(txs: seq<Transaction>)
    ensures DetectKingpin(txs).Some? <==> exists a :: a in Accounts(txs) && Eligible(txs, a)
  {
    if exists a :: a in Accounts(txs) && Eligible(txs, a) {
      var a :| a in Accounts(txs) && Eligible(txs, a);
      EligibleScorePositive(txs, a);
    }
  }
}
