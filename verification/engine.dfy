/** The detection pipeline (fraudDetectionEngine.js `detectFraud` and
    `formatDetectionResults`): the graph, the kingpin, then the cycle,
    fan-in, fan-out and shell-network rules in that order. Every ring gets the
    next ring number; its members feed the suspicion ledger; the final lists
    are capped at 100 and sorted by decreasing risk. */
module Engine {
  import opened Seqs
  import opened Sorting
  import opened Transactions
  import opened TxGraph
  import opened Kingpins
  import opened Cycles
  import opened Smurfing
  import opened Shells
  import opened Suspicion

  const CYCLE_BASE_RISK: int := 90
  const FAN_RISK: int := 85
  const SHELL_RISK: int := 75
  const CYCLE_DELTA: int := 50
  const ANCHOR_DELTA: int := 30
  const PARTNER_DELTA: int := 20
  const SHELL_DELTA: int := 20
  const SCORE_CAP: int := 100

  datatype PatternType = CyclePattern | FanInPattern | FanOutPattern | ShellPattern

  /** A ring; `ringId` n stands for the string `RING_` followed by n padded to
      three digits. */
  datatype FraudRing = FraudRing(ringId: nat, patternType: PatternType, members: seq<Id>, riskScore: int)

  datatype SuspiciousAccount = SuspiciousAccount(
    accountId: Id,
    riskScore: int,
    reasons: seq<Reason>,
    patternsDetected: nat)

  datatype Breakdown = Breakdown(cycles: nat, fanIn: nat, fanOut: nat, shellNetworks: nat)

  datatype Summary = Summary(
    totalAccountsAnalyzed: nat,
    suspiciousAccountsFlagged: nat,
    fraudRingsDetected: nat,
    patternsBreakdown: Breakdown)

  datatype Report = Report(
    suspiciousAccounts: seq<SuspiciousAccount>,
    fraudRings: seq<FraudRing>,
    summary: Summary,
    kingpin: Option<Kingpin>)

  /** What the detectors return for one transaction list. */
  datatype Findings = Findings(
    accounts: seq<Id>,
    kingpin: Option<Kingpin>,
    cycles: seq<seq<Id>>,
    fanIn: seq<Pattern>,
    fanOut: seq<Pattern>,
    shells: seq<ShellNetwork>)

  function Find(txs: seq<Transaction>): Findings {
    var graph := BuildGraph(txs);
    var smurfing := DetectSmurfing(txs);
    Findings(graph.keys, DetectKingpin(txs), DetectCycles(graph), smurfing.fanIn, smurfing.fanOut,
             DetectShellNetworks(graph, txs))
  }

  // ---- Rings, numbered consecutively ----

  function CycleRings(cycles: seq<seq<Id>>, first: nat): seq<FraudRing> {
    seq(|cycles|, i requires 0 <= i < |cycles| =>
      FraudRing(first + i, CyclePattern, cycles[i], CYCLE_BASE_RISK + |cycles[i]|))
  }

  /** A fan ring lists the anchor, then its counterparties. */
  function FanRings(ps: seq<Pattern>, first: nat, t: PatternType): seq<FraudRing> {
    seq(|ps|, i requires 0 <= i < |ps| => FraudRing(first + i, t, [ps[i].anchor] + ps[i].partners, FAN_RISK))
  }

  function ShellRings(ns: seq<ShellNetwork>, first: nat): seq<FraudRing> {
    seq(|ns|, i requires 0 <= i < |ns| => FraudRing(first + i, ShellPattern, ns[i].chain, SHELL_RISK))
  }

  function BreakdownOf(f: Findings): Breakdown {
    Breakdown(|f.cycles|, |f.fanIn|, |f.fanOut|, |f.shells|)
  }

  /** `fraudRings` before the final sort. */
  function Rings(f: Findings): seq<FraudRing> {
    var b := BreakdownOf(f);
    CycleRings(f.cycles, 1)
      + FanRings(f.fanIn, 1 + b.cycles, FanInPattern)
      + FanRings(f.fanOut, 1 + b.cycles + b.fanIn, FanOutPattern)
      + ShellRings(f.shells, 1 + b.cycles + b.fanIn + b.fanOut)
  }

  // ---- Ledger calls, in the order the source makes them ----

  /** One call per account of `xs`, all with the same reason and delta. */
  function Calls(xs: seq<Id>, reason: Reason, delta: int): seq<Contribution> {
    if |xs| == 0 then []
    else [Contribution(xs[0], reason, delta)] + Calls(xs[1..], reason, delta)
  }

  /** Every member of every cycle: 'cycle', +50. */
  function CycleCalls(cycles: seq<seq<Id>>): seq<Contribution> {
    if |cycles| == 0 then []
    else Calls(cycles[0], CycleReason, CYCLE_DELTA) + CycleCalls(cycles[1..])
  }

  /** The anchor +30, then every counterparty +20, with the direction's reason. */
  function FanCalls(ps: seq<Pattern>, reason: Reason): seq<Contribution> {
    if |ps| == 0 then []
    else [Contribution(ps[0].anchor, reason, ANCHOR_DELTA)] + Calls(ps[0].partners, reason, PARTNER_DELTA)
         + FanCalls(ps[1..], reason)
  }

  /** Only the intermediates of a shell chain: 'shell', +20. */
  function ShellCalls(ns: seq<ShellNetwork>): seq<Contribution> {
    if |ns| == 0 then []
    else Calls(ns[0].intermediates, ShellReason, SHELL_DELTA) + ShellCalls(ns[1..])
  }

  function AllCalls(f: Findings): seq<Contribution> {
    CycleCalls(f.cycles) + FanCalls(f.fanIn, FanInReason) + FanCalls(f.fanOut, FanOutReason) + ShellCalls(f.shells)
  }

  function LedgerOf(f: Findings): Ledger {
    Accumulate(EmptyLedger, AllCalls(f))
  }

  /** One entry of `suspicious_accounts`, its score capped at 100. */
  function Finalize(l: Ledger, a: Id): SuspiciousAccount {
    var e := EntryOf(l, a);
    SuspiciousAccount(a, Min(e.riskScore, SCORE_CAP), e.reasons, |e.reasons|)
  }

  /** `suspicious_accounts` before the final sort, in ledger order. */
  function Rows(l: Ledger): (r: seq<SuspiciousAccount>)
    ensures |r| == |l.order|
    ensures forall s :: s in r ==> s.riskScore <= SCORE_CAP && s.patternsDetected == |s.reasons|
  {
    seq(|l.order|, i requires 0 <= i < |l.order| => Finalize(l, l.order[i]))
  }

  function NegRisk(s: SuspiciousAccount): int {
    -s.riskScore
  }

  function NegRingRisk(r: FraudRing): int {
    -r.riskScore
  }

  /** The report assembled from the detectors' findings. */
  function Assemble(f: Findings): (r: Report)
    ensures forall i, j :: 0 <= i < j < |r.suspiciousAccounts| ==>
      r.suspiciousAccounts[i].riskScore >= r.suspiciousAccounts[j].riskScore
    ensures forall i, j :: 0 <= i < j < |r.fraudRings| ==> r.fraudRings[i].riskScore >= r.fraudRings[j].riskScore
    ensures r.summary.fraudRingsDetected == |r.fraudRings|
      == r.summary.patternsBreakdown.cycles + r.summary.patternsBreakdown.fanIn
         + r.summary.patternsBreakdown.fanOut + r.summary.patternsBreakdown.shellNetworks
    ensures r.summary.suspiciousAccountsFlagged == |r.suspiciousAccounts|
    ensures forall i :: 0 <= i < |r.suspiciousAccounts| ==>
      r.suspiciousAccounts[i].riskScore <= SCORE_CAP
      && r.suspiciousAccounts[i].patternsDetected == |r.suspiciousAccounts[i].reasons|
  {
    var list := Rows(LedgerOf(f));
    var rings := Rings(f);
    var sortedList := SortBy(list, NegRisk);
    var sortedRings := SortBy(rings, NegRingRisk);
    forall i | 0 <= i < |sortedList|
      ensures sortedList[i].riskScore <= SCORE_CAP && sortedList[i].patternsDetected == |sortedList[i].reasons|
    {
      SortByMembership(list, NegRisk, sortedList[i]);
      assert sortedList[i] in list;
    }
    Report(sortedList, sortedRings,
           Summary(|f.accounts|, |list|, |rings|, BreakdownOf(f)),
           f.kingpin)
  }

  /** `detectFraud(transactions)`. */
  function DetectFraud(txs: seq<Transaction>): (r: Report)
    ensures r.summary.totalAccountsAnalyzed == |Accounts(txs)|
    ensures r.kingpin == DetectKingpin(txs)
  {
    Assemble(Find(txs))
  }

  // ---- Ring numbering ----

  /** The rule a ring number belongs to: cycles first, then fan-in, fan-out
      and shell networks. */
  function RuleOfRingId(id: nat, b: Breakdown): PatternType {
    if id <= b.cycles then CyclePattern
    else if id <= b.cycles + b.fanIn then FanInPattern
    else if id <= b.cycles + b.fanIn + b.fanOut then FanOutPattern
    else ShellPattern
  }

  /** Before sorting, ring `i` carries number `i + 1` and the rule of its
      segment. */
  lemma RingsNumbered(f: Findings)
    ensures |Rings(f)| == |f.cycles| + |f.fanIn| + |f.fanOut| + |f.shells|
    ensures NumberedBy(Rings(f), BreakdownOf(f))
  {
    var b := BreakdownOf(f);
    var c := CycleRings(f.cycles, 1);
    var fi := FanRings(f.fanIn, 1 + b.cycles, FanInPattern);
    var fo := FanRings(f.fanOut, 1 + b.cycles + b.fanIn, FanOutPattern);
    var sh := ShellRings(f.shells, 1 + b.cycles + b.fanIn + b.fanOut);
    var rings := Rings(f);
    assert rings == c + fi + fo + sh;
    forall i | 0 <= i < |rings|
      ensures rings[i].ringId == i + 1 && rings[i].patternType == RuleOfRingId(i + 1, b)
    {
      if i < |c| {
        assert rings[i] == c[i];
      } else if i < |c| + |fi| {
        assert rings[i] == fi[i - |c|];
      } else if i < |c| + |fi| + |fo| {
        assert rings[i] == fo[i - |c| - |fi|];
      } else {
        assert rings[i] == sh[i - |c| - |fi| - |fo|];
      }
    }
  }

  /** Some ring of `rings` carries number `k`. */
  predicate HasRingId(rings: seq<FraudRing>, k: nat) {
    exists i :: 0 <= i < |rings| && rings[i].ringId == k
  }

  /** Rings numbered by their position, with the rule of their segment. */
  predicate NumberedBy(rings: seq<FraudRing>, b: Breakdown) {
    forall i :: 0 <= i < |rings| ==> rings[i].ringId == i + 1 && rings[i].patternType == RuleOfRingId(i + 1, b)
  }

  /** A reordering of numbered rings keeps every number in 1..n, with its rule. */
  lemma PermutedRingsRules(rings: seq<FraudRing>, sorted: seq<FraudRing>, b: Breakdown)
    requires NumberedBy(rings, b) && multiset(sorted) == multiset(rings)
    ensures forall i :: 0 <= i < |sorted| ==>
      1 <= sorted[i].ringId <= |rings| && sorted[i].patternType == RuleOfRingId(sorted[i].ringId, b)
  {
    forall i | 0 <= i < |sorted|
      ensures 1 <= sorted[i].ringId <= |rings| && sorted[i].patternType == RuleOfRingId(sorted[i].ringId, b)
    {
      assert sorted[i] in multiset(rings);
    }
  }

  /** A reordering of numbered rings still holds every number in 1..n. */
  lemma PermutedRingsComplete(rings: seq<FraudRing>, sorted: seq<FraudRing>, b: Breakdown)
    requires NumberedBy(rings, b) && multiset(sorted) == multiset(rings)
    ensures forall k: nat :: 1 <= k <= |rings| ==> HasRingId(sorted, k)
  {
    forall k: nat | 1 <= k <= |rings|
      ensures HasRingId(sorted, k)
    {
      assert rings[k - 1] in multiset(sorted);
      var i :| 0 <= i < |sorted| && sorted[i] == rings[k - 1];
    }
  }

  /** A reordering of numbered rings holds each number once. */
  lemma PermutedRingsDistinct(rings: seq<FraudRing>, sorted: seq<FraudRing>, b: Breakdown)
    requires NumberedBy(rings, b) && multiset(sorted) == multiset(rings)
    ensures forall i, j :: 0 <= i < j < |sorted| ==> sorted[i].ringId != sorted[j].ringId
  {
    assert Distinct(rings) by {
      forall i, j | 0 <= i < j < |rings| ensures rings[i] != rings[j] {
        assert rings[i].ringId != rings[j].ringId;
      }
    }
    PermutationDistinct(rings, sorted);
    forall i, j | 0 <= i < j < |sorted|
      ensures sorted[i].ringId != sorted[j].ringId
    {
      assert sorted[i] in multiset(rings) && sorted[j] in multiset(rings);
      var p :| 0 <= p < |rings| && rings[p] == sorted[i];
      var q :| 0 <= q < |rings| && rings[q] == sorted[j];
    }
  }

  /** The reported rings carry the numbers 1 to n, once each, every ring's
      number falling in the segment of its rule. */
  lemma AssembledRingIds(f: Findings)
    ensures var r := Assemble(f);
      && (forall i :: 0 <= i < |r.fraudRings| ==>
            && 1 <= r.fraudRings[i].ringId <= |r.fraudRings|
            && r.fraudRings[i].patternType == RuleOfRingId(r.fraudRings[i].ringId, r.summary.patternsBreakdown))
      && (forall k: nat :: 1 <= k <= |r.fraudRings| ==> HasRingId(r.fraudRings, k))
      && (forall i, j :: 0 <= i < j < |r.fraudRings| ==> r.fraudRings[i].ringId != r.fraudRings[j].ringId)
  {
    var r := Assemble(f);
    RingsNumbered(f);
    assert r.fraudRings == SortBy(Rings(f), NegRingRisk);
    assert r.summary.patternsBreakdown == BreakdownOf(f);
    PermutedRingsRules(Rings(f), r.fraudRings, BreakdownOf(f));
    PermutedRingsComplete(Rings(f), r.fraudRings, BreakdownOf(f));
    PermutedRingsDistinct(Rings(f), r.fraudRings, BreakdownOf(f));
  }

  /** What each ring holds, by rule: a cycle found by the search, with risk 90
      plus its length; a fan pattern's anchor then its counterparties, risk
      85; a shell chain, risk 75. */
  ghost predicate RingFrom(f: Findings, ring: FraudRing) {
    match ring.patternType
    case CyclePattern =>
      ring.members in f.cycles && ring.riskScore == CYCLE_BASE_RISK + |ring.members|
    case FanInPattern =>
      (exists p :: p in f.fanIn && ring.members == [p.anchor] + p.partners) && ring.riskScore == FAN_RISK
    case FanOutPattern =>
      (exists p :: p in f.fanOut && ring.members == [p.anchor] + p.partners) && ring.riskScore == FAN_RISK
    case ShellPattern =>
      (exists n :: n in f.shells && ring.members == n.chain) && ring.riskScore == SHELL_RISK
  }

  /** Before sorting, every ring comes from a detector's finding. */
  lemma RingsFromFindings(f: Findings, j: int)
    requires 0 <= j < |Rings(f)|
    ensures RingFrom(f, Rings(f)[j])
  {
    var b := BreakdownOf(f);
    var c := CycleRings(f.cycles, 1);
    var fi := FanRings(f.fanIn, 1 + b.cycles, FanInPattern);
    var fo := FanRings(f.fanOut, 1 + b.cycles + b.fanIn, FanOutPattern);
    var sh := ShellRings(f.shells, 1 + b.cycles + b.fanIn + b.fanOut);
    var rings := Rings(f);
    assert rings == c + fi + fo + sh;
    if j < |c| {
      assert rings[j] == c[j];
      assert f.cycles[j] in f.cycles;
    } else if j < |c| + |fi| {
      var k := j - |c|;
      assert rings[j] == fi[k];
      assert f.fanIn[k] in f.fanIn;
    } else if j < |c| + |fi| + |fo| {
      var k := j - |c| - |fi|;
      assert rings[j] == fo[k];
      assert f.fanOut[k] in f.fanOut;
    } else {
      var k := j - |c| - |fi| - |fo|;
      assert rings[j] == sh[k];
      assert f.shells[k] in f.shells;
    }
  }

  /** How many findings the detectors returned, which is how many rings are
      issued. */
  function FindingCount(f: Findings): nat {
    |f.cycles| + |f.fanIn| + |f.fanOut| + |f.shells|
  }

  /** The ring issued as number `k`: the `k`-th finding, counting the cycles
      first, then the fan-in patterns, the fan-out patterns and the shell
      chains, each in the order its detector returned them. */
  function NumberedRing(f: Findings, k: nat): FraudRing
    requires 1 <= k <= FindingCount(f)
  {
    var c := |f.cycles|;
    var fi := |f.fanIn|;
    var fo := |f.fanOut|;
    if k <= c then
      FraudRing(k, CyclePattern, f.cycles[k - 1], CYCLE_BASE_RISK + |f.cycles[k - 1]|)
    else if k <= c + fi then
      FraudRing(k, FanInPattern, [f.fanIn[k - c - 1].anchor] + f.fanIn[k - c - 1].partners, FAN_RISK)
    else if k <= c + fi + fo then
      FraudRing(k, FanOutPattern, [f.fanOut[k - c - fi - 1].anchor] + f.fanOut[k - c - fi - 1].partners, FAN_RISK)
    else
      FraudRing(k, ShellPattern, f.shells[k - c - fi - fo - 1].chain, SHELL_RISK)
  }

  /** Before sorting, position `j` holds the ring issued as number `j + 1`. */
  lemma RingsAt(f: Findings, j: int)
    requires 0 <= j < |Rings(f)|
    ensures |Rings(f)| == FindingCount(f)
    ensures Rings(f)[j] == NumberedRing(f, j + 1)
  {
    var b := BreakdownOf(f);
    var c := CycleRings(f.cycles, 1);
    var fi := FanRings(f.fanIn, 1 + b.cycles, FanInPattern);
    var fo := FanRings(f.fanOut, 1 + b.cycles + b.fanIn, FanOutPattern);
    var sh := ShellRings(f.shells, 1 + b.cycles + b.fanIn + b.fanOut);
    var rings := Rings(f);
    assert rings == c + fi + fo + sh;
    if j < |c| {
      assert rings[j] == c[j];
    } else if j < |c| + |fi| {
      assert rings[j] == fi[j - |c|];
    } else if j < |c| + |fi| + |fo| {
      assert rings[j] == fo[j - |c| - |fi|];
    } else {
      assert rings[j] == sh[j - |c| - |fi| - |fo|];
    }
  }

  /** Before sorting, the rings are the findings in numbering order. */
  lemma RingsExact(f: Findings)
    ensures |Rings(f)| == FindingCount(f)
    ensures forall j :: 0 <= j < |Rings(f)| ==> Rings(f)[j] == NumberedRing(f, j + 1)
  {
    RingsNumbered(f);
    forall j | 0 <= j < |Rings(f)| ensures Rings(f)[j] == NumberedRing(f, j + 1) {
      RingsAt(f, j);
    }
  }

  /** A reordering of the rings in numbering order holds, under every number
      it carries, the ring issued with that number, and holds every issued
      ring. */
  lemma PermutedRingsExact(f: Findings, rings: seq<FraudRing>, sorted: seq<FraudRing>)
    requires |rings| == FindingCount(f)
    requires forall j :: 0 <= j < |rings| ==> rings[j] == NumberedRing(f, j + 1)
    requires multiset(sorted) == multiset(rings)
    ensures forall i :: 0 <= i < |sorted| ==>
      1 <= sorted[i].ringId <= FindingCount(f) && sorted[i] == NumberedRing(f, sorted[i].ringId)
    ensures forall k: nat :: 1 <= k <= FindingCount(f) ==> NumberedRing(f, k) in sorted
  {
    forall i | 0 <= i < |sorted|
      ensures 1 <= sorted[i].ringId <= FindingCount(f) && sorted[i] == NumberedRing(f, sorted[i].ringId)
    {
      assert sorted[i] in multiset(rings);
      var j :| 0 <= j < |rings| && rings[j] == sorted[i];
    }
    forall k: nat | 1 <= k <= FindingCount(f)
      ensures NumberedRing(f, k) in sorted
    {
      assert rings[k - 1] in multiset(sorted);
    }
  }

  /** Every reported ring comes from a detector's finding, as its rule says. */
  lemma AssembledRingsSound(f: Findings)
    ensures forall ring :: ring in Assemble(f).fraudRings ==> RingFrom(f, ring)
  {
    var rings := Rings(f);
    assert Assemble(f).fraudRings == SortBy(rings, NegRingRisk);
    forall ring | ring in Assemble(f).fraudRings
      ensures RingFrom(f, ring)
    {
      SortByMembership(rings, NegRingRisk, ring);
      var j :| 0 <= j < |rings| && rings[j] == ring;
      RingsFromFindings(f, j);
    }
  }

  /** Every reported ring comes from a detector's finding, as its rule says;
      more precisely, the ring numbered `k` is the `k`-th finding, and every
      finding is reported as a ring. */
  lemma AssembledRingsFromFindings(f: Findings)
    ensures forall ring :: ring in Assemble(f).fraudRings ==> RingFrom(f, ring)
    ensures |Assemble(f).fraudRings| == FindingCount(f)
    ensures forall i :: 0 <= i < |Assemble(f).fraudRings| ==>
      && 1 <= Assemble(f).fraudRings[i].ringId <= FindingCount(f)
      && Assemble(f).fraudRings[i] == NumberedRing(f, Assemble(f).fraudRings[i].ringId)
    ensures forall k: nat :: 1 <= k <= FindingCount(f) ==> NumberedRing(f, k) in Assemble(f).fraudRings
  {
    var sorted := Assemble(f).fraudRings;
    assert sorted == SortBy(Rings(f), NegRingRisk);
    AssembledRingsSound(f);
    RingsExact(f);
    PermutedRingsExact(f, Rings(f), sorted);
  }

  /** When every found cycle is a cycle of `g`, so is every cycle ring. */
  lemma AssembledCycleRing(f: Findings, g: Graph, ring: FraudRing)
    requires forall c :: c in f.cycles ==> IsCycle(g, c)
    requires ring in Assemble(f).fraudRings && ring.patternType == CyclePattern
    ensures IsCycle(g, ring.members) && ring.riskScore == CYCLE_BASE_RISK + |ring.members|
  {
    AssembledRingsSound(f);
    assert RingFrom(f, ring);
  }

  /** The cycle rings of a report: three to five distinct accounts, each
      sending to the next and the last back to the first, with risk 90 plus
      the cycle's length. */
  lemma DetectFraudCycleRings(txs: seq<Transaction>)
    ensures forall ring :: ring in DetectFraud(txs).fraudRings && ring.patternType == CyclePattern ==>
      IsCycle(BuildGraph(txs), ring.members) && ring.riskScore == CYCLE_BASE_RISK + |ring.members|
  {
    var g := BuildGraph(txs);
    var f := Find(txs);
    assert f.cycles == DetectCycles(g);
    assert forall c :: c in f.cycles ==> IsCycle(g, c);
    assert DetectFraud(txs).fraudRings == Assemble(f).fraudRings;
    forall ring | ring in Assemble(f).fraudRings && ring.patternType == CyclePattern
      ensures IsCycle(g, ring.members) && ring.riskScore == CYCLE_BASE_RISK + |ring.members|
    {
      AssembledCycleRing(f, g, ring);
    }
  }

  // ---- Suspicious accounts ----

  /** How many of the groups contain `a`. */
  function GroupsWith(groups: seq<seq<Id>>, a: Id): nat {
    if |groups| == 0 then 0
    else (if a in groups[0] then 1 else 0) + GroupsWith(groups[1..], a)
  }

  function AnchorGroups(ps: seq<Pattern>): seq<seq<Id>> {
    Map(ps, (p: Pattern) => [p.anchor])
  }

  function PartnerGroups(ps: seq<Pattern>): seq<seq<Id>> {
    Map(ps, (p: Pattern) => p.partners)
  }

  function IntermediateGroups(ns: seq<ShellNetwork>): seq<seq<Id>> {
    Map(ns, (n: ShellNetwork) => n.intermediates)
  }

  /** The risk the rules promise `a` before the cap: 50 per cycle through it,
      30 per fan pattern it anchors, 20 per fan pattern it is a counterparty
      of, and 20 per shell chain it is an intermediate of. */
  function RuleRisk(f: Findings, a: Id): int {
    CYCLE_DELTA * GroupsWith(f.cycles, a)
    + ANCHOR_DELTA * (GroupsWith(AnchorGroups(f.fanIn), a) + GroupsWith(AnchorGroups(f.fanOut), a))
    + PARTNER_DELTA * (GroupsWith(PartnerGroups(f.fanIn), a) + GroupsWith(PartnerGroups(f.fanOut), a))
    + SHELL_DELTA * GroupsWith(IntermediateGroups(f.shells), a)
  }

  /** Takes part in some fan pattern, as anchor or as counterparty. */
  predicate InFan(ps: seq<Pattern>, a: Id) {
    GroupsWith(AnchorGroups(ps), a) + GroupsWith(PartnerGroups(ps), a) > 0
  }

  /** The rules that flag `a`. */
  function RuleReasons(f: Findings, a: Id): set<Reason> {
    (if GroupsWith(f.cycles, a) > 0 then {CycleReason} else {})
    + (if InFan(f.fanIn, a) then {FanInReason} else {})
    + (if InFan(f.fanOut, a) then {FanOutReason} else {})
    + (if GroupsWith(IntermediateGroups(f.shells), a) > 0 then {ShellReason} else {})
  }

  /** No finding lists an account twice: what the detectors guarantee of the
      member lists the ledger is fed. */
  ghost predicate DuplicateFree(f: Findings) {
    && (forall c :: c in f.cycles ==> Distinct(c))
    && (forall p :: p in f.fanIn ==> Distinct(p.partners))
    && (forall p :: p in f.fanOut ==> Distinct(p.partners))
    && (forall n :: n in f.shells ==> Distinct(n.intermediates))
  }

  /** A list of distinct accounts adds `delta` and the reason once to each. */
  lemma {:induction false} CallsEffect(xs: seq<Id>, reason: Reason, delta: int, a: Id)
    requires Distinct(xs)
    ensures DeltaSum(Calls(xs, reason, delta), a) == if a in xs then delta else 0
    ensures ReasonsFor(Calls(xs, reason, delta), a) == if a in xs then {reason} else {}
    decreases |xs|
  {
    if |xs| > 0 {
      DistinctTail(xs);
      CallsEffect(xs[1..], reason, delta, a);
      assert a in xs <==> a == xs[0] || a in xs[1..] by {
        assert xs == [xs[0]] + xs[1..];
      }
    }
  }

  lemma {:induction false} CycleCallsEffect(cycles: seq<seq<Id>>, a: Id)
    requires forall c :: c in cycles ==> Distinct(c)
    ensures DeltaSum(CycleCalls(cycles), a) == CYCLE_DELTA * GroupsWith(cycles, a)
    ensures ReasonsFor(CycleCalls(cycles), a) == if GroupsWith(cycles, a) > 0 then {CycleReason} else {}
    decreases |cycles|
  {
    if |cycles| > 0 {
      assert cycles[0] in cycles;
      CallsEffect(cycles[0], CycleReason, CYCLE_DELTA, a);
      assert forall c :: c in cycles[1..] ==> c in cycles;
      CycleCallsEffect(cycles[1..], a);
      DeltaSumAppend(Calls(cycles[0], CycleReason, CYCLE_DELTA), CycleCalls(cycles[1..]), a);
      ReasonsForAppend(Calls(cycles[0], CycleReason, CYCLE_DELTA), CycleCalls(cycles[1..]), a);
    }
  }

  /** The calls for one fan pattern: the anchor's, then its counterparties'. */
  lemma FanCallsHead(ps: seq<Pattern>, reason: Reason, a: Id)
    requires |ps| > 0 && Distinct(ps[0].partners)
    ensures DeltaSum(FanCalls(ps, reason), a)
      == (if ps[0].anchor == a then ANCHOR_DELTA else 0) + (if a in ps[0].partners then PARTNER_DELTA else 0)
         + DeltaSum(FanCalls(ps[1..], reason), a)
    ensures ReasonsFor(FanCalls(ps, reason), a)
      == (if ps[0].anchor == a || a in ps[0].partners then {reason} else {})
         + ReasonsFor(FanCalls(ps[1..], reason), a)
  {
    var head := [Contribution(ps[0].anchor, reason, ANCHOR_DELTA)];
    var partners := Calls(ps[0].partners, reason, PARTNER_DELTA);
    var rest := FanCalls(ps[1..], reason);
    CallsEffect(ps[0].partners, reason, PARTNER_DELTA, a);
    assert FanCalls(ps, reason) == head + (partners + rest);
    DeltaSumAppend(head, partners + rest, a);
    DeltaSumAppend(partners, rest, a);
    ReasonsForAppend(head, partners + rest, a);
    ReasonsForAppend(partners, rest, a);
    assert head[1..] == [];
  }

  /** Dropping the first pattern drops its anchor group and its partner group. */
  lemma FanGroupsStep(ps: seq<Pattern>, a: Id)
    requires |ps| > 0
    ensures GroupsWith(AnchorGroups(ps), a)
      == (if ps[0].anchor == a then 1 else 0) + GroupsWith(AnchorGroups(ps[1..]), a)
    ensures GroupsWith(PartnerGroups(ps), a)
      == (if a in ps[0].partners then 1 else 0) + GroupsWith(PartnerGroups(ps[1..]), a)
  {
    assert AnchorGroups(ps)[1..] == AnchorGroups(ps[1..]);
    assert PartnerGroups(ps)[1..] == PartnerGroups(ps[1..]);
    assert AnchorGroups(ps)[0] == [ps[0].anchor];
    assert PartnerGroups(ps)[0] == ps[0].partners;
  }

  lemma {:induction false} FanCallsEffect(ps: seq<Pattern>, reason: Reason, a: Id)
    requires forall p :: p in ps ==> Distinct(p.partners)
    ensures DeltaSum(FanCalls(ps, reason), a)
      == ANCHOR_DELTA * GroupsWith(AnchorGroups(ps), a) + PARTNER_DELTA * GroupsWith(PartnerGroups(ps), a)
    ensures ReasonsFor(FanCalls(ps, reason), a) == if InFan(ps, a) then {reason} else {}
    decreases |ps|
  {
    if |ps| > 0 {
      assert ps[0] in ps;
      FanCallsHead(ps, reason, a);
      assert forall p :: p in ps[1..] ==> p in ps;
      FanCallsEffect(ps[1..], reason, a);
      FanGroupsStep(ps, a);
    }
  }

  lemma {:induction false} ShellCallsEffect(ns: seq<ShellNetwork>, a: Id)
    requires forall n :: n in ns ==> Distinct(n.intermediates)
    ensures DeltaSum(ShellCalls(ns), a) == SHELL_DELTA * GroupsWith(IntermediateGroups(ns), a)
    ensures ReasonsFor(ShellCalls(ns), a) ==
      if GroupsWith(IntermediateGroups(ns), a) > 0 then {ShellReason} else {}
    decreases |ns|
  {
    if |ns| > 0 {
      assert ns[0] in ns;
      CallsEffect(ns[0].intermediates, ShellReason, SHELL_DELTA, a);
      assert forall n :: n in ns[1..] ==> n in ns;
      ShellCallsEffect(ns[1..], a);
      assert IntermediateGroups(ns)[1..] == IntermediateGroups(ns[1..]);
      DeltaSumAppend(Calls(ns[0].intermediates, ShellReason, SHELL_DELTA), ShellCalls(ns[1..]), a);
      ReasonsForAppend(Calls(ns[0].intermediates, ShellReason, SHELL_DELTA), ShellCalls(ns[1..]), a);
    }
  }

  /** Over all the calls, `a` collects exactly the rule risk and the rule
      reasons. */
  lemma AllCallsEffect(f: Findings, a: Id)
    requires DuplicateFree(f)
    ensures DeltaSum(AllCalls(f), a) == RuleRisk(f, a)
    ensures ReasonsFor(AllCalls(f), a) == RuleReasons(f, a)
  {
    var c := CycleCalls(f.cycles);
    var fi := FanCalls(f.fanIn, FanInReason);
    var fo := FanCalls(f.fanOut, FanOutReason);
    var sh := ShellCalls(f.shells);
    CycleCallsEffect(f.cycles, a);
    FanCallsEffect(f.fanIn, FanInReason, a);
    FanCallsEffect(f.fanOut, FanOutReason, a);
    ShellCallsEffect(f.shells, a);
    DeltaSumAppend(c, fi, a);
    DeltaSumAppend(c + fi, fo, a);
    DeltaSumAppend(c + fi + fo, sh, a);
    ReasonsForAppend(c, fi, a);
    ReasonsForAppend(c + fi, fo, a);
    ReasonsForAppend(c + fi + fo, sh, a);
  }

  /** `a` has a row in `suspicious_accounts`. */
  predicate Listed(list: seq<SuspiciousAccount>, a: Id) {
    exists i :: 0 <= i < |list| && list[i].accountId == a
  }

  /** The ledger entry of `a` after all the calls holds the rule risk and,
      once each, the rule reasons. */
  lemma LedgerEntry(f: Findings, a: Id)
    requires DuplicateFree(f)
    ensures a in LedgerOf(f).entries <==> RuleReasons(f, a) != {}
    ensures EntryOf(LedgerOf(f), a).riskScore == RuleRisk(f, a)
    ensures Distinct(EntryOf(LedgerOf(f), a).reasons)
    ensures Elements(EntryOf(LedgerOf(f), a).reasons) == RuleReasons(f, a)
  {
    AllCallsEffect(f, a);
    AccumulateFreshKeys(AllCalls(f), a);
    AccumulateFresh(AllCalls(f), a);
  }

  /** Sorting by risk lists the same accounts, with rows from the input. */
  lemma SortedListed(list: seq<SuspiciousAccount>, a: Id)
    ensures Listed(SortBy(list, NegRisk), a) <==> Listed(list, a)
    ensures forall s :: s in SortBy(list, NegRisk) ==> s in list
  {
    var sorted := SortBy(list, NegRisk);
    if Listed(list, a) {
      var i :| 0 <= i < |list| && list[i].accountId == a;
      SortByMembership(list, NegRisk, list[i]);
    }
    if Listed(sorted, a) {
      var j :| 0 <= j < |sorted| && sorted[j].accountId == a;
      SortByMembership(list, NegRisk, sorted[j]);
    }
    forall s | s in sorted ensures s in list {
      SortByMembership(list, NegRisk, s);
    }
  }

  /** The rows are those of the ledger's accounts, one per account. */
  lemma RowsListed(l: Ledger, a: Id)
    requires WellFormed(l)
    ensures Listed(Rows(l), a) <==> a in l.entries
    ensures forall s :: s in Rows(l) && s.accountId == a ==> s == Finalize(l, a)
  {
    var list := Rows(l);
    if a in l.entries {
      var i :| 0 <= i < |l.order| && l.order[i] == a;
      assert list[i].accountId == a;
    }
  }

  /** Sorting the rows by risk keeps exactly the rows of the ledger's
      accounts, one per account. */
  lemma SortedRows(l: Ledger, a: Id)
    requires WellFormed(l)
    ensures Listed(SortBy(Rows(l), NegRisk), a) <==> a in l.entries
    ensures forall s :: s in SortBy(Rows(l), NegRisk) && s.accountId == a ==> s == Finalize(l, a)
  {
    SortedListed(Rows(l), a);
    RowsListed(l, a);
  }

  /** An account is listed exactly when some rule flags it; its risk is the
      rule risk capped at 100, its reasons are the rules that flag it, once
      each, and `patternsDetected` counts them. */
  lemma AssembledAccounts(f: Findings, a: Id)
    requires DuplicateFree(f)
    ensures Listed(Assemble(f).suspiciousAccounts, a) <==> RuleReasons(f, a) != {}
    ensures forall s :: s in Assemble(f).suspiciousAccounts && s.accountId == a ==>
      && s.riskScore == Min(RuleRisk(f, a), SCORE_CAP)
      && Distinct(s.reasons)
      && Elements(s.reasons) == RuleReasons(f, a)
      && s.patternsDetected == |RuleReasons(f, a)|
  {
    var l := LedgerOf(f);
    assert Assemble(f).suspiciousAccounts == SortBy(Rows(l), NegRisk);
    LedgerEntry(f, a);
    SortedRows(l, a);
    DistinctCardinality(EntryOf(l, a).reasons);
  }

  /** Account ids that are distinct stay distinct under any permutation. */
  lemma PermutedIdsDistinct(list: seq<SuspiciousAccount>, sorted: seq<SuspiciousAccount>)
    requires forall i, j :: 0 <= i < j < |list| ==> list[i].accountId != list[j].accountId
    requires multiset(list) == multiset(sorted)
    ensures forall i, j :: 0 <= i < j < |sorted| ==> sorted[i].accountId != sorted[j].accountId
  {
    assert Distinct(list);
    PermutationDistinct(list, sorted);
    forall i, j | 0 <= i < j < |sorted|
      ensures sorted[i].accountId != sorted[j].accountId
    {
      assert sorted[i] in multiset(list) && sorted[j] in multiset(list);
      var p :| 0 <= p < |list| && list[p] == sorted[i];
      var q :| 0 <= q < |list| && list[q] == sorted[j];
      assert sorted[i] != sorted[j];
    }
  }

  /** Sorting keeps the rows' account ids distinct. */
  lemma SortedRowsDistinct(l: Ledger)
    requires Distinct(l.order)
    ensures forall i, j :: 0 <= i < j < |SortBy(Rows(l), NegRisk)| ==>
      SortBy(Rows(l), NegRisk)[i].accountId != SortBy(Rows(l), NegRisk)[j].accountId
  {
    var list := Rows(l);
    forall i, j | 0 <= i < j < |list| ensures list[i].accountId != list[j].accountId {
      assert list[i].accountId == l.order[i] && list[j].accountId == l.order[j];
    }
    PermutedIdsDistinct(list, SortBy(list, NegRisk));
  }

  /** No account is listed twice. */
  lemma AssembledAccountsDistinct(f: Findings)
    ensures forall i, j :: 0 <= i < j < |Assemble(f).suspiciousAccounts| ==>
      Assemble(f).suspiciousAccounts[i].accountId != Assemble(f).suspiciousAccounts[j].accountId
  {
    var l := LedgerOf(f);
    assert Assemble(f).suspiciousAccounts == SortBy(Rows(l), NegRisk);
    SortedRowsDistinct(l);
  }

  lemma CyclesDuplicateFree(g: Graph)
    ensures forall c :: c in DetectCycles(g) ==> Distinct(c)
  {
    var cycles := DetectCycles(g);
    forall c | c in cycles ensures Distinct(c) {
      var i :| 0 <= i < |cycles| && cycles[i] == c;
    }
  }

  lemma FansDuplicateFree(d: Direction, txs: seq<Transaction>)
    ensures forall p :: p in DetectFans(d, txs) ==> Distinct(p.partners)
  {
    var ps := DetectFans(d, txs);
    DetectFansSpec(d, txs);
    forall p | p in ps ensures Distinct(p.partners) {
      var k :| 0 <= k < |ps| && ps[k] == p;
      DetectAnchorSome(d, txs, p.anchor);
    }
  }

  lemma ShellsDuplicateFree(g: Graph, txs: seq<Transaction>)
    ensures forall n :: n in DetectShellNetworks(g, txs) ==> Distinct(n.intermediates)
  {
    var ns := DetectShellNetworks(g, txs);
    forall n | n in ns ensures Distinct(n.intermediates) {
      var k :| 0 <= k < |ns| && ns[k] == n;
      var c := n.chain;
      forall i, j | 0 <= i < j < |n.intermediates| ensures n.intermediates[i] != n.intermediates[j] {
        assert n.intermediates[i] == c[i + 1] && n.intermediates[j] == c[j + 1];
      }
    }
  }

  /** The detectors' findings never list an account twice in one finding. */
  lemma FindDuplicateFree(txs: seq<Transaction>)
    ensures DuplicateFree(Find(txs))
  {
    var g := BuildGraph(txs);
    assert Find(txs) == Findings(g.keys, DetectKingpin(txs), DetectCycles(g), DetectFans(FanIn, txs),
                                 DetectFans(FanOut, txs), DetectShellNetworks(g, txs));
    CyclesDuplicateFree(g);
    FansDuplicateFree(FanIn, txs);
    FansDuplicateFree(FanOut, txs);
    ShellsDuplicateFree(g, txs);
  }

  /** For a transaction list: an account is listed exactly when a rule flags
      it, with the capped rule risk and the flagging rules as reasons. */
  lemma SuspiciousAccountsSpec(txs: seq<Transaction>, a: Id)
    ensures Listed(DetectFraud(txs).suspiciousAccounts, a) <==> RuleReasons(Find(txs), a) != {}
    ensures forall s :: s in DetectFraud(txs).suspiciousAccounts && s.accountId == a ==>
      && s.riskScore == Min(RuleRisk(Find(txs), a), SCORE_CAP)
      && Elements(s.reasons) == RuleReasons(Find(txs), a)
      && s.patternsDetected == |RuleReasons(Find(txs), a)|
  {
    FindDuplicateFree(txs);
    AssembledAccounts(Find(txs), a);
  }
}
