/** The dashboard view of a report (fraudDetectionEngine.js
    `formatDetectionResults`): the four headline counts, one table row per
    ring, the flagged account ids in report order, and for every account the
    numbers of the rings it belongs to. */
module Display {
  import opened Seqs
  import opened Transactions
  import opened Suspicion
  import opened Engine

  /** A suspicious account at or above this risk counts as high risk. */
  const HIGH_RISK: int := 80

  datatype StatsCards = StatsCards(
    totalAccounts: nat,
    suspiciousAccounts: nat,
    fraudRings: nat,
    highRiskAccounts: nat)

  /** One row of the rings table; the free-text details are not modelled. */
  datatype RingRow = RingRow(id: nat, pattern: PatternType, members: nat, riskScore: int)

  /** The plain object keyed by account id; JavaScript key order is not
      modelled, only the keys and their lists. */
  type RingMap = map<Id, seq<nat>>

  datatype Dashboard = Dashboard(
    statsCards: StatsCards,
    fraudRingsTable: seq<RingRow>,
    suspiciousAccountIds: seq<Id>,
    fraudRingMap: RingMap)

  function IsHighRisk(s: SuspiciousAccount): bool {
    s.riskScore >= HIGH_RISK
  }

  /** The positions of the listed accounts scoring 80 or more. */
  function HighRiskPositions(list: seq<SuspiciousAccount>): set<int> {
    set i | 0 <= i < |list| && list[i].riskScore >= HIGH_RISK
  }

  /** The filter the card applies counts the high-risk positions. */
  lemma HighRiskCount(list: seq<SuspiciousAccount>)
    ensures |Filter(list, IsHighRisk)| == |HighRiskPositions(list)|
  {
    FilterCountsIndices(list, IsHighRisk, 0);
    assert list[0..] == list;
    assert IndicesFrom(list, IsHighRisk, 0) == HighRiskPositions(list);
  }

  function RowOf(ring: FraudRing): RingRow {
    RingRow(ring.ringId, ring.patternType, |ring.members|, ring.riskScore)
  }

  function AccountIdOf(s: SuspiciousAccount): Id {
    s.accountId
  }

  function RingIdsOf(m: RingMap, a: Id): seq<nat> {
    if a in m then m[a] else []
  }

  // ---- The reduce the source performs ----

  /** The `forEach` over one ring's members: create a missing list, then push
      the ring's number. A member listed twice gets the number twice. */
  function AddMembers(m: RingMap, members: seq<Id>, id: nat): RingMap
    decreases |members|
  {
    if |members| == 0 then m
    else
      var a := members[0];
      AddMembers(m[a := RingIdsOf(m, a) + [id]], members[1..], id)
  }

  function AddRings(m: RingMap, rings: seq<FraudRing>): RingMap
    decreases |rings|
  {
    if |rings| == 0 then m
    else AddRings(AddMembers(m, rings[0].members, rings[0].ringId), rings[1..])
  }

  // ---- Reference view ----

  /** `x`, `n` times. */
  function Repeat(x: nat, n: nat): (r: seq<nat>)
    ensures |r| == n && forall i :: 0 <= i < n ==> r[i] == x
  {
    seq(n, _ => x)
  }

  /** How often `a` occurs in `s`. */
  function Occurrences(s: seq<Id>, a: Id): (n: nat)
    ensures n > 0 <==> a in s
  {
    if |s| == 0 then 0
    else (if s[0] == a then 1 else 0) + Occurrences(s[1..], a)
  }

  /** The numbers of the rings `a` belongs to, in ring order, once per
      occurrence of `a` among the ring's members. */
  function MemberRingIds(rings: seq<FraudRing>, a: Id): seq<nat> {
    if |rings| == 0 then []
    else Repeat(rings[0].ringId, Occurrences(rings[0].members, a)) + MemberRingIds(rings[1..], a)
  }

  /** `a` is a member of some ring. */
  predicate InSomeRing(rings: seq<FraudRing>, a: Id) {
    exists i :: 0 <= i < |rings| && a in rings[i].members
  }

  lemma {:induction false} AddMembersEffect(m: RingMap, members: seq<Id>, id: nat, a: Id)
    ensures a in AddMembers(m, members, id) <==> a in m || a in members
    ensures RingIdsOf(AddMembers(m, members, id), a) == RingIdsOf(m, a) + Repeat(id, Occurrences(members, a))
    decreases |members|
  {
    if |members| > 0 {
      var b := members[0];
      var m1 := m[b := RingIdsOf(m, b) + [id]];
      AddMembersEffect(m1, members[1..], id, a);
      assert a in members <==> a == b || a in members[1..] by {
        assert members == [b] + members[1..];
      }
      var n := Occurrences(members[1..], a);
      if a == b {
        assert Repeat(id, n + 1) == [id] + Repeat(id, n);
        assert RingIdsOf(m, a) + [id] + Repeat(id, n) == RingIdsOf(m, a) + ([id] + Repeat(id, n));
      } else {
        assert RingIdsOf(m1, a) == RingIdsOf(m, a);
      }
    }
  }

  /** Membership in some ring: in the first, or in one of the rest. */
  lemma InSomeRingCons(rings: seq<FraudRing>, a: Id)
    requires |rings| > 0
    ensures InSomeRing(rings, a) <==> a in rings[0].members || InSomeRing(rings[1..], a)
  {
    if InSomeRing(rings[1..], a) {
      var i :| 0 <= i < |rings[1..]| && a in rings[1..][i].members;
      assert rings[i + 1] == rings[1..][i];
    }
    if InSomeRing(rings, a) && a !in rings[0].members {
      var i :| 0 <= i < |rings| && a in rings[i].members;
      assert rings[1..][i - 1] == rings[i];
    }
  }

  lemma {:induction false} AddRingsKeys(m: RingMap, rings: seq<FraudRing>, a: Id)
    ensures a in AddRings(m, rings) <==> a in m || InSomeRing(rings, a)
    decreases |rings|
  {
    if |rings| > 0 {
      var m1 := AddMembers(m, rings[0].members, rings[0].ringId);
      assert AddRings(m, rings) == AddRings(m1, rings[1..]);
      AddMembersEffect(m, rings[0].members, rings[0].ringId, a);
      AddRingsKeys(m1, rings[1..], a);
      InSomeRingCons(rings, a);
    }
  }

  lemma {:induction false} AddRingsEffect(m: RingMap, rings: seq<FraudRing>, a: Id)
    ensures RingIdsOf(AddRings(m, rings), a) == RingIdsOf(m, a) + MemberRingIds(rings, a)
    decreases |rings|
  {
    if |rings| > 0 {
      var r := rings[0];
      var m1 := AddMembers(m, r.members, r.ringId);
      assert AddRings(m, rings) == AddRings(m1, rings[1..]);
      AddMembersEffect(m, r.members, r.ringId, a);
      AddRingsEffect(m1, rings[1..], a);
      var R := Repeat(r.ringId, Occurrences(r.members, a));
      assert MemberRingIds(rings, a) == R + MemberRingIds(rings[1..], a);
      assert RingIdsOf(m, a) + R + MemberRingIds(rings[1..], a)
          == RingIdsOf(m, a) + (R + MemberRingIds(rings[1..], a));
    }
  }

  /** A number is listed for `a` exactly when `a` is a member of a ring with
      that number. */
  lemma {:induction false} MemberRingIdsMembership(rings: seq<FraudRing>, a: Id, k: nat)
    ensures k in MemberRingIds(rings, a) <==>
      exists i :: 0 <= i < |rings| && rings[i].ringId == k && a in rings[i].members
    decreases |rings|
  {
    if |rings| > 0 {
      MemberRingIdsMembership(rings[1..], a, k);
      var R := Repeat(rings[0].ringId, Occurrences(rings[0].members, a));
      assert k in R <==> k == rings[0].ringId && a in rings[0].members by {
        assert Occurrences(rings[0].members, a) > 0 <==> a in rings[0].members;
        if k == rings[0].ringId && a in rings[0].members {
          assert R[0] == k;
        }
      }
      if exists i :: 0 <= i < |rings[1..]| && rings[1..][i].ringId == k && a in rings[1..][i].members {
        var i :| 0 <= i < |rings[1..]| && rings[1..][i].ringId == k && a in rings[1..][i].members;
        assert rings[i + 1] == rings[1..][i];
      }
      if exists i :: 0 <= i < |rings| && rings[i].ringId == k && a in rings[i].members {
        var i :| 0 <= i < |rings| && rings[i].ringId == k && a in rings[i].members;
        if i > 0 {
          assert rings[1..][i - 1] == rings[i];
        }
      }
    }
  }

  /** `fraudRingMap`: every ring member maps to the numbers of its rings. */
  function FraudRingMap(rings: seq<FraudRing>): (m: RingMap)
    ensures forall a :: a in m <==> InSomeRing(rings, a)
    ensures forall a :: RingIdsOf(m, a) == MemberRingIds(rings, a)
  {
    var m := AddRings(map[], rings);
    forall a ensures (a in m <==> InSomeRing(rings, a)) && RingIdsOf(m, a) == MemberRingIds(rings, a) {
      AddRingsKeys(map[], rings, a);
      AddRingsEffect(map[], rings, a);
    }
    m
  }

  /** `formatDetectionResults(results)`. */
  function FormatDetectionResults(r: Report): (d: Dashboard)
    ensures d.statsCards.totalAccounts == r.summary.totalAccountsAnalyzed
    ensures d.statsCards.suspiciousAccounts == r.summary.suspiciousAccountsFlagged
    ensures d.statsCards.fraudRings == r.summary.fraudRingsDetected
    ensures d.statsCards.highRiskAccounts == |HighRiskPositions(r.suspiciousAccounts)|
    ensures d.statsCards.highRiskAccounts <= |r.suspiciousAccounts|
    ensures |d.fraudRingsTable| == |r.fraudRings|
    ensures forall i :: 0 <= i < |r.fraudRings| ==>
      && d.fraudRingsTable[i].id == r.fraudRings[i].ringId
      && d.fraudRingsTable[i].pattern == r.fraudRings[i].patternType
      && d.fraudRingsTable[i].members == |r.fraudRings[i].members|
      && d.fraudRingsTable[i].riskScore == r.fraudRings[i].riskScore
    ensures |d.suspiciousAccountIds| == |r.suspiciousAccounts|
    ensures forall i :: 0 <= i < |r.suspiciousAccounts| ==> d.suspiciousAccountIds[i] == r.suspiciousAccounts[i].accountId
    ensures forall a, k :: k in RingIdsOf(d.fraudRingMap, a) <==>
      exists i :: 0 <= i < |r.fraudRings| && r.fraudRings[i].ringId == k && a in r.fraudRings[i].members
  {
    var cards := StatsCards(r.summary.totalAccountsAnalyzed, r.summary.suspiciousAccountsFlagged,
                            r.summary.fraudRingsDetected, |Filter(r.suspiciousAccounts, IsHighRisk)|);
    HighRiskCount(r.suspiciousAccounts);
    var m := FraudRingMap(r.fraudRings);
    forall a, k ensures k in RingIdsOf(m, a) <==>
      exists i :: 0 <= i < |r.fraudRings| && r.fraudRings[i].ringId == k && a in r.fraudRings[i].members
    {
      MemberRingIdsMembership(r.fraudRings, a, k);
    }
    Dashboard(cards, Map(r.fraudRings, RowOf), Map(r.suspiciousAccounts, AccountIdOf), m)
  }

  /** The dashboard of an assembled report: the high-risk count counts the
      listed accounts scoring 80 or more and is at most the flagged count, the
      account ids are distinct, and an account appears in the ring map exactly
      when it is a member of a reported ring. */
  lemma DashboardOfAssembled(f: Findings)
    ensures var d := FormatDetectionResults(Assemble(f));
      && d.statsCards.highRiskAccounts == |HighRiskPositions(Assemble(f).suspiciousAccounts)|
      && d.statsCards.highRiskAccounts <= d.statsCards.suspiciousAccounts
      && Distinct(d.suspiciousAccountIds)
      && (forall a :: a in d.fraudRingMap <==> InSomeRing(Assemble(f).fraudRings, a))
  {
    var r := Assemble(f);
    var d := FormatDetectionResults(r);
    AssembledAccountsDistinct(f);
    assert d.fraudRingMap == FraudRingMap(r.fraudRings);
  }
}
