/** The display graph (csvParser.js `buildGraphData`): one node per account
    with its totals, the suspicion and ring marks handed in by the caller, the
    kingpin mark and a heuristic risk from 0 to 99, plus the aggregated links. */
module GraphData {
  import opened Seqs
  import opened Transactions
  import opened Kingpins
  import opened Links

  const HIGH_COUNT: nat := 50
  const MEDIUM_COUNT: nat := 20
  const HIGH_VOLUME: real := 500000.0
  const MEDIUM_VOLUME: real := 100000.0
  const SUSPICIOUS_FLOOR: int := 70
  const SUSPICIOUS_BOOST: int := 15
  const KINGPIN_FLOOR: int := 95
  const RISK_CAP: int := 99

  /** A ring as the caller passes it: its id, members and optional roles. */
  datatype InputRing = InputRing(ringId: string, members: seq<Id>, roles: map<Id, string>)

  /** What the marking passes leave on an account. */
  datatype Mark = Mark(suspicious: bool, ring: Option<string>, role: string)

  const Unmarked := Mark(false, None, "Normal")

  datatype KingpinData = KingpinData(totalFlow: real, connections: nat, degreeCentrality: real)

  datatype Node = Node(
    id: Id,
    totalSent: real,
    totalReceived: real,
    transactionCount: nat,
    suspicious: bool,
    ring: Option<string>,
    role: string,
    isKingpin: bool,
    kingpinData: Option<KingpinData>,
    risk: int,
    amount: real)

  datatype GraphView = GraphView(nodes: seq<Node>, links: seq<Link>)

  // ---- Marking ----

  function MarkOf(m: map<Id, Mark>, a: Id): Mark {
    if a in m then m[a] else Unmarked
  }

  /** `roles[memberId] || 'Mule'`: a missing or empty role reads as 'Mule'. */
  function RoleOf(roles: map<Id, string>, a: Id): string {
    if a in roles && roles[a] != "" then roles[a] else "Mule"
  }

  /** Flags every listed id that is an account; other ids are ignored. */
  function MarkSuspicious(m: map<Id, Mark>, ids: seq<Id>): (r: map<Id, Mark>)
    ensures r.Keys == m.Keys
    decreases |ids|
  {
    if |ids| == 0 then m
    else
      var a := ids[0];
      var m1 := if a in m then m[a := m[a].(suspicious := true)] else m;
      MarkSuspicious(m1, ids[1..])
  }

  /** The `forEach` over one ring's members: each account among them is
      flagged and takes the ring's id and its role. */
  function AssignMembers(m: map<Id, Mark>, ring: InputRing, members: seq<Id>): (r: map<Id, Mark>)
    ensures r.Keys == m.Keys
    decreases |members|
  {
    if |members| == 0 then m
    else
      var a := members[0];
      var m1 := if a in m then m[a := Mark(true, Some(ring.ringId), RoleOf(ring.roles, a))] else m;
      AssignMembers(m1, ring, members[1..])
  }

  function AssignRings(m: map<Id, Mark>, rings: seq<InputRing>): (r: map<Id, Mark>)
    ensures r.Keys == m.Keys
    decreases |rings|
  {
    if |rings| == 0 then m
    else AssignRings(AssignMembers(m, rings[0], rings[0].members), rings[1..])
  }

  /** Every account starts unmarked. */
  function AllUnmarked(accounts: seq<Id>): map<Id, Mark> {
    map a | a in accounts :: Unmarked
  }

  /** The marks after both passes. */
  function Marks(accounts: seq<Id>, ids: seq<Id>, rings: seq<InputRing>): map<Id, Mark> {
    AssignRings(MarkSuspicious(AllUnmarked(accounts), ids), rings)
  }

  // ---- Reference view of the marks ----

  /** The position of the last ring listing `a`, if any. */
  function LastRing(rings: seq<InputRing>, a: Id): (k: Option<nat>)
    ensures k.Some? ==>
      && k.value < |rings|
      && a in rings[k.value].members
      && forall j :: k.value < j < |rings| ==> a !in rings[j].members
    ensures k.None? ==> forall j :: 0 <= j < |rings| ==> a !in rings[j].members
  {
    if |rings| == 0 then None
    else
      var k := LastRing(rings[1..], a);
      if k.Some? then
        assert forall j :: k.value + 1 < j < |rings| ==> rings[j] == rings[1..][j - 1];
        Some(k.value + 1)
      else
        assert forall j :: 1 <= j < |rings| ==> rings[j] == rings[1..][j - 1];
        if a in rings[0].members then Some(0) else None
  }

  lemma {:induction false} MarkSuspiciousEffect(m: map<Id, Mark>, ids: seq<Id>, a: Id)
    requires a in m
    ensures MarkSuspicious(m, ids)[a] == if a in ids then m[a].(suspicious := true) else m[a]
    decreases |ids|
  {
    if |ids| > 0 {
      var b := ids[0];
      var m1 := if b in m then m[b := m[b].(suspicious := true)] else m;
      MarkSuspiciousEffect(m1, ids[1..], a);
      assert a in ids <==> a == b || a in ids[1..] by {
        assert ids == [b] + ids[1..];
      }
    }
  }

  lemma {:induction false} AssignMembersEffect(m: map<Id, Mark>, ring: InputRing, members: seq<Id>, a: Id)
    requires a in m
    ensures AssignMembers(m, ring, members)[a] ==
      if a in members then Mark(true, Some(ring.ringId), RoleOf(ring.roles, a)) else m[a]
    decreases |members|
  {
    if |members| > 0 {
      var b := members[0];
      var m1 := if b in m then m[b := Mark(true, Some(ring.ringId), RoleOf(ring.roles, b))] else m;
      AssignMembersEffect(m1, ring, members[1..], a);
      assert a in members <==> a == b || a in members[1..] by {
        assert members == [b] + members[1..];
      }
    }
  }

  /** The ring marks of an account are those of the last ring listing it. */
  lemma {:induction false} AssignRingsEffect(m: map<Id, Mark>, rings: seq<InputRing>, a: Id)
    requires a in m
    ensures AssignRings(m, rings)[a] ==
      match LastRing(rings, a)
      case None => m[a]
      case Some(k) => Mark(true, Some(rings[k].ringId), RoleOf(rings[k].roles, a))
    decreases |rings|
  {
    if |rings| > 0 {
      var m1 := AssignMembers(m, rings[0], rings[0].members);
      AssignMembersEffect(m, rings[0], rings[0].members, a);
      AssignRingsEffect(m1, rings[1..], a);
      var k := LastRing(rings[1..], a);
      if k.Some? {
        assert rings[k.value + 1] == rings[1..][k.value];
      }
    }
  }

  /** `a` is listed in some ring. */
  predicate InSomeRing(rings: seq<InputRing>, a: Id) {
    exists j :: 0 <= j < |rings| && a in rings[j].members
  }

  /** The marks of an account: flagged exactly when listed as suspicious or in
      some ring; ring and role from the last ring listing it; 'Normal' and no
      ring when no ring lists it. */
  lemma MarksSpec(accounts: seq<Id>, ids: seq<Id>, rings: seq<InputRing>, a: Id)
    requires a in accounts
    ensures a in Marks(accounts, ids, rings)
    ensures Marks(accounts, ids, rings)[a].suspicious <==> a in ids || InSomeRing(rings, a)
    ensures LastRing(rings, a).None? ==>
      Marks(accounts, ids, rings)[a].ring == None && Marks(accounts, ids, rings)[a].role == "Normal"
    ensures LastRing(rings, a).Some? ==>
      var k := LastRing(rings, a).value;
      Marks(accounts, ids, rings)[a].ring == Some(rings[k].ringId)
      && Marks(accounts, ids, rings)[a].role == RoleOf(rings[k].roles, a)
  {
    var m0 := AllUnmarked(accounts);
    var m1 := MarkSuspicious(m0, ids);
    MarkSuspiciousEffect(m0, ids, a);
    AssignRingsEffect(m1, rings, a);
    if InSomeRing(rings, a) {
      var j :| 0 <= j < |rings| && a in rings[j].members;
    }
  }

  // ---- Risk ----

  /** Comparing a quotient with a bound is comparing the dividend with the
      bound times the divisor. */
  lemma QuotientCompare(x: real, y: real, c: real)
    requires y > 0.0
    ensures x / y > c <==> x > c * y
    ensures x / y < c <==> x < c * y
  {
    var q := x / y;
    assert q * y == x;
    if q > c {
      assert q * y > c * y;
    }
    if q < c {
      assert q * y < c * y;
    }
    if q == c {
      assert q * y == c * y;
    }
  }

  /** The pattern-independent score: +30 above 50 transactions (else +15
      above 20), +40 above 500 000 moved (else +20 above 100 000), and +20 when
      sent over received-plus-one is above 5 or below 0.2. */
  function BaseRisk(count: nat, sent: real, received: real): (r: int)
    requires sent >= 0.0 && received >= 0.0
    ensures 0 <= r <= 90
    ensures r == 0 <==>
      && count <= MEDIUM_COUNT
      && sent + received <= MEDIUM_VOLUME
      && 0.2 * (received + 1.0) <= sent <= 5.0 * (received + 1.0)
  {
    var byCount := if count > HIGH_COUNT then 30 else if count > MEDIUM_COUNT then 15 else 0;
    var total := sent + received;
    var byVolume := if total > HIGH_VOLUME then 40 else if total > MEDIUM_VOLUME then 20 else 0;
    var ratio := sent / (received + 1.0);
    QuotientCompare(sent, received + 1.0, 5.0);
    QuotientCompare(sent, received + 1.0, 0.2);
    var byFlow := if ratio > 5.0 || ratio < 0.2 then 20 else 0;
    byCount + byVolume + byFlow
  }

  /** The node of account `a`. */
  function NodeOf(a: Id, s: Stats, mark: Mark, kingpin: Option<Kingpin>): (n: Node)
    requires s.sent >= 0.0 && s.received >= 0.0
    ensures n.id == a && n.amount == n.totalSent + n.totalReceived
    ensures 0 <= n.risk <= RISK_CAP
    ensures n.isKingpin <==> kingpin.Some? && kingpin.value.accountId == a
    ensures n.suspicious <==> mark.suspicious || n.isKingpin
    ensures mark.suspicious ==> n.risk >= SUSPICIOUS_FLOOR + SUSPICIOUS_BOOST
    ensures n.isKingpin ==> n.risk >= KINGPIN_FLOOR
    ensures !n.suspicious ==> n.risk == BaseRisk(s.count, s.sent, s.received)
  {
    var base := BaseRisk(s.count, s.sent, s.received);
    var boosted := if mark.suspicious then Max(base, SUSPICIOUS_FLOOR) + SUSPICIOUS_BOOST else base;
    var isKingpin := kingpin.Some? && kingpin.value.accountId == a;
    var risk := if isKingpin then Max(boosted, KINGPIN_FLOOR) else boosted;
    var data := if isKingpin
      then Some(KingpinData(kingpin.value.totalFlow, kingpin.value.connections, kingpin.value.degreeCentrality))
      else None;
    Node(a, s.sent, s.received, s.count, mark.suspicious || isKingpin, mark.ring, mark.role,
         isKingpin, data, Min(risk, RISK_CAP), s.sent + s.received)
  }

  /** `Array.from(accountsMap.values())` after the risk pass: one node per
      account, in first-appearance order. */
  function Nodes(txs: seq<Transaction>, stats: map<Id, Stats>, marks: map<Id, Mark>, kingpin: Option<Kingpin>)
    : (ns: seq<Node>)
    requires stats == Tally(txs)
    ensures |ns| == |Accounts(txs)|
    ensures forall i :: 0 <= i < |ns| ==>
      ns[i] == NodeOf(Accounts(txs)[i], StatsOf(stats, Accounts(txs)[i]), MarkOf(marks, Accounts(txs)[i]), kingpin)
  {
    var accounts := Accounts(txs);
    seq(|accounts|, i requires 0 <= i < |accounts| =>
      NodeOf(accounts[i], StatsOf(stats, accounts[i]), MarkOf(marks, accounts[i]), kingpin))
  }

  /** `buildGraphData(transactions, suspiciousAccounts, fraudRings, kingpin)`. */
  function BuildGraphData(txs: seq<Transaction>, ids: seq<Id>, rings: seq<InputRing>, kingpin: Option<Kingpin>)
    : (v: GraphView)
    ensures |v.nodes| == |Accounts(txs)|
    ensures forall i :: 0 <= i < |v.nodes| ==>
      && v.nodes[i].id == Accounts(txs)[i]
      && v.nodes[i].totalSent == SentTotal(txs, v.nodes[i].id)
      && v.nodes[i].totalReceived == ReceivedTotal(txs, v.nodes[i].id)
      && v.nodes[i].transactionCount == TxCount(txs, v.nodes[i].id)
      && v.nodes[i].amount == v.nodes[i].totalSent + v.nodes[i].totalReceived
      && 0 <= v.nodes[i].risk <= RISK_CAP
      && (v.nodes[i].suspicious ==> v.nodes[i].risk >= SUSPICIOUS_FLOOR + SUSPICIOUS_BOOST)
      && (v.nodes[i].isKingpin <==> kingpin.Some? && kingpin.value.accountId == v.nodes[i].id)
      && (v.nodes[i].isKingpin ==> v.nodes[i].suspicious && v.nodes[i].risk >= KINGPIN_FLOOR)
      && (!v.nodes[i].suspicious ==>
            v.nodes[i].risk == BaseRisk(v.nodes[i].transactionCount, v.nodes[i].totalSent, v.nodes[i].totalReceived))
    ensures v.links == PairLinks(txs)
  {
    var accounts := Accounts(txs);
    var marks := Marks(accounts, ids, rings);
    var nodes := Nodes(txs, Tally(txs), marks, kingpin);
    assert forall i :: 0 <= i < |nodes| ==> nodes[i].suspicious ==> nodes[i].risk >= SUSPICIOUS_FLOOR + SUSPICIOUS_BOOST by {
      forall i | 0 <= i < |nodes| && nodes[i].suspicious
        ensures nodes[i].risk >= SUSPICIOUS_FLOOR + SUSPICIOUS_BOOST
      {
        assert KINGPIN_FLOOR >= SUSPICIOUS_FLOOR + SUSPICIOUS_BOOST;
      }
    }
    GraphView(nodes, PairLinks(txs))
  }

  /** A node is suspicious exactly when its account is listed as suspicious,
      listed in a ring, or is the kingpin; its ring and role are those of the
      last ring listing it, and 'Normal' with no ring when none does. */
  lemma NodeMarks(txs: seq<Transaction>, ids: seq<Id>, rings: seq<InputRing>, kingpin: Option<Kingpin>, i: int)
    requires 0 <= i < |Accounts(txs)|
    ensures var n := BuildGraphData(txs, ids, rings, kingpin).nodes[i];
      && (n.suspicious <==> n.id in ids || InSomeRing(rings, n.id) || n.isKingpin)
      && (LastRing(rings, n.id).None? ==> n.ring == None && n.role == "Normal")
      && (LastRing(rings, n.id).Some? ==>
            n.ring == Some(rings[LastRing(rings, n.id).value].ringId)
            && n.role == RoleOf(rings[LastRing(rings, n.id).value].roles, n.id))
  {
    var a := Accounts(txs)[i];
    MarksSpec(Accounts(txs), ids, rings, a);
  }
}
