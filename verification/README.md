# FinTrace-Ai fraud detection, modelled in Dafny

FinTrace-Ai reads a ledger of money transfers and looks for money-muling
patterns. Every transfer has a sender, a receiver, a positive amount and a
timestamp. The detection engine (`detectFraud`) does the following:

- builds a directed transfer graph;
- reports four kinds of fraud ring:
  - circular routing: cycles of three to five accounts;
  - fan-in and fan-out smurfing: ten or more distinct counterparties inside
    a 72-hour window;
  - layered shell chains: chains of three to six accounts whose
    intermediates take part in only two or three transactions;
- scores the accounts those rings flag, capped at 100: 50 for each cycle
  through the account, 30 for each fan pattern it anchors, 20 for each fan
  pattern it is a counterparty of, and 20 for each shell chain it is an
  intermediate of (the two end accounts of a shell chain are ring members
  but get no score);
- numbers the rings, sorts both lists by risk, and summarises the counts;
- names a "kingpin": the account with the best mix of money flow and
  counterparty degree.

`formatDetectionResults` turns the report into the dashboard's cards, tables
and ring map. `buildGraphData` turns transfers plus the report into the
network view: one node per account with totals, marks and a display risk,
and one link per sender/receiver pair.

## How the model is organised

| file | module | what it holds |
|---|---|---|
| seqs.dfy | `Seqs` | Option, `Math.min`/`max`, duplicate-free sequences, filter/map, first-appearance de-duplication (the key order of a JavaScript `Map` or `Set`) |
| jsstrings.dfy | `JsStrings` | JavaScript string `<`, `join` and `includes` |
| sorting.dfy | `Sorting` | the stable `Array.prototype.sort` as a stable insertion sort on an integer key |
| transactions.dfy | `Transactions` | transactions, account order, per-account totals and counterparties |
| graph.dfy | `TxGraph` | `buildGraph` |
| kingpin.dfy | `Kingpins` | `detectKingpin` |
| cycles.dfy | `Cycles` | `detectCycles` and `normalizeCycle` |
| smurfing.dfy | `Smurfing` | `detectSmurfing` |
| shell.dfy | `Shells` | `detectShellNetworks` |
| suspicion.dfy | `Suspicion` | `addSuspiciousAccount` and the map it fills |
| engine.dfy | `Engine` | `detectFraud`: ring numbering, scoring, capping, sorting and the summary |
| display.dfy | `Display` | `formatDetectionResults` |
| links.dfy | `Links` | the link aggregation of `buildGraphData` |
| graphdata.dfy | `GraphData` | `buildGraphData`: nodes, marks, display risk |

Modelling conventions:

- The model is pure functions over immutable data.
- Account ids are strings.
- Amounts are exact reals, and ingestion guarantees they are positive.
- Timestamps are integer milliseconds.
- A JavaScript `Map` iterates its keys in insertion order, and the model
  keeps that order for each map:
  - the graph, the kingpin metrics and the network view's accounts are filled
    sender, then receiver, for every transaction in input order. Their order
    is `Transactions.Accounts`;
  - the fan-in and fan-out groups are keyed by receiver or by sender only.
    Their order is first appearance in that role, `Smurfing.Anchors`;
  - the suspicious-accounts map is keyed in the order of the first
    `addSuspiciousAccount` call for each account, `Suspicion.Ledger.order`.
- Each depth-first search is a family of mutually recursive functions that
  follow the source's loops exactly. That includes the bookkeeping sets: the
  roots already explored, `seenCycles`, `seenFanIn`, `seenFanOut`,
  `exploredStarts` and `seenChains`.
- The ring numbers `RING_001`, `RING_002`, … are modelled as the naturals
  1, 2, ….

Comments in the model point out several conditions that can never fire. The
model keeps each of them as written:

- the `path.length > 5` guard in the cycle search;
- the `seenFanIn` and `seenFanOut` checks, because group keys are distinct;
- the `exploredStarts` check, because graph keys are distinct.

## Model

| member | source | states |
|---|---|---|
| Transactions.Tally | src/utils/fraudDetectionEngine.js:155-179 | Each account's metrics entry holds its total sent, total received, number of transactions (a self-transfer counts twice) and set of distinct counterparties. Exactly the accounts that appear get an entry. |
| TxGraph.BuildGraph | src/utils/fraudDetectionEngine.js:219-237 | The graph has one key per account, in first-appearance order. Each entry's outgoing, incoming and touching lists are that account's receivers, senders and transactions, in input order. |
| TxGraph.EdgeIffTransfer | src/utils/fraudDetectionEngine.js:219-237 | There is an edge from a to b exactly when some transaction sends from a to b. |
| Kingpins.DetectKingpin | src/utils/fraudDetectionEngine.js:151-214 | The kingpin is an account with at least five counterparties and a positive score. No eligible account scores higher, and every eligible account met earlier scores strictly lower. The record holds that account's flow, connection count and centrality. There is no kingpin only when no eligible account scores above zero. |
| Kingpins.ScanFirstMax | src/utils/fraudDetectionEngine.js:182-211 | The strict `>` scan, starting from a best score of 0, returns the first candidate with the greatest positive score. It returns nothing when no candidate is positive. |
| Kingpins.EligibleScorePositive | src/utils/fraudDetectionEngine.js:186-199 | Every account with five or more counterparties scores above zero: its flow is non-negative and its centrality is positive. |
| Kingpins.KingpinIffEligibleAccount | src/utils/fraudDetectionEngine.js:185-213 | A kingpin is reported exactly when some account has five or more distinct counterparties. |
| Cycles.MinNode | src/utils/fraudDetectionEngine.js:249-250 | The reduce returns an account of the cycle that no other account of the cycle is less than. |
| Cycles.NormalizeRotationInvariant | src/utils/fraudDetectionEngine.js:247-261 | Every rotation of a duplicate-free cycle gets the same canonical key. |
| Cycles.DetectCycles | src/utils/fraudDetectionEngine.js:243-310 | Every reported cycle has three to five distinct accounts. Each account sends to the next, and the last sends back to the first. No two reported cycles share a canonical key. |
| Cycles.NoRotatedDuplicates | src/utils/fraudDetectionEngine.js:279-289 | No reported cycle is a rotation of another. |
| Smurfing.Anchors | src/utils/fraudDetectionEngine.js:327-333 | The group keys are distinct and are exactly the receivers (fan-in) or senders (fan-out) of the transactions. |
| Smurfing.DetectAnchorSome | src/utils/fraudDetectionEngine.js:336-369 | A found pattern opens at the earliest of the anchor's timestamps whose inclusive 72-hour window has ten or more distinct counterparties. Its partners are exactly that window's distinct counterparties, once each, and its count is the number of the anchor's transactions in the window. |
| Smurfing.DetectAnchorIff | src/utils/fraudDetectionEngine.js:336-369 | An anchor yields a pattern exactly when one of its windows qualifies. |
| Smurfing.DetectFansSpec | src/utils/fraudDetectionEngine.js:317-426 | Each reported pattern is its anchor's first qualifying window. No anchor is reported twice. Every account with a qualifying window is reported. |
| Shells.DetectShellNetworks | src/utils/fraudDetectionEngine.js:433-504 | Every reported chain is a path of three to six distinct accounts along transfers. Its intermediates are the inner accounts, and each of them takes part in two or three transactions. No reported chain's `->` key contains another's. |
| Shells.NoSubChains | src/utils/fraudDetectionEngine.js:456-474 | No reported chain is a consecutive stretch of another. |
| Shells.KeyOverlapWithoutSubChain | src/utils/fraudDetectionEngine.js:458-466 | The containment test on joined keys also rejects chains that are not stretches of each other: the key of B, C, A1 is a prefix of the key of B, C, A12. |
| Suspicion.AddSuspicious | src/utils/fraudDetectionEngine.js:509-522 | The call creates the entry if it is missing, appending the account to the key order. It adds the delta to the risk, records the reason once, and leaves every other account untouched. |
| Suspicion.AccumulateScore | src/utils/fraudDetectionEngine.js:509-522 | After a sequence of calls, each account's risk is its earlier risk plus the sum of its deltas. |
| Suspicion.AccumulateReasons | src/utils/fraudDetectionEngine.js:509-522 | After a sequence of calls, each account's reasons are its earlier reasons plus every reason given for it. |
| Suspicion.AccumulateOrder | src/utils/fraudDetectionEngine.js:509-522 | The keys are the earlier keys followed by the new accounts, in order of first call. |
| Suspicion.AccumulateKeys | src/utils/fraudDetectionEngine.js:509-522 | An account has an entry exactly when some call named it. |
| Engine.Assemble | src/utils/fraudDetectionEngine.js:112-133 | The accounts and the rings are each sorted by non-increasing risk. Every risk is at most 100, and patterns_detected equals the number of reasons. The ring count equals the sum of the breakdown, and the flagged count equals the list length. |
| Engine.DetectFraud | src/utils/fraudDetectionEngine.js:9-145 | The report counts every account that appears in the transactions, and its kingpin is the kingpin detector's result. |
| Engine.RingsNumbered | src/utils/fraudDetectionEngine.js:33-110 | Before sorting, ring i carries number i + 1. Cycles come first, then fan-in, fan-out and shell rings. |
| Engine.AssembledRingIds | src/utils/fraudDetectionEngine.js:33-121 | The reported rings carry the numbers 1 to n, once each. Each ring's number falls in the segment of its pattern type. |
| Engine.AssembledRingsFromFindings | src/utils/fraudDetectionEngine.js:33-110 | Every reported ring comes from a detector finding. A cycle ring has risk 90 plus its length. A fan ring lists the anchor, then the partners, and has risk 85. A shell ring is its chain, with risk 75. There are as many rings as findings. The ring numbered k is exactly the k-th finding, counting the cycles, then the fan-in patterns, the fan-out patterns and the shell chains, each in detector order. Every finding is reported as a ring. |
| Engine.DetectFraudCycleRings | src/utils/fraudDetectionEngine.js:30-42 | Each cycle ring of a report has three to five distinct accounts. Each account sends to the next and the last sends back to the first, and its risk is 90 plus its length. |
| Engine.AssembledAccounts | src/utils/fraudDetectionEngine.js:33-117 | An account is listed exactly when some rule flags it. Its risk is min(50·cycles + 30·anchored fans + 20·partnered fans + 20·shell intermediacies, 100). Its reasons are the flagging rules, once each, and patterns_detected counts them. |
| Engine.AssembledAccountsDistinct | src/utils/fraudDetectionEngine.js:112-121 | No account is listed twice. |
| Engine.FindDuplicateFree | src/utils/fraudDetectionEngine.js:33-110 | No single finding lists an account twice: cycle members, fan partners and shell intermediates are each duplicate-free. |
| Engine.SuspiciousAccountsSpec | src/utils/fraudDetectionEngine.js:9-145 | The AssembledAccounts statement, for the report of a transaction list. |
| Display.FraudRingMap | src/utils/fraudDetectionEngine.js:543-551 | An account is a key exactly when it is a member of some ring. Its list holds each of its rings' numbers, in ring order, once per listing. |
| Display.FormatDetectionResults | src/utils/fraudDetectionEngine.js:527-553 | The cards copy the summary counts. The high-risk card is the number of listed accounts scoring 80 or more. The table has one row per ring, with its number, pattern type, member count and risk. The ids follow the account list. A ring number is listed for an account exactly when the account belongs to a ring with that number. |
| Display.DashboardOfAssembled | src/utils/fraudDetectionEngine.js:527-553 | For an assembled report: the high-risk count is the number of listed accounts scoring 80 or more and at most the flagged count, the ids are distinct, and the map's keys are exactly the ring members. |
| Links.LinksFromEffect | src/utils/csvParser.js:48-61 | After the aggregation, each key has a link exactly when some transaction has that key. Its count and value are the number and total amount of those transactions, and its endpoints come from the first of them. |
| Links.LinksByCount | src/utils/csvParser.js:48-61 | The link counts add up to the number of transactions. |
| Links.StringKeyCollision | src/utils/csvParser.js:49-61 | With the string key, the transfers A->B→C and A→B->C merge into one link, and the pair (A, B->C) gets none. |
| Links.PairLinksSpec | src/utils/csvParser.js:48-61 | With the pair key: one link per distinct sender/receiver pair, and a link exists exactly when that pair transfers. Each link's count and value are the pair's number of transfers and total amount. The counts add up to the number of transactions. |
| GraphData.LastRing | src/utils/csvParser.js:74-93 | Identifies the last ring that lists an account, which is the one whose writes survive. |
| GraphData.MarksSpec | src/utils/csvParser.js:64-93 | An account is marked suspicious exactly when it is listed or belongs to a ring. Its ring and role come from the last ring listing it: a missing or empty role reads 'Mule'. With no ring it keeps 'Normal' and no ring. |
| GraphData.BaseRisk | src/utils/csvParser.js:97-110 | The pattern-independent score lies between 0 and 90. It is 0 exactly when the account has at most 20 transactions and at most 100 000 moved, and its sent amount lies between 0.2 and 5 times received + 1. |
| GraphData.NodeOf | src/utils/csvParser.js:96-133 | The display risk lies between 0 and 99. It is at least 85 for a suspicious mark and at least 95 for the kingpin. An account that is neither keeps its base risk. The kingpin is always suspicious. The amount is sent plus received. |
| GraphData.BuildGraphData | src/utils/csvParser.js:6-139 | There is one node per account, in first-appearance order. Each node carries the account's totals and transaction count, and the risk bounds and floors of NodeOf. The links are the pair-keyed links. |
| GraphData.NodeMarks | src/utils/csvParser.js:64-129 | A node is suspicious exactly when its account is listed, belongs to a ring, or is the kingpin. Its ring and role come from the last ring listing it. |

## Left out

- Logging (`console.log`) is left out, because it has no effect on results.
- IEEE-754 doubles are modelled as exact reals. Rounding of sums, ratios and
  the kingpin score is not modelled. `Math.round` of a display risk is the
  identity, because every display risk is an integer.
- The ring `details` strings and `time_window` texts (ISO dates from
  `Date`) are left out. They are presentation only.
- `RING_nnn` padding is left out. Ring ids are the naturals 1, 2, …, so the
  names sort and compare like their numbers.
- Display.FraudRingMap: the result is a map. The key order of the plain
  JavaScript object is not modelled. Neither are inherited keys such as
  `constructor`, for which the source's `!map[id]` test misbehaves.
- Cycles.DetectCycles: two cycles that are mirror images of each other are
  not proved to be reported once. The canonical key picks the smaller of the
  forward and backward joins of the rotation starting at the smallest
  account. The backward join of that rotation does not start at the same
  account as the mirror's canonical rotation, so dedup across direction is
  not guaranteed. Only rotations are proved distinct.
- GraphData.BuildGraphData: the `member_accounts || members` and
  `ring_id || id` fallbacks, the `Array.isArray` guards and the `|| {}`
  default for roles are not modelled. Inputs are typed sequences, a ring has
  one id and a string role map, and role lookup does not see prototype keys.
- GraphData.BuildGraphData uses the pair-keyed links, not the string-keyed
  links the code builds (see Findings).
- Engine.DetectFraud: `detectFraud` caps risk at 100, while
  `buildGraphData` caps it at 99. `detectFraud` does not add the kingpin to
  `suspicious_accounts`. Ring numbers run through cycles, then fan-in,
  fan-out and shell rings, before the sort by risk.
- JsStrings.Less compares account ids by Unicode code point, while
  JavaScript `<` compares UTF-16 code units. The two orders agree on ids made
  of characters from the Basic Multilingual Plane. They can disagree when one
  id holds a character above U+FFFF and another holds one in U+E000 to
  U+FFFF, which changes the account `Cycles.MinNode` picks and the cycle key
  `Cycles.NormalizeCycle` builds. Modelling ids as UTF-16 code-unit sequences
  would remove the gap, at the cost of an encoding layer the rest of the
  model does not need.

## Findings

| source | as written | input that shows it | evidently intended | confidence | as-written member | corrected member |
|---|---|---|---|---|---|---|
| src/utils/csvParser.js:49-61 | Links are keyed by the string `${sender}->${receiver}`, so two different account pairs can share a key. | Transfer A->B → C (1.0) and transfer A → B->C (1.0). Both keys are `A->B->C`, so one link A->B → C is produced with value 2 and count 2, and no link A → B->C. | One link per sender/receiver pair, aggregating that pair's transfers, as the code comment describes. | not executed | Links.StringKeyCollision | Links.PairLinksSpec |
