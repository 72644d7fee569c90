/** The suspicion ledger (fraudDetectionEngine.js `addSuspiciousAccount`): an
    insertion-ordered map from account to the reasons it was flagged for and
    its accumulated risk. Each call adds the reason once and the risk always. */
module Suspicion {
  import opened Seqs
  import opened Transactions

  /** The reason strings 'cycle', 'fan-in', 'fan-out' and 'shell'. */
  datatype Reason = CycleReason | FanInReason | FanOutReason | ShellReason

  datatype Entry = Entry(reasons: seq<Reason>, riskScore: int)

  const NoEntry := Entry([], 0)

  /** The JavaScript `Map`: keys in insertion order and their entries. */
  datatype Ledger = Ledger(order: seq<Id>, entries: map<Id, Entry>)

  const EmptyLedger := Ledger([], map[])

  /** The keys are listed once each, and no entry repeats a reason. */
  ghost predicate WellFormed(l: Ledger) {
    && Distinct(l.order)
    && (forall a :: a in l.entries <==> a in l.order)
    && (forall a :: a in l.entries ==> Distinct(l.entries[a].reasons))
  }

  function EntryOf(l: Ledger, a: Id): Entry {
    if a in l.entries then l.entries[a] else NoEntry
  }

  /** `addSuspiciousAccount(map, a, reason, delta)`. */
  function AddSuspicious(l: Ledger, a: Id, reason: Reason, delta: int): (r: Ledger)
    requires WellFormed(l)
    ensures WellFormed(r)
    ensures a in r.entries
    ensures r.entries[a].riskScore == EntryOf(l, a).riskScore + delta
    ensures reason in r.entries[a].reasons
    ensures forall x :: x in r.entries[a].reasons <==> x in EntryOf(l, a).reasons || x == reason
    ensures r.order == (if a in l.entries then l.order else l.order + [a])
    ensures forall b :: b != a ==> EntryOf(r, b) == EntryOf(l, b) && (b in r.entries <==> b in l.entries)
  {
    var e := EntryOf(l, a);
    var reasons := if reason in e.reasons then e.reasons else e.reasons + [reason];
    var order := if a in l.entries then l.order else l.order + [a];
    Ledger(order, l.entries[a := Entry(reasons, e.riskScore + delta)])
  }

  /** One call of `addSuspiciousAccount`. */
  datatype Contribution = Contribution(account: Id, reason: Reason, delta: int)

  /** The calls in order, starting from `l`. */
  function Accumulate(l: Ledger, cs: seq<Contribution>): (r: Ledger)
    requires WellFormed(l)
    ensures WellFormed(r)
    decreases |cs|
  {
    if |cs| == 0 then l
    else Accumulate(AddSuspicious(l, cs[0].account, cs[0].reason, cs[0].delta), cs[1..])
  }

  // ---- Reference view of a list of calls ----

  /** The sum of the deltas added to `a`. */
  function DeltaSum(cs: seq<Contribution>, a: Id): int {
    if |cs| == 0 then 0
    else (if cs[0].account == a then cs[0].delta else 0) + DeltaSum(cs[1..], a)
  }

  /** The reasons given for `a`. */
  function ReasonsFor(cs: seq<Contribution>, a: Id): set<Reason> {
    if |cs| == 0 then {}
    else (if cs[0].account == a then {cs[0].reason} else {}) + ReasonsFor(cs[1..], a)
  }

  /** The accounts of the calls, in call order. */
  function AccountsOf(cs: seq<Contribution>): seq<Id> {
    Map(cs, (c: Contribution) => c.account)
  }

  /** After a sequence of calls every account holds its previous risk plus
      the sum of its deltas. */
  lemma {:induction false} AccumulateScore(l: Ledger, cs: seq<Contribution>, a: Id)
    requires WellFormed(l)
    ensures EntryOf(Accumulate(l, cs), a).riskScore == EntryOf(l, a).riskScore + DeltaSum(cs, a)
    decreases |cs|
  {
    if |cs| > 0 {
      AccumulateScore(AddSuspicious(l, cs[0].account, cs[0].reason, cs[0].delta), cs[1..], a);
    }
  }

  /** One call adds its reason to its own account's reasons and leaves the
      other accounts' reasons alone. */
  lemma AddSuspiciousReasons(l: Ledger, c: Contribution, a: Id)
    requires WellFormed(l)
    ensures Elements(EntryOf(AddSuspicious(l, c.account, c.reason, c.delta), a).reasons)
      == Elements(EntryOf(l, a).reasons) + (if c.account == a then {c.reason} else {})
  {
    var l1 := AddSuspicious(l, c.account, c.reason, c.delta);
    if c.account != a {
      assert EntryOf(l1, a) == EntryOf(l, a);
    }
  }

  /** After a sequence of calls every account holds its previous reasons and
      every reason given for it. */
  lemma {:induction false} AccumulateReasons(l: Ledger, cs: seq<Contribution>, a: Id)
    requires WellFormed(l)
    ensures Elements(EntryOf(Accumulate(l, cs), a).reasons) == Elements(EntryOf(l, a).reasons) + ReasonsFor(cs, a)
    decreases |cs|
  {
    if |cs| > 0 {
      var c := cs[0];
      var l1 := AddSuspicious(l, c.account, c.reason, c.delta);
      var here := if c.account == a then {c.reason} else {};
      assert Elements(EntryOf(l1, a).reasons) == Elements(EntryOf(l, a).reasons) + here by {
        AddSuspiciousReasons(l, c, a);
      }
      assert Elements(EntryOf(Accumulate(l, cs), a).reasons)
          == Elements(EntryOf(l1, a).reasons) + ReasonsFor(cs[1..], a) by {
        assert Accumulate(l, cs) == Accumulate(l1, cs[1..]);
        AccumulateReasons(l1, cs[1..], a);
      }
      assert ReasonsFor(cs, a) == here + ReasonsFor(cs[1..], a);
    }
  }

  lemma AccountsOfCons(cs: seq<Contribution>)
    requires |cs| > 0
    ensures AccountsOf(cs) == [cs[0].account] + AccountsOf(cs[1..])
  {
    assert AccountsOf(cs)[1..] == AccountsOf(cs[1..]);
  }

  /** One call appends its account to the key order when it is new, which is
      the first step of de-duplicating the accounts called. */
  lemma AddSuspiciousOrder(l: Ledger, c: Contribution, rest: seq<Id>)
    requires WellFormed(l)
    ensures DedupFrom(l.order, [c.account] + rest)
      == DedupFrom(AddSuspicious(l, c.account, c.reason, c.delta).order, rest)
  {
    assert ([c.account] + rest)[0] == c.account;
    assert ([c.account] + rest)[1..] == rest;
  }

  /** The keys end up as the previous keys followed by the new accounts in
      order of first call. */
  lemma {:induction false} AccumulateOrder(l: Ledger, cs: seq<Contribution>)
    requires WellFormed(l)
    ensures Accumulate(l, cs).order == DedupFrom(l.order, AccountsOf(cs))
    decreases |cs|
  {
    if |cs| > 0 {
      var c := cs[0];
      var l1 := AddSuspicious(l, c.account, c.reason, c.delta);
      assert Accumulate(l, cs) == Accumulate(l1, cs[1..]);
      AccumulateOrder(l1, cs[1..]);
      AccountsOfCons(cs);
      AddSuspiciousOrder(l, c, AccountsOf(cs[1..]));
    }
  }

  /** An account has an entry exactly when some call was about it. */
  lemma AccumulateKeys(cs: seq<Contribution>, a: Id)
    ensures a in Accumulate(EmptyLedger, cs).entries <==> exists i :: 0 <= i < |cs| && cs[i].account == a
  {
    AccumulateOrder(EmptyLedger, cs);
    MapMembership(cs, (c: Contribution) => c.account, a);
    if exists i :: 0 <= i < |cs| && cs[i].account == a {
      var i :| 0 <= i < |cs| && cs[i].account == a;
      assert cs[i] in cs;
    }
  }

  /** Some reason is given for `a` exactly when some call is about `a`. */
  lemma ReasonsForNonEmpty(cs: seq<Contribution>, a: Id)
    ensures ReasonsFor(cs, a) != {} <==> exists i :: 0 <= i < |cs| && cs[i].account == a
  {
    if exists i :: 0 <= i < |cs| && cs[i].account == a {
      var i :| 0 <= i < |cs| && cs[i].account == a;
      ReasonsForMembership(cs, a, cs[i].reason);
    }
    if ReasonsFor(cs, a) != {} {
      var x :| x in ReasonsFor(cs, a);
      ReasonsForMembership(cs, a, x);
    }
  }

  /** Starting from the empty map: `a` has an entry exactly when some reason
      was given for it. */
  lemma AccumulateFreshKeys(cs: seq<Contribution>, a: Id)
    ensures a in Accumulate(EmptyLedger, cs).entries <==> ReasonsFor(cs, a) != {}
  {
    AccumulateKeys(cs, a);
    ReasonsForNonEmpty(cs, a);
  }

  /** Starting from the empty map, the entry of `a` holds the sum of its
      deltas and each of its reasons once. */
  lemma AccumulateFresh(cs: seq<Contribution>, a: Id)
    ensures EntryOf(Accumulate(EmptyLedger, cs), a).riskScore == DeltaSum(cs, a)
    ensures Distinct(EntryOf(Accumulate(EmptyLedger, cs), a).reasons)
    ensures Elements(EntryOf(Accumulate(EmptyLedger, cs), a).reasons) == ReasonsFor(cs, a)
  {
    var l := Accumulate(EmptyLedger, cs);
    assert Distinct(EntryOf(l, a).reasons) by {
      assert a in l.entries ==> Distinct(l.entries[a].reasons);
    }
    assert EntryOf(l, a).riskScore == DeltaSum(cs, a) by {
      AccumulateScore(EmptyLedger, cs, a);
    }
    assert Elements(EntryOf(l, a).reasons) == ReasonsFor(cs, a) by {
      AccumulateReasons(EmptyLedger, cs, a);
      assert Elements(EntryOf(EmptyLedger, a).reasons) == {};
    }
  }

  /** Deltas add up across a concatenation of call lists. */
  lemma {:induction false} DeltaSumAppend(xs: seq<Contribution>, ys: seq<Contribution>, a: Id)
    ensures DeltaSum(xs + ys, a) == DeltaSum(xs, a) + DeltaSum(ys, a)
    decreases |xs|
  {
    if |xs| > 0 {
      assert (xs + ys)[1..] == xs[1..] + ys;
      DeltaSumAppend(xs[1..], ys, a);
    } else {
      assert xs + ys == ys;
    }
  }

  /** Reasons unite across a concatenation of call lists. */
  lemma {:induction false} ReasonsForAppend(xs: seq<Contribution>, ys: seq<Contribution>, a: Id)
    ensures ReasonsFor(xs + ys, a) == ReasonsFor(xs, a) + ReasonsFor(ys, a)
    decreases |xs|
  {
    if |xs| > 0 {
      assert (xs + ys)[1..] == xs[1..] + ys;
      ReasonsForAppend(xs[1..], ys, a);
    } else {
      assert xs + ys == ys;
    }
  }

  /** A reason is given for `a` exactly when some call gives it. */
  lemma {:induction false} ReasonsForMembership(cs: seq<Contribution>, a: Id, x: Reason)
    ensures x in ReasonsFor(cs, a) <==> exists i :: 0 <= i < |cs| && cs[i].account == a && cs[i].reason == x
    decreases |cs|
  {
    if |cs| > 0 {
      ReasonsForMembership(cs[1..], a, x);
      if exists i :: 0 <= i < |cs| && cs[i].account == a && cs[i].reason == x {
        var i :| 0 <= i < |cs| && cs[i].account == a && cs[i].reason == x;
        if i > 0 {
          assert cs[1..][i - 1] == cs[i];
        }
      }
      if exists i :: 0 <= i < |cs[1..]| && cs[1..][i].account == a && cs[1..][i].reason == x {
        var i :| 0 <= i < |cs[1..]| && cs[1..][i].account == a && cs[1..][i].reason == x;
        assert cs[i + 1] == cs[1..][i];
      }
    }
  }
}
