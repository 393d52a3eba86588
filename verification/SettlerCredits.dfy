/** When exactly an excess reaches a balance: by a guard on the ledger before a settlement, after a
    reorg, and over whole runs. */
module SettlerCredits {
  import opened Sets
  import opened Wrappers
  import opened SettlerMoney
  import opened SettlerLedger
  import opened SettlerSafety
  import opened SettlerLaws

  /** What would be classified if invoice `i` were settled now. */
  function CountedTotal(l: Ledger, i: nat): int
    requires i in l.invoices
  {
    Total(l.payments, i, l.invoices[i].bill, Deep(CutoffOf(l, i)))
  }

  /** The amount counted exceeds the bill, and by no more than the tolerance. */
  predicate ExcessIsKept(policy: MoneyPolicy, bill: Bill, total: int) {
    bill.due < total <= bill.due + OverpayTolerance(policy, bill.due, bill.decimals, bill.rate)
  }

  /** The guard of the crediting branch, read off the ledger before the settlement. */
  predicate KeepsExcess(l: Ledger, i: nat, policy: MoneyPolicy, authentic: (nat, Bill) -> bool) {
    Decidable(l, i, authentic) && ExcessIsKept(policy, l.invoices[i].bill, CountedTotal(l, i))
  }

  // ---- One settlement --------------------------------------------------------------------

  lemma EnqueuedRows(outbox: seq<Notice>, n: Notice, j: nat)
    ensures CreditRows(Enqueued(outbox, n), j)
         == CreditRows(outbox, j)
            + if n.kind == OverpaidCreditedNotice && n.ref == j && !HasKey(outbox, n.kind, n.ref, n.dedup) then 1 else 0
  {
    CreditRowsAppend(outbox, n, j);
  }

  /** A grant adds a credit row exactly when it keeps the excess. */
  lemma GrantAddsRow(balances: map<nat, real>, outbox: seq<Notice>, i: nat, user: nat, grant: nat, d: Decision,
                     credit: Credit, j: nat)
    requires BalancesMatch(balances, outbox, grant)
    ensures CreditRows(GrantNotices(outbox, i, user, grant, d, credit), j)
         == CreditRows(outbox, j) + if d.outcome == OverpaidCredited && i == j then 1 else 0
  {
    var first := Notice(user, InvoiceSettled, i, Grant(grant), NoCredit);
    var sent := Enqueued(outbox, first);
    EnqueuedOther(balances, outbox, grant, first);
    NewGrantIsFree(balances, sent, i, grant);
    hide BalancesMatch, HasKey, Enqueued;
    EnqueuedRows(outbox, first, j);
    EnqueuedRows(sent, Notice(user, OverpaidCreditedNotice, i, Grant(grant), credit), j);
    EnqueuedRows(sent, Notice(user, RefundPending, i, Grant(grant), NoCredit), j);
  }

  lemma KeptIsCovered(policy: MoneyPolicy, bill: Bill, total: int, now: int)
    ensures Judge(policy, bill, total, now).outcome == OverpaidCredited <==> ExcessIsKept(policy, bill, total)
    ensures ExcessIsKept(policy, bill, total) ==> Covers(policy, bill, total)
  {
    hide OverpayTolerance, UnderpayTolerance;
  }

  /** Without a grant no credit row is written. */
  lemma NoGrantNoRow(l: Ledger, i: nat, now: int, policy: MoneyPolicy, authentic: (nat, Bill) -> bool, j: nat)
    requires SettleInvoice(l, i, now, policy, authentic).grant.None?
    ensures CreditRows(SettleInvoice(l, i, now, policy, authentic).ledger.outbox, j) == CreditRows(l.outbox, j)
  {
    hide Total, CutoffFor, AnomaliesReviewed, Promoted, Classify, CreditRows, Enqueued, GrantNotices;
    if i in l.invoices {
      var bill, p, cutoff := l.invoices[i].bill, Prepared(l, i), CutoffOf(l, i);
      var d := Judge(policy, bill, Total(p.payments, i, bill, Creditable(cutoff)), now);
      EnqueuedRows(l.outbox, Notice(bill.user, InvoiceUnderpaid, i, Amount(d.total), NoCredit), j);
      EnqueuedRows(l.outbox, Notice(bill.user, InvoiceManualReview, i, Amount(d.total), NoCredit), j);
    }
  }

  lemma GrantRow(l: Ledger, i: nat, now: int, policy: MoneyPolicy, authentic: (nat, Bill) -> bool, j: nat)
    requires Inv(policy, l) && SettleInvoice(l, i, now, policy, authentic).grant.Some?
    ensures CreditRows(SettleInvoice(l, i, now, policy, authentic).ledger.outbox, j)
         == CreditRows(l.outbox, j) + if i == j && KeepsExcess(l, i, policy, authentic) then 1 else 0
  {
    hide Total, CutoffFor, AnomaliesReviewed, GrantNotices, CreditedPayments, Promoted, SettleInvoice, HasKey, UsdOf,
         UnderpayTolerance, OverpayTolerance, CreditRows, Classify, ExcessIsKept;
    GrantIsApplied(l, i, now, policy, authentic);
    var bill, cutoff, p := l.invoices[i].bill, CutoffOf(l, i), Prepared(l, i);
    PromotedTotal(l.payments, i, bill, cutoff);
    var d := Judge(policy, bill, Total(p.payments, i, bill, Creditable(cutoff)), now);
    KeptIsCovered(policy, bill, CountedTotal(l, i), now);
    GrantAddsRow(l.balances, l.outbox, i, bill.user, |l.entitlements|, d, Credit(d.Excess(), bill.decimals, bill.rate),
                 j);
  }

  /** An excess is credited exactly when the invoice may be decided and the payments at or below the
      cutoff exceed the bill by no more than the tolerance. What the outbox already says about the
      invoice is not part of the condition. */
  lemma CreditsExactlyWhen(l: Ledger, i: nat, now: int, policy: MoneyPolicy, authentic: (nat, Bill) -> bool, j: nat)
    requires Inv(policy, l)
    ensures CreditRows(SettleInvoice(l, i, now, policy, authentic).ledger.outbox, j)
         == CreditRows(l.outbox, j) + if i == j && KeepsExcess(l, i, policy, authentic) then 1 else 0
  {
    hide SettleInvoice, CreditRows, Inv, Covers, ExcessIsKept, Total, CutoffOf;
    if SettleInvoice(l, i, now, policy, authentic).grant.Some? {
      GrantRow(l, i, now, policy, authentic, j);
    } else {
      NoGrantNoRow(l, i, now, policy, authentic, j);
      GrantsExactlyWhen(l, i, now, policy, authentic);
      if KeepsExcess(l, i, policy, authentic) {
        KeptIsCovered(policy, l.invoices[i].bill, CountedTotal(l, i), now);
      }
    }
  }

  /** A settlement credits an excess a second time exactly when one was credited before and the guard
      holds again. */
  lemma CreditsAgainExactlyWhen(l: Ledger, i: nat, now: int, policy: MoneyPolicy, authentic: (nat, Bill) -> bool)
    requires Inv(policy, l)
    ensures var rows := CreditRows(SettleInvoice(l, i, now, policy, authentic).ledger.outbox, i);
            (rows > CreditRows(l.outbox, i) && rows >= 2)
            <==> CreditRows(l.outbox, i) > 0 && KeepsExcess(l, i, policy, authentic)
  {
    hide SettleInvoice, CreditRows, Inv, KeepsExcess;
    CreditsExactlyWhen(l, i, now, policy, authentic, i);
  }

  // ---- A reorg in between ----------------------------------------------------------------

  lemma ReorgCreditsNothing(l: Ledger, chain: nat, now: int, j: nat)
    ensures CreditRows(HandleReorg(l, chain, now).outbox, j) == CreditRows(l.outbox, j)
  {
    hide CreditRows, RevokeNotices, Revoked, Unsettled, RevertedPayments, TouchedInvoices;
    RevokingCreditsNothing(l.outbox, l.entitlements, TouchedInvoices(l.payments, l.blocks, chain, |l.payments|),
                           |l.entitlements|, j);
  }

  lemma {:induction false} RevokingCreditsNothing(outbox: seq<Notice>, ents: seq<Entitlement>, ids: seq<nat>, n: nat,
                                                  j: nat)
    requires n <= |ents|
    ensures CreditRows(RevokeNotices(outbox, ents, ids, n), j) == CreditRows(outbox, j)
  {
    hide CreditRows, Enqueued;
    if n > 0 {
      RevokingCreditsNothing(outbox, ents, ids, n - 1, j);
      EnqueuedRows(RevokeNotices(outbox, ents, ids, n - 1),
                   Notice(ents[n - 1].user, EntitlementRevoked, ents[n - 1].invoice, Grant(n - 1), NoCredit), j);
    }
  }

  /** Some arrived payment of the invoice lies at a height the reorg emptied. */
  ghost predicate LosesPayment(l: Ledger, chain: nat, i: nat) {
    exists k | 0 <= k < |l.payments| :: Reverts(l.payments[k], l.blocks, chain) && l.payments[k].invoice == Some(i)
  }

  /** A settled invoice is credited after a reorg exactly when it loses some payment to the reorg while
      its window is open, its MAC still verifies, and what is left exceeds the bill within tolerance;
      and that is a second credit exactly when it had been credited before. */
  lemma ReorgThenSettleCredits(l: Ledger, i: nat, chain: nat, at: int, now: int, policy: MoneyPolicy,
                               authentic: (nat, Bill) -> bool)
    requires Inv(policy, l) && i in l.invoices && Settled(l.invoices[i].status)
    ensures i in HandleReorg(l, chain, at).invoices
    ensures var after, bill := HandleReorg(l, chain, at), l.invoices[i].bill;
            var before, rows := CreditRows(l.outbox, i),
                                CreditRows(SettleInvoice(after, i, now, policy, authentic).ledger.outbox, i);
            var kept := && LosesPayment(l, chain, i) && at < bill.topupUntil
                        && bill.assetChain == bill.chain && authentic(i, bill)
                        && ExcessIsKept(policy, bill, CountedTotal(after, i));
            && (rows > before <==> kept)
            && (rows > before && rows >= 2 <==> kept && before > 0)
  {
    var after := HandleReorg(l, chain, at);
    ReorgKeeps(policy, l, chain, at);
    ReorgCreditsNothing(l, chain, at, i);
    TouchedAre(l.payments, l.blocks, chain, |l.payments|);
    hide SettleInvoice, CreditRows, Inv, ExcessIsKept, CountedTotal, RevertedPayments, Revoked, RevokeNotices,
         TouchedInvoices, Reverts;
    CreditsExactlyWhen(after, i, now, policy, authentic, i);
  }

  // ---- Runs ------------------------------------------------------------------------------

  lemma {:induction false} SweepsCreditNothing(l: Ledger, ids: seq<nat>, now: int, j: nat)
    ensures CreditRows(SweepExpired(l, ids, now).outbox, j) == CreditRows(l.outbox, j)
    ensures CreditRows(ExpireStale(l, ids, now).outbox, j) == CreditRows(l.outbox, j)
  {
    hide CreditRows, Enqueued, HasMoney, HasPayments, ReviewOpened;
    if |ids| > 0 {
      SweepsCreditNothing(l, ids[..|ids| - 1], now, j);
      var before, i := ExpireStale(l, ids[..|ids| - 1], now), ids[|ids| - 1];
      if i in before.invoices {
        EnqueuedRows(before.outbox, Notice(before.invoices[i].bill.user, InvoiceExpired, i, RateLock, NoCredit), j);
      }
    }
  }

  /** This step settles invoice `j` while the guard holds. */
  predicate KeepsAt(policy: MoneyPolicy, authentic: (nat, Bill) -> bool, l: Ledger, step: Step, j: nat) {
    step.Settle? && step.invoice == j && KeepsExcess(l, j, policy, authentic)
  }

  lemma NextCredits(policy: MoneyPolicy, authentic: (nat, Bill) -> bool, l: Ledger, step: Step, j: nat)
    requires Inv(policy, l)
    ensures CreditRows(Next(policy, authentic, l, step).outbox, j)
         == CreditRows(l.outbox, j) + if KeepsAt(policy, authentic, l, step, j) then 1 else 0
  {
    hide SettleInvoice, HandleReorg, SweepExpired, ExpireStale, CreditRows, Inv, KeepsExcess, WithStatus;
    match step
    case Settle(i, now) => CreditsExactlyWhen(l, i, now, policy, authentic, j);
    case Reorg(chain, now) => ReorgCreditsNothing(l, chain, now, j);
    case Sweep(ids, now) => SweepsCreditNothing(l, ids, now, j);
    case Expire(ids, now) => SweepsCreditNothing(l, ids, now, j);
    case _ =>
  }

  /** The steps of a run that settle invoice `j` while the guard holds. */
  function KeepingSteps(policy: MoneyPolicy, authentic: (nat, Bill) -> bool, steps: seq<Step>, j: nat): set<nat> {
    set n: nat | n < |steps| && KeepsAt(policy, authentic, Run(policy, authentic, steps[..n]), steps[n], j)
  }

  lemma KeepingStepsAppend(policy: MoneyPolicy, authentic: (nat, Bill) -> bool, steps: seq<Step>, j: nat)
    requires |steps| > 0
    ensures var last := |steps| - 1;
            && last !in KeepingSteps(policy, authentic, steps[..last], j)
            && KeepingSteps(policy, authentic, steps, j)
                 == KeepingSteps(policy, authentic, steps[..last], j)
                    + if KeepsAt(policy, authentic, Run(policy, authentic, steps[..last]), steps[last], j) then {last} else {}
  {
    hide Run, KeepsAt;
    var last := |steps| - 1;
    assert forall n: nat | n < last :: steps[..last][..n] == steps[..n];
  }

  /** Over a whole run: the excess of an invoice has been credited exactly once for every settlement
      that met the guard. */
  lemma {:induction false} RunCredits(policy: MoneyPolicy, authentic: (nat, Bill) -> bool, steps: seq<Step>, j: nat)
    ensures CreditRows(Run(policy, authentic, steps).outbox, j) == |KeepingSteps(policy, authentic, steps, j)|
  {
    hide Next, Inv, KeepingSteps, KeepsAt;
    if |steps| == 0 {
      NothingKept(policy, authentic, j);
      assert steps == [];
    } else {
      var last := |steps| - 1;
      RunCredits(policy, authentic, steps[..last], j);
      RunKeeps(policy, authentic, steps[..last]);
      NextCredits(policy, authentic, Run(policy, authentic, steps[..last]), steps[last], j);
      KeepingStepsAppend(policy, authentic, steps, j);
      hide CreditRows;
    }
  }

  lemma NothingKept(policy: MoneyPolicy, authentic: (nat, Bill) -> bool, j: nat)
    ensures KeepingSteps(policy, authentic, [], j) == {}
  {
  }

  /** The excess of an invoice was credited more than once exactly when two settlements of the run
      met the guard. */
  lemma RunCreditsTwice(policy: MoneyPolicy, authentic: (nat, Bill) -> bool, steps: seq<Step>, j: nat)
    ensures var keeping := KeepingSteps(policy, authentic, steps, j);
            CreditRows(Run(policy, authentic, steps).outbox, j) >= 2 <==>
              exists m: nat, n: nat :: m < n && m in keeping && n in keeping
  {
    hide Run, KeepingSteps, CreditRows;
    RunCredits(policy, authentic, steps, j);
    TwoMembers(KeepingSteps(policy, authentic, steps, j));
  }

  lemma TwoMembers(s: set<nat>)
    ensures |s| >= 2 <==> exists m: nat, n: nat :: m < n && m in s && n in s
  {
    if s != {} {
      var m := Pick(s);
      var rest := s - {m};
      assert s == rest + {m} && |s| == |rest| + 1;
      if rest != {} {
        var n := Pick(rest);
        assert m in s && n in s && m != n;
        assert m < n || n < m;
      } else {
        assert s == {m};
      }
    }
  }
}
